/**
 * `CalculateExamOverview`: the numbers of distinct students, topics and
 * questions, the distinct subjects and courses, and the distinct question
 * levels sorted by their place in the Bloom taxonomy.
 */
module ExamOverview {
  import opened Frames
  import opened Wrappers
  import opened ExamFrame
  import opened BloomLevels

  datatype OverviewData = OverviewData(
    studentsCount: nat,
    subjects: seq<int>,
    courses: seq<string>,
    topicsCount: nat,
    questionsCount: nat,
    questionsLevels: seq<string>)

  /**
   * `exam_overview_data`; fails with the first distinct level (in the order
   * `unique()` gave) that is not in the taxonomy.
   */
  function CalculateOverview(df: seq<Row>): (r: Result<OverviewData, ReportError>)
    ensures r.Failure? ==> r.error.LevelNotInOrder? && r.error.level in KeySet(df, QuestionLevel) && r.error.level !in LevelOrder
    ensures r.Success? ==>
      && Ranked(LevelOrder, r.value.questionsLevels)
      && multiset(r.value.questionsLevels) == multiset(Distinct(df, QuestionLevel))
  {
    match SortByLevel(Distinct(df, QuestionLevel))
    case Failure(e) => Failure(e)
    case Success(levels) =>
      Success(OverviewData(
        NUnique(df, UserId),
        Distinct(df, SubjectId),
        Distinct(df, CourseAbbreviation),
        NUnique(df, TopicId),
        NUnique(df, QuestionId),
        levels))
  }

  lemma DistinctLevelsKnown(df: seq<Row>)
    ensures AllKnown(LevelOrder, Distinct(df, QuestionLevel)) <==> forall i :: 0 <= i < |df| ==> df[i].questionLevel in LevelOrder
  {
    var ls := Distinct(df, QuestionLevel);
    if AllKnown(LevelOrder, ls) {
      forall i | 0 <= i < |df| ensures df[i].questionLevel in LevelOrder {
        assert QuestionLevel(df[i]) in KeySet(df, QuestionLevel);
        var j :| 0 <= j < |ls| && ls[j] == df[i].questionLevel;
      }
    }
    if forall i :: 0 <= i < |df| ==> df[i].questionLevel in LevelOrder {
      forall j | 0 <= j < |ls| ensures ls[j] in LevelOrder {
        assert ls[j] in KeySet(df, QuestionLevel);
      }
    }
  }

  /**
   * The overview is computed exactly when every row's level is in the
   * taxonomy; otherwise the error names the level of some row that is not.
   */
  lemma OverviewFailsOnUnknownLevel(df: seq<Row>)
    ensures CalculateOverview(df).Success? <==> forall i :: 0 <= i < |df| ==> df[i].questionLevel in LevelOrder
    ensures CalculateOverview(df).Failure? ==> CalculateOverview(df).error.LevelNotInOrder?
    ensures CalculateOverview(df).Failure? && CalculateOverview(df).error.LevelNotInOrder? ==>
      var l := CalculateOverview(df).error.level;
      l !in LevelOrder && exists i :: 0 <= i < |df| && df[i].questionLevel == l
  {
    DistinctLevelsKnown(df);
    var ls := Distinct(df, QuestionLevel);
    var r := SortByLevel(ls);
    if r.Failure? {
      var j :| 0 <= j < |ls| && ls[j] == r.error.level && ls[j] !in LevelOrder && AllKnown(LevelOrder, ls[..j]);
      assert ls[j] in KeySet(df, QuestionLevel);
    }
  }

  /**
   * The sorted levels are each level present in the frame once, in taxonomy
   * order: remember, understand, apply, analyze, evaluate, create.
   */
  lemma OverviewLevelsInTaxonomyOrder(df: seq<Row>)
    requires CalculateOverview(df).Success?
    ensures CalculateOverview(df).value.questionsLevels == InLevelOrder(KeySet(df, QuestionLevel))
  {
    var ls := Distinct(df, QuestionLevel);
    assert AllKnown(LevelOrder, ls);
    DistinctElements(df, QuestionLevel);
    SortByLevelIsTaxonomyOrder(ls);
  }

  /**
   * The counts are the numbers of distinct students, topics and questions;
   * each is at most the number of rows and is 0 only for an empty frame. The
   * subjects and courses are listed once each, and all of them.
   */
  lemma OverviewCounts(df: seq<Row>)
    requires CalculateOverview(df).Success?
    ensures var o := CalculateOverview(df).value;
      && o.studentsCount == |KeySet(df, UserId)|
      && o.topicsCount == |KeySet(df, TopicId)|
      && o.questionsCount == |KeySet(df, QuestionId)|
      && o.studentsCount <= |df| && o.topicsCount <= |df| && o.questionsCount <= |df|
      && (o.studentsCount == 0 <==> |df| == 0)
      && (o.topicsCount == 0 <==> |df| == 0)
      && (o.questionsCount == 0 <==> |df| == 0)
      && NoDuplicates(o.subjects) && (forall s :: s in o.subjects <==> s in KeySet(df, SubjectId))
      && NoDuplicates(o.courses) && (forall c :: c in o.courses <==> c in KeySet(df, CourseAbbreviation))
  {
    NUniqueBounds(df, UserId);
    NUniqueBounds(df, TopicId);
    NUniqueBounds(df, QuestionId);
    var o := CalculateOverview(df).value;
    forall s | s in o.subjects ensures s in KeySet(df, SubjectId) {
      var j :| 0 <= j < |o.subjects| && o.subjects[j] == s;
    }
    forall c | c in o.courses ensures c in KeySet(df, CourseAbbreviation) {
      var j :| 0 <= j < |o.courses| && o.courses[j] == c;
    }
  }
}
