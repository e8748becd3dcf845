/**
 * The integer and count parts of `CalculateExamDescriptiveStatistics`: the
 * minimum, maximum and range of the per-student total scores, and per
 * question level and per subject the number of distinct questions, the summed
 * scores and the (unevaluated) ratio of the two.
 */
module DescriptiveStatistics {
  import opened Frames
  import opened Wrappers
  import opened ExamFrame
  import opened ExamHistogram

  /** `exam_summary_data` without the floating-point mean, median, deviation and mode. */
  datatype ExamSummary = ExamSummary(min: int, max: int, range: int)

  /** The statistics of one group of rows. */
  datatype GroupStats = GroupStats(
    questionCount: nat,
    aggregatedStudentsScore: int,
    aggregatedMaxScore: int,
    overallRatio: Fraction,
    overallPercentage: Fraction)

  datatype SubjectStats = SubjectStats(subjectName: string, stats: GroupStats)

  datatype DescriptiveData = DescriptiveData(
    examSummaryData: ExamSummary,
    questionLevelsSummaryData: map<string, GroupStats>,
    subjectsMinMaxData: map<int, SubjectStats>)

  function MinOf(xs: seq<int>): (m: int)
    requires |xs| > 0
    ensures (exists i :: 0 <= i < |xs| && xs[i] == m) && forall i :: 0 <= i < |xs| ==> m <= xs[i]
    decreases |xs|
  {
    if |xs| == 1 then xs[0]
    else
      var m := MinOf(xs[..|xs| - 1]);
      assert forall i :: 0 <= i < |xs| - 1 ==> xs[..|xs| - 1][i] == xs[i];
      if xs[|xs| - 1] < m then xs[|xs| - 1] else m
  }

  function MaxOf(xs: seq<int>): (m: int)
    requires |xs| > 0
    ensures (exists i :: 0 <= i < |xs| && xs[i] == m) && forall i :: 0 <= i < |xs| ==> xs[i] <= m
    decreases |xs|
  {
    if |xs| == 1 then xs[0]
    else
      var m := MaxOf(xs[..|xs| - 1]);
      assert forall i :: 0 <= i < |xs| - 1 ==> xs[..|xs| - 1][i] == xs[i];
      if xs[|xs| - 1] > m then xs[|xs| - 1] else m
  }

  /**
   * Row 0 of the summary of the per-student total scores: `min`, `max` and
   * `max - min`. A frame without students has a summary without rows (the
   * `mode` column is empty), so taking row 0 raises.
   */
  function Summary(df: seq<Row>): (r: Result<ExamSummary, ReportError>)
    ensures r.Failure? <==> |df| == 0
    ensures r.Success? ==> r.value.min <= r.value.max && r.value.range == r.value.max - r.value.min
  {
    var us := Distinct(df, UserId);
    UsersPresent(df, us);
    Extremes(Totals(HistogramBoxplot(df), us))
  }

  /** Row 0 of the `min`, `max` and `max - min` of a column; there is none for an empty column. */
  function Extremes(xs: seq<int>): (r: Result<ExamSummary, ReportError>)
    ensures r.Failure? <==> |xs| == 0
    ensures r.Success? ==> r.value.min <= r.value.max && r.value.range == r.value.max - r.value.min
  {
    if |xs| == 0 then Failure(NoSummaryRow)
    else
      var lo := MinOf(xs);
      var hi := MaxOf(xs);
      Success(ExamSummary(lo, hi, hi - lo))
  }

  /**
   * The summary fails exactly for an empty frame, with `NoSummaryRow`;
   * otherwise its minimum and maximum are the total scores of some students,
   * every student's total lies between them, and the range is their
   * difference.
   */
  lemma SummaryMeaning(df: seq<Row>)
    ensures Summary(df).Failure? <==> |df| == 0
    ensures Summary(df).Failure? ==> Summary(df).error == NoSummaryRow
    ensures var s := Summary(df); s.Success? ==>
      (exists u :: u in KeySet(df, UserId) && SumWhere(df, UserId, u, PointsObtained) == s.value.min)
      && (exists u :: u in KeySet(df, UserId) && SumWhere(df, UserId, u, PointsObtained) == s.value.max)
      && (forall u :: u in KeySet(df, UserId) ==>
            s.value.min <= SumWhere(df, UserId, u, PointsObtained) <= s.value.max)
      && s.value.range == s.value.max - s.value.min
  {
    UsersPresent(df, Distinct(df, UserId));
    if |df| > 0 {
      SummaryBounds(df);
    }
  }

  /** The total scores of the users listed in `us`, in that order. */
  function Totals(h: map<int, UserScore>, us: seq<int>): (t: seq<int>)
    requires forall i :: 0 <= i < |us| ==> us[i] in h
    ensures |t| == |us| && forall i :: 0 <= i < |us| ==> t[i] == h[us[i]].totalScore
  {
    seq(|us|, i requires 0 <= i < |us| => h[us[i]].totalScore)
  }

  lemma UsersPresent(df: seq<Row>, us: seq<int>)
    requires us == Distinct(df, UserId)
    ensures |us| == 0 <==> |df| == 0
  {
    NUniqueBounds(df, UserId);
    if |us| == 0 {
      assert KeySet(df, UserId) == {};
    } else {
      assert us[0] in KeySet(df, UserId);
    }
  }

  lemma SummaryBounds(df: seq<Row>)
    requires |df| > 0
    ensures Summary(df).Success?
    ensures var s := Summary(df).value;
      && (exists u :: u in KeySet(df, UserId) && SumWhere(df, UserId, u, PointsObtained) == s.min)
      && (exists u :: u in KeySet(df, UserId) && SumWhere(df, UserId, u, PointsObtained) == s.max)
      && (forall u :: u in KeySet(df, UserId) ==> s.min <= SumWhere(df, UserId, u, PointsObtained) <= s.max)
      && s.range == s.max - s.min
  {
    var us := Distinct(df, UserId);
    UsersPresent(df, us);
    var h := HistogramBoxplot(df);
    var totals := Totals(h, us);
    var lo, hi := MinOf(totals), MaxOf(totals);
    assert Summary(df) == Extremes(totals);
    var i :| 0 <= i < |totals| && totals[i] == lo;
    assert us[i] in KeySet(df, UserId);
    var j :| 0 <= j < |totals| && totals[j] == hi;
    assert us[j] in KeySet(df, UserId);
    forall u | u in KeySet(df, UserId) ensures lo <= SumWhere(df, UserId, u, PointsObtained) <= hi {
      var k := IndexOf(us, u);
      assert totals[k] == SumWhere(df, UserId, u, PointsObtained);
    }
  }

  /** The summary's extremes are ordered and its range is never negative. */
  lemma SummaryRangeNonNegative(df: seq<Row>)
    requires |df| > 0
    ensures Summary(df).Success?
    ensures Summary(df).value.min <= Summary(df).value.max
    ensures Summary(df).value.range >= 0
  {
    SummaryMeaning(df);
    var s := Summary(df).value;
    var u :| u in KeySet(df, UserId) && SumWhere(df, UserId, u, PointsObtained) == s.min;
  }

  /** The statistics of the rows of one group. */
  function StatsOf(g: seq<Row>): GroupStats
  {
    var score := Sum(g, PointsObtained);
    var max := Sum(g, QuestionPoints);
    GroupStats(NUnique(g, QuestionId), score, max, Div(score, max), Percentage(score, max))
  }

  /** `group_by(key).agg(n_unique(question_id), sum(points_obtained), sum(question_points))` with the ratios. */
  function GroupStatsBy<K(==)>(df: seq<Row>, key: Row -> K): (m: map<K, GroupStats>)
    ensures m.Keys == KeySet(df, key)
  {
    map k | k in KeySet(df, key) :: StatsOf(Where(df, key, k))
  }

  /**
   * Each group's entry counts the distinct questions of its rows (at least
   * one, at most its number of rows), sums its points, and divides the
   * obtained by the maximum points without a guard.
   */
  lemma GroupStatsMeaning<K>(df: seq<Row>, key: Row -> K, k: K)
    requires k in KeySet(df, key)
    ensures k in GroupStatsBy(df, key)
    ensures var s := GroupStatsBy(df, key)[k];
      && s.questionCount == |KeySet(Where(df, key, k), QuestionId)|
      && 1 <= s.questionCount <= |Where(df, key, k)|
      && s.aggregatedStudentsScore == SumWhere(df, key, k, PointsObtained)
      && s.aggregatedMaxScore == SumWhere(df, key, k, QuestionPoints)
      && s.overallRatio == Div(s.aggregatedStudentsScore, s.aggregatedMaxScore)
      && s.overallPercentage == Div(100 * s.aggregatedStudentsScore, s.aggregatedMaxScore)
  {
    WherePresent(df, key, k);
    NUniqueBounds(Where(df, key, k), QuestionId);
  }

  /** The sum of the obtained scores of the groups listed in `ks`. */
  function ScoreOver<K(==)>(m: map<K, GroupStats>, ks: seq<K>): int
    requires forall i :: 0 <= i < |ks| ==> ks[i] in m
    decreases |ks|
  {
    if |ks| == 0 then 0 else ScoreOver(m, ks[..|ks| - 1]) + m[ks[|ks| - 1]].aggregatedStudentsScore
  }

  lemma {:induction false} ScoreOverGroupSums<K>(df: seq<Row>, key: Row -> K, ks: seq<K>)
    requires forall i :: 0 <= i < |ks| ==> ks[i] in KeySet(df, key)
    ensures ScoreOver(GroupStatsBy(df, key), ks) == SumGroups(ks, df, key, PointsObtained)
    decreases |ks|
  {
    if |ks| > 0 {
      ScoreOverGroupSums(df, key, ks[..|ks| - 1]);
    }
  }

  /** The groups partition the rows: the levels' (or subjects') scores add up to all points obtained. */
  lemma GroupStatsPartitionScore<K>(df: seq<Row>, key: Row -> K, ks: seq<K>)
    requires NoDuplicates(ks)
    requires forall i :: 0 <= i < |ks| ==> ks[i] in KeySet(df, key)
    requires forall k :: k in KeySet(df, key) ==> k in ks
    ensures ScoreOver(GroupStatsBy(df, key), ks) == Sum(df, PointsObtained)
  {
    ScoreOverGroupSums(df, key, ks);
    GroupsPartitionSum(ks, df, key, PointsObtained);
  }

  /** Per subject: the name of one of its rows (`subject_name.unique().first()`) and its statistics. */
  function SubjectsSummary(df: seq<Row>): (m: map<int, SubjectStats>)
    ensures m.Keys == KeySet(df, SubjectId)
    ensures forall k :: k in m ==>
      m[k].stats == GroupStatsBy(df, SubjectId)[k]
      && exists i :: 0 <= i < |df| && df[i].subjectId == k && df[i].subjectName == m[k].subjectName
  {
    var stats := GroupStatsBy(df, SubjectId);
    SubjectNamesExist(df);
    map k | k in stats :: SubjectStats(Where(df, SubjectId, k)[0].subjectName, stats[k])
  }

  lemma SubjectNamesExist(df: seq<Row>)
    ensures forall k :: k in KeySet(df, SubjectId) ==>
      |Where(df, SubjectId, k)| > 0
      && exists i :: 0 <= i < |df| && df[i].subjectId == k && df[i].subjectName == Where(df, SubjectId, k)[0].subjectName
  {
    forall k | k in KeySet(df, SubjectId)
      ensures |Where(df, SubjectId, k)| > 0
      ensures exists i :: 0 <= i < |df| && df[i].subjectId == k && df[i].subjectName == Where(df, SubjectId, k)[0].subjectName
    {
      var w := Where(df, SubjectId, k);
      WherePresent(df, SubjectId, k);
      WhereRows(df, SubjectId, k);
      assert SubjectId(w[0]) == k;
      assert w[0] in multiset(df);
      var i :| 0 <= i < |df| && df[i] == w[0];
    }
  }

  /**
   * The three chunks of the descriptive report; the strategy raises exactly
   * on a frame without rows, where the summary has no row 0.
   */
  function CalculateDescriptiveStatistics(df: seq<Row>): (r: Result<DescriptiveData, ReportError>)
    ensures r.Failure? <==> |df| == 0
    ensures r.Failure? ==> r.error == NoSummaryRow
    ensures r.Success? ==>
      && Summary(df) == Success(r.value.examSummaryData)
      && r.value.questionLevelsSummaryData.Keys == KeySet(df, QuestionLevel)
      && r.value.subjectsMinMaxData.Keys == KeySet(df, SubjectId)
  {
    SummaryMeaning(df);
    match Summary(df)
    case Failure(e) => Failure(e)
    case Success(s) => Success(DescriptiveData(s, GroupStatsBy(df, QuestionLevel), SubjectsSummary(df)))
  }
}
