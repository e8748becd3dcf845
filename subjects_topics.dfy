/**
 * `CalculateExamBySubjectsAndTopics`: the normalized score of every (course,
 * subject) and every (course, topic) pair, restructured into nested maps
 * `{course: {item: score}}` by the loop of `restructure_report`.
 */
module SubjectsAndTopics {
  import opened Frames
  import opened Wrappers
  import opened ExamFrame

  /** The group-by keys `('course_abbreviation', 'subject_name')` and `('course_abbreviation', 'topic_name')`. */
  function CourseSubject(r: Row): (string, string) { (r.courseAbbreviation, r.subjectName) }
  function CourseTopic(r: Row): (string, string) { (r.courseAbbreviation, r.topicName) }

  /** One row of the summary frame: `course_abbreviation`, the grouped column and `normalized_score`. */
  datatype ScoreRow = ScoreRow(course: string, item: string, normalizedScore: Fraction)

  function Pair(s: ScoreRow): (string, string) { (s.course, s.item) }

  /** The nested report `{course: {item: score}}`. */
  type Report = map<string, map<string, Fraction>>

  /**
   * `calculate_normalized_scores`: per (course, item) pair of the frame, the
   * obtained points over the question points, times 100, with no guard.
   */
  function NormalizedScores(df: seq<Row>, key: Row -> (string, string)): (rows: seq<ScoreRow>)
    ensures forall i :: 0 <= i < |rows| ==>
      Pair(rows[i]) in KeySet(df, key)
      && rows[i].normalizedScore == Percentage(SumWhere(df, key, Pair(rows[i]), PointsObtained), SumWhere(df, key, Pair(rows[i]), QuestionPoints))
    ensures forall p :: p in KeySet(df, key) ==> exists i :: 0 <= i < |rows| && Pair(rows[i]) == p
    ensures forall i, j :: 0 <= i < j < |rows| ==> Pair(rows[i]) != Pair(rows[j])
  {
    var ks := Distinct(df, key);
    var rows := seq(|ks|, i requires 0 <= i < |ks| =>
      ScoreRow(ks[i].0, ks[i].1, Percentage(SumWhere(df, key, ks[i], PointsObtained), SumWhere(df, key, ks[i], QuestionPoints))));
    assert forall i :: 0 <= i < |ks| ==> Pair(rows[i]) == ks[i];
    forall p | p in KeySet(df, key) ensures exists i :: 0 <= i < |rows| && Pair(rows[i]) == p {
      var i := IndexOf(ks, p);
      assert Pair(rows[i]) == p;
    }
    rows
  }

  /** The nested map the loop of `restructure_report` has built after the rows `rows`. */
  function ReportOf(rows: seq<ScoreRow>): Report
    decreases |rows|
  {
    if |rows| == 0 then map[]
    else
      var m := ReportOf(rows[..|rows| - 1]);
      var x := rows[|rows| - 1];
      var inner := if x.course in m then m[x.course] else map[];
      m[x.course := inner[x.item := x.normalizedScore]]
  }

  /** `restructure_report`: fills the nested map row by row. */
  method RestructureReport(rows: seq<ScoreRow>) returns (report: Report)
    ensures report == ReportOf(rows)
  {
    report := map[];
    var i := 0;
    while i < |rows|
      invariant 0 <= i <= |rows|
      invariant report == ReportOf(rows[..i])
    {
      var row := rows[i];
      if row.course !in report {
        report := report[row.course := map[]];
      }
      report := report[row.course := report[row.course][row.item := row.normalizedScore]];
      assert rows[..i + 1][..i] == rows[..i];
      i := i + 1;
    }
    assert rows[..|rows|] == rows;
  }

  /** Every course of a row becomes a key, and no other; under it, exactly the items of that course's rows. */
  lemma {:induction false} ReportKeys(rows: seq<ScoreRow>)
    ensures forall c :: c in ReportOf(rows) <==> exists i :: 0 <= i < |rows| && rows[i].course == c
    ensures forall c, it :: c in ReportOf(rows) ==>
      (it in ReportOf(rows)[c] <==> exists i :: 0 <= i < |rows| && rows[i].course == c && rows[i].item == it)
    decreases |rows|
  {
    if |rows| > 0 {
      var p := rows[..|rows| - 1];
      var x := rows[|rows| - 1];
      ReportKeys(p);
      assert forall i :: 0 <= i < |p| ==> p[i] == rows[i];
      forall c ensures c in ReportOf(rows) <==> exists i :: 0 <= i < |rows| && rows[i].course == c {
        if exists i :: 0 <= i < |rows| && rows[i].course == c {
          var i :| 0 <= i < |rows| && rows[i].course == c;
          if i < |p| { assert p[i].course == c; }
        }
      }
      forall c, it | c in ReportOf(rows)
        ensures it in ReportOf(rows)[c] <==> exists i :: 0 <= i < |rows| && rows[i].course == c && rows[i].item == it
      {
        if exists i :: 0 <= i < |rows| && rows[i].course == c && rows[i].item == it {
          var i :| 0 <= i < |rows| && rows[i].course == c && rows[i].item == it;
          if i < |p| { assert p[i].course == c && p[i].item == it; }
        }
      }
    }
  }

  /** `result[course][item]` is the score of the last row carrying that (course, item) pair. */
  lemma {:induction false} ReportLastWins(rows: seq<ScoreRow>, j: nat)
    requires j < |rows|
    requires forall k :: j < k < |rows| ==> Pair(rows[k]) != Pair(rows[j])
    ensures rows[j].course in ReportOf(rows) && rows[j].item in ReportOf(rows)[rows[j].course]
    ensures ReportOf(rows)[rows[j].course][rows[j].item] == rows[j].normalizedScore
    decreases |rows|
  {
    var p := rows[..|rows| - 1];
    if j < |rows| - 1 {
      assert forall k :: j < k < |p| ==> p[k] == rows[k];
      ReportLastWins(p, j);
      assert p[j] == rows[j];
    }
  }

  /**
   * The report of a frame: a key for every course of the frame, under it an
   * entry for every item of that course, and there the pair's normalized
   * score, whatever order the summary rows come in.
   */
  function ScoresReport(df: seq<Row>, key: Row -> (string, string)): (r: Report)
    ensures forall c :: c in r <==> exists p :: p in KeySet(df, key) && p.0 == c
  {
    ScoresReportCourses(df, key, NormalizedScores(df, key));
    ReportOf(NormalizedScores(df, key))
  }

  lemma ScoresReportMeaning(df: seq<Row>, key: Row -> (string, string))
    ensures forall c :: c in ScoresReport(df, key) <==> exists p :: p in KeySet(df, key) && p.0 == c
    ensures forall p :: p in KeySet(df, key) ==>
      p.0 in ScoresReport(df, key) && p.1 in ScoresReport(df, key)[p.0]
      && ScoresReport(df, key)[p.0][p.1] == Percentage(SumWhere(df, key, p, PointsObtained), SumWhere(df, key, p, QuestionPoints))
    ensures forall c, it :: c in ScoresReport(df, key) && it in ScoresReport(df, key)[c] ==> (c, it) in KeySet(df, key)
  {
    var rows := NormalizedScores(df, key);
    ReportKeys(rows);
    ScoresReportCourses(df, key, rows);
    ScoresReportValues(df, key, rows);
    ScoresReportEntries(df, key, rows);
  }

  lemma ScoresReportCourses(df: seq<Row>, key: Row -> (string, string), rows: seq<ScoreRow>)
    requires rows == NormalizedScores(df, key)
    ensures forall c :: c in ReportOf(rows) <==> exists p :: p in KeySet(df, key) && p.0 == c
  {
    ReportKeys(rows);
    var ks := KeySet(df, key);
    forall c ensures c in ReportOf(rows) <==> exists p :: p in ks && p.0 == c {
      CourseOfSomePair(rows, ks, c, c in ReportOf(rows));
    }
  }

  /** A course is on some row exactly when it is the course of some pair, when the rows carry exactly the pairs `ks`. */
  lemma CourseOfSomePair(rows: seq<ScoreRow>, ks: set<(string, string)>, c: string, found: bool)
    requires forall i :: 0 <= i < |rows| ==> Pair(rows[i]) in ks
    requires forall p :: p in ks ==> exists i :: 0 <= i < |rows| && Pair(rows[i]) == p
    requires found <==> exists i :: 0 <= i < |rows| && rows[i].course == c
    ensures found <==> exists p :: p in ks && p.0 == c
  {
    if found {
      var i :| 0 <= i < |rows| && rows[i].course == c;
      assert Pair(rows[i]) in ks;
    }
    if exists p :: p in ks && p.0 == c {
      var p :| p in ks && p.0 == c;
      var i :| 0 <= i < |rows| && Pair(rows[i]) == p;
      assert rows[i].course == c;
    }
  }

  lemma ScoresReportValues(df: seq<Row>, key: Row -> (string, string), rows: seq<ScoreRow>)
    requires rows == NormalizedScores(df, key)
    ensures forall p :: p in KeySet(df, key) ==>
      p.0 in ReportOf(rows) && p.1 in ReportOf(rows)[p.0]
      && ReportOf(rows)[p.0][p.1] == Percentage(SumWhere(df, key, p, PointsObtained), SumWhere(df, key, p, QuestionPoints))
  {
    forall p | p in KeySet(df, key)
      ensures p.0 in ReportOf(rows) && p.1 in ReportOf(rows)[p.0]
      ensures ReportOf(rows)[p.0][p.1] == Percentage(SumWhere(df, key, p, PointsObtained), SumWhere(df, key, p, QuestionPoints))
    {
      var i :| 0 <= i < |rows| && Pair(rows[i]) == p;
      ReportLastWins(rows, i);
    }
  }

  lemma ScoresReportEntries(df: seq<Row>, key: Row -> (string, string), rows: seq<ScoreRow>)
    requires rows == NormalizedScores(df, key)
    ensures forall c, it :: c in ReportOf(rows) && it in ReportOf(rows)[c] ==> (c, it) in KeySet(df, key)
  {
    ReportKeys(rows);
    forall c, it | c in ReportOf(rows) && it in ReportOf(rows)[c] ensures (c, it) in KeySet(df, key) {
      var i :| 0 <= i < |rows| && rows[i].course == c && rows[i].item == it;
      assert Pair(rows[i]) == (c, it);
    }
  }

  /** The two chunks of the report. */
  datatype SubjectsTopicsData = SubjectsTopicsData(
    normalizedExamScoresBySubjects: Report,
    normalizedExamScoresByTopics: Report)

  /** Both reports are keyed by exactly the courses of the frame. */
  function SubjectsTopicsOf(df: seq<Row>): (d: SubjectsTopicsData)
    ensures d.normalizedExamScoresBySubjects.Keys == KeySet(df, CourseAbbreviation)
    ensures d.normalizedExamScoresByTopics.Keys == KeySet(df, CourseAbbreviation)
  {
    PairCourses(df, CourseSubject);
    PairCourses(df, CourseTopic);
    SubjectsTopicsData(ScoresReport(df, CourseSubject), ScoresReport(df, CourseTopic))
  }

  /** A course is the first half of some pair exactly when some row carries it, for a key pairing the row's course with another column. */
  lemma PairCourses(df: seq<Row>, key: Row -> (string, string))
    requires forall r :: key(r).0 == r.courseAbbreviation
    ensures forall c :: (exists p :: p in KeySet(df, key) && p.0 == c) <==> c in KeySet(df, CourseAbbreviation)
  {
    forall c ensures (exists p :: p in KeySet(df, key) && p.0 == c) <==> c in KeySet(df, CourseAbbreviation) {
      if exists p :: p in KeySet(df, key) && p.0 == c {
        var p :| p in KeySet(df, key) && p.0 == c;
        var i :| 0 <= i < |df| && key(df[i]) == p;
        assert CourseAbbreviation(df[i]) == c;
      }
      if c in KeySet(df, CourseAbbreviation) {
        var i :| 0 <= i < |df| && CourseAbbreviation(df[i]) == c;
        assert key(df[i]) in KeySet(df, key);
      }
    }
  }

  /** `calculate`: normalize and restructure by subjects, then by topics. */
  method CalculateBySubjectsAndTopics(df: seq<Row>) returns (d: SubjectsTopicsData)
    ensures d == SubjectsTopicsOf(df)
  {
    var dfSubjects := NormalizedScores(df, CourseSubject);
    var bySubjects := RestructureReport(dfSubjects);
    var dfTopics := NormalizedScores(df, CourseTopic);
    var byTopics := RestructureReport(dfTopics);
    d := SubjectsTopicsData(bySubjects, byTopics);
  }
}
