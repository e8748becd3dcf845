/**
 * `CalculateExamHistogramBoxplot`: one entry per student with the sum of the
 * points they obtained and the sum of the points of the questions they
 * answered. The same per-student grouping feeds the descriptive summary.
 */
module ExamHistogram {
  import opened Frames
  import opened Wrappers
  import opened ExamFrame

  datatype UserScore = UserScore(totalScore: int, maxScore: int)

  /** `group_by('user_id').agg(sum(points_obtained), sum(question_points))`, keyed by user. */
  function HistogramBoxplot(df: seq<Row>): (h: map<int, UserScore>)
    ensures h.Keys == KeySet(df, UserId)
    ensures forall u :: u in h ==>
      h[u].totalScore == SumWhere(df, UserId, u, PointsObtained)
      && h[u].maxScore == SumWhere(df, UserId, u, QuestionPoints)
  {
    var total := GroupSum(df, UserId, PointsObtained);
    var max := GroupSum(df, UserId, QuestionPoints);
    map u | u in total :: UserScore(total[u], max[u])
  }

  /** The sum of the total scores of the users listed in `us`. */
  function TotalScores(h: map<int, UserScore>, us: seq<int>): int
    requires forall i :: 0 <= i < |us| ==> us[i] in h
    decreases |us|
  {
    if |us| == 0 then 0 else TotalScores(h, us[..|us| - 1]) + h[us[|us| - 1]].totalScore
  }

  /** The sum of the maximum scores of the users listed in `us`. */
  function MaxScores(h: map<int, UserScore>, us: seq<int>): int
    requires forall i :: 0 <= i < |us| ==> us[i] in h
    decreases |us|
  {
    if |us| == 0 then 0 else MaxScores(h, us[..|us| - 1]) + h[us[|us| - 1]].maxScore
  }

  lemma {:induction false} TotalsAreGroupSums(df: seq<Row>, us: seq<int>)
    requires forall i :: 0 <= i < |us| ==> us[i] in KeySet(df, UserId)
    ensures TotalScores(HistogramBoxplot(df), us) == SumGroups(us, df, UserId, PointsObtained)
    ensures MaxScores(HistogramBoxplot(df), us) == SumGroups(us, df, UserId, QuestionPoints)
    decreases |us|
  {
    if |us| > 0 {
      TotalsAreGroupSums(df, us[..|us| - 1]);
    }
  }

  /**
   * The group-by partitions the rows: however the users are enumerated (each
   * once), their total scores add up to all points obtained, and their
   * maximum scores to all question points.
   */
  lemma HistogramPartitionsPoints(df: seq<Row>, us: seq<int>)
    requires NoDuplicates(us)
    requires forall i :: 0 <= i < |us| ==> us[i] in KeySet(df, UserId)
    requires forall u :: u in KeySet(df, UserId) ==> u in us
    ensures TotalScores(HistogramBoxplot(df), us) == Sum(df, PointsObtained)
    ensures MaxScores(HistogramBoxplot(df), us) == Sum(df, QuestionPoints)
  {
    TotalsAreGroupSums(df, us);
    GroupsPartitionSum(us, df, UserId, PointsObtained);
    GroupsPartitionSum(us, df, UserId, QuestionPoints);
  }

  /** One entry per student: as many entries as distinct user ids, none for an empty frame. */
  lemma HistogramSize(df: seq<Row>)
    ensures |HistogramBoxplot(df)| == NUnique(df, UserId)
    ensures |HistogramBoxplot(df)| <= |df|
    ensures |HistogramBoxplot(df)| == 0 <==> |df| == 0
  {
    var h := HistogramBoxplot(df);
    assert |h.Keys| == |h|;
    NUniqueBounds(df, UserId);
  }
}
