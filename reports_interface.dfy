/**
 * The report context: the latest-attempt filter applied to the exam frame
 * before any strategy runs, and the context object that runs the strategies
 * in order and merges their chunks into its `examData`.
 */
module ReportsInterface {
  import opened Frames
  import opened Wrappers
  import opened ExamFrame
  import opened ReportsStrategy

  /** No row of the same user has a higher attempt than `r`. */
  predicate IsLatest(df: seq<Row>, r: Row)
  {
    forall i :: 0 <= i < |df| && df[i].userId == r.userId ==> df[i].attempt <= r.attempt
  }

  /** The rows whose attempt equals the recorded latest attempt of their user, in frame order. */
  function KeepLatest(rows: seq<Row>, latest: map<int, int>): (r: seq<Row>)
    requires forall i :: 0 <= i < |rows| ==> rows[i].userId in latest
    ensures |r| <= |rows|
    ensures forall i :: 0 <= i < |r| ==> r[i].userId in latest && r[i].attempt == latest[r[i].userId]
    decreases |rows|
  {
    if |rows| == 0 then []
    else
      var x := rows[|rows| - 1];
      var q := KeepLatest(rows[..|rows| - 1], latest);
      if x.attempt == latest[x.userId] then q + [x] else q
  }

  /** The filter keeps exactly the rows at their user's recorded latest attempt, each with all its copies. */
  lemma {:induction false} KeepLatestCounts(rows: seq<Row>, latest: map<int, int>)
    requires forall i :: 0 <= i < |rows| ==> rows[i].userId in latest
    ensures forall r :: multiset(KeepLatest(rows, latest))[r]
                     == if r.userId in latest && r.attempt == latest[r.userId] then multiset(rows)[r] else 0
    decreases |rows|
  {
    if |rows| > 0 {
      var p := rows[..|rows| - 1];
      var x := rows[|rows| - 1];
      assert rows == p + [x];
      KeepLatestCounts(p, latest);
    }
  }

  lemma {:induction false} KeepLatestKeepsAll(rows: seq<Row>, latest: map<int, int>)
    requires forall i :: 0 <= i < |rows| ==> rows[i].userId in latest && rows[i].attempt == latest[rows[i].userId]
    ensures KeepLatest(rows, latest) == rows
    decreases |rows|
  {
    if |rows| > 0 {
      var p := rows[..|rows| - 1];
      var x := rows[|rows| - 1];
      assert forall i :: 0 <= i < |p| ==> p[i] == rows[i];
      KeepLatestKeepsAll(p, latest);
      assert KeepLatest(rows, latest) == KeepLatest(p, latest) + [x];
      assert rows == p + [x];
    }
  }

  /**
   * `_get_latest_attempts_df`: group by user for the maximum attempt, join it
   * back onto every row and keep the rows whose attempt equals it. A row
   * survives exactly when it is a latest-attempt row of its user, and then
   * with all its copies.
   */
  function LatestAttempts(df: seq<Row>): (out: seq<Row>)
    ensures forall r :: multiset(out)[r] == if r in df && IsLatest(df, r) then multiset(df)[r] else 0
  {
    var latest := GroupMax(df, UserId, Attempt);
    LatestIsMaximum(df, latest);
    KeepLatestCounts(df, latest);
    KeepLatest(df, latest)
  }

  /** Being at the grouped maximum is being a latest-attempt row, so the kept copies are as stated. */
  lemma LatestIsMaximum(df: seq<Row>, latest: map<int, int>)
    requires latest == GroupMax(df, UserId, Attempt)
    ensures forall r: Row :: (if r.userId in latest && r.attempt == latest[r.userId] then multiset(df)[r] else 0)
                     == (if r in df && IsLatest(df, r) then multiset(df)[r] else 0)
  {
    forall r: Row
      ensures (if r.userId in latest && r.attempt == latest[r.userId] then multiset(df)[r] else 0)
           == (if r in df && IsLatest(df, r) then multiset(df)[r] else 0)
    {
      if r in df {
        AtMaximumIsLatest(df, latest, r);
      }
    }
  }

  lemma AtMaximumIsLatest(df: seq<Row>, latest: map<int, int>, r: Row)
    requires latest == GroupMax(df, UserId, Attempt) && r in df
    ensures r.userId in latest && (r.attempt == latest[r.userId] <==> IsLatest(df, r))
  {
    var k :| 0 <= k < |df| && df[k] == r;
    assert UserId(df[k]) == r.userId;
    var w :| 0 <= w < |df| && UserId(df[w]) == r.userId && Attempt(df[w]) == latest[r.userId];
    assert IsLatest(df, r) ==> df[w].attempt <= r.attempt;
  }

  /** Every kept row carries its user's maximum attempt over the whole input. */
  lemma LatestAttemptsAreMaximal(df: seq<Row>)
    ensures forall r :: r in LatestAttempts(df) ==> r in df && IsLatest(df, r)
  {
    var out := LatestAttempts(df);
    forall r | r in out ensures r in df && IsLatest(df, r) {
      assert multiset(out)[r] > 0;
    }
  }

  /** The filter adds no rows: its output is a sub-multiset of its input. */
  lemma LatestAttemptsSubMultiset(df: seq<Row>)
    ensures multiset(LatestAttempts(df)) <= multiset(df)
  {
  }

  /** Every row at its user's maximum attempt is kept. */
  lemma LatestAttemptsKeepsLatest(df: seq<Row>, r: Row)
    requires r in df && IsLatest(df, r)
    ensures r in LatestAttempts(df)
  {
    assert multiset(df)[r] > 0;
  }

  /** Every user of the input still appears in the output, and no other user. */
  lemma LatestAttemptsKeepsUsers(df: seq<Row>)
    ensures KeySet(LatestAttempts(df), UserId) == KeySet(df, UserId)
  {
    UsersKept(df);
    UsersNotAdded(df);
  }

  lemma UsersKept(df: seq<Row>)
    ensures KeySet(df, UserId) <= KeySet(LatestAttempts(df), UserId)
  {
    var latest := GroupMax(df, UserId, Attempt);
    forall u | u in KeySet(df, UserId) ensures u in KeySet(LatestAttempts(df), UserId) {
      var w :| 0 <= w < |df| && UserId(df[w]) == u && Attempt(df[w]) == latest[u];
      UserOfLatestRowKept(df, df[w]);
    }
  }

  lemma UserOfLatestRowKept(df: seq<Row>, r: Row)
    requires r in df && IsLatest(df, r)
    ensures r.userId in KeySet(LatestAttempts(df), UserId)
  {
    var out := LatestAttempts(df);
    LatestAttemptsKeepsLatest(df, r);
    var j :| 0 <= j < |out| && out[j] == r;
    assert UserId(out[j]) == r.userId;
  }

  lemma UsersNotAdded(df: seq<Row>)
    ensures KeySet(LatestAttempts(df), UserId) <= KeySet(df, UserId)
  {
    var out := LatestAttempts(df);
    LatestAttemptsAreMaximal(df);
    forall u | u in KeySet(out, UserId) ensures u in KeySet(df, UserId) {
      var j :| 0 <= j < |out| && UserId(out[j]) == u;
      assert out[j] in out;
      var k :| 0 <= k < |df| && df[k] == out[j];
      assert UserId(df[k]) == u;
    }
  }

  /** Filtering the filtered frame again changes nothing. */
  lemma LatestAttemptsIdempotent(df: seq<Row>)
    ensures LatestAttempts(LatestAttempts(df)) == LatestAttempts(df)
  {
    var out := LatestAttempts(df);
    var latest := GroupMax(out, UserId, Attempt);
    LatestAttemptsAreMaximal(df);
    forall i | 0 <= i < |out| ensures out[i].userId in latest && out[i].attempt == latest[out[i].userId] {
      var r := out[i];
      assert UserId(out[i]) == r.userId;
      assert r in out;
      var w :| 0 <= w < |out| && UserId(out[w]) == r.userId && Attempt(out[w]) == latest[r.userId];
      assert out[w] in out;
      var k :| 0 <= k < |df| && df[k] == out[w];
      assert df[k].userId == r.userId;
    }
    KeepLatestKeepsAll(out, latest);
  }

  /** The value `do_business_logic` returns: the merged chunks and the filtered rows. */
  datatype Performance = Performance(examPerformance: Chunk, rawExamPerformance: seq<Row>)

  /** The report data after running strategies, and the error that stopped them, if any. */
  datatype Outcome = Outcome(examData: Chunk, error: Option<ReportError>)

  /**
   * Runs `ss` in order on `df`, merging each chunk into `acc` (`dict.update`:
   * the chunk's entries win). A failing strategy stops the run; what was
   * merged before it stays.
   */
  function RunStrategies(acc: Chunk, ss: seq<Strategy>, df: seq<Row>): (r: Outcome)
    ensures acc.Keys <= r.examData.Keys
    decreases |ss|
  {
    if |ss| == 0 then Outcome(acc, None)
    else
      var o := RunStrategies(acc, ss[..|ss| - 1], df);
      if o.error.Some? then o
      else
        match ChunkOf(ss[|ss| - 1], df)
        case Failure(e) => Outcome(o.examData, Some(e))
        case Success(c) => Outcome(o.examData + c, None)
  }

  /** Once a strategy has failed, the later ones change nothing. */
  lemma {:induction false} RunFailureStays(acc: Chunk, ss: seq<Strategy>, df: seq<Row>, n: nat)
    requires n <= |ss| && RunStrategies(acc, ss[..n], df).error.Some?
    ensures RunStrategies(acc, ss, df) == RunStrategies(acc, ss[..n], df)
    decreases |ss|
  {
    if n < |ss| {
      var p := ss[..|ss| - 1];
      assert p[..n] == ss[..n];
      RunFailureStays(acc, p, df, n);
    } else {
      assert ss[..n] == ss;
    }
  }

  /**
   * Running from existing data is merging into it what a run from nothing
   * produces, and the strategy that fails (if one does) does not depend on it.
   */
  lemma {:induction false} RunFrom(acc: Chunk, ss: seq<Strategy>, df: seq<Row>)
    ensures RunStrategies(acc, ss, df).error == RunStrategies(map[], ss, df).error
    ensures RunStrategies(acc, ss, df).examData == acc + RunStrategies(map[], ss, df).examData
    decreases |ss|
  {
    if |ss| == 0 {
      assert acc + map[] == acc;
    } else {
      var p := ss[..|ss| - 1];
      RunFrom(acc, p, df);
      var o := RunStrategies(map[], p, df);
      if o.error.None? && ChunkOf(ss[|ss| - 1], df).Success? {
        MergeAssociative(acc, o.examData, ChunkOf(ss[|ss| - 1], df).value);
      }
    }
  }

  /** `dict.update` twice is one update with the merged dictionary. */
  lemma MergeAssociative(a: Chunk, b: Chunk, c: Chunk)
    ensures (a + b) + c == a + (b + c)
  {
  }

  /**
   * A key a strategy reports holds that strategy's value unless a later one
   * reports it too: later chunks overwrite earlier ones.
   */
  lemma {:induction false} RunLaterOverwrites(acc: Chunk, ss: seq<Strategy>, df: seq<Row>, j: nat, k: ChunkName)
    requires j < |ss| && RunStrategies(acc, ss, df).error.None?
    requires k in ChunkNames(ss[j])
    requires forall i :: j < i < |ss| ==> k !in ChunkNames(ss[i])
    ensures ChunkOf(ss[j], df).Success? && k in ChunkOf(ss[j], df).value
    ensures k in RunStrategies(acc, ss, df).examData
    ensures RunStrategies(acc, ss, df).examData[k] == ChunkOf(ss[j], df).value[k]
    decreases |ss|
  {
    ChunkKeys(ss[j], df);
    var p := ss[..|ss| - 1];
    var last := ss[|ss| - 1];
    var o := RunStrategies(acc, p, df);
    assert o.error.None?;
    assert ChunkOf(last, df).Success?;
    var c := ChunkOf(last, df).value;
    assert RunStrategies(acc, ss, df).examData == o.examData + c;
    ChunkKeys(last, df);
    if j < |ss| - 1 {
      assert p[j] == ss[j];
      assert forall i :: j < i < |p| ==> p[i] == ss[i];
      RunLaterOverwrites(acc, p, df, j, k);
      assert k !in c;
      assert k in o.examData && o.examData[k] == ChunkOf(ss[j], df).value[k];
    } else {
      assert k in c && c[k] == ChunkOf(ss[j], df).value[k];
    }
  }

  /** A key no strategy reports keeps the value it had before the run. */
  lemma {:induction false} RunKeepsOtherKeys(acc: Chunk, ss: seq<Strategy>, df: seq<Row>, k: ChunkName)
    requires k in acc
    requires forall i :: 0 <= i < |ss| ==> k !in ChunkNames(ss[i])
    ensures k in RunStrategies(acc, ss, df).examData
    ensures RunStrategies(acc, ss, df).examData[k] == acc[k]
    decreases |ss|
  {
    if |ss| > 0 {
      var p := ss[..|ss| - 1];
      var last := ss[|ss| - 1];
      assert forall i :: 0 <= i < |p| ==> p[i] == ss[i];
      RunKeepsOtherKeys(acc, p, df, k);
      var o := RunStrategies(acc, p, df);
      if o.error.None? && ChunkOf(last, df).Success? {
        ChunkKeys(last, df);
        var c := ChunkOf(last, df).value;
        assert k !in c;
        assert RunStrategies(acc, ss, df).examData == o.examData + c;
      }
    }
  }

  /**
   * The report data persists across calls: running the same strategies again
   * on the data a successful run left gives the same data.
   */
  lemma RunTwiceSame(acc: Chunk, ss: seq<Strategy>, df: seq<Row>)
    requires RunStrategies(acc, ss, df).error.None?
    ensures RunStrategies(RunStrategies(acc, ss, df).examData, ss, df) == RunStrategies(acc, ss, df)
  {
    var m := RunStrategies(map[], ss, df).examData;
    RunFrom(acc, ss, df);
    RunFrom(acc + m, ss, df);
    assert (acc + m) + m == acc + m;
  }

  /** With the descriptive statistics among the strategies, a run over a frame without rows fails. */
  lemma {:induction false} EmptyFrameRunFails(acc: Chunk, ss: seq<Strategy>, df: seq<Row>)
    requires |df| == 0 && ExamDescriptiveStatistics in ss
    ensures RunStrategies(acc, ss, df).error.Some?
    decreases |ss|
  {
    var p := ss[..|ss| - 1];
    var last := ss[|ss| - 1];
    ChunkKeys(last, df);
    if last != ExamDescriptiveStatistics {
      var i :| 0 <= i < |ss| && ss[i] == ExamDescriptiveStatistics;
      assert p[i] == ss[i];
      EmptyFrameRunFails(acc, p, df);
    }
  }

  /**
   * An exam without attempts leaves no rows after the latest-attempt filter,
   * so the report raises when it includes the descriptive statistics.
   */
  lemma EmptyExamReportFails(acc: Chunk, ss: seq<Strategy>, df: seq<Row>)
    requires |df| == 0 && ExamDescriptiveStatistics in ss
    ensures RunStrategies(acc, ss, LatestAttempts(df)).error.Some?
  {
    LatestAttemptsSubMultiset(df);
    assert |multiset(LatestAttempts(df))| == 0;
    EmptyFrameRunFails(acc, ss, LatestAttempts(df));
  }

  /** The report context: the exam frame, the strategies to run, and the report data it accumulates. */
  class Context {
    const df: seq<Row>
    const strategies: seq<Strategy>
    var examData: Chunk

    constructor (df: seq<Row>, strategies: seq<Strategy>)
      ensures this.df == df && this.strategies == strategies && examData == map[]
    {
      this.df := df;
      this.strategies := strategies;
      examData := map[];
    }

    /**
     * `do_business_logic`: filter to the latest attempts, run every strategy
     * in order on the filtered rows and merge its chunk into `examData`, then
     * return the merged data together with the filtered rows.
     */
    method DoBusinessLogic() returns (r: Result<Performance, ReportError>)
      modifies this
      ensures var o := RunStrategies(old(examData), strategies, LatestAttempts(df));
        && examData == o.examData
        && r == if o.error.Some? then Failure(o.error.value) else Success(Performance(examData, LatestAttempts(df)))
    {
      var processedDf := LatestAttempts(df);
      var i := 0;
      while i < |strategies|
        invariant 0 <= i <= |strategies|
        invariant RunStrategies(old(examData), strategies[..i], processedDf) == Outcome(examData, None)
      {
        var reportChunk := Calculate(strategies[i], processedDf);
        assert strategies[..i + 1][..i] == strategies[..i];
        if reportChunk.Failure? {
          RunFailureStays(old(examData), strategies, processedDf, i + 1);
          return Failure(reportChunk.error);
        }
        examData := examData + reportChunk.value;
        i := i + 1;
      }
      assert strategies[..|strategies|] == strategies;
      r := Success(Performance(examData, processedDf));
    }
  }
}
