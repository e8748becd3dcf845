/**
 * `CalculateExamBYTypeWithLevels`: scores summed per (course, question type,
 * question level), totals per question type joined back on, guarded
 * accuracy and contribution percentages, and the loop of
 * `restructure_for_plotly` that lays each level's values out in fixed-length
 * per-course lists.
 */
module TypesWithLevels {
  import opened Frames
  import opened Wrappers
  import opened ExamFrame
  import opened StringOrder

  /** The group-by key `('course_abbreviation', 'question_type', 'question_level')`. */
  datatype LongKey = LongKey(course: string, qtype: string, level: string)

  function CourseTypeLevel(r: Row): LongKey { LongKey(r.courseAbbreviation, r.questionType, r.questionLevel) }
  function KeyType(k: LongKey): string { k.qtype }

  /** A row of `df_long`. */
  datatype LongRow = LongRow(course: string, qtype: string, level: string, rawScoreSum: int, maxScoreSum: int)

  function LongQType(l: LongRow): string { l.qtype }
  function RawScoreSum(l: LongRow): int { l.rawScoreSum }
  function MaxScoreSum(l: LongRow): int { l.maxScoreSum }

  function LongRowOf(df: seq<Row>, k: LongKey): LongRow
  {
    LongRow(k.course, k.qtype, k.level,
      SumWhere(df, CourseTypeLevel, k, PointsObtained), SumWhere(df, CourseTypeLevel, k, QuestionPoints))
  }

  /** The summed rows of the groups listed in `ks`, in that order. */
  function LongRowsOf(df: seq<Row>, ks: seq<LongKey>): (long: seq<LongRow>)
    ensures |long| == |ks| && forall i :: 0 <= i < |ks| ==> long[i] == LongRowOf(df, ks[i])
    decreases |ks|
  {
    if |ks| == 0 then [] else LongRowsOf(df, ks[..|ks| - 1]) + [LongRowOf(df, ks[|ks| - 1])]
  }

  /** `df_long`: one row per (course, type, level) group of the frame; the sort is not modelled. */
  function LongFrame(df: seq<Row>): (long: seq<LongRow>)
    ensures forall j :: 0 <= j < |long| ==>
      var k := LongKey(long[j].course, long[j].qtype, long[j].level);
      && k in KeySet(df, CourseTypeLevel)
      && long[j].rawScoreSum == SumWhere(df, CourseTypeLevel, k, PointsObtained)
      && long[j].maxScoreSum == SumWhere(df, CourseTypeLevel, k, QuestionPoints)
    ensures forall k :: k in KeySet(df, CourseTypeLevel) ==>
      exists j :: 0 <= j < |long| && long[j].course == k.course && long[j].qtype == k.qtype && long[j].level == k.level
  {
    LongRowsOf(df, Distinct(df, CourseTypeLevel))
  }

  lemma {:induction false} LongRowsTypeSum(df: seq<Row>, ks: seq<LongKey>, t: string)
    ensures SumWhere(LongRowsOf(df, ks), LongQType, t, RawScoreSum) == SumGroupsWhere(ks, KeyType, t, df, CourseTypeLevel, PointsObtained)
    ensures SumWhere(LongRowsOf(df, ks), LongQType, t, MaxScoreSum) == SumGroupsWhere(ks, KeyType, t, df, CourseTypeLevel, QuestionPoints)
    decreases |ks|
  {
    if |ks| > 0 {
      var p := ks[..|ks| - 1];
      var x := LongRowOf(df, ks[|ks| - 1]);
      LongRowsTypeSum(df, p, t);
      SumWhereAppend(LongRowsOf(df, p), x, LongQType, t, RawScoreSum);
      SumWhereAppend(LongRowsOf(df, p), x, LongQType, t, MaxScoreSum);
    }
  }

  /**
   * `df_qtype_totals`: summing the (course, level) rows of a question type
   * gives the sums over all rows of the frame of that type.
   */
  lemma QTypeTotalsAreTypeSums(df: seq<Row>, t: string)
    ensures SumWhere(LongFrame(df), LongQType, t, RawScoreSum) == SumWhere(df, QuestionType, t, PointsObtained)
    ensures SumWhere(LongFrame(df), LongQType, t, MaxScoreSum) == SumWhere(df, QuestionType, t, QuestionPoints)
  {
    var ks := Distinct(df, CourseTypeLevel);
    LongRowsTypeSum(df, ks, t);
    GroupsCoarsenSum(ks, KeyType, t, df, CourseTypeLevel, QuestionType, PointsObtained);
    GroupsCoarsenSum(ks, KeyType, t, df, CourseTypeLevel, QuestionType, QuestionPoints);
  }

  /** A row of `df_combined`. */
  datatype CombinedRow = CombinedRow(
    course: string,
    qtype: string,
    level: string,
    rawScoreSum: int,
    maxScoreSum: int,
    qtypeTotalRawScore: int,
    qtypeTotalMaxScore: int,
    accuracyPercentage: Fraction,
    contributionPercentage: Fraction)

  function CCourse(c: CombinedRow): string { c.course }
  function CQType(c: CombinedRow): string { c.qtype }

  /** One long row with its type's totals joined on and the two guarded percentages. */
  function Combine(l: LongRow, totalRaw: int, totalMax: int): CombinedRow
  {
    CombinedRow(l.course, l.qtype, l.level, l.rawScoreSum, l.maxScoreSum, totalRaw, totalMax,
      GuardedPercentage(l.rawScoreSum, l.maxScoreSum), GuardedPercentage(l.rawScoreSum, totalRaw))
  }

  /** `df_combined`: the left join of the long rows with their type's totals, then the percentages. */
  function CombinedFrame(long: seq<LongRow>): (c: seq<CombinedRow>)
    ensures |c| == |long|
    ensures forall i :: 0 <= i < |long| ==>
      c[i] == Combine(long[i], SumWhere(long, LongQType, long[i].qtype, RawScoreSum), SumWhere(long, LongQType, long[i].qtype, MaxScoreSum))
  {
    var rawTotals := GroupSum(long, LongQType, RawScoreSum);
    var maxTotals := GroupSum(long, LongQType, MaxScoreSum);
    assert forall i :: 0 <= i < |long| ==> LongQType(long[i]) in KeySet(long, LongQType);
    seq(|long|, i requires 0 <= i < |long| => Combine(long[i], rawTotals[long[i].qtype], maxTotals[long[i].qtype]))
  }

  /**
   * Every combined row carries its type's totals over the whole frame; its
   * accuracy is 0 when its maximum score is not positive and its contribution
   * is 0 when its type's total raw score is not positive, and otherwise each
   * is the score over that denominator, times 100.
   */
  lemma CombinedRowMeaning(df: seq<Row>, i: nat)
    requires i < |LongFrame(df)|
    ensures var l := LongFrame(df)[i];
      var c := CombinedFrame(LongFrame(df))[i];
      && c.course == l.course && c.qtype == l.qtype && c.level == l.level
      && c.rawScoreSum == l.rawScoreSum && c.maxScoreSum == l.maxScoreSum
      && c.qtypeTotalRawScore == SumWhere(df, QuestionType, l.qtype, PointsObtained)
      && c.qtypeTotalMaxScore == SumWhere(df, QuestionType, l.qtype, QuestionPoints)
      && (c.maxScoreSum <= 0 ==> c.accuracyPercentage == Zero)
      && (c.maxScoreSum > 0 ==> c.accuracyPercentage == Div(100 * c.rawScoreSum, c.maxScoreSum))
      && (c.qtypeTotalRawScore <= 0 ==> c.contributionPercentage == Zero)
      && (c.qtypeTotalRawScore > 0 ==> c.contributionPercentage == Div(100 * c.rawScoreSum, c.qtypeTotalRawScore))
  {
    QTypeTotalsAreTypeSums(df, LongFrame(df)[i].qtype);
  }

  /** The per-course lists of one level: `raw`, `accuracy` and `contribution`. */
  datatype Blooms = Blooms(raw: seq<int>, accuracy: seq<Fraction>, contribution: seq<Fraction>)

  /** One object of the output: a question type, its totals and its levels. */
  datatype QTypeEntry = QTypeEntry(name: string, rawScoreSum: int, maxScoreSum: int, blooms: map<string, Blooms>)

  /** Lists of `n` zeros, the value of every course before a row fills it. */
  function EmptyBlooms(n: nat): (b: Blooms)
    ensures |b.raw| == |b.accuracy| == |b.contribution| == n
    ensures forall k :: 0 <= k < n ==> b.raw[k] == 0 && b.accuracy[k] == Zero && b.contribution[k] == Zero
  {
    Blooms(seq(n, _ => 0), seq(n, _ => Zero), seq(n, _ => Zero))
  }

  predicate CoursesKnown(rows: seq<CombinedRow>, courses: seq<string>)
  {
    forall i :: 0 <= i < |rows| ==> rows[i].course in courses
  }

  /** `blooms_data` after the inner loop has processed the rows `rows` of one type. */
  function BloomsOf(rows: seq<CombinedRow>, courses: seq<string>): (m: map<string, Blooms>)
    requires CoursesKnown(rows, courses)
    ensures forall l :: l in m ==> |m[l].raw| == |courses| && |m[l].accuracy| == |courses| && |m[l].contribution| == |courses|
    decreases |rows|
  {
    if |rows| == 0 then map[]
    else
      var m := BloomsOf(rows[..|rows| - 1], courses);
      var x := rows[|rows| - 1];
      var b := if x.level in m then m[x.level] else EmptyBlooms(|courses|);
      var k := IndexOf(courses, x.course);
      m[x.level := Blooms(b.raw[k := x.rawScoreSum], b.accuracy[k := x.accuracyPercentage], b.contribution[k := x.contributionPercentage])]
  }

  lemma CoursesKnownPrefix(rows: seq<CombinedRow>, courses: seq<string>, n: nat)
    requires CoursesKnown(rows, courses) && n <= |rows|
    ensures CoursesKnown(rows[..n], courses)
  {
    assert forall i :: 0 <= i < n ==> rows[..n][i] == rows[i];
  }

  /** A level has an entry exactly when some row has that level. */
  lemma {:induction false} BloomsKeys(rows: seq<CombinedRow>, courses: seq<string>)
    requires CoursesKnown(rows, courses)
    ensures forall l :: l in BloomsOf(rows, courses) <==> exists i :: 0 <= i < |rows| && rows[i].level == l
    decreases |rows|
  {
    if |rows| > 0 {
      var p := rows[..|rows| - 1];
      CoursesKnownPrefix(rows, courses, |rows| - 1);
      BloomsKeys(p, courses);
      forall l ensures l in BloomsOf(rows, courses) <==> exists i :: 0 <= i < |rows| && rows[i].level == l {
        if exists i :: 0 <= i < |rows| && rows[i].level == l {
          var i :| 0 <= i < |rows| && rows[i].level == l;
          if i < |p| { assert p[i] == rows[i]; }
        }
        if exists i :: 0 <= i < |p| && p[i].level == l {
          var i :| 0 <= i < |p| && p[i].level == l;
          assert rows[i] == p[i];
        }
      }
    }
  }

  /** At a course's index, a level holds the values of the last row of that level and course. */
  lemma {:induction false} BloomsLastWins(rows: seq<CombinedRow>, courses: seq<string>, j: nat)
    requires CoursesKnown(rows, courses) && j < |rows|
    requires forall i :: j < i < |rows| ==> rows[i].level != rows[j].level || rows[i].course != rows[j].course
    ensures var m := BloomsOf(rows, courses);
      var k := IndexOf(courses, rows[j].course);
      && rows[j].level in m
      && m[rows[j].level].raw[k] == rows[j].rawScoreSum
      && m[rows[j].level].accuracy[k] == rows[j].accuracyPercentage
      && m[rows[j].level].contribution[k] == rows[j].contributionPercentage
    decreases |rows|
  {
    var p := rows[..|rows| - 1];
    CoursesKnownPrefix(rows, courses, |rows| - 1);
    if j < |rows| - 1 {
      assert forall i :: j < i < |p| ==> p[i] == rows[i];
      BloomsLastWins(p, courses, j);
      assert p[j] == rows[j];
      var x := rows[|rows| - 1];
      assert IndexOf(courses, x.course) != IndexOf(courses, rows[j].course) || x.level != rows[j].level;
    }
  }

  /** A course that no row of a level names stays 0 in each of that level's lists. */
  lemma {:induction false} BloomsAbsentCourse(rows: seq<CombinedRow>, courses: seq<string>, l: string, k: nat)
    requires CoursesKnown(rows, courses) && k < |courses|
    requires l in BloomsOf(rows, courses)
    requires forall i :: 0 <= i < |rows| && rows[i].level == l ==> rows[i].course != courses[k]
    ensures BloomsOf(rows, courses)[l].raw[k] == 0
    ensures BloomsOf(rows, courses)[l].accuracy[k] == Zero
    ensures BloomsOf(rows, courses)[l].contribution[k] == Zero
    decreases |rows|
  {
    var p := rows[..|rows| - 1];
    var x := rows[|rows| - 1];
    CoursesKnownPrefix(rows, courses, |rows| - 1);
    assert forall i :: 0 <= i < |p| ==> p[i] == rows[i];
    if l in BloomsOf(p, courses) {
      BloomsAbsentCourse(p, courses, l, k);
    }
    if x.level == l {
      assert IndexOf(courses, x.course) != k;
    }
  }

  /** The rows of type `t` of the combined frame, in frame order (`implode` keeps it). */
  function TypeGroup(combined: seq<CombinedRow>, t: string): (g: seq<CombinedRow>)
    ensures forall i :: 0 <= i < |g| ==> g[i].qtype == t && g[i] in combined
  {
    var g := Where(combined, CQType, t);
    WhereRows(combined, CQType, t);
    assert forall i :: 0 <= i < |g| ==> g[i] in multiset(combined);
    g
  }

  /** The object built for type `t`: its totals taken from its first row, and its levels. */
  function EntryOf(combined: seq<CombinedRow>, courses: seq<string>, t: string): (e: QTypeEntry)
    requires CoursesKnown(combined, courses)
    requires |TypeGroup(combined, t)| > 0
    ensures e.name == t
    ensures forall l :: l in e.blooms ==> |e.blooms[l].raw| == |courses| && |e.blooms[l].accuracy| == |courses| && |e.blooms[l].contribution| == |courses|
  {
    var g := TypeGroup(combined, t);
    assert CoursesKnown(g, courses) by {
      forall i | 0 <= i < |g| ensures g[i].course in courses {
        var j :| 0 <= j < |combined| && combined[j] == g[i];
      }
    }
    QTypeEntry(t, g[0].qtypeTotalRawScore, g[0].qtypeTotalMaxScore, BloomsOf(g, courses))
  }

  /** The course column, row by row. */
  function CourseColumn(rows: seq<CombinedRow>): (cs: seq<string>)
    ensures |cs| == |rows| && forall i :: 0 <= i < |rows| ==> cs[i] == rows[i].course
  {
    seq(|rows|, i requires 0 <= i < |rows| => rows[i].course)
  }

  /** `courses`: the distinct courses of the combined frame, sorted. */
  function Courses(combined: seq<CombinedRow>): (cs: seq<string>)
    ensures StrictlySorted(cs)
    ensures CoursesKnown(combined, cs)
    ensures forall c :: c in cs <==> exists i :: 0 <= i < |combined| && combined[i].course == c
  {
    var col := CourseColumn(combined);
    var cs := SortedUnique(col);
    assert forall i :: 0 <= i < |combined| ==> col[i] in cs;
    cs
  }

  predicate TypesPresent(combined: seq<CombinedRow>, ts: seq<string>)
  {
    forall i :: 0 <= i < |ts| ==> ts[i] in KeySet(combined, CQType)
  }

  lemma TypeGroupNonEmpty(combined: seq<CombinedRow>, t: string)
    requires t in KeySet(combined, CQType)
    ensures |TypeGroup(combined, t)| > 0
  {
    WherePresent(combined, CQType, t);
  }

  /** The objects `final_data` holds after the outer loop has processed the types `ts`. */
  function EntriesOf(combined: seq<CombinedRow>, courses: seq<string>, ts: seq<string>): (es: seq<QTypeEntry>)
    requires CoursesKnown(combined, courses) && TypesPresent(combined, ts)
    ensures |es| == |ts| && forall i :: 0 <= i < |ts| ==> es[i].name == ts[i]
    ensures forall i, l :: 0 <= i < |es| && l in es[i].blooms ==>
      |es[i].blooms[l].raw| == |courses| && |es[i].blooms[l].accuracy| == |courses| && |es[i].blooms[l].contribution| == |courses|
    decreases |ts|
  {
    if |ts| == 0 then []
    else
      TypeGroupNonEmpty(combined, ts[|ts| - 1]);
      EntriesOf(combined, courses, ts[..|ts| - 1]) + [EntryOf(combined, courses, ts[|ts| - 1])]
  }

  /** `restructure_for_plotly`, one object per type in the order the groups are visited. */
  function PlotlyOf(combined: seq<CombinedRow>): (out: seq<QTypeEntry>)
    ensures forall i, l :: 0 <= i < |out| && l in out[i].blooms ==>
      |out[i].blooms[l].raw| == |Courses(combined)|
      && |out[i].blooms[l].accuracy| == |Courses(combined)|
      && |out[i].blooms[l].contribution| == |Courses(combined)|
  {
    var courses := Courses(combined);
    var ts := Distinct(combined, CQType);
    EntriesOf(combined, courses, ts)
  }

  /** The inner loop of `restructure_for_plotly`: fills the per-course lists of each level of one type. */
  method BuildBlooms(group: seq<CombinedRow>, courses: seq<string>) returns (bloomsData: map<string, Blooms>)
    requires CoursesKnown(group, courses)
    ensures bloomsData == BloomsOf(group, courses)
  {
    bloomsData := map[];
    for j := 0 to |group|
      invariant CoursesKnown(group[..j], courses)
      invariant bloomsData == BloomsOf(group[..j], courses)
    {
      var row := group[j];
      if row.level !in bloomsData {
        bloomsData := bloomsData[row.level := EmptyBlooms(|courses|)];
      }
      var courseIndex := IndexOf(courses, row.course);
      var b := bloomsData[row.level];
      bloomsData := bloomsData[row.level := Blooms(
        b.raw[courseIndex := row.rawScoreSum],
        b.accuracy[courseIndex := row.accuracyPercentage],
        b.contribution[courseIndex := row.contributionPercentage])];
      assert group[..j + 1][..j] == group[..j];
      CoursesKnownPrefix(group, courses, j + 1);
    }
    assert group[..|group|] == group;
  }

  /** `restructure_for_plotly`: build each type's per-level lists, then append its object. */
  method RestructureForPlotly(combined: seq<CombinedRow>) returns (finalData: seq<QTypeEntry>)
    ensures finalData == PlotlyOf(combined)
  {
    var courses := Courses(combined);
    var qtypes := Distinct(combined, CQType);
    finalData := [];
    for q := 0 to |qtypes|
      invariant finalData == EntriesOf(combined, courses, qtypes[..q])
    {
      var t := qtypes[q];
      var group := TypeGroup(combined, t);
      TypeGroupNonEmpty(combined, t);
      GroupCoursesKnown(combined, courses, t);
      var bloomsData := BuildBlooms(group, courses);
      EntriesStep(combined, courses, qtypes, q);
      finalData := finalData + [QTypeEntry(t, group[0].qtypeTotalRawScore, group[0].qtypeTotalMaxScore, bloomsData)];
    }
    assert qtypes[..|qtypes|] == qtypes;
  }

  /** The rows of one type are rows of the frame, so their courses are among the frame's. */
  lemma GroupCoursesKnown(combined: seq<CombinedRow>, courses: seq<string>, t: string)
    requires CoursesKnown(combined, courses)
    ensures CoursesKnown(TypeGroup(combined, t), courses)
  {
    var group := TypeGroup(combined, t);
    forall i | 0 <= i < |group| ensures group[i].course in courses {
      var j :| 0 <= j < |combined| && combined[j] == group[i];
    }
  }

  /** One more iteration of the outer loop appends the object of the next type. */
  lemma EntriesStep(combined: seq<CombinedRow>, courses: seq<string>, ts: seq<string>, q: nat)
    requires CoursesKnown(combined, courses) && TypesPresent(combined, ts) && q < |ts|
    ensures TypesPresent(combined, ts[..q]) && TypesPresent(combined, ts[..q + 1])
    ensures |TypeGroup(combined, ts[q])| > 0
    ensures EntriesOf(combined, courses, ts[..q + 1]) == EntriesOf(combined, courses, ts[..q]) + [EntryOf(combined, courses, ts[q])]
  {
    TypeGroupNonEmpty(combined, ts[q]);
    assert ts[..q + 1][..q] == ts[..q];
  }

  /** One object per question type of the frame, each type once. */
  lemma PlotlyOneEntryPerType(combined: seq<CombinedRow>)
    ensures var out := PlotlyOf(combined);
      && (forall i, j :: 0 <= i < j < |out| ==> out[i].name != out[j].name)
      && (forall t :: t in KeySet(combined, CQType) ==> exists i :: 0 <= i < |out| && out[i].name == t)
      && (forall i :: 0 <= i < |out| ==> out[i].name in KeySet(combined, CQType))
  {
    var ts := Distinct(combined, CQType);
    var out := PlotlyOf(combined);
    forall t | t in KeySet(combined, CQType) ensures exists i :: 0 <= i < |out| && out[i].name == t {
      var i := IndexOf(ts, t);
      assert out[i].name == t;
    }
  }

  /** The object of a type: its totals from the type's first row and its levels from the type's rows. */
  lemma PlotlyEntryShape(combined: seq<CombinedRow>, i: nat)
    requires i < |PlotlyOf(combined)|
    ensures var e := PlotlyOf(combined)[i];
      var g := TypeGroup(combined, e.name);
      && |g| > 0
      && e.rawScoreSum == g[0].qtypeTotalRawScore && e.maxScoreSum == g[0].qtypeTotalMaxScore
      && e.blooms == BloomsOf(g, Courses(combined))
  {
    EntriesAt(combined, Courses(combined), Distinct(combined, CQType), i);
  }

  lemma {:induction false} EntriesAt(combined: seq<CombinedRow>, courses: seq<string>, ts: seq<string>, i: nat)
    requires CoursesKnown(combined, courses) && TypesPresent(combined, ts) && i < |ts|
    ensures |TypeGroup(combined, ts[i])| > 0
    ensures EntriesOf(combined, courses, ts)[i] == EntryOf(combined, courses, ts[i])
    decreases |ts|
  {
    TypeGroupNonEmpty(combined, ts[i]);
    if i < |ts| - 1 {
      EntriesAt(combined, courses, ts[..|ts| - 1], i);
    }
  }

  function Triple(c: CombinedRow): LongKey { LongKey(c.course, c.qtype, c.level) }

  /** No two rows share a (course, type, level) triple, as after the first group-by. */
  predicate TriplesUnique(rows: seq<CombinedRow>)
  {
    forall i, j :: 0 <= i < j < |rows| ==> Triple(rows[i]) != Triple(rows[j])
  }

  lemma GroupTriplesUnique(combined: seq<CombinedRow>, t: string)
    requires TriplesUnique(combined)
    ensures TriplesUnique(TypeGroup(combined, t))
  {
    var g := TypeGroup(combined, t);
    WhereRows(combined, CQType, t);
    SubNoDuplicates(g, combined);
    forall a, b | 0 <= a < b < |g| ensures Triple(g[a]) != Triple(g[b]) {
      var x :| 0 <= x < |combined| && combined[x] == g[a];
      var y :| 0 <= y < |combined| && combined[y] == g[b];
      assert g[a] != g[b];
    }
  }

  lemma GroupCell(combined: seq<CombinedRow>, r: CombinedRow)
    requires TriplesUnique(combined) && r in combined
    ensures CoursesKnown(TypeGroup(combined, r.qtype), Courses(combined))
    ensures var m := BloomsOf(TypeGroup(combined, r.qtype), Courses(combined));
      var k := IndexOf(Courses(combined), r.course);
      && r.level in m
      && m[r.level].raw[k] == r.rawScoreSum
      && m[r.level].accuracy[k] == r.accuracyPercentage
      && m[r.level].contribution[k] == r.contributionPercentage
  {
    var g := TypeGroup(combined, r.qtype);
    GroupCoursesKnown(combined, Courses(combined), r.qtype);
    WhereKeeps(combined, CQType, r.qtype, r);
    assert r in multiset(g);
    var jj :| 0 <= jj < |g| && g[jj] == r;
    GroupTriplesUnique(combined, r.qtype);
    forall a | jj < a < |g| ensures g[a].level != g[jj].level || g[a].course != g[jj].course {
      assert Triple(g[a]) != Triple(g[jj]);
    }
    BloomsLastWins(g, Courses(combined), jj);
  }

  /** Some object of `out` is type `t`, has level `l`, and holds the three values at course index `k`. */
  predicate ShowsAt(out: seq<QTypeEntry>, t: string, l: string, k: nat, raw: int, accuracy: Fraction, contribution: Fraction)
  {
    exists i :: 0 <= i < |out| && out[i].name == t && l in out[i].blooms
      && k < |out[i].blooms[l].raw| && k < |out[i].blooms[l].accuracy| && k < |out[i].blooms[l].contribution|
      && out[i].blooms[l].raw[k] == raw
      && out[i].blooms[l].accuracy[k] == accuracy
      && out[i].blooms[l].contribution[k] == contribution
  }

  /**
   * With unique triples, every row of the combined frame shows up in the
   * object of its type, under its level, at its course's index: its raw
   * score, accuracy and contribution.
   */
  lemma PlotlyCell(combined: seq<CombinedRow>, j: nat)
    requires TriplesUnique(combined) && j < |combined|
    ensures var r := combined[j];
      ShowsAt(PlotlyOf(combined), r.qtype, r.level, IndexOf(Courses(combined), r.course),
        r.rawScoreSum, r.accuracyPercentage, r.contributionPercentage)
  {
    var r := combined[j];
    var ts := Distinct(combined, CQType);
    assert CQType(combined[j]) in KeySet(combined, CQType);
    var i := IndexOf(ts, r.qtype);
    PlotlyEntryShape(combined, i);
    GroupCell(combined, r);
  }

  /** A course with no row of a type and level stays 0 in that level's lists. */
  lemma PlotlyAbsentCourse(combined: seq<CombinedRow>, i: nat, l: string, k: nat)
    requires i < |PlotlyOf(combined)| && l in PlotlyOf(combined)[i].blooms && k < |Courses(combined)|
    requires forall j :: 0 <= j < |combined| ==> Triple(combined[j]) != LongKey(Courses(combined)[k], PlotlyOf(combined)[i].name, l)
    ensures PlotlyOf(combined)[i].blooms[l].raw[k] == 0
    ensures PlotlyOf(combined)[i].blooms[l].accuracy[k] == Zero
    ensures PlotlyOf(combined)[i].blooms[l].contribution[k] == Zero
  {
    var e := PlotlyOf(combined)[i];
    var courses := Courses(combined);
    PlotlyEntryShape(combined, i);
    var g := TypeGroup(combined, e.name);
    GroupCoursesKnown(combined, courses, e.name);
    forall a | 0 <= a < |g| && g[a].level == l ensures g[a].course != courses[k] {
      var x :| 0 <= x < |combined| && combined[x] == g[a];
      assert Triple(combined[x]) != LongKey(courses[k], e.name, l);
    }
    BloomsAbsentCourse(g, courses, l, k);
  }

  /** The combined frame of the strategy has one row per (course, type, level) group of the exam frame. */
  lemma CombinedTriples(df: seq<Row>)
    ensures TriplesUnique(CombinedFrame(LongFrame(df)))
    ensures |CombinedFrame(LongFrame(df))| == |Distinct(df, CourseTypeLevel)|
    ensures forall j :: 0 <= j < |CombinedFrame(LongFrame(df))| ==> Triple(CombinedFrame(LongFrame(df))[j]) == Distinct(df, CourseTypeLevel)[j]
  {
  }

  /** The result of the strategy: the restructured combined frame. */
  function TypesWithLevelsOf(df: seq<Row>): (out: seq<QTypeEntry>)
    ensures forall i, j :: 0 <= i < j < |out| ==> out[i].name != out[j].name
    ensures forall t :: t in KeySet(df, QuestionType) <==> exists i :: 0 <= i < |out| && out[i].name == t
  {
    PlotlyOneEntryPerType(CombinedFrame(LongFrame(df)));
    CombinedTypes(df);
    PlotlyOf(CombinedFrame(LongFrame(df)))
  }

  /** The combined frame has exactly the question types of the exam frame. */
  lemma CombinedTypes(df: seq<Row>)
    ensures KeySet(CombinedFrame(LongFrame(df)), CQType) == KeySet(df, QuestionType)
  {
    CombinedKeepsTypes(LongFrame(df));
    LongTypes(df);
  }

  /** The join keeps each long row's type. */
  lemma CombinedKeepsTypes(long: seq<LongRow>)
    ensures KeySet(CombinedFrame(long), CQType) == KeySet(long, LongQType)
  {
    var combined := CombinedFrame(long);
    assert forall j :: 0 <= j < |long| ==> CQType(combined[j]) == LongQType(long[j]);
  }

  /** `df_long` has exactly the question types of the exam frame. */
  lemma LongTypes(df: seq<Row>)
    ensures KeySet(LongFrame(df), LongQType) == KeySet(df, QuestionType)
  {
    var long := LongFrame(df);
    forall t | t in KeySet(long, LongQType) ensures t in KeySet(df, QuestionType) {
      var j :| 0 <= j < |long| && LongQType(long[j]) == t;
      var k := LongKey(long[j].course, long[j].qtype, long[j].level);
      var i :| 0 <= i < |df| && CourseTypeLevel(df[i]) == k;
      assert QuestionType(df[i]) == t;
    }
    forall t | t in KeySet(df, QuestionType) ensures t in KeySet(long, LongQType) {
      var i :| 0 <= i < |df| && QuestionType(df[i]) == t;
      assert CourseTypeLevel(df[i]) in KeySet(df, CourseTypeLevel);
      var j :| 0 <= j < |long| && long[j].qtype == t;
      assert LongQType(long[j]) == t;
    }
  }

  /** The combined row of the `j`-th group, in terms of the exam frame. */
  lemma CombinedAt(df: seq<Row>, j: nat)
    requires j < |Distinct(df, CourseTypeLevel)|
    ensures j < |CombinedFrame(LongFrame(df))|
    ensures var key := Distinct(df, CourseTypeLevel)[j];
      var c := CombinedFrame(LongFrame(df))[j];
      && Triple(c) == key
      && c.rawScoreSum == SumWhere(df, CourseTypeLevel, key, PointsObtained)
      && c.accuracyPercentage
           == GuardedPercentage(SumWhere(df, CourseTypeLevel, key, PointsObtained), SumWhere(df, CourseTypeLevel, key, QuestionPoints))
      && c.contributionPercentage
           == GuardedPercentage(SumWhere(df, CourseTypeLevel, key, PointsObtained), SumWhere(df, QuestionType, key.qtype, PointsObtained))
  {
    var long := LongFrame(df);
    var key := Distinct(df, CourseTypeLevel)[j];
    assert long[j] == LongRowOf(df, key);
    QTypeTotalsAreTypeSums(df, key.qtype);
  }

  /**
   * Every (course, type, level) group of the exam frame appears in the
   * object of its type, under its level, at its course's index in the sorted
   * course list: its summed points, its guarded accuracy, and its guarded
   * contribution to its type's total.
   */
  lemma TypesWithLevelsCell(df: seq<Row>, key: LongKey)
    requires key in KeySet(df, CourseTypeLevel)
    ensures var courses := Courses(CombinedFrame(LongFrame(df)));
      && key.course in courses
      && ShowsAt(TypesWithLevelsOf(df), key.qtype, key.level, IndexOf(courses, key.course),
           SumWhere(df, CourseTypeLevel, key, PointsObtained),
           GuardedPercentage(SumWhere(df, CourseTypeLevel, key, PointsObtained), SumWhere(df, CourseTypeLevel, key, QuestionPoints)),
           GuardedPercentage(SumWhere(df, CourseTypeLevel, key, PointsObtained), SumWhere(df, QuestionType, key.qtype, PointsObtained)))
  {
    var combined := CombinedFrame(LongFrame(df));
    var j := IndexOf(Distinct(df, CourseTypeLevel), key);
    CombinedTriples(df);
    CombinedAt(df, j);
    var r := combined[j];
    assert Triple(r) == key;
    PlotlyCell(combined, j);
  }

  /** Each object's totals are the sums over all rows of the frame of its type. */
  lemma TypesWithLevelsTotals(df: seq<Row>, i: nat)
    requires i < |TypesWithLevelsOf(df)|
    ensures var e := TypesWithLevelsOf(df)[i];
      && e.rawScoreSum == SumWhere(df, QuestionType, e.name, PointsObtained)
      && e.maxScoreSum == SumWhere(df, QuestionType, e.name, QuestionPoints)
  {
    var combined := CombinedFrame(LongFrame(df));
    PlotlyEntryShape(combined, i);
    var e := PlotlyOf(combined)[i];
    var g := TypeGroup(combined, e.name);
    var x :| 0 <= x < |combined| && combined[x] == g[0];
    CombinedRowMeaning(df, x);
  }

  /** The course axis: each course of the exam frame once, in ascending order. */
  lemma TypesWithLevelsCourses(df: seq<Row>)
    ensures var cs := Courses(CombinedFrame(LongFrame(df)));
      StrictlySorted(cs) && forall c :: c in cs <==> c in KeySet(df, CourseAbbreviation)
  {
    var combined := CombinedFrame(LongFrame(df));
    forall c ensures c in Courses(combined) <==> c in KeySet(df, CourseAbbreviation) {
      if c in Courses(combined) {
        CourseOfCombinedRow(df, c);
      }
      if c in KeySet(df, CourseAbbreviation) {
        CombinedRowOfCourse(df, c);
      }
    }
  }

  lemma CourseOfCombinedRow(df: seq<Row>, c: string)
    requires c in Courses(CombinedFrame(LongFrame(df)))
    ensures c in KeySet(df, CourseAbbreviation)
  {
    var combined := CombinedFrame(LongFrame(df));
    var ks := Distinct(df, CourseTypeLevel);
    CombinedTriples(df);
    var j :| 0 <= j < |combined| && combined[j].course == c;
    assert Triple(combined[j]) == ks[j];
    assert ks[j] in KeySet(df, CourseTypeLevel);
    var x :| 0 <= x < |df| && CourseTypeLevel(df[x]) == ks[j];
    assert CourseAbbreviation(df[x]) == c;
  }

  lemma CombinedRowOfCourse(df: seq<Row>, c: string)
    requires c in KeySet(df, CourseAbbreviation)
    ensures c in Courses(CombinedFrame(LongFrame(df)))
  {
    var combined := CombinedFrame(LongFrame(df));
    var ks := Distinct(df, CourseTypeLevel);
    CombinedTriples(df);
    var x :| 0 <= x < |df| && CourseAbbreviation(df[x]) == c;
    assert CourseTypeLevel(df[x]) in KeySet(df, CourseTypeLevel);
    var j := IndexOf(ks, CourseTypeLevel(df[x]));
    assert Triple(combined[j]) == ks[j];
    assert combined[j].course == c;
  }

  /** `calculate`: aggregate, join, compute the percentages, restructure. */
  method CalculateByTypeWithLevels(df: seq<Row>) returns (r: seq<QTypeEntry>)
    ensures r == TypesWithLevelsOf(df)
  {
    var long := LongFrame(df);
    var combined := CombinedFrame(long);
    r := RestructureForPlotly(combined);
  }
}
