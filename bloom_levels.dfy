/**
 * The Bloom-taxonomy order the exam overview sorts question levels by
 * (`sorted(levels, key=LEVEL_ORDER.index)`), with the `ValueError` that
 * `index` raises for a level outside the taxonomy. The sort is written for
 * any duplicate-free `order` list and used with the taxonomy.
 */
module BloomLevels {
  import opened Frames
  import opened Wrappers
  import opened ExamFrame

  const LevelOrder: seq<string> := ["remember", "understand", "apply", "analyze", "evaluate", "create"]

  lemma LevelOrderNoDuplicates()
    ensures NoDuplicates(LevelOrder)
  {
  }

  /** `order.index(l)`. */
  function Rank(order: seq<string>, l: string): (i: nat)
    requires l in order
    ensures i < |order| && order[i] == l
  {
    IndexOf(order, l)
  }

  /** In a duplicate-free order, the level at position `j` has rank `j`. */
  lemma RankOfIndex(order: seq<string>, j: nat)
    requires NoDuplicates(order) && j < |order|
    ensures Rank(order, order[j]) == j
  {
  }

  predicate AllKnown(order: seq<string>, s: seq<string>)
  {
    forall i :: 0 <= i < |s| ==> s[i] in order
  }

  /** Non-decreasing in rank: what a stable sort by rank produces. */
  predicate Ranked(order: seq<string>, s: seq<string>)
  {
    AllKnown(order, s) && forall i, j :: 0 <= i < j < |s| ==> Rank(order, s[i]) <= Rank(order, s[j])
  }

  /** Strictly increasing in rank: each level at most once, in order. */
  predicate StrictlyRanked(order: seq<string>, s: seq<string>)
  {
    AllKnown(order, s) && forall i, j :: 0 <= i < j < |s| ==> Rank(order, s[i]) < Rank(order, s[j])
  }

  /** Every element of `s` is a known level of rank at least `k` (strictly above `k` when `strict`). */
  predicate RankAbove(order: seq<string>, s: seq<string>, k: nat, strict: bool)
  {
    AllKnown(order, s) && forall j :: 0 <= j < |s| ==> if strict then k < Rank(order, s[j]) else k <= Rank(order, s[j])
  }

  /** A rank bound on the elements of `u` and on `x` carries over to any list with the elements of `u` plus `x`. */
  lemma RankAboveMultiset(order: seq<string>, t: seq<string>, u: seq<string>, x: string, k: nat, strict: bool)
    requires RankAbove(order, u, k, strict) && x in order && (if strict then k < Rank(order, x) else k <= Rank(order, x))
    requires multiset(t) == multiset(u) + multiset{x}
    ensures RankAbove(order, t, k, strict)
  {
    forall j | 0 <= j < |t| ensures t[j] in order && if strict then k < Rank(order, t[j]) else k <= Rank(order, t[j]) {
      assert t[j] in multiset(t);
      if t[j] != x {
        assert t[j] in multiset(u);
        var i :| 0 <= i < |u| && u[i] == t[j];
      }
    }
  }

  lemma RankedCons(order: seq<string>, a: string, t: seq<string>, strict: bool)
    requires a in order && RankAbove(order, t, Rank(order, a), strict)
    requires if strict then StrictlyRanked(order, t) else Ranked(order, t)
    ensures if strict then StrictlyRanked(order, [a] + t) else Ranked(order, [a] + t)
  {
    var s := [a] + t;
    forall i, j | 0 <= i < j < |s|
      ensures s[i] in order && s[j] in order && if strict then Rank(order, s[i]) < Rank(order, s[j]) else Rank(order, s[i]) <= Rank(order, s[j])
    {
      assert s[j] == t[j - 1];
      if i > 0 { assert s[i] == t[i - 1]; }
    }
  }

  lemma RankedTail(order: seq<string>, s: seq<string>, strict: bool)
    requires |s| > 0
    requires if strict then StrictlyRanked(order, s) else Ranked(order, s)
    ensures if strict then StrictlyRanked(order, s[1..]) else Ranked(order, s[1..])
    ensures RankAbove(order, s[1..], Rank(order, s[0]), strict)
  {
    forall j | 0 <= j < |s[1..]| ensures s[1..][j] == s[j + 1] {}
  }

  /** A level ranked below the head of a ranked list can go in front of it. */
  lemma RankedPrepend(order: seq<string>, x: string, s: seq<string>, strict: bool)
    requires |s| > 0 && x in order && Ranked(order, s) && Rank(order, x) < Rank(order, s[0])
    requires strict ==> StrictlyRanked(order, s)
    ensures if strict then StrictlyRanked(order, [x] + s) else Ranked(order, [x] + s)
  {
    forall j | 0 <= j < |s| ensures Rank(order, x) < Rank(order, s[j]) {
      assert Rank(order, s[0]) <= Rank(order, s[j]);
    }
    RankedCons(order, x, s, strict);
  }

  /** Inserts `x` after every element of rank at most its own (one step of a stable insertion sort). */
  function Insert(order: seq<string>, s: seq<string>, x: string): (r: seq<string>)
    requires Ranked(order, s) && x in order
    ensures Ranked(order, r)
    ensures multiset(r) == multiset(s) + multiset{x}
    decreases |s|
  {
    if |s| == 0 then [x]
    else if Rank(order, x) < Rank(order, s[0]) then
      RankedPrepend(order, x, s, false);
      [x] + s
    else
      var t := Insert(order, s[1..], x);
      assert s == [s[0]] + s[1..];
      RankedTail(order, s, false);
      RankAboveMultiset(order, t, s[1..], x, Rank(order, s[0]), false);
      RankedCons(order, s[0], t, false);
      [s[0]] + t
  }

  /** Inserting a new level into a strictly ranked list keeps it strictly ranked. */
  lemma {:induction false} InsertStrict(order: seq<string>, s: seq<string>, x: string)
    requires StrictlyRanked(order, s) && x in order && x !in s
    ensures StrictlyRanked(order, Insert(order, s, x))
    decreases |s|
  {
    assert Ranked(order, s);
    if |s| == 0 {
    } else if Rank(order, x) < Rank(order, s[0]) {
      RankedPrepend(order, x, s, true);
    } else {
      var t := Insert(order, s[1..], x);
      assert s == [s[0]] + s[1..];
      RankedTail(order, s, true);
      InsertStrict(order, s[1..], x);
      RankAboveMultiset(order, t, s[1..], x, Rank(order, s[0]), true);
      RankedCons(order, s[0], t, true);
    }
  }

  /** Stable insertion sort by rank. */
  function SortLevels(order: seq<string>, xs: seq<string>): (r: seq<string>)
    requires AllKnown(order, xs)
    ensures Ranked(order, r)
    ensures multiset(r) == multiset(xs)
    ensures NoDuplicates(xs) ==> StrictlyRanked(order, r)
    decreases |xs|
  {
    if |xs| == 0 then []
    else
      var p := xs[..|xs| - 1];
      var x := xs[|xs| - 1];
      assert xs == p + [x];
      var s := SortLevels(order, p);
      assert NoDuplicates(xs) ==> x !in p;
      assert x !in p ==> x !in multiset(s);
      if NoDuplicates(xs) then InsertStrict(order, s, x); Insert(order, s, x) else Insert(order, s, x)
  }

  /** The first element of `xs` outside `order`, if any: the one whose `index` call raises. */
  function FirstUnknown(order: seq<string>, xs: seq<string>): (u: Option<string>)
    ensures u.None? <==> AllKnown(order, xs)
    ensures u.Some? ==> exists i :: 0 <= i < |xs| && xs[i] == u.value && xs[i] !in order && AllKnown(order, xs[..i])
    decreases |xs|
  {
    if |xs| == 0 then None
    else if xs[0] !in order then
      assert xs[..0] == [];
      Some(xs[0])
    else
      var u := FirstUnknown(order, xs[1..]);
      assert u.None? ==> AllKnown(order, xs) by {
        if u.None? {
          forall i | 0 <= i < |xs| ensures xs[i] in order {
            if i > 0 { assert xs[i] == xs[1..][i - 1]; }
          }
        }
      }
      assert u.Some? ==> exists i :: 0 <= i < |xs| && xs[i] == u.value && xs[i] !in order && AllKnown(order, xs[..i]) by {
        if u.Some? {
          var i :| 0 <= i < |xs[1..]| && xs[1..][i] == u.value && xs[1..][i] !in order && AllKnown(order, xs[1..][..i]);
          assert xs[..i + 1] == [xs[0]] + xs[1..][..i];
          assert xs[i + 1] == u.value;
        }
      }
      u
  }

  /** `sorted(xs, key=order.index)`: fails on the first element outside `order`. */
  function SortByIndex(order: seq<string>, xs: seq<string>): (r: Result<seq<string>, ReportError>)
    ensures r.Success? <==> AllKnown(order, xs)
    ensures r.Success? ==> Ranked(order, r.value) && multiset(r.value) == multiset(xs)
    ensures r.Failure? ==> r.error.LevelNotInOrder? && exists i :: 0 <= i < |xs| && xs[i] == r.error.level && xs[i] !in order && AllKnown(order, xs[..i])
  {
    match FirstUnknown(order, xs)
    case Some(l) => Failure(LevelNotInOrder(l))
    case None => Success(SortLevels(order, xs))
  }

  /** `sorted(xs, key=LEVEL_ORDER.index)`. */
  function SortByLevel(xs: seq<string>): Result<seq<string>, ReportError>
  {
    SortByIndex(LevelOrder, xs)
  }

  /** The levels of `order` from position `k` on that are in `levels`, in order. */
  function LevelsFrom(order: seq<string>, k: nat, levels: set<string>): (r: seq<string>)
    requires NoDuplicates(order) && k <= |order|
    ensures StrictlyRanked(order, r)
    ensures forall i :: 0 <= i < |r| ==> r[i] in levels && k <= Rank(order, r[i])
    ensures forall l :: l in levels && l in order && k <= Rank(order, l) ==> l in r
    decreases |order| - k
  {
    if k == |order| then []
    else
      var t := LevelsFrom(order, k + 1, levels);
      RankOfIndex(order, k);
      if order[k] in levels then
        RankedCons(order, order[k], t, true);
        [order[k]] + t
      else t
  }

  /** The reference meaning of the sorted level list: the taxonomy, restricted to the levels present. */
  function InLevelOrder(levels: set<string>): seq<string>
  {
    LevelOrderNoDuplicates();
    LevelsFrom(LevelOrder, 0, levels)
  }

  /** Two strictly ranked lists with the same elements are the same list. */
  lemma {:induction false} StrictlyRankedUnique(order: seq<string>, a: seq<string>, b: seq<string>)
    requires StrictlyRanked(order, a) && StrictlyRanked(order, b)
    requires forall x :: x in a <==> x in b
    ensures a == b
    decreases |a|
  {
    assert |a| > 0 ==> a[0] in b;
    assert |b| > 0 ==> b[0] in a;
    if |a| > 0 {
      assert a[0] in a;
      assert b[0] in b;
      var i :| 0 <= i < |a| && a[i] == b[0];
      var j :| 0 <= j < |b| && b[j] == a[0];
      assert Rank(order, a[0]) <= Rank(order, a[i]);
      assert Rank(order, b[0]) <= Rank(order, b[j]);
      RankedTail(order, a, true);
      RankedTail(order, b, true);
      forall x ensures x in a[1..] <==> x in b[1..] {
        if x in a[1..] {
          var k :| 0 <= k < |a[1..]| && a[1..][k] == x;
          assert x in b;
          assert x != b[0];
        }
        if x in b[1..] {
          var k :| 0 <= k < |b[1..]| && b[1..][k] == x;
          assert x in a;
          assert x != a[0];
        }
      }
      StrictlyRankedUnique(order, a[1..], b[1..]);
      assert a == [a[0]] + a[1..];
      assert b == [b[0]] + b[1..];
    }
  }

  /**
   * Sorting a list of distinct known levels (whatever order `unique()` gave
   * them in) yields the taxonomy restricted to those levels: each level once,
   * remember < understand < apply < analyze < evaluate < create.
   */
  lemma SortByLevelIsTaxonomyOrder(xs: seq<string>)
    requires NoDuplicates(xs) && AllKnown(LevelOrder, xs)
    ensures SortByLevel(xs) == Success(InLevelOrder(set x | x in xs))
  {
    LevelOrderNoDuplicates();
    var r := SortLevels(LevelOrder, xs);
    var levels := set x | x in xs;
    var t := InLevelOrder(levels);
    forall x ensures x in r <==> x in t {
      assert x in r <==> x in multiset(xs);
      if x in xs {
        var i :| 0 <= i < |xs| && xs[i] == x;
        assert x in LevelOrder;
      }
    }
    StrictlyRankedUnique(LevelOrder, r, t);
  }
}
