/**
 * A data frame is modelled as a sequence of rows. This module holds the
 * generic group-by vocabulary the report strategies are written in: sums,
 * filters, distinct keys, grouped sums and grouped maxima. Every grouped
 * result is a map (a group-by does not fix an output order), and every map is
 * tied to a row-by-row reference definition.
 */
module Frames {

  /** The sum of `val` over all rows (an integer column's `sum()`). */
  function Sum<R>(rows: seq<R>, val: R -> int): int
    decreases |rows|
  {
    if |rows| == 0 then 0 else Sum(rows[..|rows| - 1], val) + val(rows[|rows| - 1])
  }

  /** The rows whose `key` column equals `k`, in frame order (a `filter`). */
  function Where<R, K(==)>(rows: seq<R>, key: R -> K, k: K): seq<R>
    decreases |rows|
  {
    if |rows| == 0 then []
    else
      var p := Where(rows[..|rows| - 1], key, k);
      if key(rows[|rows| - 1]) == k then p + [rows[|rows| - 1]] else p
  }

  /** The sum of `val` over the rows of group `k`: the reference meaning of a grouped `sum()`. */
  function SumWhere<R, K(==)>(rows: seq<R>, key: R -> K, k: K, val: R -> int): int
  {
    Sum(Where(rows, key, k), val)
  }

  /** The distinct values of the `key` column (a column's `unique()`, as a set). */
  function KeySet<R, K(==)>(rows: seq<R>, key: R -> K): set<K>
  {
    set i | 0 <= i < |rows| :: key(rows[i])
  }

  /** A column's `n_unique()`. */
  function NUnique<R, K(==)>(rows: seq<R>, key: R -> K): nat
  {
    |KeySet(rows, key)|
  }

  /** No value occurs twice in `ks`. */
  predicate NoDuplicates<K(==)>(ks: seq<K>)
  {
    forall i, j :: 0 <= i < j < |ks| ==> ks[i] != ks[j]
  }

  lemma SumAppend<R>(rows: seq<R>, x: R, val: R -> int)
    ensures Sum(rows + [x], val) == Sum(rows, val) + val(x)
  {
    assert (rows + [x])[..|rows|] == rows;
  }

  lemma WhereAppend<R, K>(rows: seq<R>, x: R, key: R -> K, k: K)
    ensures Where(rows + [x], key, k) == if key(x) == k then Where(rows, key, k) + [x] else Where(rows, key, k)
  {
    assert (rows + [x])[..|rows|] == rows;
  }

  /** Adding one row adds its value to the sum of its own group and to no other. */
  lemma SumWhereAppend<R, K>(rows: seq<R>, x: R, key: R -> K, k: K, val: R -> int)
    ensures SumWhere(rows + [x], key, k, val) == SumWhere(rows, key, k, val) + (if key(x) == k then val(x) else 0)
  {
    WhereAppend(rows, x, key, k);
    if key(x) == k {
      SumAppend(Where(rows, key, k), x, val);
    }
  }

  lemma KeySetAppend<R, K>(rows: seq<R>, x: R, key: R -> K)
    ensures KeySet(rows + [x], key) == KeySet(rows, key) + {key(x)}
  {
    var s := rows + [x];
    forall k | k in KeySet(s, key) ensures k in KeySet(rows, key) + {key(x)} {
      var i :| 0 <= i < |s| && key(s[i]) == k;
      if i < |rows| {
        assert key(rows[i]) == k;
      }
    }
    forall k | k in KeySet(rows, key) ensures k in KeySet(s, key) {
      var i :| 0 <= i < |rows| && key(rows[i]) == k;
      assert s[i] == rows[i];
    }
    assert s[|rows|] == x;
  }

  /** Every row of a filter is a row of the frame and belongs to the group. */
  lemma {:induction false} WhereRows<R, K>(rows: seq<R>, key: R -> K, k: K)
    ensures forall j :: 0 <= j < |Where(rows, key, k)| ==> key(Where(rows, key, k)[j]) == k
    ensures multiset(Where(rows, key, k)) <= multiset(rows)
    decreases |rows|
  {
    if |rows| > 0 {
      var p := rows[..|rows| - 1];
      var x := rows[|rows| - 1];
      assert rows == p + [x];
      WhereRows(p, key, k);
      WhereAppend(p, x, key, k);
    }
  }

  /** A filter keeps every copy of every row of its group. */
  lemma {:induction false} WhereKeeps<R, K>(rows: seq<R>, key: R -> K, k: K, x: R)
    requires key(x) == k
    ensures multiset(Where(rows, key, k))[x] == multiset(rows)[x]
    decreases |rows|
  {
    if |rows| > 0 {
      var p := rows[..|rows| - 1];
      var y := rows[|rows| - 1];
      assert rows == p + [y];
      WhereKeeps(p, key, k, x);
      WhereAppend(p, y, key, k);
    }
  }

  lemma {:induction false} NoDuplicatesCount<T>(s: seq<T>, x: T)
    requires NoDuplicates(s)
    ensures multiset(s)[x] <= 1
    decreases |s|
  {
    if |s| > 0 {
      var p := s[..|s| - 1];
      var y := s[|s| - 1];
      assert s == p + [y];
      assert NoDuplicates(p);
      NoDuplicatesCount(p, x);
      if y == x {
        assert x !in p;
      }
    }
  }

  lemma TwiceCounted<T>(s: seq<T>, a: nat, b: nat)
    requires a < b < |s| && s[a] == s[b]
    ensures multiset(s)[s[a]] >= 2
  {
    assert s == s[..b] + [s[b]] + s[b + 1..];
    assert s[..b][a] == s[a];
    assert s[a] in multiset(s[..b]);
  }

  /** Every part of a duplicate-free sequence is duplicate-free. */
  lemma SubNoDuplicates<T>(s: seq<T>, t: seq<T>)
    requires NoDuplicates(t) && multiset(s) <= multiset(t)
    ensures NoDuplicates(s)
  {
    forall a, b | 0 <= a < b < |s| ensures s[a] != s[b] {
      if s[a] == s[b] {
        TwiceCounted(s, a, b);
        NoDuplicatesCount(t, s[a]);
        assert false;
      }
    }
  }

  /** A group that no row carries is empty, so its sum is 0. */
  lemma {:induction false} SumWhereAbsent<R, K>(rows: seq<R>, key: R -> K, k: K, val: R -> int)
    requires k !in KeySet(rows, key)
    ensures Where(rows, key, k) == []
    ensures SumWhere(rows, key, k, val) == 0
    decreases |rows|
  {
    if |rows| > 0 {
      var p := rows[..|rows| - 1];
      var x := rows[|rows| - 1];
      assert rows == p + [x];
      KeySetAppend(p, x, key);
      SumWhereAbsent(p, key, k, val);
    }
  }

  /**
   * A grouped sum (`group_by(key).agg(val.sum())`), computed as one pass over
   * the rows. It has one entry per distinct key, and each entry is the sum of
   * the values of exactly the rows of that group.
   */
  function GroupSum<R, K(==)>(rows: seq<R>, key: R -> K, val: R -> int): (m: map<K, int>)
    ensures m.Keys == KeySet(rows, key)
    ensures forall k :: k in m ==> m[k] == SumWhere(rows, key, k, val)
    decreases |rows|
  {
    if |rows| == 0 then map[]
    else
      var m := GroupSum(rows[..|rows| - 1], key, val);
      var x := rows[|rows| - 1];
      GroupSumStep(rows, key, val, m);
      AddTo(m, key(x), val(x))
  }

  /** One more row adds its value to its own group's entry, which starts at 0 when the group is new. */
  lemma GroupSumStep<R, K>(rows: seq<R>, key: R -> K, val: R -> int, m: map<K, int>)
    requires |rows| > 0
    requires m.Keys == KeySet(rows[..|rows| - 1], key)
    requires forall k :: k in m ==> m[k] == SumWhere(rows[..|rows| - 1], key, k, val)
    ensures AddTo(m, key(rows[|rows| - 1]), val(rows[|rows| - 1])).Keys == KeySet(rows, key)
    ensures var r := AddTo(m, key(rows[|rows| - 1]), val(rows[|rows| - 1]));
      forall k :: k in r ==> r[k] == SumWhere(rows, key, k, val)
  {
    var p := rows[..|rows| - 1];
    var x := rows[|rows| - 1];
    var r := AddTo(m, key(x), val(x));
    assert rows == p + [x];
    KeySetAppend(p, x, key);
    forall k | k in r ensures r[k] == SumWhere(rows, key, k, val) {
      SumWhereAppend(p, x, key, k, val);
      if k == key(x) && key(x) !in m {
        SumWhereAbsent(p, key, k, val);
      }
    }
  }

  /**
   * A grouped maximum (`group_by(key).agg(val.max())`). Each entry is the
   * value of some row of the group, and no row of the group exceeds it.
   */
  function GroupMax<R, K(==)>(rows: seq<R>, key: R -> K, val: R -> int): (m: map<K, int>)
    ensures m.Keys == KeySet(rows, key)
    ensures forall k :: k in m ==> exists i :: 0 <= i < |rows| && key(rows[i]) == k && val(rows[i]) == m[k]
    ensures forall i :: 0 <= i < |rows| ==> val(rows[i]) <= m[key(rows[i])]
    decreases |rows|
  {
    if |rows| == 0 then map[]
    else
      var m := GroupMax(rows[..|rows| - 1], key, val);
      var x := rows[|rows| - 1];
      GroupMaxStep(rows, key, val, m);
      MaxInto(m, key(x), val(x))
  }

  /** Raises the entry of `k` to `v`, or sets it when `k` is new. */
  function MaxInto<K>(m: map<K, int>, k: K, v: int): map<K, int>
  {
    m[k := if k in m && v < m[k] then m[k] else v]
  }

  /** One more row: the updated maximum of its group is still attained and still a bound. */
  lemma GroupMaxStep<R, K>(rows: seq<R>, key: R -> K, val: R -> int, m: map<K, int>)
    requires |rows| > 0
    requires m.Keys == KeySet(rows[..|rows| - 1], key)
    requires forall k :: k in m ==> exists i :: 0 <= i < |rows| - 1 && key(rows[i]) == k && val(rows[i]) == m[k]
    requires forall i :: 0 <= i < |rows| - 1 ==> val(rows[i]) <= m[key(rows[i])]
    ensures MaxInto(m, key(rows[|rows| - 1]), val(rows[|rows| - 1])).Keys == KeySet(rows, key)
    ensures var r := MaxInto(m, key(rows[|rows| - 1]), val(rows[|rows| - 1]));
      forall k :: k in r ==> exists i :: 0 <= i < |rows| && key(rows[i]) == k && val(rows[i]) == r[k]
    ensures var r := MaxInto(m, key(rows[|rows| - 1]), val(rows[|rows| - 1]));
      forall i :: 0 <= i < |rows| ==> val(rows[i]) <= r[key(rows[i])]
  {
    var p := rows[..|rows| - 1];
    var x := rows[|rows| - 1];
    var r := MaxInto(m, key(x), val(x));
    assert rows == p + [x];
    KeySetAppend(p, x, key);
    forall k | k in r ensures exists i :: 0 <= i < |rows| && key(rows[i]) == k && val(rows[i]) == r[k] {
      if k == key(x) && r[k] == val(x) {
        assert key(rows[|rows| - 1]) == k;
      } else {
        var i :| 0 <= i < |rows| - 1 && key(rows[i]) == k && val(rows[i]) == m[k];
      }
    }
    forall i | 0 <= i < |rows| ensures val(rows[i]) <= r[key(rows[i])] {
      if i < |rows| - 1 {
        assert key(rows[i]) in KeySet(p, key) by { assert p[i] == rows[i]; }
      }
    }
  }

  /**
   * The distinct values of a column in order of first appearance: one
   * enumeration of the groups of a group-by.
   */
  function Distinct<R, K(==)>(rows: seq<R>, key: R -> K): (ks: seq<K>)
    ensures NoDuplicates(ks)
    ensures forall i :: 0 <= i < |ks| ==> ks[i] in KeySet(rows, key)
    ensures forall k :: k in KeySet(rows, key) ==> k in ks
    decreases |rows|
  {
    if |rows| == 0 then []
    else
      var p := rows[..|rows| - 1];
      var x := rows[|rows| - 1];
      assert rows == p + [x];
      KeySetAppend(p, x, key);
      var d := Distinct(p, key);
      if key(x) in d then d else d + [key(x)]
  }

  /** The values `unique()` lists are exactly the values of the column. */
  lemma DistinctElements<R, K>(rows: seq<R>, key: R -> K)
    ensures (set x | x in Distinct(rows, key)) == KeySet(rows, key)
  {
    var ks := Distinct(rows, key);
    forall x | x in ks ensures x in KeySet(rows, key) {
      var j :| 0 <= j < |ks| && ks[j] == x;
    }
  }

  /** Python's `list.index`: the position of the first occurrence of `x`. */
  function IndexOf<T(==)>(s: seq<T>, x: T): (i: nat)
    requires x in s
    ensures i < |s| && s[i] == x
    ensures forall j :: 0 <= j < i ==> s[j] != x
  {
    if s[0] == x then 0 else 1 + IndexOf(s[1..], x)
  }

  /** A frame carries a given value in as many distinct groups as it has, and no more than it has rows. */
  lemma {:induction false} NUniqueBounds<R, K>(rows: seq<R>, key: R -> K)
    ensures NUnique(rows, key) <= |rows|
    ensures NUnique(rows, key) == 0 <==> |rows| == 0
    decreases |rows|
  {
    if |rows| > 0 {
      var p := rows[..|rows| - 1];
      assert rows == p + [rows[|rows| - 1]];
      KeySetAppend(p, rows[|rows| - 1], key);
      NUniqueBounds(p, key);
    }
  }

  /** A group that some row carries is not empty. */
  lemma {:induction false} WherePresent<R, K>(rows: seq<R>, key: R -> K, k: K)
    requires k in KeySet(rows, key)
    ensures |Where(rows, key, k)| > 0
    decreases |rows|
  {
    var p := rows[..|rows| - 1];
    var x := rows[|rows| - 1];
    assert rows == p + [x];
    KeySetAppend(p, x, key);
    WhereAppend(p, x, key, k);
    if key(x) != k {
      WherePresent(p, key, k);
    }
  }

  /** The sum of the group sums of the groups listed in `ks`. */
  function SumGroups<R, K(==)>(ks: seq<K>, rows: seq<R>, key: R -> K, val: R -> int): int
    decreases |ks|
  {
    if |ks| == 0 then 0 else SumGroups(ks[..|ks| - 1], rows, key, val) + SumWhere(rows, key, ks[|ks| - 1], val)
  }

  /** The sum of the group sums of those groups listed in `ks` that `g` maps to `t`. */
  function SumGroupsWhere<R, K(==), T(==)>(ks: seq<K>, g: K -> T, t: T, rows: seq<R>, key: R -> K, val: R -> int): int
    decreases |ks|
  {
    if |ks| == 0 then 0
    else
      SumGroupsWhere(ks[..|ks| - 1], g, t, rows, key, val)
      + (if g(ks[|ks| - 1]) == t then SumWhere(rows, key, ks[|ks| - 1], val) else 0)
  }

  lemma {:induction false} SumGroupsEmpty<R, K>(ks: seq<K>, rows: seq<R>, key: R -> K, val: R -> int)
    requires rows == []
    ensures SumGroups(ks, rows, key, val) == 0
    decreases |ks|
  {
    if |ks| > 0 {
      SumGroupsEmpty(ks[..|ks| - 1], rows, key, val);
    }
  }

  lemma {:induction false} SumGroupsWhereEmpty<R, K, T>(ks: seq<K>, g: K -> T, t: T, rows: seq<R>, key: R -> K, val: R -> int)
    requires rows == []
    ensures SumGroupsWhere(ks, g, t, rows, key, val) == 0
    decreases |ks|
  {
    if |ks| > 0 {
      SumGroupsWhereEmpty(ks[..|ks| - 1], g, t, rows, key, val);
    }
  }

  /** Adds `v` to the entry of `k`, which starts at 0 when `k` is new. */
  function AddTo<K>(m: map<K, int>, k: K, v: int): map<K, int>
  {
    m[k := (if k in m then m[k] else 0) + v]
  }

  /** One more row adds its value once, to the one listed group it belongs to. */
  lemma {:induction false} SumGroupsAppend<R, K>(ks: seq<K>, rows: seq<R>, x: R, key: R -> K, val: R -> int)
    requires NoDuplicates(ks)
    ensures SumGroups(ks, rows + [x], key, val) == SumGroups(ks, rows, key, val) + (if key(x) in ks then val(x) else 0)
    decreases |ks|
  {
    if |ks| > 0 {
      var q := ks[..|ks| - 1];
      var k := ks[|ks| - 1];
      assert ks == q + [k];
      SumGroupsAppend(q, rows, x, key, val);
      SumWhereAppend(rows, x, key, k, val);
      assert key(x) == k ==> key(x) !in q;
    }
  }

  lemma {:induction false} SumGroupsWhereAppend<R, K, T>(ks: seq<K>, g: K -> T, t: T, rows: seq<R>, x: R, key: R -> K, val: R -> int)
    requires NoDuplicates(ks)
    ensures SumGroupsWhere(ks, g, t, rows + [x], key, val)
         == SumGroupsWhere(ks, g, t, rows, key, val) + (if key(x) in ks && g(key(x)) == t then val(x) else 0)
    decreases |ks|
  {
    if |ks| > 0 {
      var q := ks[..|ks| - 1];
      var k := ks[|ks| - 1];
      assert ks == q + [k];
      SumGroupsWhereAppend(q, g, t, rows, x, key, val);
      SumWhereAppend(rows, x, key, k, val);
      assert key(x) == k ==> key(x) !in q;
    }
  }

  /**
   * A group-by partitions the rows: over any duplicate-free enumeration of
   * (at least) the groups, the group sums add up to the sum over all rows.
   */
  lemma {:induction false} GroupsPartitionSum<R, K>(ks: seq<K>, rows: seq<R>, key: R -> K, val: R -> int)
    requires NoDuplicates(ks)
    requires forall k :: k in KeySet(rows, key) ==> k in ks
    ensures SumGroups(ks, rows, key, val) == Sum(rows, val)
    decreases |rows|
  {
    if |rows| == 0 {
      SumGroupsEmpty(ks, rows, key, val);
    } else {
      var p := rows[..|rows| - 1];
      var x := rows[|rows| - 1];
      assert rows == p + [x];
      KeySetAppend(p, x, key);
      GroupsPartitionSum(ks, p, key, val);
      SumGroupsAppend(ks, p, x, key, val);
      SumAppend(p, x, val);
    }
  }

  /**
   * Summing the finer groups that fall into one coarser group gives the sum of
   * the coarser group: `key2` is `key` followed by the coarsening `g`.
   */
  lemma {:induction false} GroupsCoarsenSum<R, K, T>(ks: seq<K>, g: K -> T, t: T, rows: seq<R>, key: R -> K, key2: R -> T, val: R -> int)
    requires NoDuplicates(ks)
    requires forall k :: k in KeySet(rows, key) ==> k in ks
    requires forall r :: key2(r) == g(key(r))
    ensures SumGroupsWhere(ks, g, t, rows, key, val) == SumWhere(rows, key2, t, val)
    decreases |rows|
  {
    if |rows| == 0 {
      SumGroupsWhereEmpty(ks, g, t, rows, key, val);
    } else {
      var p := rows[..|rows| - 1];
      var x := rows[|rows| - 1];
      assert rows == p + [x];
      KeySetAppend(p, x, key);
      GroupsCoarsenSum(ks, g, t, p, key, key2, val);
      SumGroupsWhereAppend(ks, g, t, p, x, key, val);
      SumWhereAppend(p, x, key2, t, val);
    }
  }
}
