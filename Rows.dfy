/**
 * Generic machinery for a table held as a sequence of rows in insertion order:
 * the WHERE filter, COUNT, a set-based UPDATE and DELETE run row by row,
 * ORDER BY ... DESC, and the key discipline of an id column.
 *
 * Predicates over rows are passed as a named function of the row and a
 * descriptor value (`matches(row, w)`), never as a lambda, so that the same
 * filter written in two places is the same term.
 */
module Rows {
  import opened Errors

  /** The rows whose `matches(row, w)` equals `keep`, in table order. */
  function Filter<T, W>(rows: seq<T>, w: W, matches: (T, W) -> bool, keep: bool): (r: seq<T>)
    ensures |r| <= |rows|
    ensures forall i :: 0 <= i < |r| ==> r[i] in rows && matches(r[i], w) == keep
    ensures forall i :: 0 <= i < |rows| && matches(rows[i], w) == keep ==> rows[i] in r
    decreases |rows|
  {
    if rows == [] then []
    else
      var init := rows[..|rows| - 1];
      var last := rows[|rows| - 1];
      assert rows == init + [last];
      var r0 := Filter(init, w, matches, keep);
      if matches(last, w) == keep then r0 + [last] else r0
  }

  /** SELECT COUNT(1) ... WHERE matches(row, w). */
  function Count<T, W>(rows: seq<T>, w: W, matches: (T, W) -> bool): (n: nat)
    ensures n <= |rows|
  {
    |Filter(rows, w, matches, true)|
  }

  /** The two halves of a filter add up to the table. */
  lemma {:induction false} FilterSplit<T, W>(rows: seq<T>, w: W, matches: (T, W) -> bool)
    ensures |Filter(rows, w, matches, true)| + |Filter(rows, w, matches, false)| == |rows|
    decreases |rows|
  {
    if rows != [] {
      FilterSplit(rows[..|rows| - 1], w, matches);
    }
  }

  /** Filtering distributes over concatenation. */
  lemma {:induction false} FilterConcat<T, W>(a: seq<T>, b: seq<T>, w: W, matches: (T, W) -> bool, keep: bool)
    ensures Filter(a + b, w, matches, keep) == Filter(a, w, matches, keep) + Filter(b, w, matches, keep)
    decreases |b|
  {
    if b == [] {
      assert a + b == a;
    } else {
      var b0 := b[..|b| - 1];
      assert (a + b)[..|a + b| - 1] == a + b0;
      assert (a + b)[|a + b| - 1] == b[|b| - 1];
      FilterConcat(a, b0, w, matches, keep);
    }
  }

  /** A WHERE clause that every row of another one satisfies counts at least as many rows. */
  lemma {:induction false} CountMonotone<T, W>(rows: seq<T>, narrow: W, wide: W, matches: (T, W) -> bool)
    requires forall i :: 0 <= i < |rows| && matches(rows[i], narrow) ==> matches(rows[i], wide)
    ensures Count(rows, narrow, matches) <= Count(rows, wide, matches)
    decreases |rows|
  {
    if rows != [] {
      CountMonotone(rows[..|rows| - 1], narrow, wide, matches);
    }
  }

  /** Counting distributes over concatenation. */
  lemma CountConcat<T, W>(a: seq<T>, b: seq<T>, w: W, matches: (T, W) -> bool)
    ensures Count(a + b, w, matches) == Count(a, w, matches) + Count(b, w, matches)
  {
    FilterConcat(a, b, w, matches, true);
  }

  /** A WHERE clause counts no row exactly when no row satisfies it. */
  lemma CountZero<T, W>(rows: seq<T>, w: W, matches: (T, W) -> bool)
    ensures Count(rows, w, matches) == 0 <==> forall i :: 0 <= i < |rows| ==> !matches(rows[i], w)
  {
    var r := Filter(rows, w, matches, true);
    if |r| > 0 {
      assert r[0] in rows && matches(r[0], w);
    }
  }

  /** An UPDATE that keeps which rows a WHERE clause selects keeps its count. */
  lemma {:induction false} CountPreserved<T, W>(before: seq<T>, after: seq<T>, w: W, matches: (T, W) -> bool)
    requires |after| == |before|
    requires forall i :: 0 <= i < |before| ==> matches(after[i], w) == matches(before[i], w)
    ensures Count(after, w, matches) == Count(before, w, matches)
    decreases |before|
  {
    if before != [] {
      var n := |before| - 1;
      CountPreserved(before[..n], after[..n], w, matches);
    }
  }

  /** An UPDATE that may change only row k's membership in a WHERE clause changes its count by that row alone. */
  lemma {:induction false} CountReplaced<T, W>(before: seq<T>, after: seq<T>, k: int, w: W, matches: (T, W) -> bool)
    requires |after| == |before| && 0 <= k < |before|
    requires forall i :: 0 <= i < |before| && i != k ==> matches(after[i], w) == matches(before[i], w)
    ensures Count(after, w, matches) + (if matches(before[k], w) then 1 else 0)
         == Count(before, w, matches) + (if matches(after[k], w) then 1 else 0)
    decreases |before|
  {
    var n := |before| - 1;
    var b0, a0 := before[..n], after[..n];
    forall i | 0 <= i < n && i != k
      ensures matches(a0[i], w) == matches(b0[i], w)
    {
      assert a0[i] == after[i] && b0[i] == before[i];
    }
    if k == n {
      CountPreserved(b0, a0, w, matches);
    } else {
      CountReplaced(b0, a0, k, w, matches);
    }
    CountLast(before, w, matches);
    CountLast(after, w, matches);
  }

  /** The count of a non-empty table: that of all rows but the last, plus the last row's. */
  lemma CountLast<T, W>(rows: seq<T>, w: W, matches: (T, W) -> bool)
    requires |rows| > 0
    ensures Count(rows, w, matches) == Count(rows[..|rows| - 1], w, matches) + (if matches(rows[|rows| - 1], w) then 1 else 0)
  {
  }

  /** A single row is counted once exactly when it is selected. */
  lemma CountSingle<T, W>(x: T, w: W, matches: (T, W) -> bool)
    ensures Count([x], w, matches) == if matches(x, w) then 1 else 0
  {
    assert [x][..0] == [];
  }

  /** Leaving out row k lowers the count by one exactly when row k is selected. */
  lemma CountWithoutAt<T, W>(rows: seq<T>, k: int, w: W, matches: (T, W) -> bool)
    requires 0 <= k < |rows|
    ensures Count(rows[..k] + rows[k + 1..], w, matches) + (if matches(rows[k], w) then 1 else 0) == Count(rows, w, matches)
  {
    var a, x, b := rows[..k], rows[k], rows[k + 1..];
    assert rows == a + [x] + b;
    CountConcat(a + [x], b, w, matches);
    CountConcat(a, [x], w, matches);
    CountConcat(a, b, w, matches);
    CountSingle(x, w, matches);
  }

  /** Deleting rows none of which a WHERE clause selects keeps its count. */
  lemma {:induction false} CountWithout<T, W>(rows: seq<T>, v: W, w: W, matches: (T, W) -> bool)
    requires forall i :: 0 <= i < |rows| && matches(rows[i], w) ==> !matches(rows[i], v)
    ensures Count(Filter(rows, v, matches, false), w, matches) == Count(rows, w, matches)
    decreases |rows|
  {
    if rows != [] {
      var n := |rows| - 1;
      var init := rows[..n];
      CountWithout(init, v, w, matches);
      assert rows == init + [rows[n]];
      FilterConcat(init, [rows[n]], v, matches, false);
      FilterConcat(init, [rows[n]], w, matches, true);
      CountConcat(Filter(init, v, matches, false), Filter([rows[n]], v, matches, false), w, matches);
    }
  }

  /** The first row, in table order, with `matches(row, w)`: SELECT ... WHERE ... for a single row. */
  function First<T, W>(rows: seq<T>, w: W, matches: (T, W) -> bool): (r: Option<T>)
    ensures r.Some? ==> r.value in rows && matches(r.value, w)
    ensures r.None? <==> forall i :: 0 <= i < |rows| ==> !matches(rows[i], w)
  {
    if rows == [] then None
    else if matches(rows[0], w) then Some(rows[0])
    else First(rows[1..], w, matches)
  }

  /**
   * Deleting the rows of a narrower WHERE clause lowers the count of a wider
   * one by exactly the number of rows deleted.
   */
  lemma {:induction false} CountAfterDelete<T, W>(rows: seq<T>, narrow: W, wide: W, matches: (T, W) -> bool)
    requires forall i :: 0 <= i < |rows| && matches(rows[i], narrow) ==> matches(rows[i], wide)
    ensures Count(Filter(rows, narrow, matches, false), wide, matches) + Count(rows, narrow, matches) == Count(rows, wide, matches)
    decreases |rows|
  {
    if rows != [] {
      var n := |rows| - 1;
      var x := rows[n];
      CountAfterDelete(rows[..n], narrow, wide, matches);
      if !matches(x, narrow) {
        assert Filter(rows, narrow, matches, false) == Filter(rows[..n], narrow, matches, false) + [x];
        CountConcat(Filter(rows[..n], narrow, matches, false), [x], wide, matches);
      }
    }
  }

  /** The first row of `right` whose key is `id`: the partner of a row in a join. */
  function Lookup<R>(right: seq<R>, key: R -> nat, id: nat): (r: Option<R>)
    ensures r.Some? ==> r.value in right && key(r.value) == id
    ensures r.None? <==> forall i :: 0 <= i < |right| ==> key(right[i]) != id
  {
    if right == [] then None
    else if key(right[0]) == id then Some(right[0])
    else Lookup(right[1..], key, id)
  }

  /**
   * The partners, in `left`'s order, of the rows of `left` joined on
   * fk(row) = key(partner). A row of `left` without a partner contributes
   * nothing; one partner may appear once per row that names it.
   */
  function Join<L, R>(left: seq<L>, right: seq<R>, fk: L -> nat, key: R -> nat): (r: seq<R>)
    ensures |r| <= |left|
    ensures forall x :: x in r ==> x in right && exists l :: l in left && fk(l) == key(x)
    ensures forall i :: 0 <= i < |left| && Lookup(right, key, fk(left[i])).Some? ==> Lookup(right, key, fk(left[i])).value in r
  {
    if left == [] then []
    else
      var rest := Join(left[1..], right, fk, key);
      assert forall l :: l in left[1..] ==> l in left;
      assert forall i :: 1 <= i < |left| ==> left[i] == left[1..][i - 1];
      match Lookup(right, key, fk(left[0]))
      case None => rest
      case Some(x) => [x] + rest
  }

  /** A join of the rows a filter keeps: joined rows come from kept rows, and every kept row that finds its partner contributes it. */
  lemma JoinFiltered<L, R, W>(left: seq<L>, w: W, matches: (L, W) -> bool, right: seq<R>, fk: L -> nat, key: R -> nat)
    ensures var j := Join(Filter(left, w, matches, true), right, fk, key);
      && |j| <= Count(left, w, matches)
      && (forall x :: x in j ==> x in right && exists l :: l in left && matches(l, w) && fk(l) == key(x))
      && (forall i :: 0 <= i < |left| && matches(left[i], w) && Lookup(right, key, fk(left[i])).Some? ==>
            Lookup(right, key, fk(left[i])).value in j)
  {
    var kept := Filter(left, w, matches, true);
    forall i | 0 <= i < |left| && matches(left[i], w) && Lookup(right, key, fk(left[i])).Some?
      ensures Lookup(right, key, fk(left[i])).value in Join(kept, right, fk, key)
    {
      var k :| 0 <= k < |kept| && kept[k] == left[i];
    }
    forall x | x in Join(kept, right, fk, key)
      ensures exists l :: l in left && matches(l, w) && fk(l) == key(x)
    {
      var l :| l in kept && fk(l) == key(x);
      var k :| 0 <= k < |kept| && kept[k] == l;
    }
  }

  lemma {:induction false} JoinConcat<L, R>(a: seq<L>, b: seq<L>, right: seq<R>, fk: L -> nat, key: R -> nat)
    ensures Join(a + b, right, fk, key) == Join(a, right, fk, key) + Join(b, right, fk, key)
    decreases |a|
  {
    if a != [] {
      assert (a + b)[1..] == a[1..] + b;
      JoinConcat(a[1..], b, right, fk, key);
    } else {
      assert a + b == b;
    }
  }

  /** Appending a row to `left` adds its partner, if any, to the count of a WHERE clause over the join. */
  lemma CountJoinAppend<L, R, W>(left: seq<L>, x: L, right: seq<R>, fk: L -> nat, key: R -> nat, w: W, matches: (R, W) -> bool)
    ensures Count(Join(left + [x], right, fk, key), w, matches)
         == Count(Join(left, right, fk, key), w, matches)
          + (match Lookup(right, key, fk(x)) case Some(p) => if matches(p, w) then 1 else 0 case None => 0)
  {
    var a, b := Join(left, right, fk, key), Join([x], right, fk, key);
    JoinConcat(left, [x], right, fk, key);
    CountConcat(a, b, w, matches);
    assert [x][1..] == [];
    match Lookup(right, key, fk(x)) {
      case None =>
      case Some(p) => CountSingle(p, w, matches);
    }
  }

  /** Filtering out rows none of which match removes nothing. */
  lemma {:induction false} FilterNone<T, W>(rows: seq<T>, w: W, matches: (T, W) -> bool)
    requires forall i :: 0 <= i < |rows| ==> !matches(rows[i], w)
    ensures Filter(rows, w, matches, false) == rows
    decreases |rows|
  {
    if rows != [] {
      var init := rows[..|rows| - 1];
      FilterNone(init, w, matches);
      assert rows == init + [rows[|rows| - 1]];
    }
  }

  /** Filtering out the one row that matches leaves the table without that row. */
  lemma FilterOnly<T, W>(rows: seq<T>, w: W, matches: (T, W) -> bool, k: int)
    requires 0 <= k < |rows| && matches(rows[k], w)
    requires forall i :: 0 <= i < |rows| && i != k ==> !matches(rows[i], w)
    ensures Filter(rows, w, matches, false) == rows[..k] + rows[k + 1..]
  {
    var a, x, b := rows[..k], rows[k], rows[k + 1..];
    assert rows == a + [x] + b;
    FilterConcat(a + [x], b, w, matches, false);
    FilterConcat(a, [x], w, matches, false);
    forall i | 0 <= i < |a|
      ensures !matches(a[i], w)
    {
      assert a[i] == rows[i];
    }
    FilterNone(a, w, matches);
    forall i | 0 <= i < |b|
      ensures !matches(b[i], w)
    {
      assert b[i] == rows[k + 1 + i];
    }
    FilterNone(b, w, matches);
    assert Filter([x], w, matches, false) == [] by {
      assert [x][..0] == [];
    }
  }

  /** The table after a set-based UPDATE whose effect on one row is `apply(row, s)`. */
  function UpdateAll<T, S>(rows: seq<T>, s: S, apply: (T, S) -> T): (r: seq<T>)
    ensures |r| == |rows|
    ensures forall i :: 0 <= i < |rows| ==> r[i] == apply(rows[i], s)
  {
    seq(|rows|, i requires 0 <= i < |rows| => apply(rows[i], s))
  }

  /** A set-based UPDATE run one row at a time. */
  method UpdateEach<T, S>(rows: seq<T>, s: S, apply: (T, S) -> T) returns (out: seq<T>)
    ensures out == UpdateAll(rows, s, apply)
  {
    out := [];
    var i := 0;
    while i < |rows|
      invariant 0 <= i <= |rows|
      invariant |out| == i
      invariant forall k :: 0 <= k < i ==> out[k] == apply(rows[k], s)
    {
      out := out + [apply(rows[i], s)];
      i := i + 1;
    }
  }

  /** A set-based DELETE: keeps the rows that do not match, and reports how many it removed. */
  method DeleteWhere<T, W>(rows: seq<T>, w: W, matches: (T, W) -> bool) returns (out: seq<T>, removed: nat)
    ensures out == Filter(rows, w, matches, false)
    ensures removed == Count(rows, w, matches) == |rows| - |out|
  {
    out := [];
    removed := 0;
    var i := 0;
    while i < |rows|
      invariant 0 <= i <= |rows|
      invariant out == Filter(rows[..i], w, matches, false)
      invariant removed + |out| == i
    {
      assert rows[..i + 1][..i] == rows[..i];
      if matches(rows[i], w) {
        removed := removed + 1;
      } else {
        out := out + [rows[i]];
      }
      i := i + 1;
    }
    assert rows[..i] == rows;
    FilterSplit(rows, w, matches);
  }

  /** Keys of the rows are non-zero (zero is the empty Guid), below `bound`, and pairwise distinct. */
  ghost predicate Keyed<T>(rows: seq<T>, key: T -> nat, bound: nat)
  {
    && (forall i :: 0 <= i < |rows| ==> 1 <= key(rows[i]) < bound)
    && (forall i, j :: 0 <= i < j < |rows| ==> key(rows[i]) != key(rows[j]))
  }

  /** A row with a fresh key may be appended to a keyed table. */
  lemma KeyedAppend<T>(rows: seq<T>, key: T -> nat, bound: nat, x: T)
    requires Keyed(rows, key, bound) && key(x) == bound && bound >= 1
    ensures Keyed(rows + [x], key, bound + 1)
  {
  }

  /** Deleting rows keeps a table keyed. */
  lemma {:induction false} KeyedFilter<T, W>(rows: seq<T>, key: T -> nat, bound: nat, w: W, matches: (T, W) -> bool, keep: bool)
    requires Keyed(rows, key, bound)
    ensures Keyed(Filter(rows, w, matches, keep), key, bound)
    decreases |rows|
  {
    if rows != [] {
      var n := |rows| - 1;
      var init, last := rows[..n], rows[n];
      assert Keyed(init, key, bound) by {
        forall i | 0 <= i < n ensures init[i] == rows[i] { }
      }
      KeyedFilter(init, key, bound, w, matches, keep);
      var r0 := Filter(init, w, matches, keep);
      if matches(last, w) == keep {
        assert Filter(rows, w, matches, keep) == r0 + [last];
        forall i | 0 <= i < |r0|
          ensures key(r0[i]) != key(last)
        {
          assert r0[i] in init;
          var k :| 0 <= k < n && init[k] == r0[i];
          assert rows[k] == init[k];
        }
        KeyedSnoc(r0, key, bound, last);
      } else {
        assert Filter(rows, w, matches, keep) == r0;
      }
    }
  }

  /** A row whose key is in range and new may be appended to a keyed table. */
  lemma KeyedSnoc<T>(rows: seq<T>, key: T -> nat, bound: nat, x: T)
    requires Keyed(rows, key, bound) && 1 <= key(x) < bound
    requires forall i :: 0 <= i < |rows| ==> key(rows[i]) != key(x)
    ensures Keyed(rows + [x], key, bound)
  {
    var r := rows + [x];
    forall i | 0 <= i < |rows| ensures r[i] == rows[i] { }
  }

  /** In a keyed table a WHERE clause that fixes the key selects at most one row. */
  lemma {:induction false} KeyedAtMostOne<T, W>(rows: seq<T>, key: T -> nat, bound: nat, w: W, matches: (T, W) -> bool, id: nat)
    requires Keyed(rows, key, bound)
    requires forall i :: 0 <= i < |rows| && matches(rows[i], w) ==> key(rows[i]) == id
    ensures Count(rows, w, matches) <= 1
    decreases |rows|
  {
    if rows != [] {
      var n := |rows| - 1;
      var init := rows[..n];
      if matches(rows[n], w) {
        forall i | 0 <= i < |init|
          ensures !matches(init[i], w)
        {
          assert key(rows[i]) != key(rows[n]);
        }
        CountZero(init, w, matches);
      } else {
        KeyedAtMostOne(init, key, bound, w, matches, id);
      }
    }
  }

  /** A WHERE clause that only row k satisfies counts one row. */
  lemma CountOne<T, W>(rows: seq<T>, w: W, matches: (T, W) -> bool, k: int)
    requires 0 <= k < |rows| && matches(rows[k], w)
    requires forall i :: 0 <= i < |rows| && i != k ==> !matches(rows[i], w)
    ensures Count(rows, w, matches) == 1
  {
    FilterOnly(rows, w, matches, k);
    FilterSplit(rows, w, matches);
  }

  /** Deleting the rows that match only row k's key removes exactly one row. */
  lemma DeleteOneRow<T, W>(rows: seq<T>, key: T -> nat, bound: nat, w: W, matches: (T, W) -> bool, k: int)
    requires Keyed(rows, key, bound) && 0 <= k < |rows| && matches(rows[k], w)
    requires forall i :: 0 <= i < |rows| && matches(rows[i], w) ==> key(rows[i]) == key(rows[k])
    ensures |Filter(rows, w, matches, false)| == |rows| - 1
  {
    forall i | 0 <= i < |rows| && i != k
      ensures !matches(rows[i], w)
    {
      assert key(rows[i]) != key(rows[k]);
    }
    CountOne(rows, w, matches, k);
    FilterSplit(rows, w, matches);
  }

  lemma KeyedUnique<T>(rows: seq<T>, key: T -> nat, bound: nat, i: int, j: int)
    requires Keyed(rows, key, bound)
    requires 0 <= i < |rows| && 0 <= j < |rows| && key(rows[i]) == key(rows[j])
    ensures i == j
  {
  }

  ghost predicate SortedDesc<T>(s: seq<T>, key: T -> int)
  {
    forall i, j :: 0 <= i < j < |s| ==> key(s[i]) >= key(s[j])
  }

  function InsertDesc<T>(x: T, s: seq<T>, key: T -> int): (r: seq<T>)
    requires SortedDesc(s, key)
    ensures SortedDesc(r, key)
    ensures multiset(r) == multiset(s) + multiset{x}
    ensures |r| == |s| + 1
  {
    if s == [] then [x]
    else if key(x) >= key(s[0]) then
      ConsDesc(x, s, key);
      [x] + s
    else
      assert s == [s[0]] + s[1..];
      TailDesc(s, key);
      var t := InsertDesc(x, s[1..], key);
      HeadBounds(s[0], x, t, s[1..], key);
      ConsDesc(s[0], t, key);
      [s[0]] + t
  }

  /** A descending sequence stays descending without its head. */
  lemma TailDesc<T>(s: seq<T>, key: T -> int)
    requires SortedDesc(s, key) && |s| > 0
    ensures SortedDesc(s[1..], key)
  {
    forall i, j | 0 <= i < j < |s| - 1
      ensures key(s[1..][i]) >= key(s[1..][j])
    {
      assert s[1..][i] == s[i + 1] && s[1..][j] == s[j + 1];
    }
  }

  /** A head whose key bounds a descending sequence's keys may go in front of it. */
  lemma ConsDesc<T>(h: T, t: seq<T>, key: T -> int)
    requires SortedDesc(t, key)
    requires |t| > 0 ==> key(t[0]) <= key(h)
    ensures SortedDesc([h] + t, key)
  {
    var r := [h] + t;
    forall i, j | 0 <= i < j < |r|
      ensures key(r[i]) >= key(r[j])
    {
      assert r[j] == t[j - 1];
      if i == 0 {
        assert key(t[0]) >= key(t[j - 1]) || j - 1 == 0;
      } else {
        assert r[i] == t[i - 1];
      }
    }
  }

  /** The head of a descending sequence bounds every element drawn from its tail or smaller than it. */
  lemma HeadBounds<T>(h: T, x: T, t: seq<T>, s: seq<T>, key: T -> int)
    requires SortedDesc([h] + s, key) && key(x) < key(h)
    requires multiset(t) == multiset(s) + multiset{x}
    ensures forall i :: 0 <= i < |t| ==> key(t[i]) <= key(h)
  {
    forall i | 0 <= i < |t|
      ensures key(t[i]) <= key(h)
    {
      assert t[i] in multiset(t);
      if t[i] != x {
        assert t[i] in multiset(s);
        var j :| 0 <= j < |s| && s[j] == t[i];
        assert ([h] + s)[0] == h && ([h] + s)[j + 1] == t[i];
      }
    }
  }

  /** The last element of a descending sequence has the least key. */
  lemma LastIsLeast<T>(s: seq<T>, key: T -> int)
    requires SortedDesc(s, key) && |s| > 0
    ensures forall x :: x in s ==> key(s[|s| - 1]) <= key(x)
  {
    forall x | x in s
      ensures key(s[|s| - 1]) <= key(x)
    {
      var j :| 0 <= j < |s| && s[j] == x;
      if j < |s| - 1 {
        assert key(s[j]) >= key(s[|s| - 1]);
      }
    }
  }

  /** ORDER BY key DESC: a permutation of `s` whose keys never increase. */
  function SortDesc<T>(s: seq<T>, key: T -> int): (r: seq<T>)
    ensures SortedDesc(r, key)
    ensures multiset(r) == multiset(s)
    ensures |r| == |s|
  {
    if s == [] then []
    else
      assert s == [s[0]] + s[1..];
      InsertDesc(s[0], SortDesc(s[1..], key), key)
  }
}
