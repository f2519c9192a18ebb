/**
 * The sort_order discipline shared by plans (partitioned by owner and type)
 * and tasks (partitioned by plan): within a partition the orders should be
 * exactly 0..n-1. The SQL statements of both repositories change orders by
 * one of two shifts, both modelled by `Shifted`:
 *   - Compact(removed): the rows above a removed position drop by one
 *     (PlanRepo.RemoveFromOrder, TaskRepo.UpdateOrderBeforeDelete);
 *   - Move(from, to): the three-way CASE of UpdateOrder.
 */
module SortOrder {
  import opened Rows
  import opened Errors

  /** Orders 0..n-1, each exactly once: every order is in range and no two coincide. */
  ghost predicate Dense(os: seq<int>)
  {
    && (forall i :: 0 <= i < |os| ==> 0 <= os[i] < |os|)
    && Distinct(os)
  }

  ghost predicate Distinct(os: seq<int>)
  {
    forall i, j :: 0 <= i < j < |os| ==> os[i] != os[j]
  }

  function Values(os: seq<int>): set<int>
  {
    set i | 0 <= i < |os| :: os[i]
  }

  datatype Shift =
    | Compact(removed: int)       // sort_order = sort_order - 1 WHERE sort_order > removed
    | Move(from: int, to: int)    // the CASE expression of UpdateOrder

  /** The new sort_order of a row of the partition whose order is `o`. */
  function Shifted(o: int, s: Shift): int
  {
    match s
    case Compact(removed) => if o > removed then o - 1 else o
    case Move(from, to) =>
      if o == from then to
      else if o > from && o <= to then o - 1
      else if o >= to && o < from then o + 1
      else o
  }

  function ShiftAll(os: seq<int>, s: Shift): (r: seq<int>)
    ensures |r| == |os|
    ensures forall i :: 0 <= i < |os| ==> r[i] == Shifted(os[i], s)
  {
    seq(|os|, i requires 0 <= i < |os| => Shifted(os[i], s))
  }

  /** The CASE shift never sends two different orders to the same one. */
  lemma MoveInjective(a: int, b: int, from: int, to: int)
    requires a != b
    ensures Shifted(a, Move(from, to)) != Shifted(b, Move(from, to))
  {
  }

  /** Moving an order onto itself changes nothing. */
  lemma MoveToSelf(os: seq<int>, k: int)
    ensures ShiftAll(os, Move(k, k)) == os
  {
  }

  /**
   * UpdateOrder on a dense partition with both indices in range: the row at
   * `from` lands on `to` and the partition is again exactly 0..n-1.
   */
  lemma MoveKeepsDense(os: seq<int>, from: int, to: int)
    requires Dense(os)
    requires 0 <= from < |os| && 0 <= to < |os|
    ensures Dense(ShiftAll(os, Move(from, to)))
    ensures forall i :: 0 <= i < |os| && os[i] == from ==> ShiftAll(os, Move(from, to))[i] == to
  {
    var r := ShiftAll(os, Move(from, to));
    forall i, j | 0 <= i < j < |r|
      ensures r[i] != r[j]
    {
      MoveInjective(os[i], os[j], from, to);
    }
  }

  /**
   * Compaction then removal of the row whose order is `p`, on a dense
   * partition `xs + [p] + ys`, leaves the other rows dense, one fewer.
   */
  lemma RemoveKeepsDense(xs: seq<int>, p: int, ys: seq<int>)
    requires Dense(xs + [p] + ys)
    ensures Dense(ShiftAll(xs + ys, Compact(p)))
  {
    var os := xs + [p] + ys;
    var zs := xs + ys;
    var r := ShiftAll(zs, Compact(p));
    // index of zs[k] in os
    forall k | 0 <= k < |zs|
      ensures zs[k] == os[if k < |xs| then k else k + 1]
    {
    }
    forall k | 0 <= k < |zs|
      ensures zs[k] != p && 0 <= zs[k] < |os|
    {
      var j := if k < |xs| then k else k + 1;
      assert os[|xs|] == p;
      assert j != |xs|;
    }
    forall k | 0 <= k < |r|
      ensures 0 <= r[k] < |r|
    {
    }
    forall i, j | 0 <= i < j < |r|
      ensures r[i] != r[j]
    {
      var i' := if i < |xs| then i else i + 1;
      var j' := if j < |xs| then j else j + 1;
      assert i' < j';
      assert os[i'] != os[j'];
    }
  }

  /**
   * Placing a row at order n (the current count) anywhere among the rows of
   * a dense partition of n rows keeps it dense: the append of Create and of
   * the retyped plan.
   */
  lemma InsertKeepsDense(xs: seq<int>, ys: seq<int>)
    requires Dense(xs + ys)
    ensures Dense(xs + [|xs| + |ys|] + ys)
  {
    var zs := xs + ys;
    var os := xs + [|xs| + |ys|] + ys;
    forall k | 0 <= k < |os| && k != |xs|
      ensures os[k] == zs[if k < |xs| then k else k - 1]
    {
    }
    forall i, j | 0 <= i < j < |os|
      ensures os[i] != os[j]
    {
      if i != |xs| && j != |xs| {
        var i' := if i < |xs| then i else i - 1;
        var j' := if j < |xs| then j else j - 1;
        assert zs[i'] != zs[j'];
      }
    }
  }

  /** Every position 0..n-1 of a dense partition is taken (pigeonhole). */
  lemma {:induction false} DenseCovers(os: seq<int>, v: int)
    requires Dense(os)
    requires 0 <= v < |os|
    ensures v in os
    decreases |os|
  {
    var n := |os|;
    var x := os[n - 1];
    if v != x {
      var xs := os[..n - 1];
      assert os == xs + [x] + [];
      assert xs + [] == xs;
      RemoveKeepsDense(xs, x, []);
      var r := ShiftAll(xs, Compact(x));
      var v' := if v < x then v else v - 1;
      DenseCovers(r, v');
      var i :| 0 <= i < |r| && r[i] == v';
      assert os[i] == xs[i];
      assert os[i] == v;
    }
  }

  /** Density is exactly "the orders are 0..n-1, each once". */
  lemma DenseIsRange(os: seq<int>)
    ensures Dense(os) <==> Distinct(os) && forall v :: v in Values(os) <==> 0 <= v < |os|
  {
    if Dense(os) {
      forall v | 0 <= v < |os|
        ensures v in Values(os)
      {
        DenseCovers(os, v);
      }
    }
    if Distinct(os) && forall v :: v in Values(os) <==> 0 <= v < |os| {
      forall i | 0 <= i < |os|
        ensures 0 <= os[i] < |os|
      {
        assert os[i] in Values(os);
      }
    }
  }

  /**
   * The ReOrder guard as both services write it: it rejects only an index
   * strictly above the partition's count.
   */
  predicate ReorderRejectedAsWritten(count: int, from: int, to: int)
  {
    from > count || to > count
  }

  /**
   * The guard the rejection message ("should be less than count") describes:
   * both indices must name an existing position of the partition.
   */
  predicate ReorderRejected(count: int, from: int, to: int)
  {
    !(0 <= from < count && 0 <= to < count)
  }

  /** The error both ReOrder endpoints give when the guard rejects the move: the bound is the partition's count. */
  function ReorderError(count: nat): Error
  {
    InputError("oldOrder and newOrder should be less than " + NatText(count))
  }

  /**
   * The written guard lets `to == count` through: one plan at order 0 moved
   * to 1 leaves the partition {1}, not {0}.
   */
  lemma AsWrittenGuardAdmitsGap()
    ensures !ReorderRejectedAsWritten(1, 0, 1)
    ensures Dense([0])
    ensures !Dense(ShiftAll([0], Move(0, 1)))
  {
    assert ShiftAll([0], Move(0, 1))[0] == 1;
  }

  /**
   * The written guard lets a negative index through: moving from -1 to 0 in
   * the partition {0, 1} yields {-1, 1}.
   */
  lemma AsWrittenGuardAdmitsNegative()
    ensures !ReorderRejectedAsWritten(2, -1, 0)
    ensures Dense([0, 1])
    ensures !Dense(ShiftAll([0, 1], Move(-1, 0)))
  {
    assert ShiftAll([0, 1], Move(-1, 0))[0] == -1;
  }

  /** Every move the corrected guard admits keeps a dense partition dense. */
  lemma GuardedMoveKeepsDense(os: seq<int>, from: int, to: int)
    requires Dense(os)
    requires !ReorderRejected(|os|, from, to)
    ensures Dense(ShiftAll(os, Move(from, to)))
  {
    MoveKeepsDense(os, from, to);
  }

  /** The corrected guard admits no index the written one rejects. */
  lemma GuardRefinesAsWritten(count: int, from: int, to: int)
    requires ReorderRejectedAsWritten(count, from, to)
    ensures ReorderRejected(count, from, to)
  {
  }

  /** The sort orders of the rows of one partition, in table order. */
  function PartitionOrders<T, W>(rows: seq<T>, w: W, matches: (T, W) -> bool, order: T -> int): (os: seq<int>)
    ensures |os| == Count(rows, w, matches)
  {
    var part := Filter(rows, w, matches, true);
    seq(|part|, i requires 0 <= i < |part| => order(part[i]))
  }

  /** The order of every row of a partition is among the partition's orders. */
  lemma OrderInPartition<T, W>(rows: seq<T>, i: int, w: W, matches: (T, W) -> bool, order: T -> int)
    requires 0 <= i < |rows| && matches(rows[i], w)
    ensures order(rows[i]) in PartitionOrders(rows, w, matches, order)
  {
    var part := Filter(rows, w, matches, true);
    assert rows[i] in part;
    var j :| 0 <= j < |part| && part[j] == rows[i];
    assert PartitionOrders(rows, w, matches, order)[j] == order(rows[i]);
  }

  lemma PartitionOrdersConcat<T, W>(a: seq<T>, b: seq<T>, w: W, matches: (T, W) -> bool, order: T -> int)
    ensures PartitionOrders(a + b, w, matches, order)
         == PartitionOrders(a, w, matches, order) + PartitionOrders(b, w, matches, order)
  {
    FilterConcat(a, b, w, matches, true);
  }

  lemma PartitionOrdersSingle<T, W>(x: T, w: W, matches: (T, W) -> bool, order: T -> int)
    ensures PartitionOrders([x], w, matches, order) == if matches(x, w) then [order(x)] else []
  {
    assert [x][..0] == [];
  }

  /**
   * A set-based UPDATE that keeps partition membership and shifts the order
   * of every row of the partition shifts the partition's orders.
   */
  lemma {:induction false} PartitionShifted<T, W>(before: seq<T>, after: seq<T>, w: W, matches: (T, W) -> bool, order: T -> int, s: Shift)
    requires |after| == |before|
    requires forall i :: 0 <= i < |before| ==> matches(after[i], w) == matches(before[i], w)
    requires forall i :: 0 <= i < |before| && matches(before[i], w) ==> order(after[i]) == Shifted(order(before[i]), s)
    ensures PartitionOrders(after, w, matches, order) == ShiftAll(PartitionOrders(before, w, matches, order), s)
    decreases |before|
  {
    if before != [] {
      var n := |before| - 1;
      var b0, a0 := before[..n], after[..n];
      forall i | 0 <= i < |b0|
        ensures matches(a0[i], w) == matches(b0[i], w)
        ensures matches(b0[i], w) ==> order(a0[i]) == Shifted(order(b0[i]), s)
      {
        assert a0[i] == after[i] && b0[i] == before[i];
      }
      PartitionShifted(b0, a0, w, matches, order, s);
      ShiftedStep(before, after, w, matches, order, s);
    } else {
      assert |PartitionOrders(after, w, matches, order)| == 0;
    }
  }

  /** One step of PartitionShifted: the last rows of both tables agree as the shift says. */
  lemma ShiftedStep<T, W>(before: seq<T>, after: seq<T>, w: W, matches: (T, W) -> bool, order: T -> int, s: Shift)
    requires |after| == |before| > 0
    requires var n := |before| - 1;
      PartitionOrders(after[..n], w, matches, order) == ShiftAll(PartitionOrders(before[..n], w, matches, order), s)
    requires matches(after[|before| - 1], w) == matches(before[|before| - 1], w)
    requires matches(before[|before| - 1], w) ==> order(after[|before| - 1]) == Shifted(order(before[|before| - 1]), s)
    ensures PartitionOrders(after, w, matches, order) == ShiftAll(PartitionOrders(before, w, matches, order), s)
  {
    var n := |before| - 1;
    PartitionOrdersLast(before, w, matches, order);
    PartitionOrdersLast(after, w, matches, order);
    ShiftAllConcat(PartitionOrders(before[..n], w, matches, order), PartitionOrders([before[n]], w, matches, order), s);
  }

  /** The orders of a partition: those of all rows but the last, then the last row's. */
  lemma PartitionOrdersLast<T, W>(rows: seq<T>, w: W, matches: (T, W) -> bool, order: T -> int)
    requires |rows| > 0
    ensures var n := |rows| - 1;
      && PartitionOrders(rows, w, matches, order) == PartitionOrders(rows[..n], w, matches, order) + PartitionOrders([rows[n]], w, matches, order)
      && PartitionOrders([rows[n]], w, matches, order) == if matches(rows[n], w) then [order(rows[n])] else []
  {
    var n := |rows| - 1;
    assert rows == rows[..n] + [rows[n]];
    PartitionOrdersConcat(rows[..n], [rows[n]], w, matches, order);
    PartitionOrdersSingle(rows[n], w, matches, order);
  }

  /**
   * A set-based UPDATE that keeps partition membership and the order of
   * every row of the partition leaves the partition's orders unchanged.
   */
  lemma {:induction false} PartitionUntouched<T, W>(before: seq<T>, after: seq<T>, w: W, matches: (T, W) -> bool, order: T -> int)
    requires |after| == |before|
    requires forall i :: 0 <= i < |before| ==> matches(after[i], w) == matches(before[i], w)
    requires forall i :: 0 <= i < |before| && matches(before[i], w) ==> order(after[i]) == order(before[i])
    ensures PartitionOrders(after, w, matches, order) == PartitionOrders(before, w, matches, order)
    decreases |before|
  {
    if before != [] {
      var n := |before| - 1;
      var b0, a0 := before[..n], after[..n];
      assert before == b0 + [before[n]];
      assert after == a0 + [after[n]];
      forall i | 0 <= i < |b0|
        ensures matches(a0[i], w) == matches(b0[i], w)
        ensures matches(b0[i], w) ==> order(a0[i]) == order(b0[i])
      {
        assert a0[i] == after[i] && b0[i] == before[i];
      }
      PartitionUntouched(b0, a0, w, matches, order);
      PartitionOrdersConcat(b0, [before[n]], w, matches, order);
      PartitionOrdersConcat(a0, [after[n]], w, matches, order);
      PartitionOrdersSingle(before[n], w, matches, order);
      PartitionOrdersSingle(after[n], w, matches, order);
    }
  }

  /** Deleting rows none of which is in the partition leaves the partition's orders as they were. */
  lemma {:induction false} PartitionOrdersWithout<T, W>(rows: seq<T>, v: W, w: W, matches: (T, W) -> bool, order: T -> int)
    requires forall i :: 0 <= i < |rows| && matches(rows[i], w) ==> !matches(rows[i], v)
    ensures PartitionOrders(Filter(rows, v, matches, false), w, matches, order) == PartitionOrders(rows, w, matches, order)
    decreases |rows|
  {
    if rows != [] {
      var n := |rows| - 1;
      var x := rows[n];
      assert rows == rows[..n] + [x];
      PartitionOrdersWithout(rows[..n], v, w, matches, order);
      PartitionOrdersConcat(rows[..n], [x], w, matches, order);
      PartitionOrdersSingle(x, w, matches, order);
      if !matches(x, v) {
        PartitionOrdersConcat(Filter(rows[..n], v, matches, false), [x], w, matches, order);
      }
    }
  }

  /** Deleting every row of a partition, and maybe more, leaves it empty. */
  lemma PartitionOrdersEmptied<T, W>(rows: seq<T>, v: W, w: W, matches: (T, W) -> bool, order: T -> int)
    requires forall i :: 0 <= i < |rows| && matches(rows[i], w) ==> matches(rows[i], v)
    ensures PartitionOrders(Filter(rows, v, matches, false), w, matches, order) == []
  {
    var r := Filter(rows, v, matches, false);
    forall i | 0 <= i < |r|
      ensures !matches(r[i], w)
    {
      assert r[i] in rows && !matches(r[i], v);
      var j :| 0 <= j < |rows| && rows[j] == r[i];
    }
    CountZero(r, w, matches);
    assert |PartitionOrders(r, w, matches, order)| == 0;
  }

  /** The orders of a partition, split around row k. */
  lemma PartitionOrdersAt<T, W>(rows: seq<T>, k: int, w: W, matches: (T, W) -> bool, order: T -> int)
    requires 0 <= k < |rows|
    ensures PartitionOrders(rows, w, matches, order)
         == PartitionOrders(rows[..k], w, matches, order)
          + (if matches(rows[k], w) then [order(rows[k])] else [])
          + PartitionOrders(rows[k + 1..], w, matches, order)
  {
    assert rows == rows[..k] + [rows[k]] + rows[k + 1..];
    PartitionOrdersConcat(rows[..k] + [rows[k]], rows[k + 1..], w, matches, order);
    PartitionOrdersConcat(rows[..k], [rows[k]], w, matches, order);
    PartitionOrdersSingle(rows[k], w, matches, order);
  }

  /** A dense partition stays dense when the order one past its rows is placed between two parts of it. */
  lemma InsertBetween(xs: seq<int>, ys: seq<int>, os: seq<int>, n: int, present: bool)
    requires Dense(xs + ys)
    requires os == xs + (if present then [n] else []) + ys
    requires present ==> n == |xs| + |ys|
    ensures Dense(os)
  {
    if present {
      InsertKeepsDense(xs, ys);
    } else {
      assert os == xs + ys;
    }
  }

  /** An INSERT whose order is the partition's count keeps the partition dense. */
  lemma AppendKeepsDense<T, W>(rows: seq<T>, x: T, w: W, matches: (T, W) -> bool, order: T -> int)
    requires Dense(PartitionOrders(rows, w, matches, order))
    requires matches(x, w) ==> order(x) == Count(rows, w, matches)
    ensures Dense(PartitionOrders(rows + [x], w, matches, order))
  {
    var os := PartitionOrders(rows, w, matches, order);
    PartitionOrdersConcat(rows, [x], w, matches, order);
    PartitionOrdersSingle(x, w, matches, order);
    if matches(x, w) {
      var none: seq<int> := [];
      assert os + none == os;
      InsertKeepsDense(os, none);
      assert os + [|os| + |none|] + none == os + [order(x)];
    } else {
      assert os + [] == os;
    }
  }

  /** Shifting every order of two parts shifts the orders of their concatenation. */
  lemma ShiftAllConcat(xs: seq<int>, ys: seq<int>, s: Shift)
    ensures ShiftAll(xs + ys, s) == ShiftAll(xs, s) + ShiftAll(ys, s)
  {
  }

  /** The per-row conditions of RemoveRowKeepsDense, read on the rows before and after row k. */
  lemma SlicesCompacted<T, W>(before: seq<T>, after: seq<T>, k: int, w: W, matches: (T, W) -> bool, order: T -> int)
    requires 0 <= k < |before| == |after|
    requires matches(before[k], w)
    requires forall i :: 0 <= i < |before| && i != k ==> matches(after[i], w) == matches(before[i], w)
    requires forall i :: 0 <= i < |before| && i != k && matches(before[i], w) ==>
      order(after[i]) == Shifted(order(before[i]), Compact(order(before[k])))
    ensures PartitionOrders(after[..k], w, matches, order)
         == ShiftAll(PartitionOrders(before[..k], w, matches, order), Compact(order(before[k])))
    ensures PartitionOrders(after[k + 1..], w, matches, order)
         == ShiftAll(PartitionOrders(before[k + 1..], w, matches, order), Compact(order(before[k])))
  {
    var s := Compact(order(before[k]));
    PartitionShifted(before[..k], after[..k], w, matches, order, s);
    PartitionShifted(before[k + 1..], after[k + 1..], w, matches, order, s);
  }

  lemma SlicesUntouched<T, W>(before: seq<T>, after: seq<T>, k: int, w: W, matches: (T, W) -> bool, order: T -> int)
    requires 0 <= k < |before| == |after|
    requires forall i :: 0 <= i < |before| && i != k ==> matches(after[i], w) == matches(before[i], w)
    requires forall i :: 0 <= i < |before| && i != k && matches(before[i], w) ==> order(after[i]) == order(before[i])
    ensures PartitionOrders(after[..k], w, matches, order) == PartitionOrders(before[..k], w, matches, order)
    ensures PartitionOrders(after[k + 1..], w, matches, order) == PartitionOrders(before[k + 1..], w, matches, order)
  {
    PartitionUntouched(before[..k], after[..k], w, matches, order);
    PartitionUntouched(before[k + 1..], after[k + 1..], w, matches, order);
  }

  /**
   * Compaction of row k's partition (the rows above it drop by one), then
   * removal of row k, keeps every partition dense. The rows other than k
   * keep their partition; in row k's partition their order is compacted,
   * elsewhere it is unchanged.
   */
  lemma RemoveRowKeepsDense<T, W>(before: seq<T>, after: seq<T>, k: int, w: W, matches: (T, W) -> bool, order: T -> int)
    requires 0 <= k < |before| == |after|
    requires forall i :: 0 <= i < |before| && i != k ==> matches(after[i], w) == matches(before[i], w)
    requires forall i :: 0 <= i < |before| && i != k && matches(before[i], w) ==>
      order(after[i]) == if matches(before[k], w) then Shifted(order(before[i]), Compact(order(before[k]))) else order(before[i])
    requires Dense(PartitionOrders(before, w, matches, order))
    ensures Dense(PartitionOrders(after[..k] + after[k + 1..], w, matches, order))
  {
    var xs := PartitionOrders(before[..k], w, matches, order);
    var ys := PartitionOrders(before[k + 1..], w, matches, order);
    PartitionOrdersAt(before, k, w, matches, order);
    PartitionOrdersConcat(after[..k], after[k + 1..], w, matches, order);
    if matches(before[k], w) {
      var s := Compact(order(before[k]));
      forall i | 0 <= i < |before| && i != k && matches(before[i], w)
        ensures order(after[i]) == Shifted(order(before[i]), s)
      {
      }
      SlicesCompacted(before, after, k, w, matches, order);
      RemoveKeepsDense(xs, order(before[k]), ys);
      ShiftAllConcat(xs, ys, s);
    } else {
      forall i | 0 <= i < |before| && i != k && matches(before[i], w)
        ensures order(after[i]) == order(before[i])
      {
      }
      SlicesUntouched(before, after, k, w, matches, order);
      assert xs + [] + ys == xs + ys;
    }
  }

  /**
   * As RemoveRowKeepsDense, but row k stays in the table with a new partition
   * and, if it lands in this one, the order one past the other rows: a
   * partition change after compaction keeps every partition dense.
   */
  lemma ReplaceRowKeepsDense<T, W>(before: seq<T>, after: seq<T>, k: int, w: W, matches: (T, W) -> bool, order: T -> int)
    requires 0 <= k < |before| == |after|
    requires forall i :: 0 <= i < |before| && i != k ==> matches(after[i], w) == matches(before[i], w)
    requires forall i :: 0 <= i < |before| && i != k && matches(before[i], w) ==>
      order(after[i]) == if matches(before[k], w) then Shifted(order(before[i]), Compact(order(before[k]))) else order(before[i])
    requires matches(after[k], w) ==> order(after[k]) == Count(after[..k] + after[k + 1..], w, matches)
    requires Dense(PartitionOrders(before, w, matches, order))
    ensures Dense(PartitionOrders(after, w, matches, order))
  {
    var xs := PartitionOrders(after[..k], w, matches, order);
    var ys := PartitionOrders(after[k + 1..], w, matches, order);
    RemoveRowKeepsDense(before, after, k, w, matches, order);
    PartitionOrdersConcat(after[..k], after[k + 1..], w, matches, order);
    PartitionOrdersAt(after, k, w, matches, order);
    InsertBetween(xs, ys, PartitionOrders(after, w, matches, order), order(after[k]), matches(after[k], w));
  }
}
