/** A price level: its aggregate quantity and order count, and the orders resting at it by rank. */
module Levels {
  import opened Types

  datatype Level = Level(qty: int, nOrders: int, flags: Flags, orders: seq<Order>)

  ghost predicate RanksIncrease(os: seq<Order>) {
    forall i, j | 0 <= i < j < |os| :: os[i].rank < os[j].rank
  }

  function SumQty(os: seq<Order>): int {
    if os == [] then 0 else os[0].qty + SumQty(os[1..])
  }

  // ---- rank-ordered insertion and deletion

  /** The rank given to an unranked order: one past the last. */
  function NextRank(os: seq<Order>): nat {
    if os == [] then 0 else os[|os| - 1].rank + 1
  }

  /** Increments the ranks of a run that starts at `rank`, as far as each collides with the next. */
  function ShiftUp(os: seq<Order>, rank: nat): seq<Order> {
    if os == [] || os[0].rank != rank then os
    else [os[0].(rank := rank + 1)] + ShiftUp(os[1..], rank + 1)
  }

  /** Decrements the ranks of the consecutive run that starts just above `rank`. */
  function ShiftDown(os: seq<Order>, rank: nat): seq<Order> {
    if os == [] || os[0].rank != rank + 1 then os
    else [os[0].(rank := rank)] + ShiftDown(os[1..], rank + 1)
  }

  /** Insertion by rank. Under uniform ranks the orders in the way move up; otherwise an order of
      equal rank joins the chain of duplicates right behind its first member. */
  function Insert(uniform: bool, os: seq<Order>, o: Order): seq<Order> {
    if os == [] then [o]
    else if os[0].rank < o.rank then [os[0]] + Insert(uniform, os[1..], o)
    else if uniform then [o] + ShiftUp(os, o.rank)
    else if os[0].rank == o.rank then [os[0], o] + os[1..]
    else [o] + os
  }

  /** Deletion of the first order at `rank`. Under uniform ranks the consecutive run above closes
      the gap, even where no order had that rank. */
  function Delete(uniform: bool, os: seq<Order>, rank: nat): seq<Order> {
    if os == [] then []
    else if os[0].rank < rank then [os[0]] + Delete(uniform, os[1..], rank)
    else
      var rest := if os[0].rank == rank then os[1..] else os;
      if uniform then ShiftDown(rest, rank) else rest
  }

  // ---- aggregate updates

  function UpdateDelta(l: Level, qty: int, nOrders: int, flags: Flags): Level {
    var total := l.qty + qty;
    Level(total,
          if total == 0 then 0 else l.nOrders + nOrders,
          if qty != 0 then l.flags + flags else l.flags - flags,
          l.orders)
  }

  function UpdateAbs(l: Level, qty: int, nOrders: int, flags: Flags): Level {
    Level(qty, if qty == 0 then 0 else nOrders, flags, l.orders)
  }

  function AddToLevel(uniform: bool, l: Level, o: Order, rank: Option<nat>): Level {
    var r := if rank.None? then NextRank(l.orders) else rank.value;
    l.(orders := Insert(uniform, l.orders, o.(rank := r)))
  }

  // ---- what shifting, insertion and deletion do to a well-ranked level

  /** Orders that agree in everything but, possibly, their rank. */
  predicate SameButRank(a: Order, b: Order) {
    a.(rank := b.rank) == b
  }

  ghost predicate SameOrders(a: seq<Order>, b: seq<Order>) {
    |a| == |b| && forall i | 0 <= i < |a| :: SameButRank(a[i], b[i])
  }

  lemma {:induction false} ShiftUpLemma(os: seq<Order>, rank: nat)
    requires RanksIncrease(os)
    requires forall i | 0 <= i < |os| :: rank <= os[i].rank
    ensures SameOrders(ShiftUp(os, rank), os)
    ensures RanksIncrease(ShiftUp(os, rank))
    ensures forall i | 0 <= i < |os| :: rank < ShiftUp(os, rank)[i].rank
    ensures forall i | 0 <= i < |os| :: os[i].rank <= ShiftUp(os, rank)[i].rank <= os[i].rank + 1
  {
    if os != [] && os[0].rank == rank {
      ShiftUpLemma(os[1..], rank + 1);
      var t := ShiftUp(os[1..], rank + 1);
      var s := ShiftUp(os, rank);
      assert s == [os[0].(rank := rank + 1)] + t;
      forall i | 0 <= i < |os| ensures s[i].rank <= os[i].rank + 1 && SameButRank(s[i], os[i]) {
        if i > 0 { assert s[i] == t[i - 1] && os[i] == os[1..][i - 1]; }
      }
    }
  }

  lemma {:induction false} ShiftDownLemma(os: seq<Order>, rank: nat)
    requires RanksIncrease(os)
    requires forall i | 0 <= i < |os| :: rank < os[i].rank
    ensures SameOrders(ShiftDown(os, rank), os)
    ensures RanksIncrease(ShiftDown(os, rank))
    ensures forall i | 0 <= i < |os| :: rank <= ShiftDown(os, rank)[i].rank <= os[i].rank
    ensures ShiftUp(ShiftDown(os, rank), rank) == os
  {
    if os != [] && os[0].rank == rank + 1 {
      ShiftDownLemma(os[1..], rank + 1);
      hide SameButRank;
      var t := ShiftDown(os[1..], rank + 1);
      var s := ShiftDown(os, rank);
      assert s == [os[0].(rank := rank)] + t;
      assert s[1..] == t;
      forall i | 0 <= i < |os| ensures s[i].rank <= os[i].rank && SameButRank(s[i], os[i]) {
        if i > 0 { assert s[i] == t[i - 1] && os[i] == os[1..][i - 1]; }
      }
    }
  }

  /** The position at which an order of the given rank is inserted. */
  function Position(os: seq<Order>, rank: nat): (k: nat)
    ensures k <= |os|
    ensures forall i | 0 <= i < k :: os[i].rank < rank
    ensures k < |os| ==> rank <= os[k].rank
  {
    if os == [] || os[0].rank >= rank then 0 else 1 + Position(os[1..], rank)
  }

  lemma {:induction false} PositionUnique(os: seq<Order>, rank: nat, k: nat)
    requires k <= |os|
    requires forall i | 0 <= i < k :: os[i].rank < rank
    requires k < |os| ==> rank <= os[k].rank
    ensures Position(os, rank) == k
  {
  }

  /** Two runs of increasing ranks, one wholly behind the other. */
  lemma {:induction false} RanksConcat(a: seq<Order>, b: seq<Order>, rank: nat)
    requires RanksIncrease(a) && RanksIncrease(b)
    requires forall i | 0 <= i < |a| :: a[i].rank < rank
    requires forall i | 0 <= i < |b| :: rank <= b[i].rank
    ensures RanksIncrease(a + b)
  {
  }

  lemma {:induction false} RanksSlice(os: seq<Order>, lo: nat, hi: nat)
    requires RanksIncrease(os) && lo <= hi <= |os|
    ensures RanksIncrease(os[lo..hi])
  {
  }

  /** What insertion leaves from the insertion position on. */
  function Inserted(uniform: bool, behind: seq<Order>, o: Order): seq<Order> {
    if uniform then [o] + ShiftUp(behind, o.rank)
    else if behind != [] && behind[0].rank == o.rank then [behind[0], o] + behind[1..]
    else [o] + behind
  }

  /** Cutting a sequence one further on than its tail. */
  lemma {:induction false} CutTail<T>(os: seq<T>, k: nat, behind: seq<T>)
    requires 0 < k <= |os|
    ensures os[k..] == os[1..][k - 1..]
    ensures os[..k] + behind == [os[0]] + (os[1..][..k - 1] + behind)
  {
    assert os[..k] == [os[0]] + os[1..][..k - 1];
  }

  lemma {:induction false} CutNothing<T>(os: seq<T>, behind: seq<T>)
    ensures os[0..] == os && os[..0] + behind == behind
  {
  }

  lemma {:induction false} InsertShape(uniform: bool, os: seq<Order>, o: Order)
    ensures var k := Position(os, o.rank);
      Insert(uniform, os, o) == os[..k] + Inserted(uniform, os[k..], o)
  {
    var k := Position(os, o.rank);
    if os != [] && os[0].rank < o.rank {
      hide Inserted;
      InsertShape(uniform, os[1..], o);
      CutTail(os, k, Inserted(uniform, os[k..], o));
    } else {
      CutNothing(os, Inserted(uniform, os, o));
      assert Insert(uniform, os, o) == Inserted(uniform, os, o);
    }
  }

  /** From the insertion position on: the new order, ahead of the others, whose ranks still increase
      and whose relative order has not changed. */
  lemma {:induction false} InsertedUniform(behind: seq<Order>, o: Order)
    requires RanksIncrease(behind)
    requires forall i | 0 <= i < |behind| :: o.rank <= behind[i].rank
    ensures var s := Inserted(true, behind, o);
      && |s| == |behind| + 1 && s[0] == o && SameOrders(s[1..], behind) && RanksIncrease(s)
      && forall i | 0 <= i < |s| :: o.rank <= s[i].rank
  {
    ShiftUpLemma(behind, o.rank);
    RanksConcat([o], ShiftUp(behind, o.rank), o.rank + 1);
    assert Inserted(true, behind, o)[1..] == ShiftUp(behind, o.rank);
  }

  lemma {:induction false} SuffixRanks(os: seq<Order>, k: nat, rank: nat)
    requires RanksIncrease(os) && k <= |os| && (k < |os| ==> rank <= os[k].rank)
    ensures RanksIncrease(os[k..]) && forall i | 0 <= i < |os[k..]| :: rank <= os[k..][i].rank
  {
    forall i | 0 <= i < |os[k..]| ensures rank <= os[k..][i].rank {
      assert os[k..][i] == os[k + i];
      assert i > 0 ==> os[k].rank < os[k + i].rank;
    }
  }

  /** Insertion puts the order exactly at its rank, ahead of every order previously at or behind that
      rank; it keeps ranks strictly increasing and never changes the relative order of the others. */
  lemma {:induction false} InsertUniform(os: seq<Order>, o: Order)
    requires RanksIncrease(os)
    ensures var k, s := Position(os, o.rank), Insert(true, os, o);
      && |s| == |os| + 1 && s[k] == o && s[..k] == os[..k]
      && SameOrders(s[k + 1..], os[k..]) && RanksIncrease(s)
  {
    var k, s := Position(os, o.rank), Insert(true, os, o);
    InsertShape(true, os, o);
    SuffixRanks(os, k, o.rank);
    InsertedUniform(os[k..], o);
    var tail := Inserted(true, os[k..], o);
    RanksSlice(os, 0, k);
    RanksConcat(os[..k], tail, o.rank);
    assert s == os[..k] + tail;
    assert s[k + 1..] == tail[1..];
  }

  /** The same without uniform ranks, provided the rank is not taken. */
  lemma {:induction false} InsertDistinct(os: seq<Order>, o: Order)
    requires RanksIncrease(os)
    requires forall i | 0 <= i < |os| :: os[i].rank != o.rank
    ensures var k := Position(os, o.rank);
      Insert(false, os, o) == os[..k] + [o] + os[k..] && RanksIncrease(Insert(false, os, o))
  {
    var k := Position(os, o.rank);
    InsertShape(false, os, o);
    SuffixRanks(os, k, o.rank);
    var behind := os[k..];
    assert |behind| > 0 ==> behind[0] == os[k];
    assert Inserted(false, behind, o) == [o] + behind;
    forall i | 0 <= i < |behind| ensures o.rank + 1 <= behind[i].rank {
      assert behind[i] == os[k + i];
    }
    RanksConcat([o], behind, o.rank + 1);
    RanksSlice(os, 0, k);
    RanksConcat(os[..k], [o] + behind, o.rank);
    assert os[..k] + ([o] + behind) == os[..k] + [o] + behind;
  }

  /** A taken rank leaves two orders at the same rank. */
  lemma {:induction false} InsertDuplicate(os: seq<Order>, o: Order, i: nat)
    requires i < |os| && os[i].rank == o.rank
    requires RanksIncrease(os)
    ensures !RanksIncrease(Insert(false, os, o))
  {
    PositionUnique(os, o.rank, i);
    InsertShape(false, os, o);
    var s := Insert(false, os, o);
    assert s[i].rank == o.rank == s[i + 1].rank;
  }

  /** What deletion leaves from the deleted position on. */
  function Deleted(uniform: bool, behind: seq<Order>, rank: nat): seq<Order> {
    var rest := if behind != [] && behind[0].rank == rank then behind[1..] else behind;
    if uniform then ShiftDown(rest, rank) else rest
  }

  lemma {:induction false} DeleteShape(uniform: bool, os: seq<Order>, rank: nat)
    ensures var k := Position(os, rank); Delete(uniform, os, rank) == os[..k] + Deleted(uniform, os[k..], rank)
  {
    var k := Position(os, rank);
    if os != [] && os[0].rank < rank {
      hide Deleted;
      DeleteShape(uniform, os[1..], rank);
      CutTail(os, k, Deleted(uniform, os[k..], rank));
    } else {
      CutNothing(os, Deleted(uniform, os, rank));
      assert Delete(uniform, os, rank) == Deleted(uniform, os, rank);
    }
  }

  lemma {:induction false} BehindRanks(os: seq<Order>, k: nat, behind: seq<Order>)
    requires RanksIncrease(os) && k < |os| && behind == os[k + 1..]
    ensures RanksIncrease(behind)
    ensures forall i | 0 <= i < k :: os[..k][i].rank < os[k].rank
    ensures forall i | 0 <= i < |behind| :: os[k].rank < behind[i].rank
  {
  }

  /** Deletion removes exactly the order at the given rank and keeps the rest as they were, in their
      relative order. */
  lemma {:induction false} DeleteAt(uniform: bool, os: seq<Order>, k: nat)
    requires RanksIncrease(os) && k < |os|
    ensures var s := Delete(uniform, os, os[k].rank);
      && |s| == |os| - 1 && s[..k] == os[..k]
      && (if uniform then s[k..] == ShiftDown(os[k + 1..], os[k].rank) else s[k..] == os[k + 1..])
      && SameOrders(s[k..], os[k + 1..])
      && RanksIncrease(s)
  {
    var rank, s := os[k].rank, Delete(uniform, os, os[k].rank);
    PositionUnique(os, rank, k);
    DeleteShape(uniform, os, rank);
    RanksSlice(os, 0, k);
    var behind := os[k + 1..];
    BehindRanks(os, k, behind);
    assert os[k..][1..] == behind;
    var rest := Deleted(uniform, os[k..], rank);
    assert rest == if uniform then ShiftDown(behind, rank) else behind;
    ShiftDownLemma(behind, rank);
    hide Delete, Deleted, ShiftDown, ShiftUp, RanksIncrease, SameOrders;
    RanksConcat(os[..k], rest, rank);
    CutConcat(os[..k], rest);
  }

  lemma {:induction false} CutConcat<T>(a: seq<T>, b: seq<T>)
    ensures (a + b)[..|a|] == a && (a + b)[|a|..] == b
  {
  }

  /** Taking an order out and putting it back at its own rank, whatever becomes of its quantity,
      leaves every other order's rank and position alone: the order keeps its queue position. */
  lemma {:induction false} ReinsertKeepsPosition(uniform: bool, os: seq<Order>, k: nat, o: Order)
    requires RanksIncrease(os) && k < |os| && o.rank == os[k].rank
    ensures Insert(uniform, Delete(uniform, os, os[k].rank), o) == os[k := o]
  {
    if k == 0 {
      if uniform {
        ShiftDownLemma(os[1..], o.rank);
        var t := ShiftDown(os[1..], o.rank);
        assert ShiftUp(t, o.rank) == os[1..];
      } else if |os| > 1 {
        assert os[1].rank > o.rank;
      }
    } else {
      assert os[0].rank < os[k].rank;
      ReinsertKeepsPosition(uniform, os[1..], k - 1, o);
      var t := Delete(uniform, os[1..], os[k].rank);
      var s := Delete(uniform, os, os[k].rank);
      assert s == [os[0]] + t && s[1..] == t;
      assert os[k := o] == [os[0]] + os[1..][k - 1 := o];
    }
  }

  // ---- sums

  lemma {:induction false} SumQtyConcat(a: seq<Order>, b: seq<Order>)
    ensures SumQty(a + b) == SumQty(a) + SumQty(b)
  {
    if a == [] {
      assert a + b == b;
    } else {
      assert (a + b)[1..] == a[1..] + b;
      SumQtyConcat(a[1..], b);
    }
  }

  lemma {:induction false} SumQtyAt(os: seq<Order>, k: nat)
    requires k < |os|
    ensures SumQty(os) == SumQty(os[..k]) + os[k].qty + SumQty(os[k + 1..])
  {
    assert os == os[..k] + os[k..] && os[k..][1..] == os[k + 1..];
    SumQtyConcat(os[..k], os[k..]);
  }

  lemma {:induction false} SumQtySame(a: seq<Order>, b: seq<Order>)
    requires SameOrders(a, b)
    ensures SumQty(a) == SumQty(b)
  {
    if a != [] {
      assert SameButRank(a[0], b[0]);
      forall i | 0 <= i < |a| - 1 ensures SameButRank(a[1..][i], b[1..][i]) {
        assert SameButRank(a[i + 1], b[i + 1]);
      }
      SumQtySame(a[1..], b[1..]);
    }
  }

  lemma {:induction false} SumQtyPositive(os: seq<Order>)
    requires forall i | 0 <= i < |os| :: os[i].qty > 0
    ensures SumQty(os) >= |os|
  {
    if os != [] {
      SumQtyPositive(os[1..]);
    }
  }
}
