/** The invariant that ties the redundant views of a book together, and the exact conditions under
    which each operation keeps it. */
module Invariant {
  import opened Types
  import opened Levels
  import opened Books
  import opened Sums

  function QtyOf(l: Option<Level>): int {
    if l.Some? then l.value.qty else 0
  }

  function Qtys(m: map<int, Level>): map<int, int> {
    map p | p in m :: m[p].qty
  }

  ghost function Total(x: OBSide): int {
    QtyOf(x.mkt) + Sum(Qtys(x.levels))
  }

  ghost predicate OrderOk(cfg: Config, b: Book, s: Side, p: Price, o: Order) {
    && o.side == s && o.price == p && o.qty > 0
    && cfg.KeyOf(o) in b.index && b.index[cfg.KeyOf(o)] == At(s, p)
  }

  ghost predicate DistinctIds(os: seq<Order>) {
    forall i, j | 0 <= i < j < |os| :: os[i].id != os[j].id
  }

  /** A level holds orders, and then aggregates exactly those, or it holds none and is a non-zero
      aggregate. */
  ghost predicate LevelOk(cfg: Config, b: Book, s: Side, p: Price, l: Level) {
    && (if l.orders == [] then l.qty != 0
        else l.qty == SumQty(l.orders) && l.nOrders == |l.orders| && l.flags == {})
    && RanksIncrease(l.orders)
    && DistinctIds(l.orders)
    && forall i | 0 <= i < |l.orders| :: OrderOk(cfg, b, s, p, l.orders[i])
  }

  ghost predicate Indexed(cfg: Config, b: Book, k: OrderKey) {
    && k in b.index && b.index[k].At? && Find(cfg, b, k).Some?
  }

  /** Every level is sound, every side totals its levels, and the index holds exactly the orders that
      rest in the levels. */
  ghost predicate Valid(cfg: Config, b: Book) {
    && (forall s: Side, p: Price | b.LevelAt(s, p).Some? :: LevelOk(cfg, b, s, p, b.LevelAt(s, p).value))
    && (forall s: Side :: b.Of(s).qty == Total(b.Of(s)))
    && (forall k | k in b.index :: Indexed(cfg, b, k))
  }

  lemma {:induction false} PutTotal(x: OBSide, p: Price, l: Option<Level>)
    ensures Total(x.Put(p, l)) == Total(x) - QtyOf(x.LevelAt(p)) + QtyOf(l)
  {
    if p.Some? {
      var m := Qtys(x.levels);
      if l.Some? {
        assert Qtys(x.Put(p, l).levels) == m[p.value := l.value.qty];
        SumUpdate(m, p.value, l.value.qty);
      } else {
        assert Qtys(x.Put(p, l).levels) == m - {p.value};
        SumDelete(m, p.value);
      }
    }
  }

  /** `b'` differs from `b` only in the level at one price and in the index entries of the orders in
      that level, and its side's quantity has moved along. */
  ghost predicate Replaced(cfg: Config, b: Book, b': Book, s: Side, p: Price, l: Option<Level>) {
    && b'.Of(s.Opposite()) == b.Of(s.Opposite())
    && b'.Of(s) == b.Of(s).Put(p, l).(qty := b.Of(s).qty - QtyOf(b.LevelAt(s, p)) + QtyOf(l))
    && (forall k | k in b.index && b.index[k] != At(s, p) :: k in b'.index && b'.index[k] == b.index[k])
    && (forall k | k in b'.index && b'.index[k] != At(s, p) :: k in b.index && b'.index[k] == b.index[k])
  }

  ghost predicate Holds(cfg: Config, os: seq<Order>, k: OrderKey) {
    exists i :: 0 <= i < |os| && cfg.KeyOf(os[i]) == k
  }

  lemma {:induction false} OtherLevelsStay(cfg: Config, b: Book, b': Book, s: Side, p: Price, l: Option<Level>)
    requires Replaced(cfg, b, b', s, p, l)
    ensures b'.LevelAt(s, p) == l
    ensures forall s2: Side, p2: Price | s2 != s || p2 != p :: b'.LevelAt(s2, p2) == b.LevelAt(s2, p2)
  {
    forall s2: Side, p2: Price | s2 != s || p2 != p ensures b'.LevelAt(s2, p2) == b.LevelAt(s2, p2) {
      if s2 != s { assert s2 == s.Opposite(); }
    }
  }

  lemma {:induction false} OtherLevelOk(cfg: Config, b: Book, b': Book, s: Side, p: Price,
                                        l: Option<Level>, s2: Side, p2: Price, l2: Level)
    requires Replaced(cfg, b, b', s, p, l) && (s2 != s || p2 != p)
    requires LevelOk(cfg, b, s2, p2, l2)
    ensures LevelOk(cfg, b', s2, p2, l2)
  {
    forall i | 0 <= i < |l2.orders| ensures OrderOk(cfg, b', s2, p2, l2.orders[i]) {
      assert OrderOk(cfg, b, s2, p2, l2.orders[i]);
    }
  }

  lemma {:induction false} TotalsStay(cfg: Config, b: Book, b': Book, s: Side, p: Price, l: Option<Level>)
    requires Replaced(cfg, b, b', s, p, l)
    requires forall s: Side :: b.Of(s).qty == Total(b.Of(s))
    ensures forall s: Side :: b'.Of(s).qty == Total(b'.Of(s))
  {
    PutTotal(b.Of(s), p, l);
    forall s2: Side ensures b'.Of(s2).qty == Total(b'.Of(s2)) {
      assert b.Of(s2).qty == Total(b.Of(s2));
      if s2 != s {
        assert s2 == s.Opposite();
      } else {
        assert Total(b'.Of(s)) == Total(b.Of(s).Put(p, l));
      }
    }
  }

  lemma {:induction false} IndexStays(cfg: Config, b: Book, b': Book, s: Side, p: Price, l: Option<Level>, k: OrderKey)
    requires Replaced(cfg, b, b', s, p, l) && k in b'.index
    requires k in b.index ==> Indexed(cfg, b, k)
    requires b'.index[k] == At(s, p) ==> l.Some? && Holds(cfg, l.value.orders, k)
    ensures Indexed(cfg, b', k)
  {
    OtherLevelsStay(cfg, b, b', s, p, l);
    if b'.index[k] == At(s, p) {
      assert FindIn(cfg, l.value.orders, k).Some?;
    }
  }

  /** Replacing one level keeps the invariant if and only if the new level is sound and the index
      points into it for exactly the orders it holds. */
  lemma {:induction false} ReplacedValid(cfg: Config, b: Book, b': Book, s: Side, p: Price, l: Option<Level>)
    requires Valid(cfg, b) && Replaced(cfg, b, b', s, p, l)
    requires forall k | k in b'.index && b'.index[k] == At(s, p) :: l.Some? && Holds(cfg, l.value.orders, k)
    ensures Valid(cfg, b') <==> (l.Some? ==> LevelOk(cfg, b', s, p, l.value))
  {
    hide LevelOk, Replaced, Indexed, Holds, Total;
    OtherLevelsStay(cfg, b, b', s, p, l);
    if l.Some? ==> LevelOk(cfg, b', s, p, l.value) {
      forall s2: Side, p2: Price | b'.LevelAt(s2, p2).Some?
        ensures LevelOk(cfg, b', s2, p2, b'.LevelAt(s2, p2).value)
      {
        if s2 != s || p2 != p {
          OtherLevelOk(cfg, b, b', s, p, l, s2, p2, b.LevelAt(s2, p2).value);
        }
      }
      TotalsStay(cfg, b, b', s, p, l);
      forall k | k in b'.index ensures Indexed(cfg, b', k) {
        IndexStays(cfg, b, b', s, p, l, k);
      }
    }
  }

  // ---- facts about orders in a valid book

  lemma {:induction false} LevelIsOk(cfg: Config, b: Book, s: Side, p: Price)
    requires Valid(cfg, b) && b.LevelAt(s, p).Some?
    ensures LevelOk(cfg, b, s, p, b.LevelAt(s, p).value)
  {
  }

  /** An indexed order is in the level at its own price, at some position, and nowhere else. */
  lemma {:induction false} FindFacts(cfg: Config, b: Book, k: OrderKey) returns (i: nat)
    requires Valid(cfg, b) && k in b.index
    ensures Find(cfg, b, k).Some?
    ensures var o := Find(cfg, b, k).value;
      && cfg.KeyOf(o) == k && o.qty > 0 && b.index[k] == At(o.side, o.price)
      && b.LevelAt(o.side, o.price).Some?
      && var os := b.LevelAt(o.side, o.price).value.orders;
      && i < |os| && os[i] == o
      && forall j | 0 <= j < |os| && j != i :: cfg.KeyOf(os[j]) != k
  {
    assert Indexed(cfg, b, k);
    var o := Find(cfg, b, k).value;
    var l := b.LevelAt(b.index[k].side, b.index[k].price).value;
    assert LevelOk(cfg, b, b.index[k].side, b.index[k].price, l);
    i :| 0 <= i < |l.orders| && l.orders[i] == o;
    assert OrderOk(cfg, b, b.index[k].side, b.index[k].price, o);
    forall j | 0 <= j < |l.orders| && j != i ensures cfg.KeyOf(l.orders[j]) != k {
      assert l.orders[j].id != l.orders[i].id;
    }
  }

  /** The orders of a level are the orders indexed there. */
  lemma {:induction false} KeysAtLevel(cfg: Config, b: Book, s: Side, p: Price)
    requires Valid(cfg, b) && b.LevelAt(s, p).Some?
    ensures forall k :: k in KeysOf(cfg, b.LevelAt(s, p).value.orders) <==> k in b.index && b.index[k] == At(s, p)
  {
    hide Valid;
    LevelIsOk(cfg, b, s, p);
    var os := b.LevelAt(s, p).value.orders;
    forall k ensures k in KeysOf(cfg, os) <==> k in b.index && b.index[k] == At(s, p) {
      if k in KeysOf(cfg, os) {
        var i :| 0 <= i < |os| && cfg.KeyOf(os[i]) == k;
        assert OrderOk(cfg, b, s, p, os[i]);
      }
      if k in b.index && b.index[k] == At(s, p) {
        var i := FindFacts(cfg, b, k);
      }
    }
  }

  // ---- leaving

  lemma {:induction false} DeleteSum(uniform: bool, os: seq<Order>, k: nat)
    requires RanksIncrease(os) && k < |os|
    ensures SumQty(Delete(uniform, os, os[k].rank)) == SumQty(os) - os[k].qty
  {
    var s := Delete(uniform, os, os[k].rank);
    DeleteAt(uniform, os, k);
    SumQtyAt(os, k);
    SumQtySame(s[k..], os[k + 1..]);
    SumQtyConcat(s[..k], s[k..]);
    assert s[..k] + s[k..] == s;
  }

  /** The level an order has left: empty or removed if it was the last, otherwise sound. */
  function Remaining(cfg: Config, l: Level, o: Order): Option<Level> {
    var os := Delete(cfg.uniform, l.orders, o.rank);
    if l.qty == o.qty then None else Some(Level(l.qty - o.qty, l.nOrders - 1, l.flags, os))
  }

  /** Every order after a deletion is an order from before, elsewhere than at the deleted position,
      with at most its rank changed. */
  lemma {:induction false} DeleteSource(uniform: bool, os: seq<Order>, k: nat, i: nat) returns (j: nat)
    requires RanksIncrease(os) && k < |os|
    requires i < |Delete(uniform, os, os[k].rank)|
    ensures j == (if i < k then i else i + 1) && j < |os|
    ensures SameButRank(Delete(uniform, os, os[k].rank)[i], os[j])
  {
    DeleteAt(uniform, os, k);
    var s := Delete(uniform, os, os[k].rank);
    j := if i < k then i else i + 1;
    if i < k {
      assert s[i] == s[..k][i] == os[..k][i];
    } else {
      assert s[i] == s[k..][i - k] && os[j] == os[k + 1..][i - k];
      assert SameButRank(s[k..][i - k], os[k + 1..][i - k]);
    }
  }

  lemma {:induction false} DeleteOk(cfg: Config, b: Book, b': Book, s: Side, p: Price, os: seq<Order>, i: nat)
    requires i < |os| && RanksIncrease(os) && DistinctIds(os)
    requires forall j | 0 <= j < |os| :: OrderOk(cfg, b, s, p, os[j])
    requires b'.index == b.index - {cfg.KeyOf(os[i])}
    ensures var rest := Delete(cfg.uniform, os, os[i].rank);
      DistinctIds(rest) && forall j | 0 <= j < |rest| :: OrderOk(cfg, b', s, p, rest[j])
  {
    var rest := Delete(cfg.uniform, os, os[i].rank);
    assert OrderOk(cfg, b, s, p, os[i]);
    hide Delete, RanksIncrease;
    forall j | 0 <= j < |rest| ensures OrderOk(cfg, b', s, p, rest[j]) {
      var j' := DeleteSource(cfg.uniform, os, i, j);
      assert OrderOk(cfg, b, s, p, os[j']);
      assert os[j'].id != os[i].id;
    }
    forall j, m | 0 <= j < m < |rest| ensures rest[j].id != rest[m].id {
      var j' := DeleteSource(cfg.uniform, os, i, j);
      var m' := DeleteSource(cfg.uniform, os, i, m);
      assert os[j'].id != os[m'].id;
    }
  }

  lemma {:induction false} DeleteHolds(cfg: Config, os: seq<Order>, i: nat, j: nat)
    requires i < |os| && j < |os| && j != i && RanksIncrease(os)
    ensures Holds(cfg, Delete(cfg.uniform, os, os[i].rank), cfg.KeyOf(os[j]))
  {
    DeleteAt(cfg.uniform, os, i);
    hide RanksIncrease, Delete;
    var rest, j0 := Delete(cfg.uniform, os, os[i].rank), if j < i then j else j - 1;
    var j' := DeleteSource(cfg.uniform, os, i, j0);
    assert cfg.KeyOf(rest[j0]) == cfg.KeyOf(os[j]);
  }

  lemma {:induction false} LeaveLevelOk(cfg: Config, b: Book, b': Book, s: Side, p: Price, i: nat)
    requires b.LevelAt(s, p).Some? && i < |b.LevelAt(s, p).value.orders|
    requires LevelOk(cfg, b, s, p, b.LevelAt(s, p).value)
    requires b'.index == b.index - {cfg.KeyOf(b.LevelAt(s, p).value.orders[i])}
    ensures var l := b.LevelAt(s, p).value; var r := Remaining(cfg, l, l.orders[i]);
      && (r.None? <==> |l.orders| == 1)
      && (r.Some? ==> LevelOk(cfg, b', s, p, r.value) && |r.value.orders| == |l.orders| - 1)
      && forall j | 0 <= j < |l.orders| && j != i :: r.Some? && Holds(cfg, r.value.orders, cfg.KeyOf(l.orders[j]))
  {
    var l := b.LevelAt(s, p).value;
    var os, o := l.orders, l.orders[i];
    var rest := Delete(cfg.uniform, os, o.rank);
    hide Delete, RanksIncrease, DistinctIds, OrderOk, SumQty, Holds;
    DeleteAt(cfg.uniform, os, i);
    DeleteSum(cfg.uniform, os, i);
    DeleteOk(cfg, b, b', s, p, os, i);
    SumQtyPositiveOk(cfg, b', s, p, rest);
    SumQtyOfNone();
    forall j | 0 <= j < |os| && j != i ensures Holds(cfg, rest, cfg.KeyOf(os[j])) {
      DeleteHolds(cfg, os, i, j);
    }
  }

  lemma {:induction false} SumQtyOfNone()
    ensures SumQty([]) == 0
  {
  }

  lemma {:induction false} RemainingIsUpdate(cfg: Config, l: Level, o: Order)
    requires o.qty != 0
    ensures var l' := UpdateDelta(l, -o.qty, -1, {}); var os := Delete(cfg.uniform, l'.orders, o.rank);
      Remaining(cfg, l, o) == if l'.qty == 0 then None else Some(l'.(orders := os))
  {
    assert l.flags + {} == l.flags;
  }

  lemma {:induction false} LeaveShape(cfg: Config, b: Book, o: Order)
    requires o.qty != 0 && b.LevelAt(o.side, o.price).Some?
    requires var l := b.LevelAt(o.side, o.price).value;
      l.qty == o.qty ==> Delete(cfg.uniform, l.orders, o.rank) == []
    requires cfg.KeyOf(o) in b.index && b.index[cfg.KeyOf(o)] == At(o.side, o.price)
    ensures var b' := Leave(cfg, b, o);
      && b'.index == b.index - {cfg.KeyOf(o)}
      && Replaced(cfg, b, b', o.side, o.price, Remaining(cfg, b.LevelAt(o.side, o.price).value, o))
  {
    var l := b.LevelAt(o.side, o.price).value;
    RemainingIsUpdate(cfg, l, o);
    assert KeysOf(cfg, []) == {};
  }

  /** An order that leaves takes exactly itself out of its level and out of the index. */
  lemma {:induction false} LeaveValid(cfg: Config, b: Book, k: OrderKey)
    requires Valid(cfg, b) && k in b.index
    ensures Find(cfg, b, k).Some? && Find(cfg, b, k).value.qty > 0
    ensures var o := Find(cfg, b, k).value; var b' := Leave(cfg, b, o);
      && Valid(cfg, b') && b'.index == b.index - {k}
      && b.LevelAt(o.side, o.price).Some?
      && Replaced(cfg, b, b', o.side, o.price, Remaining(cfg, b.LevelAt(o.side, o.price).value, o))
  {
    var i := FindFacts(cfg, b, k);
    var o := Find(cfg, b, k).value;
    var s, p := o.side, o.price;
    var l := b.LevelAt(s, p).value;
    assert LevelOk(cfg, b, s, p, l);
    var b' := Leave(cfg, b, o);
    var r := Remaining(cfg, l, o);
    DeleteAt(cfg.uniform, l.orders, i);
    LeaveLevelOk(cfg, b, b.(index := b.index - {k}), s, p, i);
    LeaveShape(cfg, b, o);
    LeaveLevelOk(cfg, b, b', s, p, i);
    forall k' | k' in b'.index && b'.index[k'] == At(s, p)
      ensures r.Some? && Holds(cfg, r.value.orders, k')
    {
      var i' := FindFacts(cfg, b, k');
    }
    ReplacedValid(cfg, b, b', s, p, r);
  }

  // ---- entering

  /** A level can take another order of the given rank: it is not an aggregate, and the rank is free
      unless ranks are assigned or shifted. The order `self` does not count. */
  ghost predicate FitsLevel(cfg: Config, l: Option<Level>, rank: Option<nat>, self: Option<OrderKey>) {
    l.Some? ==>
      && l.value.orders != []
      && (rank.None? || cfg.uniform ||
          forall i | 0 <= i < |l.value.orders| ::
            Some(cfg.KeyOf(l.value.orders[i])) == self || l.value.orders[i].rank != rank.value)
  }

  ghost predicate Fits(cfg: Config, b: Book, s: Side, p: Price, rank: Option<nat>, self: Option<OrderKey>) {
    FitsLevel(cfg, b.LevelAt(s, p), rank, self)
  }

  /** An order of this rank can go in without sharing its rank. */
  ghost predicate Free(uniform: bool, os: seq<Order>, rank: nat) {
    uniform || forall i | 0 <= i < |os| :: os[i].rank != rank
  }

  /** What either way of inserting has in common. */
  lemma {:induction false} InsertAt(uniform: bool, os: seq<Order>, o: Order)
    requires RanksIncrease(os) && Free(uniform, os, o.rank)
    ensures var k, s := Position(os, o.rank), Insert(uniform, os, o);
      && |s| == |os| + 1 && s[k] == o && s[..k] == os[..k]
      && SameOrders(s[k + 1..], os[k..]) && RanksIncrease(s)
  {
    var k, s := Position(os, o.rank), Insert(uniform, os, o);
    if uniform {
      InsertUniform(os, o);
    } else {
      InsertDistinct(os, o);
      assert s[k + 1..] == os[k..];
    }
  }

  lemma {:induction false} InsertSum(uniform: bool, os: seq<Order>, o: Order)
    requires RanksIncrease(os) && Free(uniform, os, o.rank)
    ensures SumQty(Insert(uniform, os, o)) == SumQty(os) + o.qty
  {
    var k, s := Position(os, o.rank), Insert(uniform, os, o);
    InsertAt(uniform, os, o);
    SumQtySame(s[k + 1..], os[k..]);
    SumQtyAt(s, k);
    SumQtyConcat(os[..k], os[k..]);
    assert os[..k] + os[k..] == os;
  }

  /** Where each order of a level comes from after an insertion. */
  lemma {:induction false} InsertSource(uniform: bool, os: seq<Order>, o: Order, i: nat) returns (j: nat)
    requires RanksIncrease(os) && Free(uniform, os, o.rank)
    requires i <= |os|
    ensures |Insert(uniform, os, o)| == |os| + 1
    ensures var k := Position(os, o.rank); var s := Insert(uniform, os, o);
      && s[k] == o
      && (i != k ==> j == (if i < k then i else i - 1) && j < |os| && SameButRank(s[i], os[j]))
  {
    var k, s := Position(os, o.rank), Insert(uniform, os, o);
    InsertAt(uniform, os, o);
    j := if i < k then i else if i == k then 0 else i - 1;
    if i < k {
      assert s[i] == s[..k][i] == os[..k][i];
    } else if i > k {
      assert SameButRank(s[k + 1..][i - k - 1], os[k..][i - k - 1]);
    }
  }

  /** The order as it rests in a level, with its rank. */
  function Ranked(os: seq<Order>, o: Order, rank: Option<nat>): Order {
    o.(rank := if rank.None? then NextRank(os) else rank.value)
  }

  lemma {:induction false} RankFree(os: seq<Order>, rank: Option<nat>)
    requires RanksIncrease(os) && rank.None?
    ensures forall i | 0 <= i < |os| :: os[i].rank != NextRank(os)
  {
    forall i | 0 <= i < |os| ensures os[i].rank != NextRank(os) {
      assert i < |os| - 1 ==> os[i].rank < os[|os| - 1].rank;
    }
  }

  /** The level after an order has entered. */
  function Joined(cfg: Config, l: Option<Level>, o: Order, rank: Option<nat>): Level {
    if l.None? then Level(o.qty, 1, {}, [Ranked([], o, rank)])
    else Level(l.value.qty + o.qty, if l.value.qty + o.qty == 0 then 0 else l.value.nOrders + 1,
               l.value.flags, Insert(cfg.uniform, l.value.orders, Ranked(l.value.orders, o, rank)))
  }

  lemma {:induction false} NotAmong(cfg: Config, b: Book, s: Side, p: Price, os: seq<Order>, r: Order)
    requires forall i | 0 <= i < |os| :: OrderOk(cfg, b, s, p, os[i])
    requires cfg.KeyOf(r) !in b.index && r.side == s
    ensures forall i | 0 <= i < |os| :: os[i].id != r.id
  {
    forall i | 0 <= i < |os| ensures os[i].id != r.id {
      assert OrderOk(cfg, b, s, p, os[i]);
    }
  }

  /** `t` is `os` with `r` put in at `k`, the others being the same but for their ranks. */
  ghost predicate PutIn(t: seq<Order>, os: seq<Order>, k: nat, r: Order) {
    && k <= |os| && |t| == |os| + 1 && t[k] == r
    && (forall i | 0 <= i < k :: SameButRank(t[i], os[i]))
    && (forall i | k < i < |t| :: SameButRank(t[i], os[i - 1]))
  }

  lemma {:induction false} InsertPutsIn(uniform: bool, os: seq<Order>, r: Order)
    requires RanksIncrease(os) && Free(uniform, os, r.rank)
    ensures PutIn(Insert(uniform, os, r), os, Position(os, r.rank), r)
  {
    var t, k := Insert(uniform, os, r), Position(os, r.rank);
    InsertAt(uniform, os, r);
    hide Insert, RanksIncrease, Free;
    forall i | 0 <= i < |t| && i != k ensures SameButRank(t[i], os[if i < k then i else i - 1]) {
      var j := InsertSource(uniform, os, r, i);
    }
  }

  lemma {:induction false} PutInOk(cfg: Config, b: Book, b': Book, s: Side, p: Price, t: seq<Order>, os: seq<Order>,
                                   k: nat, r: Order)
    requires PutIn(t, os, k, r) && forall i | 0 <= i < |os| :: OrderOk(cfg, b, s, p, os[i])
    requires b'.index == b.index[cfg.KeyOf(r) := At(s, p)] && r.side == s && r.price == p && r.qty > 0
    ensures forall i | 0 <= i < |t| :: OrderOk(cfg, b', s, p, t[i])
  {
    forall i | 0 <= i < |t| ensures OrderOk(cfg, b', s, p, t[i]) {
      if i != k { assert OrderOk(cfg, b, s, p, os[if i < k then i else i - 1]); }
    }
  }

  lemma {:induction false} PutInDistinct(t: seq<Order>, os: seq<Order>, k: nat, r: Order)
    requires PutIn(t, os, k, r) && DistinctIds(os) && forall i | 0 <= i < |os| :: os[i].id != r.id
    ensures DistinctIds(t)
  {
    forall i, j | 0 <= i < j < |t| ensures t[i].id != t[j].id {
      var i', j' := if i < k then i else i - 1, if j < k then j else j - 1;
      assert i != k && j != k ==> os[i'].id != os[j'].id;
    }
  }

  lemma {:induction false} PutInHolds(cfg: Config, t: seq<Order>, os: seq<Order>, k: nat, r: Order)
    requires PutIn(t, os, k, r)
    ensures Holds(cfg, t, cfg.KeyOf(r)) && forall j | 0 <= j < |os| :: Holds(cfg, t, cfg.KeyOf(os[j]))
  {
    assert cfg.KeyOf(t[k]) == cfg.KeyOf(r);
    forall j | 0 <= j < |os| ensures Holds(cfg, t, cfg.KeyOf(os[j])) {
      var i := if j < k then j else j + 1;
      assert SameButRank(t[i], os[j]) && cfg.KeyOf(t[i]) == cfg.KeyOf(os[j]);
    }
  }

  /** The orders of a level after one has joined: each is sound, no ID repeats, none is lost. */
  lemma {:induction false} JoinedOrders(cfg: Config, b: Book, b': Book, s: Side, p: Price, os: seq<Order>, r: Order)
    requires RanksIncrease(os) && Free(cfg.uniform, os, r.rank) && DistinctIds(os)
    requires forall i | 0 <= i < |os| :: OrderOk(cfg, b, s, p, os[i])
    requires cfg.KeyOf(r) !in b.index && b'.index == b.index[cfg.KeyOf(r) := At(s, p)]
    requires r.side == s && r.price == p && r.qty > 0
    ensures var t := Insert(cfg.uniform, os, r);
      && DistinctIds(t)
      && (forall i | 0 <= i < |t| :: OrderOk(cfg, b', s, p, t[i]))
      && Holds(cfg, t, cfg.KeyOf(r))
      && forall j | 0 <= j < |os| :: Holds(cfg, t, cfg.KeyOf(os[j]))
  {
    forall j | 0 <= j < |os| ensures os[j].id != r.id {
      assert OrderOk(cfg, b, s, p, os[j]);
    }
    hide Insert, Position, PutIn, Free, RanksIncrease, DistinctIds, Holds;
    var t, k := Insert(cfg.uniform, os, r), Position(os, r.rank);
    InsertPutsIn(cfg.uniform, os, r);
    PutInOk(cfg, b, b', s, p, t, os, k, r);
    PutInDistinct(t, os, k, r);
    PutInHolds(cfg, t, os, k, r);
  }

  lemma {:induction false} EnterLevelOk(cfg: Config, b: Book, b': Book, o: Order, rank: Option<nat>)
    requires Valid(cfg, b) && cfg.KeyOf(o) !in b.index
    requires b'.index == b.index[cfg.KeyOf(o) := At(o.side, o.price)]
    requires o.qty > 0 && Fits(cfg, b, o.side, o.price, rank, None)
    ensures var l := b.LevelAt(o.side, o.price); var l' := Joined(cfg, l, o, rank);
      && LevelOk(cfg, b', o.side, o.price, l')
      && Holds(cfg, l'.orders, cfg.KeyOf(o))
      && (l.Some? ==> forall j | 0 <= j < |l.value.orders| :: Holds(cfg, l'.orders, cfg.KeyOf(l.value.orders[j])))
  {
    hide Valid, Insert, RanksIncrease, DistinctIds, OrderOk, Holds, NextRank, SumQty, SameOrders, Position;
    var s, p := o.side, o.price;
    var lo := b.LevelAt(s, p);
    var os := if lo.None? then [] else lo.value.orders;
    var r := Ranked(os, o, rank);
    NoOrders(cfg.uniform, r);
    if lo.Some? {
      LevelIsOk(cfg, b, s, p);
      SumQtyPositiveOk(cfg, b, s, p, os);
    }
    if rank.None? { RankFree(os, rank); }
    assert Free(cfg.uniform, os, r.rank);
    JoinedOrders(cfg, b, b', s, p, os, r);
    InsertSum(cfg.uniform, os, r);
    InsertAt(cfg.uniform, os, r);
  }

  lemma {:induction false} NoOrders(uniform: bool, r: Order)
    ensures Insert(uniform, [], r) == [r] && SumQty([]) == 0 && RanksIncrease([]) && DistinctIds([])
  {
  }

  lemma {:induction false} SumQtyPositiveOk(cfg: Config, b: Book, s: Side, p: Price, os: seq<Order>)
    requires forall i | 0 <= i < |os| :: OrderOk(cfg, b, s, p, os[i])
    ensures SumQty(os) >= |os|
  {
    forall i | 0 <= i < |os| ensures os[i].qty > 0 {
      assert OrderOk(cfg, b, s, p, os[i]);
    }
    SumQtyPositive(os);
  }

  lemma {:induction false} EnterShape(cfg: Config, b: Book, o: Order, rank: Option<nat>)
    requires o.qty != 0 && cfg.KeyOf(o) !in b.index
    ensures var b' := Enter(cfg, b, o, rank);
      && b'.index == b.index[cfg.KeyOf(o) := At(o.side, o.price)]
      && Replaced(cfg, b, b', o.side, o.price, Some(Joined(cfg, b.LevelAt(o.side, o.price), o, rank)))
  {
    var lo := b.LevelAt(o.side, o.price);
    if lo.Some? {
      assert lo.value.flags + {} == lo.value.flags;
    } else {
      assert Insert(cfg.uniform, [], Ranked([], o, rank)) == [Ranked([], o, rank)];
    }
  }

  /** An order may enter exactly when its quantity is positive and it fits. */
  lemma {:induction false} EnterValid(cfg: Config, b: Book, o: Order, rank: Option<nat>)
    requires Valid(cfg, b) && cfg.KeyOf(o) !in b.index && o.qty != 0
    ensures var b' := Enter(cfg, b, o, rank);
      && (Valid(cfg, b') <==> o.qty > 0 && Fits(cfg, b, o.side, o.price, rank, None))
      && b'.index == b.index[cfg.KeyOf(o) := At(o.side, o.price)]
      && Replaced(cfg, b, b', o.side, o.price, Some(Joined(cfg, b.LevelAt(o.side, o.price), o, rank)))
  {
    EnterShape(cfg, b, o, rank);
    if o.qty > 0 && Fits(cfg, b, o.side, o.price, rank, None) {
      var s, p, b' := o.side, o.price, Enter(cfg, b, o, rank);
      var l' := Joined(cfg, b.LevelAt(s, p), o, rank);
      EnterLevelOk(cfg, b, b', o, rank);
      forall k | k in b'.index && b'.index[k] == At(s, p) ensures Holds(cfg, l'.orders, k) {
        if k != cfg.KeyOf(o) {
          var i := FindFacts(cfg, b, k);
        }
      }
      ReplacedValid(cfg, b, b', s, p, Some(l'));
    } else {
      EnterInvalid(cfg, b, o, rank);
    }
  }

  lemma {:induction false} EnterInvalid(cfg: Config, b: Book, o: Order, rank: Option<nat>)
    requires Valid(cfg, b) && cfg.KeyOf(o) !in b.index && o.qty != 0
    requires o.qty < 0 || !Fits(cfg, b, o.side, o.price, rank, None)
    ensures !Valid(cfg, Enter(cfg, b, o, rank))
  {
    var s, p := o.side, o.price;
    var b' := Enter(cfg, b, o, rank);
    var lo := b.LevelAt(s, p);
    var l' := b'.LevelAt(s, p).value;
    var os := if lo.None? then [] else lo.value.orders;
    var r := Ranked(os, o, rank);
    assert l'.orders == Insert(cfg.uniform, os, r);
    if lo.Some? {
      assert LevelOk(cfg, b, s, p, lo.value);
    }
    if lo.Some? && os == [] {
      assert l'.orders == [r] && SumQty([r]) == o.qty;
    } else if o.qty < 0 {
      var m := InsertedSomewhere(cfg.uniform, os, r);
      assert !OrderOk(cfg, b', s, p, l'.orders[m]);
    } else {
      var i :| 0 <= i < |os| && os[i].rank == rank.value;
      InsertDuplicate(os, r, i);
    }
    assert !LevelOk(cfg, b', s, p, l');
  }

  lemma {:induction false} InsertedSomewhere(uniform: bool, os: seq<Order>, r: Order) returns (m: nat)
    ensures m < |Insert(uniform, os, r)| && Insert(uniform, os, r)[m] == r
  {
    InsertShape(uniform, os, r);
    var k := Position(os, r.rank);
    m := if !uniform && k < |os| && os[k].rank == r.rank then k + 1 else k;
    assert Insert(uniform, os, r)[m] == Inserted(uniform, os[k..], r)[m - k];
  }
}
