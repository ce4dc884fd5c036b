/** Orders and price levels as objects: orders are shared between a level's rank-ordered queue and the
    venue's index, point back at their level, and have their ranks shifted in place. */
module PxLevels {
  import opened Types
  import opened Sequences
  import opened Books
  import opened Matching
  import L = Levels

  /** The venue's index of orders. */
  class VenueShard {
    const cfg: Config
    var orders: map<OrderKey, Resting>

    constructor (cfg: Config)
      ensures this.cfg == cfg && orders == map[]
    {
      this.cfg, orders := cfg, map[];
    }

    method AddOrder(o: Resting)
      modifies this
      ensures orders == old(orders)[cfg.KeyOf(o.data) := o]
    {
      orders := orders[cfg.KeyOf(o.data) := o];
    }

    method FindOrder(side: Side, id: OrderId) returns (o: Resting?)
      ensures o == if cfg.Key(side, id) in orders then orders[cfg.Key(side, id)] else null
    {
      o := if cfg.Key(side, id) in orders then orders[cfg.Key(side, id)] else null;
    }

    method DelOrder(side: Side, id: OrderId) returns (o: Resting?)
      modifies this
      ensures o == if cfg.Key(side, id) in old(orders) then old(orders)[cfg.Key(side, id)] else null
      ensures orders == old(orders) - {cfg.Key(side, id)}
    {
      o := FindOrder(side, id);
      orders := orders - {cfg.Key(side, id)};
    }
  }

  /** Where a book sends its broadcast messages and the changes for the book it feeds. */
  class Sink {
    var msgs: seq<Msg>
    var deltas: seq<Delta>

    constructor ()
      ensures msgs == [] && deltas == []
    {
      msgs, deltas := [], [];
    }

    method Send(m: Msg)
      modifies this
      ensures msgs == old(msgs) + [m] && deltas == old(deltas)
    {
      msgs := msgs + [m];
    }

    method Pass(d: Delta)
      modifies this
      ensures deltas == old(deltas) + [d] && msgs == old(msgs)
    {
      deltas := deltas + [d];
    }
  }

  /** A resting order. */
  class Resting {
    var data: Order
    var pxLevel: PxLevel?

    constructor (data: Order)
      ensures this.data == data && pxLevel == null
    {
      this.data, pxLevel := data, null;
    }
  }

  /** A price level, or the level of market orders. */
  class PxLevel {
    const side: Side
    const price: Price
    var qty: int
    var nOrders: int
    var flags: Flags
    var orders: seq<Resting>
    /** What the orders of the level say, in order. */
    ghost var queue: seq<Order>

    constructor (side: Side, price: Price, qty: int, nOrders: int, flags: Flags)
      ensures this.side == side && this.price == price && orders == []
      ensures Valid() && Value() == L.Level(qty, nOrders, flags, [])
    {
      this.side, this.price, this.qty, this.nOrders, this.flags := side, price, qty, nOrders, flags;
      orders, queue := [], [];
    }

    /** The orders of a level are different objects that point back at it, of its side and price. */
    ghost predicate Valid()
      reads this`orders, this`queue, orders
    {
      && Distinct(orders)
      && |queue| == |orders|
      && forall i | 0 <= i < |orders| :: Holds(orders[i]) && orders[i].data == queue[i]
    }

    ghost predicate Holds(o: Resting)
      reads o
    {
      o.pxLevel == this && o.data.side == side && o.data.price == price
    }

    ghost function Value(): L.Level
      reads this
    {
      L.Level(qty, nOrders, flags, queue)
    }

    method UpdateAbs(qty: int, nOrders: int, flags: Flags) returns (dQty: int, dOrders: int)
      modifies this`qty, this`nOrders, this`flags
      ensures Value() == L.UpdateAbs(old(Value()), qty, nOrders, flags)
      ensures dQty == qty - old(this.qty) && dOrders == nOrders - old(this.nOrders)
    {
      dQty := qty - this.qty;
      this.qty := qty;
      dOrders := nOrders - this.nOrders;
      this.nOrders := nOrders;
      this.flags := flags;
      if this.qty == 0 { this.nOrders := 0; }
    }

    method UpdateDelta(qty: int, nOrders: int, flags: Flags)
      modifies this`qty, this`nOrders, this`flags
      ensures Value() == L.UpdateDelta(old(Value()), qty, nOrders, flags)
    {
      this.qty := this.qty + qty;
      this.nOrders := this.nOrders + nOrders;
      if qty != 0 { this.flags := this.flags + flags; } else { this.flags := this.flags - flags; }
      if this.qty == 0 { this.nOrders := 0; }
    }

    /** The first position whose order ranks at or behind `rank`. */
    method PositionOf(rank: nat) returns (k: nat)
      requires Valid()
      ensures k == L.Position(queue, rank) <= |orders|
    {
      k := 0;
      while k < |orders| && orders[k].data.rank < rank
        invariant k <= |orders|
        invariant forall i | 0 <= i < k :: queue[i].rank < rank
      {
        k := k + 1;
      }
      L.PositionUnique(queue, rank, k);
    }

    /** Puts an order in the queue, at `rank` or, if there is none, behind all others. Under uniform
        ranks the orders it displaces move up in place. */
    method AddOrder(uniform: bool, o: Resting, rank: Option<nat>)
      requires Valid() && L.RanksIncrease(queue)
      requires o !in orders && Holds(o)
      modifies this`orders, this`queue, o`data, orders`data
      ensures Valid() && Added(orders, old(orders), o)
      ensures Value() == L.AddToLevel(uniform, old(Value()), old(o.data), rank)
      ensures o.data == old(o.data).(rank := o.data.rank)
      ensures forall x <- old(orders) :: x.data == old(x.data).(rank := x.data.rank)
    {
      hide Distinct, L.Insert, L.ShiftUp, L.RanksIncrease, L.Position, Placed, Room, Added;
      ghost var os := queue;
      var r := if rank.Some? then rank.value else if orders == [] then 0 else orders[|orders| - 1].data.rank + 1;
      assert r == if rank.None? then L.NextRank(os) else rank.value;
      o.data := o.data.(rank := r);
      if uniform {
        MakeRoom(r);
      }
      InsertByRank(o);
      if uniform { RoomThenPlaced(os, o.data); } else { PlainPlaced(os, o.data); }
    }

    /** Adds an order to the rank-ordered tree, behind the first of its own rank if there is one. */
    method InsertByRank(o: Resting)
      requires Valid() && o !in orders && Holds(o)
      modifies this`orders, this`queue
      ensures Valid() && Added(orders, old(orders), o)
      ensures queue == Placed(old(queue), o.data)
    {
      hide L.Position, Distinct, Placed;
      var k := PositionOf(o.data.rank);
      if k < |orders| && orders[k].data.rank == o.data.rank { k := k + 1; }
      PlacedAt(queue, o.data, k);
      DistinctInsert(orders, k, o);
      orders := With(orders, k, o);
      queue := With(queue, k, o.data);
    }

    method Rerank(i: nat, rank: nat)
      requires Valid() && i < |orders|
      modifies this`queue, orders`data
      ensures Valid() && queue == old(queue)[i := old(queue[i]).(rank := rank)]
      ensures forall o <- orders :: o.data == old(o.data).(rank := o.data.rank)
    {
      hide Distinct;
      DistinctAt(orders, i);
      orders[i].data := orders[i].data.(rank := rank);
      queue := queue[i := orders[i].data];
    }

    /** Increments in place the ranks of the run of orders that starts at `rank`. */
    method MakeRoom(first: nat)
      requires Valid()
      modifies this`queue, orders`data
      ensures Valid() && queue == Room(old(queue), first)
      ensures forall o <- orders :: o.data == old(o.data).(rank := o.data.rank)
    {
      hide L.ShiftUp, L.Position, Distinct, Ranged;
      ghost var os := queue;
      var rank := first;
      var i := PositionOf(first);
      ghost var k := i;
      RangedNone(os, k, 1);
      while i < |orders| && orders[i].data.rank == rank
        invariant k <= i <= |orders| == |os| && rank == first + (i - k)
        invariant Valid()
        invariant forall o <- orders :: o.data == old(o.data).(rank := o.data.rank)
        invariant RunAt(os, first, k, i)
        invariant queue == Ranged(os, k, i, 1)
      {
        RangedNext(os, k, i, 1);
        rank := rank + 1;
        Rerank(i, rank);
        i := i + 1;
      }
      RangedAt(os, k, i, 1);
      RoomIs(os, first, k, i);
    }

    /** Takes the first order at `rank` out of the queue. Under uniform ranks the consecutive run above
        moves down in place. */
    method DelOrder(uniform: bool, rank: nat)
      requires Valid()
      modifies this`orders, this`queue, orders`data
      ensures Valid() && Value() == old(Value()).(orders := L.Delete(uniform, old(queue), rank))
      ensures var os, k := old(queue), L.Position(old(queue), rank);
        if k < |os| && os[k].rank == rank
        then Removed(orders, old(orders), old(orders[k])) && old(orders[k]).data == os[k]
        else orders == old(orders)
      ensures forall o <- old(orders) :: o.data == old(o.data).(rank := o.data.rank)
    {
      hide *;
      ghost var os, was := queue, orders;
      ValueIs();
      var k := Drop(rank);
      if k < |os| && os[k].rank == rank { Among(orders, was, was[k]); }
      DeletedIs(uniform, os, rank, k, queue);
      if uniform { CloseGap(rank, k); }
      ValueIs();
    }

    lemma {:induction false} ValueIs()
      requires Valid()
      ensures Distinct(orders) && |orders| == |queue| && Value() == L.Level(qty, nOrders, flags, queue)
    {
    }

    /** Deletes the first order at `rank` from the tree, and says where it was or would be. */
    method Drop(rank: nat) returns (k: nat)
      requires Valid()
      modifies this`orders, this`queue
      ensures Valid() && k == L.Position(old(queue), rank) <= |orders|
      ensures var os := old(queue);
        if k < |os| && os[k].rank == rank
        then Removed(orders, old(orders), old(orders[k])) && old(orders[k]).data == os[k] && queue == Without(os, k)
        else orders == old(orders) && queue == os
    {
      hide L.Position, Distinct;
      k := PositionOf(rank);
      if k < |orders| && orders[k].data.rank == rank {
        DistinctRemove(orders, k);
        orders := Without(orders, k);
        queue := Without(queue, k);
      }
    }

    /** Decrements in place the ranks of the consecutive run above `rank`, from the k-th order on. */
    method CloseGap(rank: nat, k: nat)
      requires Valid() && k <= |orders|
      modifies this`queue, orders`data
      ensures Valid() && queue == old(queue)[..k] + L.ShiftDown(old(queue)[k..], rank)
      ensures forall o <- orders :: o.data == old(o.data).(rank := o.data.rank)
    {
      hide L.ShiftDown, Distinct, Ranged;
      ghost var os := queue;
      var next := rank + 1;
      var i := k;
      RangedNone(os, k, -1);
      while i < |orders| && orders[i].data.rank == next
        invariant k <= i <= |orders| == |os| && next == rank + 1 + (i - k)
        invariant Valid()
        invariant forall o <- orders :: o.data == old(o.data).(rank := o.data.rank)
        invariant RunAt(os, rank + 1, k, i)
        invariant queue == Ranged(os, k, i, -1)
      {
        RangedAt(os, k, i, -1);
        RangedNext(os, k, i, -1);
        Rerank(i, next - 1);
        next := next + 1;
        i := i + 1;
      }
      RangedAt(os, k, i, -1);
      ClosedIs(os, rank, k, i);
    }

    /** Drops the orders of the level, and from the index, and empties its aggregates. */
    method Reset(shard: VenueShard)
      requires Valid()
      modifies this, orders`pxLevel, shard
      ensures Value() == L.Level(0, 0, old(flags), [])
      ensures shard.orders == old(shard.orders) - KeysOf(shard.cfg, old(queue))
      ensures forall o <- old(orders) :: o.pxLevel == null
    {
      hide Distinct;
      var i := 0;
      while i < |orders|
        invariant i <= |orders| && orders == old(orders) && flags == old(flags) && queue == old(queue)
        invariant forall j | 0 <= j < i :: orders[j].pxLevel == null
        invariant shard.orders == old(shard.orders) - KeysOf(shard.cfg, queue[..i])
      {
        orders[i].pxLevel := null;
        KeysNext(shard.cfg, queue, i);
        var o := shard.DelOrder(orders[i].data.side, orders[i].data.id);
        i := i + 1;
      }
      assert queue[..i] == queue;
      orders, queue := [], [];
      qty := 0;
      nOrders := 0;
    }

    /** Offers a trade with the first order. If the callback lets it, an order that is used up leaves the
        level and the index, and another is reduced. */
    method TradeFirst(open: int, executed: int, fill: FillFn, shard: VenueShard, sink: Sink)
      returns (leaves: int, cum: int, aborted: bool)
      requires Valid() && price.Some? && orders != []
      modifies this`qty, this`nOrders, this`orders, this`queue, orders, shard, sink
      ensures Valid() && sink.deltas == old(sink.deltas)
      ensures aborted == fill(Offered(old(queue)[0], price.value, open, executed))
      ensures forall o <- old(orders) :: o.data == old(o.data).(qty := o.data.qty)
      ensures var f, first := Offered(old(queue)[0], price.value, open, executed), old(orders[0]);
        if aborted then
          && leaves == open && cum == executed && Value() == old(Value()) && orders == old(orders)
          && shard.orders == old(shard.orders) && sink.msgs == old(sink.msgs)
        else
          && leaves == open - f.qty && cum == executed + f.qty && qty == old(qty) - f.qty
          && sink.msgs == old(sink.msgs) + [MsgOf(side, f)]
          && if f.Partial() then
               && orders == old(orders) && queue == old(queue)[0 := f.contra.(qty := f.contra.qty - f.qty)]
               && nOrders == old(nOrders) && shard.orders == old(shard.orders)
             else
               && orders == old(orders)[1..] && queue == old(queue)[1..]
               && nOrders == old(nOrders) - 1 && shard.orders == old(shard.orders) - {shard.cfg.KeyOf(f.contra)}
               && first.pxLevel == null
      ensures forall o <- old(orders) :: o.pxLevel == old(o.pxLevel) || o == old(orders[0])
    {
      hide Distinct, Valid;
      QueueOf();
      var contra := orders[0].data;
      leaves, cum, aborted := open, executed, fill(Offered(contra, price.value, open, executed));
      if aborted {
      } else if contra.qty <= open {
        cum := cum + contra.qty;
        leaves := leaves - contra.qty;
        UseFirst(shard, sink);
      } else {
        cum := cum + open;
        ReduceFirst(open, sink);
        leaves := 0;
      }
    }

    lemma {:induction false} QueueOf()
      requires Valid()
      ensures |queue| == |orders| && forall i | 0 <= i < |orders| :: Holds(orders[i]) && orders[i].data == queue[i]
    {
    }

    /** The first order is used up. */
    method UseFirst(shard: VenueShard, sink: Sink)
      requires Valid() && orders != []
      modifies this`qty, this`nOrders, this`orders, this`queue, orders`pxLevel, shard, sink
      ensures Valid() && orders == old(orders)[1..] && queue == old(queue)[1..]
      ensures old(orders[0]).pxLevel == null && forall o <- old(orders) ::
        o.pxLevel == old(o.pxLevel) || o == old(orders[0])
      ensures qty == old(qty) - old(queue[0]).qty && nOrders == old(nOrders) - 1
      ensures shard.orders == old(shard.orders) - {shard.cfg.KeyOf(old(queue[0]))}
      ensures sink.msgs == old(sink.msgs) + [CancelOrder(old(queue[0]).id, side)] && sink.deltas == old(sink.deltas)
    {
      hide Distinct;
      var contra := orders[0];
      contra.pxLevel := null;
      var _ := shard.DelOrder(side, contra.data.id);
      nOrders := nOrders - 1;
      qty := qty - contra.data.qty;
      sink.Send(CancelOrder(contra.data.id, side));
      DistinctTail(orders);
      orders, queue := orders[1..], queue[1..];
    }

    /** The first order is filled in part. */
    method ReduceFirst(open: int, sink: Sink)
      requires Valid() && orders != []
      modifies this`qty, this`queue, orders`data, sink
      ensures Valid() && orders == old(orders) && qty == old(qty) - open
      ensures var o := old(queue[0]).(qty := old(queue[0]).qty - open);
        && queue == old(queue)[0 := o]
        && sink.msgs == old(sink.msgs) + [ModifyOrder(o.id, side, Some(o.rank), price, o.qty, o.flags)]
      ensures sink.deltas == old(sink.deltas) && forall o <- orders :: o.data == old(o.data).(qty := o.data.qty)
    {
      hide Distinct;
      var contra := orders[0];
      DistinctAt(orders, 0);
      contra.data := contra.data.(qty := contra.data.qty - open);
      queue := queue[0 := contra.data];
      qty := qty - open;
      sink.Send(ModifyOrder(contra.data.id, side, Some(contra.data.rank), price, contra.data.qty, contra.data.flags));
    }

    /** Trades an incoming quantity against the orders of the level, first to last: whoever is used up
        leaves the level and the index, the last may be reduced, and the callback may call it off. */
    method Match(open: int, executed: int, fill: FillFn, shard: VenueShard, sink: Sink)
      returns (leaves: int, cum: int, aborted: bool)
      requires Valid() && price.Some?
      modifies this`qty, this`nOrders, this`orders, this`queue, orders, shard, sink
      ensures Matched(old(Value()), Value(), price.value, open, executed, fill, leaves, cum, aborted)
      ensures var m := MatchOrders(old(queue), price.value, open, executed, fill);
        && shard.orders == old(shard.orders) - Filled(shard.cfg, m.fills)
        && sink.msgs == old(sink.msgs) + MsgsOf(side, m.fills) && sink.deltas == old(sink.deltas)
      ensures Valid() && IsSuffix(orders, old(orders))
      ensures forall o <- old(orders) :: o.data == old(o.data).(qty := o.data.qty)
      ensures forall o <- old(orders) :: o !in orders ==> o.pxLevel == null
    {
      hide *;
      ghost var fills := [];
      ghost var cfg := shard.cfg;
      ghost var m := MatchOrders(queue, price.value, open, executed, fill);
      leaves, cum, aborted := open, executed, false;
      ValueIs();
      NoFills(cfg, side, m);
      SuffixSelf(orders);
      var more := true;
      while more && orders != []
        invariant IsSuffix(orders, old(orders)) && (forall o <- orders :: o in old(orders)) && Valid()
        invariant m == if more then Onward(fills, MatchOrders(queue, price.value, leaves, cum, fill))
                       else LevelMatch(queue, leaves, fills, aborted)
        invariant more ==> !aborted
        invariant cum == executed + Traded(fills) && qty == old(qty) - Traded(fills)
        invariant nOrders == old(nOrders) - (|old(orders)| - |orders|)
        invariant shard.orders == old(shard.orders) - Filled(cfg, fills)
        invariant sink.msgs == old(sink.msgs) + MsgsOf(side, fills) && sink.deltas == old(sink.deltas)
        invariant forall o <- old(orders) :: o.data == old(o.data).(qty := o.data.qty)
        invariant forall o <- old(orders) :: o !in orders ==> o.pxLevel == null
        decreases |orders|, more
      {
        ValueIs();
        ghost var f := Offered(queue[0], price.value, leaves, cum);
        OfferedIs(queue[0], price.value, leaves, cum);
        MatchNext(m, fills, queue, price.value, leaves, cum, fill);
        FillsNext(cfg, side, fills, f);
        DistinctTail(orders);
        SuffixTail(orders, old(orders));
        ghost var used := Filled(cfg, fills);
        leaves, cum, aborted := TradeFirst(leaves, cum, fill, shard, sink);
        ValueIs();
        if !aborted {
          MinusBoth(old(shard.orders), used, if f.Partial() then {} else {cfg.KeyOf(f.contra)});
          fills := fills + [f];
        }
        more := !aborted && leaves != 0;
      }
      ValueIs();
      NoOrders(fills, price.value, leaves, cum, fill);
      MatchedIs(old(Value()), Value(), price.value, open, executed, fill, fills, cum);
    }

    /** The level, and what is left to trade, after a match. */
    static ghost predicate Matched(was: L.Level, l: L.Level, px: int, open: int, executed: int, fill: FillFn,
                                   leaves: int, cum: int, aborted: bool)
    {
      var m := MatchOrders(was.orders, px, open, executed, fill);
      && l == L.Level(was.qty - Traded(m.fills), was.nOrders - (|was.orders| - |m.rest|), was.flags, m.rest)
      && leaves == m.leaves && cum == executed + Traded(m.fills) && aborted == m.aborted
    }
  }

  ghost predicate IsSuffix<T>(s: seq<T>, t: seq<T>) {
    |s| <= |t| && s == t[|t| - |s|..]
  }

  lemma {:induction false} SuffixSelf<T>(s: seq<T>)
    ensures IsSuffix(s, s)
  {
  }

  lemma {:induction false} SuffixIn<T>(s: seq<T>, t: seq<T>)
    requires IsSuffix(s, t)
    ensures forall i | 0 <= i < |s| :: s[i] in t
  {
  }

  lemma {:induction false} SuffixTail<T>(s: seq<T>, t: seq<T>)
    requires IsSuffix(s, t) && s != []
    ensures IsSuffix(s[1..], t) && s[0] in t && forall x <- s[1..] :: x in t
  {
    assert s[0] == t[|t| - |s|];
    forall x | x in s[1..] ensures x in t {
      var i :| 0 <= i < |s| - 1 && s[1..][i] == x;
      assert t[|t| - |s| + 1 + i] == x;
    }
  }

  /** The trade that an incoming quantity is offered with an order. */
  function Offered(c: Order, px: int, open: int, executed: int): Fill {
    Fill(open, executed, px, if c.qty <= open then c.qty else open, c)
  }

  /** A match `m` of the orders behind those that have already traded. */
  function Onward(fills: seq<Fill>, m: LevelMatch): LevelMatch {
    m.(fills := fills + m.fills)
  }

  lemma {:induction false} OfferedIs(c: Order, px: int, open: int, executed: int)
    ensures var f := Offered(c, px, open, executed);
      f.contra == c && f.qty == (if c.qty <= open then c.qty else open) && (f.Partial() <==> c.qty > open)
  {
  }

  lemma {:induction false} MatchedIs(was: L.Level, l: L.Level, px: int, open: int, executed: int, fill: FillFn,
                                     fills: seq<Fill>, cum: int)
    requires var m := MatchOrders(was.orders, px, open, executed, fill); m.fills == fills && m.rest == l.orders
    requires l.qty == was.qty - Traded(fills) && l.nOrders == was.nOrders - (|was.orders| - |l.orders|)
      && l.flags == was.flags
    requires cum == executed + Traded(fills)
    ensures var m := MatchOrders(was.orders, px, open, executed, fill);
      PxLevel.Matched(was, l, px, open, executed, fill, m.leaves, cum, m.aborted)
  {
  }

  lemma {:induction false} NoFills(cfg: Config, s: Side, m: LevelMatch)
    ensures Traded([]) == 0 && Filled(cfg, []) == {} && MsgsOf(s, []) == [] && Onward([], m) == m
  {
    assert [] + m.fills == m.fills;
  }

  lemma {:induction false} NoOrders(fills: seq<Fill>, px: int, qty: int, cum: int, fill: FillFn)
    ensures Onward(fills, MatchOrders([], px, qty, cum, fill)) == LevelMatch([], qty, fills, false)
  {
    assert fills + [] == fills;
  }

  lemma {:induction false} MinusBoth<K, V>(m: map<K, V>, a: set<K>, b: set<K>)
    ensures m - a - b == m - (a + b)
  {
  }

  lemma {:induction false} MatchNext(m: LevelMatch, fills: seq<Fill>, os: seq<Order>, px: int, qty: int, cum: int,
                                     fill: FillFn)
    requires os != [] && m == Onward(fills, MatchOrders(os, px, qty, cum, fill))
    ensures var c, f := os[0], Offered(os[0], px, qty, cum);
      m == if fill(f) then LevelMatch(os, qty, fills, true)
           else if c.qty > qty then LevelMatch(os[0 := c.(qty := c.qty - qty)], 0, fills + [f], false)
           else if c.qty == qty then LevelMatch(os[1..], 0, fills + [f], false)
           else Onward(fills + [f], MatchOrders(os[1..], px, qty - c.qty, cum + c.qty, fill))
  {
    var c, f := os[0], Offered(os[0], px, qty, cum);
    assert os[0 := c.(qty := c.qty - qty)] == [c.(qty := c.qty - qty)] + os[1..];
    assert fills + [] == fills;
    var t := MatchOrders(os[1..], px, qty - c.qty, cum + c.qty, fill);
    assert fills + ([f] + t.fills) == fills + [f] + t.fills;
  }

  lemma {:induction false} FillsNext(cfg: Config, s: Side, fills: seq<Fill>, f: Fill)
    ensures Traded(fills + [f]) == Traded(fills) + f.qty
    ensures Filled(cfg, fills + [f]) == Filled(cfg, fills) + if f.Partial() then {} else {cfg.KeyOf(f.contra)}
    ensures MsgsOf(s, fills + [f]) == MsgsOf(s, fills) + [MsgOf(s, f)]
  {
    TradedConcat(fills, [f]);
    var all := fills + [f];
    assert all[|fills|] == f;
    forall k | k in Filled(cfg, fills) ensures k in Filled(cfg, all) {
      var i :| 0 <= i < |fills| && !fills[i].Partial() && cfg.KeyOf(fills[i].contra) == k;
      assert all[i] == fills[i];
    }
    forall k | k in Filled(cfg, all) && (f.Partial() || k != cfg.KeyOf(f.contra)) ensures k in Filled(cfg, fills) {
      var i :| 0 <= i < |all| && !all[i].Partial() && cfg.KeyOf(all[i].contra) == k;
      assert all[i] == fills[i];
    }
  }

  lemma {:induction false} DistinctTail<T>(s: seq<T>)
    requires Distinct(s) && s != []
    ensures Distinct(s[1..]) && s[0] !in s[1..]
    ensures forall o :: o in s <==> o == s[0] || o in s[1..]
  {
  }

  lemma {:induction false} KeysNext(cfg: Config, os: seq<Order>, i: nat)
    requires i < |os|
    ensures KeysOf(cfg, os[..i + 1]) == KeysOf(cfg, os[..i]) + {cfg.KeyOf(os[i])}
  {
    var s, t := os[..i], os[..i + 1];
    assert t[i] == os[i];
    forall k | k in KeysOf(cfg, s) ensures k in KeysOf(cfg, t) {
      var j :| 0 <= j < i && cfg.KeyOf(s[j]) == k;
      assert t[j] == s[j];
    }
    forall k | k in KeysOf(cfg, t) && k != cfg.KeyOf(os[i]) ensures k in KeysOf(cfg, s) {
      var j :| 0 <= j < |t| && cfg.KeyOf(t[j]) == k;
      assert s[j] == t[j];
    }
  }

  /** The ranks of the orders from the k-th up to the i-th run on from `first`. */
  ghost predicate RunAt(os: seq<Order>, first: nat, k: nat, i: nat)
    requires k <= i <= |os|
  {
    forall j | k <= j < i :: os[j].rank == first + (j - k)
  }

  /** The orders with the ranks of those from the k-th up to the i-th moved by `d`. */
  function Ranged(os: seq<Order>, k: nat, i: nat, d: int): seq<Order>
    requires k <= i <= |os| && d >= -1
    requires forall j | k <= j < i :: os[j].rank + d >= 0
  {
    seq(|os|, j requires 0 <= j < |os| => if k <= j < i then os[j].(rank := os[j].rank + d) else os[j])
  }

  lemma {:induction false} RangedNone(os: seq<Order>, k: nat, d: int)
    requires k <= |os| && d >= -1
    ensures Ranged(os, k, k, d) == os
  {
  }

  lemma {:induction false} RangedAt(os: seq<Order>, k: nat, i: nat, d: int)
    requires k <= i <= |os| && d >= -1 && forall j | k <= j < i :: os[j].rank + d >= 0
    ensures |Ranged(os, k, i, d)| == |os| && (i < |os| ==> Ranged(os, k, i, d)[i] == os[i])
  {
  }

  lemma {:induction false} RangedNext(os: seq<Order>, k: nat, i: nat, d: int)
    requires k <= i < |os| && d >= -1 && forall j | k <= j <= i :: os[j].rank + d >= 0
    ensures Ranged(os, k, i, d)[i] == os[i]
    ensures Ranged(os, k, i + 1, d) == Ranged(os, k, i, d)[i := os[i].(rank := os[i].rank + d)]
  {
  }

  lemma {:induction false} RoomIs(os: seq<Order>, first: nat, k: nat, i: nat)
    requires k <= i <= |os| && k == L.Position(os, first) && RunAt(os, first, k, i)
    requires i < |os| ==> os[i].rank != first + (i - k)
    ensures Room(os, first) == Ranged(os, k, i, 1)
  {
    hide L.Position;
    forall j | 0 <= j < i - k ensures os[k..][j].rank == first + j { assert os[k..][j] == os[k + j]; }
    ShiftUpRun(os[k..], first, i - k);
  }

  lemma {:induction false} ClosedIs(os: seq<Order>, rank: nat, k: nat, i: nat)
    requires k <= i <= |os| && RunAt(os, rank + 1, k, i)
    requires i < |os| ==> os[i].rank != rank + 1 + (i - k)
    ensures os[..k] + L.ShiftDown(os[k..], rank) == Ranged(os, k, i, -1)
  {
    forall j | 0 <= j < i - k ensures os[k..][j].rank == rank + 1 + j { assert os[k..][j] == os[k + j]; }
    ShiftDownRun(os[k..], rank, i - k);
  }

  /** The orders once there is room at `rank`. */
  function Room(os: seq<Order>, rank: nat): seq<Order> {
    var k := L.Position(os, rank);
    os[..k] + L.ShiftUp(os[k..], rank)
  }

  /** The orders once `o` has been added to the tree. */
  function Placed(os: seq<Order>, o: Order): seq<Order> {
    var p := L.Position(os, o.rank);
    var k := if p < |os| && os[p].rank == o.rank then p + 1 else p;
    With(os, k, o)
  }

  lemma {:induction false} PlacedAt(os: seq<Order>, o: Order, k: nat)
    requires var p := L.Position(os, o.rank); k == if p < |os| && os[p].rank == o.rank then p + 1 else p
    ensures k <= |os| && Placed(os, o) == With(os, k, o)
  {
  }

  /** Making room and then inserting by rank is what insertion under uniform ranks comes to. */
  lemma {:induction false} RoomThenPlaced(os: seq<Order>, c: Order)
    requires L.RanksIncrease(os)
    ensures L.Insert(true, os, c) == Placed(Room(os, c.rank), c)
  {
    var p := L.Position(os, c.rank);
    L.InsertShape(true, os, c);
    RoomPosition(os, c.rank);
    var up := L.ShiftUp(os[p..], c.rank);
    var moved := os[..p] + up;
    PlacedAt(moved, c, p);
    WithIs(moved, p, c);
    assert L.Insert(true, os, c) == os[..p] + ([c] + up);
    hide *;
    L.CutConcat(os[..p], up);
    assert os[..p] + ([c] + up) == os[..p] + [c] + up;
  }

  lemma {:induction false} PlainPlaced(os: seq<Order>, c: Order)
    ensures L.Insert(false, os, c) == Placed(os, c)
  {
    hide L.Insert, L.Position, Placed;
    var p := L.Position(os, c.rank);
    var k := if p < |os| && os[p].rank == c.rank then p + 1 else p;
    L.InsertShape(false, os, c);
    PlacedAt(os, c, k);
    WithIs(os, k, c);
    var behind := os[p..];
    assert L.Insert(false, os, c) == os[..p] + if k > p then [behind[0], c] + behind[1..] else [c] + behind;
    if k > p {
      assert os[..k] == os[..p] + [behind[0]] && os[k..] == behind[1..];
      assert os[..p] + ([behind[0], c] + behind[1..]) == os[..p] + [behind[0]] + [c] + behind[1..];
    } else {
      assert os[..p] + ([c] + behind) == os[..p] + [c] + behind;
    }
  }

  /** Room at a rank is where the orders behind it were. */
  lemma {:induction false} RoomPosition(os: seq<Order>, rank: nat)
    requires L.RanksIncrease(os)
    ensures var p, moved := L.Position(os, rank), Room(os, rank);
      L.Position(moved, rank) == p && (p < |moved| ==> moved[p].rank > rank)
  {
    var p, moved := L.Position(os, rank), Room(os, rank);
    L.SuffixRanks(os, p, rank);
    L.ShiftUpLemma(os[p..], rank);
    hide L.ShiftUp, L.RanksIncrease, L.SameOrders;
    forall i | 0 <= i < p ensures moved[i].rank < rank { assert moved[i] == os[..p][i]; }
    if p < |moved| { assert moved[p] == L.ShiftUp(os[p..], rank)[0]; }
    L.PositionUnique(moved, rank, p);
  }

  /** Shifting up moves a run of consecutive ranks by one. */
  lemma {:induction false} ShiftUpRun(os: seq<Order>, rank: nat, n: nat)
    requires n <= |os| && forall j | 0 <= j < n :: os[j].rank == rank + j
    requires n < |os| ==> os[n].rank != rank + n
    ensures |L.ShiftUp(os, rank)| == |os|
    ensures forall j | 0 <= j < |os| :: L.ShiftUp(os, rank)[j] == if j < n then os[j].(rank := os[j].rank + 1)
      else os[j]
  {
    if n > 0 {
      ShiftUpRun(os[1..], rank + 1, n - 1);
    }
  }

  lemma {:induction false} ShiftDownRun(os: seq<Order>, rank: nat, n: nat)
    requires n <= |os| && forall j | 0 <= j < n :: os[j].rank == rank + 1 + j
    requires n < |os| ==> os[n].rank != rank + 1 + n
    ensures |L.ShiftDown(os, rank)| == |os|
    ensures forall j | 0 <= j < |os| :: L.ShiftDown(os, rank)[j] == if j < n then os[j].(rank := os[j].rank - 1)
      else os[j]
  {
    if n > 0 {
      ShiftDownRun(os[1..], rank + 1, n - 1);
    }
  }

  lemma {:induction false} Among<T>(t: seq<T>, s: seq<T>, x: T)
    requires Removed(t, s, x)
    ensures x !in t && forall i | 0 <= i < |t| :: t[i] in s
  {
  }

  /** Deletion in two steps: the order at the rank, if any, and then the gap. */
  lemma {:induction false} DeletedIs(uniform: bool, os: seq<Order>, rank: nat, k: nat, rest: seq<Order>)
    requires k == L.Position(os, rank)
    requires rest == if k < |os| && os[k].rank == rank then Without(os, k) else os
    ensures k <= |rest| && L.Delete(uniform, os, rank) == if uniform then rest[..k] + L.ShiftDown(rest[k..], rank)
      else rest
  {
    hide L.Delete, L.ShiftDown, L.Position;
    L.DeleteShape(uniform, os, rank);
    if k < |os| { WithoutIs(os, k); }
    if k < |os| && os[k].rank == rank {
      assert os[k..][1..] == os[k + 1..];
      L.CutConcat(os[..k], os[k + 1..]);
    } else {
      assert os[..k] + os[k..] == os;
    }
  }
}
