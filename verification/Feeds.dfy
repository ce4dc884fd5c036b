/** The order book as others keep it: a replica fed with messages, and the snapshot that starts one. */
module Feeds {
  import opened Types
  import opened Levels
  import opened Books
  import opened PxLevels
  import opened OBSides
  import opened OrderBooks
  import Invariant
  import Ladders
  import Operations
  import Replica
  import Simulation
  import Snapshot

  /** Applies one message to a replica. */
  method Apply(b: OrderBook, m: Msg)
    requires b.Ready() && Invariant.Valid(b.cfg, Replica.Apply(b.cfg, b.Value(), m))
    modifies b, b.bids, b.bids.levels.Values, b.bids.known, b.asks, b.asks.levels.Values, b.asks.known, b.shard, b.sink
    ensures b.Ready() && b.Value() == Replica.Apply(b.cfg, old(b.Value()), m)
    ensures Grown(b.bids) && Grown(b.asks)
  {
    hide OrderBook.Ready, OrderBook.Value, Invariant.Valid, Replica.Apply, Add, Modify, Cancel, Books.Reset, SetPxLevel;
    hide Operations.MayModify, Operations.MayUpdate, Operations.Allowed;
    b.Agrees();
    MayApply(b.cfg, b.Value(), m);
    match m
    case AddOrder(id, side, rank, price, qty, flags) => var o := b.AddOrder(id, side, rank, price, qty, flags);
    case ModifyOrder(id, side, rank, price, qty, flags) => var o := b.ModifyOrder(id, side, rank, price, qty, flags);
    case CancelOrder(id, side) => var o := b.CancelOrder(id, side);
    case ResetOB => b.Reset();
    case PxLevel(side, delta, price, qty, nOrders, flags) => b.SetLevel(side, delta, price, qty, nOrders, flags);
  }

  lemma {:induction false} MayApply(cfg: Config, v: Book, m: Msg)
    requires Invariant.Valid(cfg, v) && Invariant.Valid(cfg, Replica.Apply(cfg, v, m))
    ensures match m
      case AddOrder(id, side, rank, price, qty, flags) =>
        Operations.Allowed(cfg, v, Operations.OpAdd(id, side, rank, price, qty, flags))
        && Replica.Apply(cfg, v, m) == Add(cfg, v, id, side, rank, price, qty, flags).book
      case ModifyOrder(id, side, rank, price, qty, flags) =>
        Operations.MayModify(cfg, v, cfg.Key(side, id), rank, price, qty)
        && Replica.Apply(cfg, v, m) == Modify(cfg, v, id, side, rank, price, qty, flags).book
      case CancelOrder(id, side) => Replica.Apply(cfg, v, m) == Cancel(cfg, v, id, side).book
      case ResetOB => Replica.Apply(cfg, v, m) == Books.Reset(v).book
      case PxLevel(side, delta, price, qty, nOrders, flags) =>
        Operations.MayUpdate(v, side, delta, price, qty, nOrders, flags)
        && Replica.Apply(cfg, v, m) == SetPxLevel(cfg, v, side, delta, price, qty, nOrders, flags).book
  {
    hide Invariant.Valid, Add, Modify, SetPxLevel, Operations.MayModify, Operations.MayUpdate;
    match m
    case AddOrder(id, side, rank, price, qty, flags) =>
      Operations.StepValid(cfg, v, Operations.OpAdd(id, side, rank, price, qty, flags));
    case ModifyOrder(id, side, rank, price, qty, flags) =>
      Operations.StepValid(cfg, v, Operations.OpModify(id, side, rank, price, qty, flags));
    case PxLevel(side, delta, price, qty, nOrders, flags) =>
      Operations.StepValid(cfg, v, Operations.OpPxLevel(side, delta, price, qty, nOrders, flags));
    case _ =>
  }

  /** Applies messages one after the other. */
  method ApplyAll(b: OrderBook, ms: seq<Msg>)
    requires b.Ready() && Simulation.StaysValid(b.cfg, b.Value(), ms)
    modifies b, b.bids, b.bids.levels.Values, b.bids.known, b.asks, b.asks.levels.Values, b.asks.known, b.shard, b.sink
    ensures b.Ready() && b.Value() == Replica.ApplyAll(b.cfg, old(b.Value()), ms)
    ensures Grown(b.bids) && Grown(b.asks)
  {
    hide OrderBook.Ready, OrderBook.Value, Invariant.Valid, Replica.Apply;
    for i := 0 to |ms|
      invariant b.Ready() && Grown(b.bids) && Grown(b.asks)
      invariant Simulation.StaysValid(b.cfg, b.Value(), ms[i..])
      invariant Replica.ApplyAll(b.cfg, b.Value(), ms[i..]) == Replica.ApplyAll(b.cfg, old(b.Value()), ms)
    {
      assert ms[i..][1..] == ms[i + 1..];
      Apply(b, ms[i]);
    }
  }

  /** Writes out a level: its orders by rank, or its aggregate if there are none. */
  method SnapshotLevel(l: PxLevel, out: Sink)
    requires l.Valid()
    modifies out
    ensures out.msgs == old(out.msgs) + Snapshot.LevelMsgs(l.side, l.price, l.Value())
  {
    var orderCount := 0;
    while orderCount < |l.orders|
      invariant orderCount <= |l.orders|
      invariant out.msgs == old(out.msgs) + Snapshot.OrderMsgs(l.queue[..orderCount])
    {
      var data := l.orders[orderCount].data;
      assert l.queue[..orderCount + 1][..orderCount] == l.queue[..orderCount];
      out.Send(Msg.AddOrder(data.id, data.side, Some(data.rank), data.price, data.qty, data.flags));
      orderCount := orderCount + 1;
    }
    assert l.queue[..orderCount] == l.queue;
    if orderCount == 0 {
      out.Send(Msg.PxLevel(l.side, false, l.price, l.qty, l.nOrders, l.flags));
    }
  }

  /** Writes out a side: the market level, then the limit levels, best first. */
  method SnapshotSide(x: BookSide, out: Sink)
    requires x.Valid()
    modifies out
    ensures out.msgs == old(out.msgs) + Snapshot.SideMsgs(x.side, SideOf(x.qty, x.model))
  {
    hide *;
    ghost var v, before := SideOf(x.qty, x.model), out.msgs;
    Keys(x);
    SideLevels(x.qty, x.model);
    if None in x.levels { SnapshotAt(x, None, out); }
    ghost var first := if None in x.model then Snapshot.LevelMsgs(x.side, None, x.model[None]) else [];
    assert before + [] == before;
    var ps := x.Prices();
    SnapshotLadder(x, ps, out);
    SideMsgsIs(x.side, v, ps);
    assert before + first + Snapshot.LadderMsgs(x.side, v, ps) == before + (first + Snapshot.LadderMsgs(x.side, v, ps));
  }

  method SnapshotLadder(x: BookSide, ps: seq<int>, out: Sink)
    requires x.Valid() && forall i | 0 <= i < |ps| :: Some(ps[i]) in x.model
    modifies out
    ensures out.msgs == old(out.msgs) + Snapshot.LadderMsgs(x.side, SideOf(x.qty, x.model), ps)
  {
    hide *;
    ghost var v, sent := SideOf(x.qty, x.model), [];
    InModel(x.qty, x.model, ps);
    Keys(x);
    NextLadder(x.side, v, ps, 0);
    var i := 0;
    while i < |ps|
      invariant i <= |ps| && out.msgs == old(out.msgs) + sent
      invariant Snapshot.LadderMsgs(x.side, v, ps) == sent + Snapshot.LadderMsgs(x.side, v, ps[i..])
    {
      NextLadder(x.side, v, ps, i);
      ghost var ms := Snapshot.LevelMsgs(x.side, Some(ps[i]), x.model[Some(ps[i])]);
      ghost var rest := Snapshot.LadderMsgs(x.side, v, ps[i + 1..]);
      assert sent + (ms + rest) == (sent + ms) + rest;
      SnapshotAt(x, Some(ps[i]), out);
      sent := sent + ms;
      i := i + 1;
    }
    NextLadder(x.side, v, ps, i);
  }

  /** Writes out the level at a price. */
  method SnapshotAt(x: BookSide, p: Price, out: Sink)
    requires x.Valid() && p in x.levels && p in x.model
    modifies out
    ensures out.msgs == old(out.msgs) + Snapshot.LevelMsgs(x.side, p, x.model[p])
  {
    hide *;
    x.At(p);
    x.QueueOf(x.levels[p]);
    SnapshotLevel(x.levels[p], out);
  }

  lemma {:induction false} Keys(x: BookSide)
    requires x.Valid()
    ensures x.levels.Keys == x.model.Keys
  {
  }

  lemma {:induction false} InModel(q: int, m: map<Price, Level>, ps: seq<int>)
    requires forall i | 0 <= i < |ps| :: Some(ps[i]) in m
    ensures forall i | 0 <= i < |ps| :: ps[i] in SideOf(q, m).levels && SideOf(q, m).levels[ps[i]] == m[Some(ps[i])]
  {
    SideLevels(q, m);
  }

  lemma {:induction false} SideMsgsIs(s: Side, v: OBSide, ps: seq<int>)
    requires ps == Ladders.Ladder(s, v.levels.Keys)
    ensures Snapshot.SideMsgs(s, v) ==
      (match v.LevelAt(None) case None => [] case Some(l) => Snapshot.LevelMsgs(s, None, l))
        + Snapshot.LadderMsgs(s, v, ps)
  {
    hide Ladders.Ladder, Snapshot.LevelMsgs, Snapshot.LadderMsgs;
  }

  lemma {:induction false} NextLadder(s: Side, v: OBSide, ps: seq<int>, i: nat)
    requires i <= |ps| && forall j | 0 <= j < |ps| :: ps[j] in v.levels
    ensures ps[0..] == ps
    ensures Snapshot.LadderMsgs(s, v, ps[i..]) ==
      if i == |ps| then []
      else Snapshot.LevelMsgs(s, Some(ps[i]), v.levels[ps[i]]) + Snapshot.LadderMsgs(s, v, ps[i + 1..])
  {
    hide Snapshot.LevelMsgs;
    assert i < |ps| ==> ps[i..][1..] == ps[i + 1..];
  }

  /** Writes out a book for a new replica. */
  method SnapshotBook(b: OrderBook, out: Sink)
    requires b.Ready()
    modifies out
    ensures out.msgs == old(out.msgs) + Snapshot.Snapshot(b.Value())
  {
    hide *;
    b.Views();
    ghost var v, before := b.Value(), out.msgs;
    out.Send(ResetOB);
    SnapshotSide(b.bids, out);
    SnapshotSide(b.asks, out);
    SnapshotIs(v, before);
  }

  lemma {:induction false} SnapshotIs(v: Book, before: seq<Msg>)
    ensures before + Snapshot.Snapshot(v) ==
      before + [ResetOB] + Snapshot.SideMsgs(Buy, v.bids) + Snapshot.SideMsgs(Sell, v.asks)
  {
    hide Snapshot.SideMsgs;
  }
}
