/** The order book as an object: its two sides, the venue's index of its orders, and what it emits. */
module OrderBooks {
  import opened Types
  import opened Levels
  import opened Books
  import opened Ladders
  import opened PxLevels
  import opened OBSides
  import opened Matching
  import opened FixedPoint
  import Invariant
  import Operations
  import MatchInvariant
  import opened RunningValue

  // ---- the value of a side as its levels change

  lemma {:induction false} SidePut(q: int, m: map<Price, Level>, p: Price, l: Level, q': int)
    ensures SideOf(q', m[p := l]) == SideOf(q, m).Put(p, Some(l)).(qty := q')
  {
    hide SideOf;
    var x, y := SideOf(q', m[p := l]), SideOf(q, m).Put(p, Some(l)).(qty := q');
    SideLevels(q, m);
    SideLevels(q', m[p := l]);
    forall p2: Price ensures x.LevelAt(p2) == y.LevelAt(p2) { }
    SameSide(x, y);
  }

  lemma {:induction false} SideDrop(q: int, m: map<Price, Level>, p: Price, q': int)
    ensures SideOf(q', m - {p}) == SideOf(q, m).Put(p, None).(qty := q')
  {
    hide SideOf;
    var x, y := SideOf(q', m - {p}), SideOf(q, m).Put(p, None).(qty := q');
    SideLevels(q, m);
    SideLevels(q', m - {p});
    forall p2: Price ensures x.LevelAt(p2) == y.LevelAt(p2) { }
    SameSide(x, y);
  }

  lemma {:induction false} SameSide(x: OBSide, y: OBSide)
    requires x.qty == y.qty && forall p: Price :: x.LevelAt(p) == y.LevelAt(p)
    ensures x == y
  {
    assert x.LevelAt(None) == y.LevelAt(None);
    assert forall p: int :: x.LevelAt(Some(p)) == y.LevelAt(Some(p));
    assert forall p: int :: p in x.levels <==> x.LevelAt(Some(p)).Some?;
    assert forall p: int :: p in y.levels <==> y.LevelAt(Some(p)).Some?;
    assert x.levels == y.levels;
  }

  /** The levels of a side that an order has left. */
  ghost function WithoutOrder(uniform: bool, m: map<Price, Level>, o: Order): map<Price, Level>
    requires o.price in m
  {
    var l := Left(uniform, m, o);
    if l.qty == 0 then m - {o.price} else m[o.price := l]
  }

  lemma {:induction false} LeaveIs(cfg: Config, b: Book, q: int, m: map<Price, Level>, o: Order)
    requires b.Of(o.side) == SideOf(q, m) && o.price in m
    requires Left(cfg.uniform, m, o).qty == 0 ==> Left(cfg.uniform, m, o).orders == []
    ensures Leave(cfg, b, o) ==
      b.With(o.side, SideOf(q - o.qty, WithoutOrder(cfg.uniform, m, o))).(index := b.index - {cfg.KeyOf(o)})
  {
    hide SideOf, UpdateDelta, Delete;
    SideLevels(q, m);
    SidePut(q, m, o.price, Left(cfg.uniform, m, o), q - o.qty);
    SideDrop(q, m, o.price, q - o.qty);
    assert KeysOf(cfg, []) == {};
  }

  /** The levels of a side that an order has entered. */
  ghost function WithOrder(uniform: bool, m: map<Price, Level>, o: Order, rank: Option<nat>): map<Price, Level> {
    m[o.price := AddToLevel(uniform, Counted(m, o.price, o.qty), o, rank)]
  }

  lemma {:induction false} EnterIs(cfg: Config, b: Book, q: int, m: map<Price, Level>, o: Order, rank: Option<nat>)
    requires b.Of(o.side) == SideOf(q, m)
    ensures Enter(cfg, b, o, rank) ==
      b.With(o.side, SideOf(q + o.qty, WithOrder(cfg.uniform, m, o, rank))).(index :=
        b.index[cfg.KeyOf(o) := At(o.side, o.price)])
  {
    hide SideOf, UpdateDelta, AddToLevel;
    SideLevels(q, m);
    SidePut(q, m, o.price, AddToLevel(cfg.uniform, Counted(m, o.price, o.qty), o, rank), q + o.qty);
  }

  /** In a sound book the ranks of every level increase, and a level without quantity is one without orders. */
  lemma {:induction false} SoundSide(cfg: Config, b: Book, x: BookSide)
    requires Invariant.Valid(cfg, b) && b.Of(x.side) == SideOf(x.qty, x.model)
    ensures x.Ranked()
  {
    SideLevels(x.qty, x.model);
    forall p | p in x.model.Keys ensures RanksIncrease(x.model[p].orders) {
      Invariant.LevelIsOk(cfg, b, x.side, p);
    }
  }

  lemma {:induction false} LeavesNothing(cfg: Config, b: Book, q: int, m: map<Price, Level>, k: OrderKey)
    requires Invariant.Valid(cfg, b) && k in b.index && Find(cfg, b, k).Some?
    requires var o := Find(cfg, b, k).value; b.Of(o.side) == SideOf(q, m)
    ensures var o := Find(cfg, b, k).value;
      o.price in m && (Left(cfg.uniform, m, o).qty == 0 ==> Left(cfg.uniform, m, o).orders == [])
  {
    hide SideOf;
    SideLevels(q, m);
    var i := Invariant.FindFacts(cfg, b, k);
    var o := Find(cfg, b, k).value;
    Invariant.LevelIsOk(cfg, b, o.side, o.price);
    Invariant.LeaveLevelOk(cfg, b, b.(index := b.index - {k}), o.side, o.price, i);
    Invariant.RemainingIsUpdate(cfg, m[o.price], o);
  }

  // ---- how objects and values hang together

  /** A sound side, on which exactly the known orders that point at a level rest. */
  ghost predicate Good(x: BookSide)
    reads x, x.levels.Values, x.known, x.resting
  {
    x.Valid() && x.Placed() && x.resting == set o | o in x.known && o.pxLevel != null
  }

  lemma {:induction false} GoodIs(x: BookSide)
    ensures Good(x) <==> x.Valid() && x.Placed() && x.resting == set o | o in x.known && o.pxLevel != null
  {
  }

  lemma {:induction false} FiledIs(cfg: Config, index: map<OrderKey, Resting>, orders: set<Resting>)
    ensures Filed(cfg, index, orders) <==>
      forall o <- orders :: cfg.KeyOf(o.data) in index && index[cfg.KeyOf(o.data)] == o
  {
  }

  /** The index has each of these orders under its key. */
  ghost predicate Filed(cfg: Config, index: map<OrderKey, Resting>, orders: set<Resting>)
    reads orders`data
  {
    forall o <- orders :: cfg.KeyOf(o.data) in index && index[cfg.KeyOf(o.data)] == o
  }

  method EnterGood(cfg: Config, x: BookSide, o: Resting, rank: Option<nat>)
    requires Good(x) && x.Ranked() && o.pxLevel == null && o.data.side == x.side
    modifies x, x.levels.Values, x.known`data, o
    ensures Good(x) && x.resting == old(x.resting) + {o} && x.known == old(x.known) + {o}
    ensures forall l <- x.levels.Values :: l in old(x.levels.Values) || fresh(l)
    ensures x.model == WithOrder(cfg.uniform, old(x.model), old(o.data), rank)
    ensures x.qty == old(x.qty) + o.data.qty && x.nv == old(x.nv) + x.Worth(o.data.price, o.data.qty)
    ensures o.pxLevel != null && o.data == old(o.data).(rank := o.data.rank)
    ensures forall r <- old(x.known) :: r.data == old(r.data).(rank := r.data.rank)
  {
    hide BookSide.Valid, BookSide.Placed, BookSide.Ranked, AddToLevel, Counted, Mul;
    x.AddOrder(cfg.uniform, o, rank);
  }

  /** Entering an order on one side leaves the other sound. */
  method EnterApart(cfg: Config, x: BookSide, o: Resting, rank: Option<nat>, ghost y: BookSide)
    requires Good(x) && x.Ranked() && o.pxLevel == null && o.data.side == x.side && Good(y) && y.side != x.side
    modifies x, x.levels.Values, x.known`data, o
    ensures Good(x) && x.resting == old(x.resting) + {o} && x.known == old(x.known) + {o}
    ensures forall l <- x.levels.Values :: l in old(x.levels.Values) || fresh(l)
    ensures x.model == WithOrder(cfg.uniform, old(x.model), old(o.data), rank)
    ensures x.qty == old(x.qty) + o.data.qty && x.nv == old(x.nv) + x.Worth(o.data.price, o.data.qty)
    ensures o.pxLevel != null && o.data == old(o.data).(rank := o.data.rank)
    ensures forall r <- old(x.known) :: r.data == old(r.data).(rank := r.data.rank)
    ensures Good(y)
  {
    hide *;
    SidesApart(x, y);
    EnterGood(cfg, x, o, rank);
  }

  method LeaveGood(cfg: Config, x: BookSide, o: Resting, shard: VenueShard)
    requires Good(x) && x.Ranked() && o in x.resting
    requires var l := Left(cfg.uniform, x.model, o.data); l.qty == 0 ==> l.orders == []
    modifies x, x.levels.Values, x.known`data, o`pxLevel, shard
    ensures Good(x) && x.resting == old(x.resting) - {o} && x.known == old(x.known)
    ensures x.levels.Values <= old(x.levels.Values) && shard.orders == old(shard.orders)
    ensures x.model == WithoutOrder(cfg.uniform, old(x.model), old(o.data))
    ensures x.qty == old(x.qty) - o.data.qty && x.nv == old(x.nv) - x.Worth(o.data.price, o.data.qty)
    ensures o.pxLevel == null && o.data == old(o.data)
    ensures forall r <- old(x.known) :: r.data == old(r.data).(rank := r.data.rank)
  {
    hide BookSide.Valid, BookSide.Placed, BookSide.Ranked, BookSide.Worth, Left;
    x.DelOrder(cfg.uniform, o, shard);
  }

  /** Taking an order out of one side leaves the other sound. */
  method LeaveApart(cfg: Config, x: BookSide, o: Resting, shard: VenueShard, ghost y: BookSide)
    requires Good(x) && x.Ranked() && o in x.resting && Good(y) && y.side != x.side
    requires var l := Left(cfg.uniform, x.model, o.data); l.qty == 0 ==> l.orders == []
    modifies x, x.levels.Values, x.known`data, o`pxLevel, shard
    ensures Good(x) && x.resting == old(x.resting) - {o} && x.known == old(x.known)
    ensures x.levels.Values <= old(x.levels.Values) && shard.orders == old(shard.orders)
    ensures x.model == WithoutOrder(cfg.uniform, old(x.model), old(o.data))
    ensures x.qty == old(x.qty) - o.data.qty && x.nv == old(x.nv) - x.Worth(o.data.price, o.data.qty)
    ensures o.pxLevel == null && o.data == old(o.data)
    ensures forall r <- old(x.known) :: r.data == old(r.data).(rank := r.data.rank)
    ensures Good(y)
  {
    hide *;
    SidesApart(x, y);
    LeaveGood(cfg, x, o, shard);
  }

  /** What changes on one side cannot touch the other. */
  lemma {:induction false} SidesApart(x: BookSide, y: BookSide)
    requires x.side != y.side && Good(x) && Good(y)
    ensures x.levels.Values !! y.levels.Values && x.known !! y.known
    ensures x.resting <= x.known && y.resting <= y.known
    ensures forall o <- x.known :: o.data.side == x.side
    ensures forall o <- y.known :: o.data.side == y.side
  {
    assert forall l <- x.levels.Values :: l.side == x.side by { Sides(x); }
    assert forall l <- y.levels.Values :: l.side == y.side by { Sides(y); }
  }

  lemma {:induction false} InTurn<T>(a: seq<T>, b: seq<T>, c: seq<T>)
    ensures a + b + c == a + (b + c)
  {
  }

  lemma {:induction false} NewSide(x: BookSide)
    requires x.Valid() && x.Placed() && x.known == {} && x.resting == {}
    ensures Good(x)
  {
  }

  lemma {:induction false} Sides(x: BookSide)
    requires x.Valid()
    ensures forall l <- x.levels.Values :: l.side == x.side
  {
    forall l | l in x.levels.Values ensures l.side == x.side {
      var p :| p in x.levels && x.levels[p] == l;
      SaysIs(l, x.side, p, x.model[p]);
    }
  }

  lemma {:induction false} StartsEmpty(cfg: Config, q: int, m: map<Price, Level>, r: int, n: map<Price, Level>)
    requires q == 0 && m == map[] && r == 0 && n == map[]
    ensures Book(SideOf(q, m), SideOf(r, n), map[]) == EMPTY_BOOK && Invariant.Valid(cfg, EMPTY_BOOK)
  {
    assert SideOf(q, m) == EMPTY_SIDE && SideOf(r, n) == EMPTY_SIDE;
    Operations.EmptyValid(cfg);
  }

  /** A side has got no levels or orders but those it had and new ones. */
  twostate predicate Grown(x: BookSide)
    reads x
  {
    (forall l <- x.levels.Values :: l in old(x.levels.Values) || fresh(l)) && forall o <- x.known ::
      o in old(x.known) || fresh(o)
  }

  class OrderBook {
    const cfg: Config
    const bids: BookSide
    const asks: BookSide
    const shard: VenueShard
    const sink: Sink
    /** Where the orders rest. */
    ghost var index: map<OrderKey, Location>

    constructor (cfg: Config, ndp: nat)
      ensures this.cfg == cfg && Ready() && Value() == EMPTY_BOOK
      ensures fresh(bids) && fresh(asks) && fresh(shard) && fresh(sink) && sink.msgs == [] && sink.deltas == []
      ensures bids.levels == map[] && asks.levels == map[] && bids.known == {} && asks.known == {} && bids.nv == 0
        && asks.nv == 0
    {
      hide BookSide.Valid, BookSide.Placed, Good, SideOf, Invariant.Valid, Filed, Ready, Value;
      this.cfg := cfg;
      bids := new BookSide(Buy, ndp);
      asks := new BookSide(Sell, ndp);
      shard := new VenueShard(cfg);
      sink := new Sink();
      index := map[];
      new;
      NewSide(bids);
      NewSide(asks);
      IsEmpty();
    }

    function Of(s: Side): BookSide {
      if s == Buy then bids else asks
    }

    ghost predicate Wired() {
      bids.side == Buy && asks.side == Sell && shard.cfg == cfg && bids.ndp == asks.ndp
    }

    ghost function Value(): Book
      reads this`index, bids`qty, bids`model, asks`qty, asks`model
    {
      Book(SideOf(bids.qty, bids.model), SideOf(asks.qty, asks.model), index)
    }

    ghost predicate Sound()
      reads bids, bids.levels.Values, bids.known, bids.resting, asks, asks.levels.Values, asks.known, asks.resting
    {
      Wired() && Good(bids) && Good(asks)
    }

    /** All views of the book agree. */
    ghost predicate Ready()
      reads this`index, bids, bids.levels.Values, bids.known, bids.resting
      reads asks, asks.levels.Values, asks.known, asks.resting, shard`orders
    {
      && Sound() && index.Keys == shard.orders.Keys
      && Filed(cfg, shard.orders, bids.resting + asks.resting)
      && Invariant.Valid(cfg, Value())
    }

    /** The book is as an operation leaves it, and what the operation emits has been sent and passed on. */
    ghost predicate Shows(e: Effect, msgs: seq<Msg>, deltas: seq<Delta>, bidNv: int, askNv: int)
      reads this`index, bids, bids.levels.Values, bids.known, bids.resting
      reads asks, asks.levels.Values, asks.known, asks.resting, shard`orders, sink
    {
      && Ready() && Value() == e.book
      && sink.msgs == msgs + e.msgs && sink.deltas == deltas + e.deltas
      && bids.nv == Renewed(bidNv, e.nvs, Buy, bids.ndp) && asks.nv == Renewed(askNv, e.nvs, Sell, asks.ndp)
    }

    /** Adds an order, or modifies the one that has its ID. */
    method AddOrder(id: OrderId, side: Side, rank: Option<nat>, price: Price, qty: int, flags: Flags)
      returns (o: Resting?)
      requires Ready() && Operations.Allowed(cfg, Value(), Operations.OpAdd(id, side, rank, price, qty, flags))
      modifies this, bids, bids.levels.Values, bids.known, asks, asks.levels.Values, asks.known, shard, sink
      ensures Grown(bids) && Grown(asks)
      ensures Shows(Add(cfg, old(Value()), id, side, rank, price, qty, flags),
                    old(sink.msgs), old(sink.deltas), old(bids.nv), old(asks.nv))
    {
      hide Ready, Shows, Value, Enter, Add, Modify, Find, Invariant.Valid, Operations.Allowed, Operations.MayModify,
        Renewed, NvMove;
      ghost var b, msgs, deltas := Value(), sink.msgs, sink.deltas;
      Agrees();
      SameIndex();
      o := shard.FindOrder(side, id);
      AddIs(cfg, b, id, side, rank, price, qty, flags);
      if o != null {
        o := ModifyOrder(id, side, rank, price, qty, flags);
        return;
      }
      var data := Order(id, side, if rank.Some? then rank.value else 0, price, qty, flags);
      KeyIs(cfg, data);
      o := AddNew(data, rank);
      Report(Msg.AddOrder(id, side, rank, price, qty, flags), Delta(side, price, qty, 1, flags));
      ShowsIs(Add(cfg, b, id, side, rank, price, qty, flags), msgs, deltas, old(bids.nv), old(asks.nv));
    }

    lemma {:induction false} ShowsIs(e: Effect, msgs: seq<Msg>, deltas: seq<Delta>, bidNv: int, askNv: int)
      requires Ready() && Value() == e.book
      requires sink.msgs == msgs + e.msgs && sink.deltas == deltas + e.deltas
      requires bids.nv == Renewed(bidNv, e.nvs, Buy, bids.ndp) && asks.nv == Renewed(askNv, e.nvs, Sell, asks.ndp)
      ensures Shows(e, msgs, deltas, bidNv, askNv)
    {
    }

    method AddNew(data: Order, rank: Option<nat>) returns (o: Resting)
      requires Ready() && cfg.KeyOf(data) !in index && Invariant.Valid(cfg, Enter(cfg, Value(), data, rank))
      modifies this`index, bids, bids.levels.Values, bids.known`data, asks, asks.levels.Values, asks.known`data, shard
      ensures Grown(bids) && Grown(asks)
      ensures Ready() && Value() == Enter(cfg, old(Value()), data, rank)
      ensures bids.nv == Renewed(old(bids.nv), NvMove(data.side, data.price, data.qty), Buy, bids.ndp)
      ensures asks.nv == Renewed(old(asks.nv), NvMove(data.side, data.price, data.qty), Sell, asks.ndp)
    {
      hide Good, Value, Enter, Invariant.Valid, Mul, RevaluedAll;
      var x := Of(data.side);
      AtMostOne(NvMove(data.side, data.price, data.qty));
      o := new Resting(data);
      EnterNew(x, o, rank);
    }

    method ModifyOrder(id: OrderId, side: Side, rank: Option<nat>, price: Price, qty: int, flags: Flags)
      returns (o: Resting?)
      requires Ready() && Operations.MayModify(cfg, Value(), cfg.Key(side, id), rank, price, qty)
      modifies this, bids, bids.levels.Values, bids.known, asks, asks.levels.Values, asks.known, shard, sink
      ensures Grown(bids) && Grown(asks)
      ensures Shows(Modify(cfg, old(Value()), id, side, rank, price, qty, flags),
                    old(sink.msgs), old(sink.deltas), old(bids.nv), old(asks.nv))
    {
      hide Good, Value, Leave, Enter, EnterAny, LeaveAny, Ready, Live, Modify, Find, Moves, NvMoves, Invariant.Valid,
        Operations.MayModify, Filed, Renewed;
      ghost var b := Value();
      Agrees();
      o := Seek(side, id, qty == 0);
      ModifyIs(cfg, b, id, side, rank, price, qty, flags);
      NoUpdates();
      if o == null { return; }
      var o' := Amended(o.data, price, qty, flags);
      var was := o.data;
      Change(o, o', rank);
      Announce(Msg.ModifyOrder(id, side, rank, price, qty, flags), was, o');
    }

    /** Reduces an order by a quantity; it is gone if that is all of it. */
    method ReduceOrder(id: OrderId, side: Side, reduceQty: int) returns (o: Resting?)
      requires Ready()
      modifies this, bids, bids.levels.Values, bids.known, asks, asks.levels.Values, asks.known, shard, sink
      ensures Grown(bids) && Grown(asks)
      ensures Shows(Reduce(cfg, old(Value()), id, side, reduceQty),
                    old(sink.msgs), old(sink.deltas), old(bids.nv), old(asks.nv))
    {
      hide Good, Value, Leave, Enter, EnterAny, LeaveAny, Ready, Live, Reduce, Find, Moves, NvMoves, Invariant.Valid,
        Filed, Renewed;
      ghost var b := Value();
      Agrees();
      o := Seek(side, id, false);
      ReduceIs(cfg, b, id, side, reduceQty);
      NoUpdates();
      if o == null { return; }
      if o.data.qty <= reduceQty { GiveUp(o); }
      var was := o.data;
      var o' := was.(qty := if was.qty > reduceQty then was.qty - reduceQty else 0);
      Change(o, o', Some(was.rank));
      Announce(Msg.ModifyOrder(id, was.side, None, None, o'.qty, {}), was, o');
    }

    method CancelOrder(id: OrderId, side: Side) returns (o: Resting?)
      requires Ready()
      modifies this, bids, bids.levels.Values, bids.known, asks, asks.levels.Values, asks.known, shard, sink
      ensures Grown(bids) && Grown(asks)
      ensures Shows(Cancel(cfg, old(Value()), id, side),
                    old(sink.msgs), old(sink.deltas), old(bids.nv), old(asks.nv))
    {
      hide Good, Value, Leave, LeaveAny, Ready, Live, Cancel, Find, Moves, NvMoves, Invariant.Valid, Filed, Renewed;
      ghost var b := Value();
      Agrees();
      o := Seek(side, id, true);
      CancelIs(cfg, b, id, side);
      NoUpdates();
      if o == null { return; }
      var was := o.data;
      Change(o, was.(qty := 0), None);
      Announce(Msg.CancelOrder(id, was.side), was, was.(qty := 0));
    }

    /** Takes an order out of the index before it leaves its side. */
    method GiveUp(o: Resting)
      requires Live(o)
      modifies shard
      ensures Live(o) && cfg.KeyOf(o.data) !in shard.orders
    {
      hide Good, Value, Find, Invariant.Valid, Filed;
      FiledWithout(cfg, shard.orders, bids.resting + asks.resting - {o}, cfg.KeyOf(o.data), o);
      var _ := shard.DelOrder(o.data.side, o.data.id);
    }

    /** Sets, changes or removes the aggregate level at a price. */
    method SetLevel(side: Side, delta: bool, price: Price, qty: int, nOrders: int, flags: Flags)
      requires Ready() && Operations.MayUpdate(Value(), side, delta, price, qty, nOrders, flags)
      modifies this, bids, bids.levels.Values, bids.known, asks, asks.levels.Values, asks.known, shard, sink
      ensures Grown(bids) && Grown(asks)
      ensures Shows(SetPxLevel(cfg, old(Value()), side, delta, price, qty, nOrders, flags),
                    old(sink.msgs), old(sink.deltas), old(bids.nv), old(asks.nv))
    {
      hide Good, Value, UpdatePx, Invariant.Valid, Operations.MayUpdate, Filed, Renewed, Ready;
      NoUpdates();
      var d, dn := UpdateLevel(side, delta, price, qty, nOrders, flags);
      Report(Msg.PxLevel(side, delta, price, qty, nOrders, flags), Delta(side, price, d, dn, flags));
    }

    method Report(m: Msg, d: Delta)
      requires Ready()
      modifies sink
      ensures Ready() && sink.msgs == old(sink.msgs) + [m] && sink.deltas == old(sink.deltas) + [d]
    {
      hide Ready;
      sink.Send(m);
      sink.Pass(d);
    }

    method UpdateLevel(side: Side, delta: bool, price: Price, qty: int, nOrders: int, flags: Flags)
      returns (d: int, dn: int)
      requires Ready() && Operations.MayUpdate(Value(), side, delta, price, qty, nOrders, flags)
      modifies this, bids, bids.levels.Values, bids.known, asks, asks.levels.Values, asks.known, shard
      ensures Grown(bids) && Grown(asks)
      ensures Ready() && (Value(), d, dn) == UpdatePx(cfg, old(Value()), side, delta, price, qty, nOrders, flags)
      ensures bids.nv == Renewed(old(bids.nv), if d != 0 then NvMove(side, price, d) else [], Buy, bids.ndp)
      ensures asks.nv == Renewed(old(asks.nv), if d != 0 then NvMove(side, price, d) else [], Sell, asks.ndp)
    {
      hide Good, Value, UpdatePx, Ready, Invariant.Valid, Operations.MayUpdate, Renewed, NvMove, BookSide.Worth;
      var x := Of(side);
      Opens();
      ghost var nv := x.nv;
      d, dn := UpdateIndexed(x, delta, price, qty, nOrders, flags);
      NvMoveIs(x, nv, price, d);
      NvMoveIs(x, Of(side.Opposite()).nv, price, d);
    }

    method UpdateIndexed(x: BookSide, delta: bool, price: Price, qty: int, nOrders: int, flags: Flags)
      returns (d: int, dn: int)
      requires Ready() && Operations.MayUpdate(Value(), x.side, delta, price, qty, nOrders, flags) && x == Of(x.side)
      modifies this`index, x, x.levels.Values, x.known`pxLevel, shard
      ensures Grown(x) && x.known == old(x.known)
      ensures Ready() && (Value(), d, dn) == UpdatePx(cfg, old(Value()), x.side, delta, price, qty, nOrders, flags)
      ensures x.nv == old(x.nv) + if d != 0 then x.Worth(price, d) else 0
    {
      hide *;
      Opens();
      ghost var b, s, q, m, was := Value(), x.side, x.qty, x.model, shard.orders;
      OnSide(x);
      Operations.PxLevelValid(cfg, b, x.side, delta, price, qty, nOrders, flags);
      d, dn := UpdateSide(x, delta, price, qty, nOrders, flags);
      UpdateIs(cfg, b, x.side, q, m, x.model, delta, price, qty, nOrders, flags, d, dn);
      index := index - KeysOf(cfg, Gone(m, x.model, price));
      NowIs(b, s);
      StillFiled(was);
    }

    method UpdateSide(x: BookSide, delta: bool, price: Price, qty: int, nOrders: int, flags: Flags)
      returns (d: int, dn: int)
      requires Sound() && x == Of(x.side) && Filed(cfg, shard.orders, bids.resting + asks.resting)
      modifies x, x.levels.Values, x.known`pxLevel, shard
      ensures Grown(x)
      ensures Sound() && PxChanged(old(x.model), x.model, delta, price, qty, nOrders, flags, d, dn)
      ensures x.qty == old(x.qty) + d && x.nv == old(x.nv) + if d != 0 then x.Worth(price, d) else 0
      ensures shard.orders == old(shard.orders) - KeysOf(cfg, Gone(old(x.model), x.model, price))
      ensures Filed(cfg, old(shard.orders), bids.resting + asks.resting)
      ensures x.known == old(x.known)
    {
      hide BookSide.Valid, BookSide.Placed, PxChanged, Mul, KeysOf;
      SidesApart(x, Of(x.side.Opposite()));
      d, dn := x.PxLevel_(delta, price, qty, nOrders, flags, shard);
    }

    /** Matches an incoming order of a side, of `qty` at `limit` or better. */
    method MatchOrder(taker: Side, limit: Price, qty: int, fill: FillFn) returns (leaves: int, cum: int, aborted: bool)
      requires Ready()
      modifies this, bids, bids.levels.Values, bids.known, asks, asks.levels.Values, asks.known, shard, sink
      ensures Grown(bids) && Grown(asks)
      ensures Shows(MatchEffect(cfg, old(Value()), taker, limit, qty, fill),
                    old(sink.msgs), old(sink.deltas), old(bids.nv), old(asks.nv))
      ensures var m := MatchBook(cfg, old(Value()), taker, limit, qty, fill);
        leaves == m.leaves && cum == Traded(m.fills) && aborted == m.aborted
    {
      hide Good, Value, MatchLadder, Ready, Renewed, MsgsOf, Traded, SideOf, Matches;
      Views();
      var x := Of(taker.Opposite());
      ghost var b := Value();
      OnlyOneSide(cfg, b, taker.Opposite(), Ladder(x.side, b.Of(x.side).levels.Keys), limit, qty, 0, fill);
      ghost var msgs, deltas, nv := sink.msgs, sink.deltas, x.nv;
      leaves, cum, aborted := MatchSide(x, limit, qty, 0, fill);
      MatchesIs(MatchBook(cfg, b, taker, limit, qty, fill), x, 0, leaves, cum, aborted, msgs, deltas, nv);
      ghost var e := MatchEffect(cfg, b, taker, limit, qty, fill);
      assert Ready();
      assert Value() == e.book;
      assert sink.msgs == old(sink.msgs) + e.msgs;
      assert sink.deltas == old(sink.deltas) + e.deltas;
      assert x.nv == Renewed(nv, e.nvs, x.side, x.ndp);
      assert Of(taker).nv == old(Of(taker).nv);
      assert Of(taker).nv == Renewed(Of(taker).nv, e.nvs, x.side.Opposite(), x.ndp);
    }

    /** Visits the levels of a side, best first, until the limit, an abort or the end of the quantity. */
    method MatchSide(x: BookSide, limit: Price, open: int, executed: int, fill: FillFn)
      returns (leaves: int, cum: int, aborted: bool)
      requires Ready() && x == Of(x.side)
      modifies this`index, x, x.levels.Values, x.known, shard, sink
      ensures x.known == old(x.known) && x.levels.Values <= old(x.levels.Values)
      ensures Ready()
      ensures Matches(MatchLadder(cfg, old(Value()), x.side, Ladder(x.side, old(Value()).Of(x.side).levels.Keys),
        limit, open, executed, fill),
                      x, executed, leaves, cum, aborted, old(sink.msgs), old(sink.deltas), old(x.nv))
    {
      hide *;
      View(x);
      var ps := x.Prices();
      leaves, cum, aborted := MatchAlong(x, ps, limit, open, executed, fill);
    }

    method MatchAlong(x: BookSide, ps: seq<int>, limit: Price, open: int, executed: int, fill: FillFn)
      returns (leaves: int, cum: int, aborted: bool)
      requires Ready() && x == Of(x.side)
      requires forall i | 0 <= i < |ps| :: Some(ps[i]) in x.model
      requires forall i, j | 0 <= i < j < |ps| :: ps[i] != ps[j]
      modifies this`index, x, x.levels.Values, x.known, shard, sink
      ensures x.known == old(x.known) && x.levels.Values <= old(x.levels.Values)
      ensures Ready()
      ensures Matches(MatchLadder(cfg, old(Value()), x.side, ps, limit, open, executed, fill),
                      x, executed, leaves, cum, aborted, old(sink.msgs), old(sink.deltas), old(x.nv))
    {
      hide *;
      ghost var b, s := Value(), x.side;
      ghost var msgs, deltas, nv := sink.msgs, sink.deltas, x.nv;
      ghost var all := MatchLadder(cfg, b, s, ps, limit, open, executed, fill);
      ghost var m := Match(b, open, [], false, [], []);
      leaves, cum, aborted := open, executed, false;
      NothingYet(x, executed, open, msgs, deltas, nv, all);
      assert ps[0..] == ps;
      var i, more := 0, true;
      while more && i < |ps| && x.side.Within(limit, ps[i])
        invariant Ready() && i <= |ps|
        invariant Matches(m, x, executed, leaves, cum, aborted, msgs, deltas, nv)
        invariant all == if more then Then(m, MatchLadder(cfg, m.book, s, ps[i..], limit, m.leaves,
          executed + Traded(m.fills), fill)) else m
        invariant more ==> !m.aborted
        invariant forall j | i <= j < |ps| :: Some(ps[j]) in x.model
        invariant x.known == old(x.known) && x.levels.Values <= old(x.levels.Values)
        decreases |ps| - i
      {
        ghost var m2 := Matching.MatchLevel(cfg, m.book, s, ps[i], m.leaves, executed + Traded(m.fills), fill);
        NextLevel(cfg, m, s, ps, i, limit, executed, fill);
        ThenIs(m, m2);
        leaves, cum, aborted := MatchNext(m, x, ps[i], executed, leaves, cum, aborted, fill, msgs, deltas, nv);
        MatchesIs(Then(m, m2), x, executed, leaves, cum, aborted, msgs, deltas, nv);
        m := Then(m, m2);
        more := !aborted && leaves != 0;
        i := i + 1;
      }
      if more { NoMore(cfg, m, s, ps[i..], limit, executed + Traded(m.fills), fill); }
    }

    /** Goes on with the level at `px`. */
    method MatchNext(ghost m: Match, x: BookSide, px: int, ghost executed: int, open: int, cum0: int, ghost off: bool,
                     fill: FillFn, ghost msgs: seq<Msg>, ghost deltas: seq<Delta>, ghost nv: int)
      returns (leaves: int, cum: int, aborted: bool)
      requires Ready() && x == Of(x.side) && Some(px) in x.model
      requires Matches(m, x, executed, open, cum0, off, msgs, deltas, nv)
      modifies this`index, x, x.levels.Values, x.known, shard, sink
      ensures Ready()
      ensures Matches(Then(m, Matching.MatchLevel(cfg, m.book, x.side, px, m.leaves, executed + Traded(m.fills),
        fill)), x, executed,
                      leaves, cum, aborted, msgs, deltas, nv)
      ensures x.known == old(x.known) && x.levels.Values <= old(x.levels.Values)
      ensures forall p: Price | p != Some(px) :: p in x.model <==> p in old(x.model)
    {
      hide Good, Value, Matching.MatchLevel, Ready, Renewed, MsgsOf, Traded, Matches, Then;
      MatchesIs(m, x, executed, open, cum0, off, msgs, deltas, nv);
      ghost var msgs2, deltas2, nv2 := sink.msgs, sink.deltas, x.nv;
      ghost var m2 := Matching.MatchLevel(cfg, m.book, x.side, px, open, cum0, fill);
      leaves, cum, aborted := MatchAt(x, px, open, cum0, fill);
      MatchesIs(m2, x, cum0, leaves, cum, aborted, msgs2, deltas2, nv2);
      MatchesThen(m, m2, x, executed, msgs, deltas, nv);
    }

    /** Trades an incoming quantity against the level at `px`. */
    method MatchAt(x: BookSide, px: int, open: int, executed: int, fill: FillFn)
      returns (leaves: int, cum: int, aborted: bool)
      requires Ready() && x == Of(x.side) && Some(px) in x.model
      modifies this`index, x, x.levels.Values, x.known, shard, sink
      ensures Ready() && Matches(Matching.MatchLevel(cfg, old(Value()), x.side, px, open, executed, fill), x, executed,
                                 leaves, cum, aborted, old(sink.msgs), old(sink.deltas), old(x.nv))
      ensures x.known == old(x.known) && x.levels.Values <= old(x.levels.Values)
      ensures forall p: Price | p != Some(px) :: p in x.model <==> p in old(x.model)
    {
      hide Good, SideOf, Invariant.Valid, Filed, Mul, Renewed, MatchOrders, LevelMatched, TradeCounted, MatchEmits,
        MatchPasses, UsedUp;
      hide Matching.MatchLevel, Matches;
      ghost var b, q, nv, m, was := Value(), x.qty, x.nv, x.model, shard.orders;
      ghost var msgs, deltas := sink.msgs, sink.deltas;
      MatchInvariant.MatchLevelValid(cfg, b, x.side, px, open, executed, fill);
      SideLevels(q, m);
      UsesUp(cfg, b, x.side, px, m[Some(px)], open, executed, fill);
      leaves, cum, aborted := MatchOn(x, px, open, executed, fill);
      index := index - Filled(cfg, MatchOrders(m[Some(px)].orders, px, open, executed, fill).fills);
      MatchMeans(cfg, x.side, q, m, nv, x.qty, x.model, x.nv, x.ndp, px, open, executed, fill, leaves, cum, aborted,
                 was, shard.orders, msgs, sink.msgs);
      MatchLevelIs(cfg, b, x.side, q, m, x.qty, x.model, px, open, executed, fill, leaves, cum, aborted);
      MatchShows(b, x, q, m, nv, msgs, deltas, was, px, open, executed, fill, leaves, cum, aborted);
      StillFiled(was);
    }

    method MatchOn(x: BookSide, px: int, open: int, executed: int, fill: FillFn)
      returns (leaves: int, cum: int, aborted: bool)
      requires Sound() && x == Of(x.side) && Filed(cfg, shard.orders, bids.resting + asks.resting)
      requires Some(px) in x.model && UsedUp(x.model[Some(px)], px, open, executed, fill)
      modifies x, x.levels.Values, x.known, shard, sink
      ensures Sound() && Filed(cfg, old(shard.orders), bids.resting + asks.resting)
      ensures x.known == old(x.known) && x.levels.Values <= old(x.levels.Values)
      ensures LevelMatched(old(x.model), x.model, px, open, executed, fill, leaves, cum, aborted)
      ensures TradeCounted(old(x.qty), old(x.nv), x.qty, x.nv, px, old(x.model)[Some(px)], open, executed, fill, x.ndp)
      ensures MatchEmits(cfg, x.side, old(x.model)[Some(px)].orders, px, open, executed, fill,
                         old(shard.orders), shard.orders, old(sink.msgs), sink.msgs)
      ensures MatchPasses(x.side, px, old(x.model)[Some(px)], open, executed, fill, old(sink.deltas), sink.deltas)
    {
      hide BookSide.Valid, BookSide.Placed, LevelMatched, TradeCounted, MatchEmits, MatchPasses, UsedUp;
      SidesApart(x, Of(x.side.Opposite()));
      leaves, cum, aborted := x.MatchLevel(px, open, executed, fill, shard, sink);
    }

    lemma {:induction false} MatchShows(b: Book, x: BookSide, q: int, m: map<Price, Level>, nv: int, msgs: seq<Msg>,
                                        deltas: seq<Delta>, was: map<OrderKey, Resting>, px: int, open: int,
                                        executed: int, fill: FillFn, leaves: int, cum: int, aborted: bool)
      requires b.Of(x.side) == SideOf(q, m) && Some(px) in m
      requires var r := Matching.MatchLevel(cfg, b, x.side, px, open, executed, fill);
        && Value() == r.book && leaves == r.leaves && cum == executed + Traded(r.fills) && aborted == r.aborted
        && r.fills == MatchOrders(m[Some(px)].orders, px, open, executed, fill).fills
      requires TradeCounted(q, nv, x.qty, x.nv, px, m[Some(px)], open, executed, fill, x.ndp)
      requires MatchEmits(cfg, x.side, m[Some(px)].orders, px, open, executed, fill, was, shard.orders, msgs, sink.msgs)
      requires MatchPasses(x.side, px, m[Some(px)], open, executed, fill, deltas, sink.deltas)
      ensures Matches(Matching.MatchLevel(cfg, b, x.side, px, open, executed, fill), x, executed, leaves, cum,
        aborted, msgs, deltas, nv)
    {
      hide Value, SideOf, MatchOrders, Traded, Filled, MsgsOf, Mul, RevaluedAll;
      SideLevels(q, m);
      AtMostOne(LevelNvs(x.side, px, b.Of(x.side), MatchOrders(m[Some(px)].orders, px, open, executed, fill)));
    }

    lemma {:induction false} MatchesIs(m: Match, x: BookSide, executed: int, leaves: int, cum: int, aborted: bool,
                                       msgs: seq<Msg>, deltas: seq<Delta>, nv: int)
      requires Matches(m, x, executed, leaves, cum, aborted, msgs, deltas, nv)
      ensures Value() == m.book && leaves == m.leaves && cum == executed + Traded(m.fills) && aborted == m.aborted
      ensures sink.msgs == msgs + MsgsOf(x.side, m.fills) && sink.deltas == deltas + m.deltas
      ensures x.nv == Renewed(nv, m.nvs, x.side, x.ndp)
    {
    }

    lemma {:induction false} NothingYet(x: BookSide, executed: int, open: int, msgs: seq<Msg>, deltas: seq<Delta>,
                                        nv: int, all: Match)
      requires sink.msgs == msgs && sink.deltas == deltas && x.nv == nv
      ensures Matches(Match(Value(), open, [], false, [], []), x, executed, open, executed, false, msgs, deltas, nv)
      ensures Then(Match(Value(), open, [], false, [], []), all) == all && Traded([]) == 0
    {
      NoUpdates();
      assert [] + all.fills == all.fills && [] + all.deltas == all.deltas && [] + all.nvs == all.nvs;
    }

    /** A match that goes on with another adds up to both. */
    lemma {:induction false} MatchesThen(m: Match, m2: Match, x: BookSide, executed: int, msgs: seq<Msg>,
                                         deltas: seq<Delta>, nv: int)
      requires Value() == m2.book
      requires sink.msgs == msgs + MsgsOf(x.side, m.fills) + MsgsOf(x.side, m2.fills)
        && sink.deltas == deltas + m.deltas + m2.deltas
      requires x.nv == Renewed(Renewed(nv, m.nvs, x.side, x.ndp), m2.nvs, x.side, x.ndp)
      ensures Matches(Then(m, m2), x, executed, m2.leaves, executed + Traded(m.fills) + Traded(m2.fills), m2.aborted,
        msgs, deltas, nv)
    {
      hide Value, RevaluedAll, Renewed, Traded;
      TradedConcat(m.fills, m2.fills);
      assert MsgsOf(x.side, m.fills + m2.fills) == MsgsOf(x.side, m.fills) + MsgsOf(x.side, m2.fills);
      assert deltas + (m.deltas + m2.deltas) == deltas + m.deltas + m2.deltas;
      assert msgs + (MsgsOf(x.side, m.fills) + MsgsOf(x.side, m2.fills))
        == msgs + MsgsOf(x.side, m.fills) + MsgsOf(x.side, m2.fills);
      RenewedConcat(nv, m.nvs, m2.nvs, x.side, x.ndp);
    }

    /** The book is as a match leaves it, and what the match emits has been sent and passed on. */
    ghost predicate Matches(m: Match, x: BookSide, executed: int, leaves: int, cum: int, aborted: bool,
                            msgs: seq<Msg>, deltas: seq<Delta>, nv: int)
      reads this`index, bids`qty, bids`model, asks`qty, asks`model, sink, x`nv
    {
      && Value() == m.book && leaves == m.leaves && cum == executed + Traded(m.fills) && aborted == m.aborted
      && sink.msgs == msgs + MsgsOf(x.side, m.fills) && sink.deltas == deltas + m.deltas
      && x.nv == Renewed(nv, m.nvs, x.side, x.ndp)
    }

    /** In a sound book every order that rests is indexed. */
    lemma {:induction false} RestIndexed()
      requires Sound() && Invariant.Valid(cfg, Value())
      ensures forall o <- bids.resting + asks.resting :: cfg.KeyOf(o.data) in index
    {
      forall o | o in bids.resting + asks.resting ensures cfg.KeyOf(o.data) in index {
        SideRestIndexed(if o in bids.resting then bids else asks, o);
      }
    }

    lemma {:induction false} SideRestIndexed(x: BookSide, o: Resting)
      requires Sound() && Invariant.Valid(cfg, Value()) && x == Of(x.side) && o in x.resting
      ensures cfg.KeyOf(o.data) in index
    {
      hide SideOf, Invariant.Valid;
      x.AtHome(o);
      var l := x.levels[o.data.price];
      x.QueueOf(l);
      SideLevels(x.qty, x.model);
      Invariant.LevelIsOk(cfg, Value(), x.side, l.price);
      var i :| 0 <= i < |l.orders| && l.orders[i] == o;
      assert l.Holds(l.orders[i]) && l.queue[i] == o.data;
      assert Invariant.OrderOk(cfg, Value(), x.side, l.price, l.queue[i]);
    }

    /** Orders that still rest are found as before when the index has given up entries of others. */
    lemma {:induction false} StillFiled(was: map<OrderKey, Resting>)
      requires Sound() && Invariant.Valid(cfg, Value()) && index.Keys == shard.orders.Keys
      requires Filed(cfg, was, bids.resting + asks.resting)
      requires forall k <- shard.orders :: k in was && was[k] == shard.orders[k]
      ensures Ready()
    {
      hide Good, Value, Invariant.Valid;
      RestIndexed();
    }

    /** Clears the book: both sides, and with them the index. */
    method Reset()
      requires Ready()
      modifies this, bids, bids.levels.Values, bids.known, asks, asks.levels.Values, asks.known, shard, sink
      ensures Grown(bids) && Grown(asks)
      ensures Shows(Books.Reset(old(Value())), old(sink.msgs), old(sink.deltas), old(bids.nv), old(asks.nv))
    {
      hide Good, Value, Books.Reset, Ready, Renewed, ResetDeltas, SideOf, Invariant.Valid;
      ghost var b := Value();
      Agrees();
      Operations.ResetValid(cfg, b);
      ResetIs(b, bids.ndp, asks.ndp);
      ResetSides();
      sink.Send(ResetOB);
    }

    method ResetSides()
      requires Ready()
      modifies this`index, bids, bids.levels.Values, bids.known`pxLevel, asks, asks.levels.Values, asks.known`pxLevel,
        shard, sink
      ensures bids.levels == map[] && bids.known == old(bids.known)
      ensures asks.levels == map[] && asks.known == old(asks.known)
      ensures Ready() && Value() == EMPTY_BOOK && bids.nv == 0 && asks.nv == 0
      ensures sink.msgs == old(sink.msgs)
      ensures sink.deltas == old(sink.deltas)
        + (ResetDeltas(Buy, old(Value()).bids, Ladder(Sell, old(Value()).bids.levels.Keys))
           + ResetDeltas(Sell, old(Value()).asks, Ladder(Sell, old(Value()).asks.levels.Keys)))
    {
      hide *;
      Opens();
      TheSides();
      ghost var b, was, m, n := Value(), shard.orders, bids.model, asks.model;
      ghost var index1 := ClearSides(b);
      index := map[];
      NothingIndexed(cfg, b, m, n, was, index1, shard.orders);
      IsEmpty();
    }

    lemma {:induction false} Opens()
      requires Ready()
      ensures var b := Value();
        && Sound() && bids.side == Buy && asks.side == Sell && shard.cfg == cfg
        && Invariant.Valid(cfg, b) && b.index.Keys == shard.orders.Keys
        && b.bids == SideOf(bids.qty, bids.model) && b.asks == SideOf(asks.qty, asks.model)
        && b.bids.qty == bids.qty && b.asks.qty == asks.qty && b.index == index
        && Filed(cfg, shard.orders, bids.resting + asks.resting)
    {
    }

    lemma {:induction false} TheSides()
      ensures Of(Buy) == bids && Of(Sell) == asks
    {
    }

    lemma {:induction false} OnSide(x: BookSide)
      requires Sound()
      ensures Of(Buy) == bids && Of(Sell) == asks && bids != asks && bids.side == Buy && asks.side == Sell
      ensures Of(x.side.Opposite()) == (if x.side == Buy then asks else bids) && forall s: Side :: Of(s).side == s
      ensures var b, s := Value(), x.side;
        && b.index == index && b.Of(s) == SideOf(Of(s).qty, Of(s).model)
        && b.Of(s.Opposite()) == SideOf(Of(s.Opposite()).qty, Of(s.Opposite()).model)
    {
    }

    lemma {:induction false} IsReady()
      requires Sound() && index.Keys == shard.orders.Keys && Filed(cfg, shard.orders, bids.resting + asks.resting)
      requires Invariant.Valid(cfg, Value())
      ensures Ready()
    {
    }

    /** The value of a book of which one side has changed. */
    lemma {:induction false} NowIs(b: Book, s: Side)
      requires var y := Of(s.Opposite()); b.Of(s.Opposite()) == SideOf(y.qty, y.model)
      ensures Value() == b.With(s, SideOf(Of(s).qty, Of(s).model)).(index := index)
    {
    }

    lemma {:induction false} IsEmpty()
      requires Sound() && bids.resting == {} && asks.resting == {} && shard.orders == map[] && index == map[]
      requires bids.qty == 0 && bids.model == map[] && asks.qty == 0 && asks.model == map[]
      ensures Ready() && Value() == EMPTY_BOOK
    {
      StartsEmpty(cfg, bids.qty, bids.model, asks.qty, asks.model);
    }

    method ClearSides(ghost b: Book) returns (ghost index1: map<OrderKey, Resting>)
      requires Sound() && bids == Of(bids.side) && asks == Of(asks.side) && bids.side == Buy && asks.side == Sell
      requires b.bids == SideOf(bids.qty, bids.model) && b.asks == SideOf(asks.qty, asks.model)
      modifies bids, bids.levels.Values, bids.known`pxLevel, asks, asks.levels.Values, asks.known`pxLevel, shard, sink
      ensures bids.levels == map[] && bids.known == old(bids.known)
      ensures asks.levels == map[] && asks.known == old(asks.known)
      ensures Sound() && bids.resting == {} && asks.resting == {} && bids.nv == 0 && asks.nv == 0
      ensures bids.qty == 0 && bids.model == map[] && asks.qty == 0 && asks.model == map[]
      ensures AllDropped(cfg, old(shard.orders), index1, old(bids.model), {})
      ensures AllDropped(cfg, index1, shard.orders, old(asks.model), {})
      ensures sink.msgs == old(sink.msgs)
      ensures sink.deltas == old(sink.deltas) + (ResetDeltas(Buy, b.bids, Ladder(Sell, b.bids.levels.Keys))
                                                 + ResetDeltas(Sell, b.asks, Ladder(Sell, b.asks.levels.Keys)))
    {
      hide *;
      ghost var deltas := sink.deltas;
      ClearSide(bids);
      index1 := shard.orders;
      ClearSide(asks);
      InTurn(deltas, ResetDeltas(Buy, b.bids, Ladder(Sell, b.bids.levels.Keys)),
             ResetDeltas(Sell, b.asks, Ladder(Sell, b.asks.levels.Keys)));
    }

    method ClearSide(x: BookSide)
      requires Sound() && x == Of(x.side)
      modifies x, x.levels.Values, x.known`pxLevel, shard, sink
      ensures x.known == old(x.known) && x.levels == map[]
      ensures Sound() && x.qty == 0 && x.model == map[] && x.resting == {} && x.nv == 0
      ensures sink.msgs == old(sink.msgs)
      ensures sink.deltas == old(sink.deltas)
        + ResetDeltas(x.side, SideOf(old(x.qty), old(x.model)),
          Ladder(Sell, SideOf(old(x.qty), old(x.model)).levels.Keys))
      ensures AllDropped(cfg, old(shard.orders), shard.orders, old(x.model), {})
    {
      hide BookSide.Valid, BookSide.Placed, ResetDeltas, Ladder, SideOf, AllDropped;
      SidesApart(x, Of(x.side.Opposite()));
      x.Reset(shard, sink);
    }

    /** Enters a new order in the index and on its side. */
    method EnterNew(x: BookSide, o: Resting, rank: Option<nat>)
      requires Ready() && x == Of(o.data.side) && o.pxLevel == null && cfg.KeyOf(o.data) !in index
      requires Invariant.Valid(cfg, Enter(cfg, Value(), o.data, rank))
      modifies this`index, x, x.levels.Values, x.known`data, o, shard
      ensures (forall l <- x.levels.Values :: l in old(x.levels.Values) || fresh(l)) && x.known == old(x.known) + {o}
      ensures Ready() && Value() == Enter(cfg, old(Value()), old(o.data), rank)
      ensures x.nv == old(x.nv) + x.Worth(old(o.data).price, old(o.data).qty)
    {
      hide Good, Value, Enter, Invariant.Valid;
      shard.AddOrder(o);
      Place(x, o, rank);
    }

    /** Looks an order up, and takes it out of the index if it is to go. */
    method Seek(side: Side, id: OrderId, drop: bool) returns (o: Resting?)
      requires Ready()
      modifies shard
      ensures o == null <==> cfg.Key(side, id) !in index
      ensures o == null ==> Ready()
      ensures o != null ==> Live(o) && Find(cfg, Value(), cfg.Key(side, id)) == Some(o.data) && o.data.qty > 0
      ensures o != null ==> cfg.KeyOf(o.data) == cfg.Key(side, id) && (!drop ==> cfg.KeyOf(o.data) in shard.orders)
    {
      hide Good, Value, Find, Invariant.Valid;
      ghost var k := cfg.Key(side, id);
      if k in index { Found(k); }
      if drop { o := shard.DelOrder(side, id); } else { o := shard.FindOrder(side, id); }
    }

    /** Changes an order that rests; it is gone if nothing is left of it. */
    method Change(o: Resting, o': Order, rank: Option<nat>)
      requires Live(o) && o.data.qty != 0 && o'.side == o.data.side && o'.id == o.data.id
      requires o'.qty != 0 ==> cfg.KeyOf(o.data) in shard.orders
      requires Invariant.Valid(cfg, EnterAny(cfg, LeaveAny(cfg, Value(), o.data), o', rank))
      modifies this`index, bids, bids.levels.Values, bids.known, asks, asks.levels.Values, asks.known, shard
      ensures Grown(bids) && Grown(asks)
      ensures Ready() && Value() == EnterAny(cfg, LeaveAny(cfg, old(Value()), old(o.data)), o', rank)
      ensures bids.nv == Renewed(old(bids.nv), NvMoves(old(o.data), o'), Buy, bids.ndp)
      ensures asks.nv == Renewed(old(asks.nv), NvMoves(old(o.data), o'), Sell, asks.ndp)
    {
      hide Good, Value, Leave, Enter, Invariant.Valid, Find, Mul, Renewed, NvMoves;
      var x := Of(o.data.side);
      NvMovesIs(x, x.nv, o.data, o');
      NvMovesIs(x, Of(x.side.Opposite()).nv, o.data, o');
      if o'.qty != 0 { Reenter(x, o, o', rank); } else { Remove(x, o); }
    }

    /** Broadcasts the change of an order, and passes on what it comes to. */
    method Announce(m: Msg, o: Order, o': Order)
      requires Ready()
      modifies sink
      ensures Ready() && sink.msgs == old(sink.msgs) + [m] && sink.deltas == old(sink.deltas) + Moves(o, o')
    {
      hide Ready;
      sink.Send(m);
      if o.qty != 0 { sink.Pass(Delta(o.side, o.price, -o.qty, -1, {})); }
      if o'.qty != 0 { sink.Pass(Delta(o'.side, o'.price, o'.qty, 1, {})); }
    }

    /** Takes an order out of its side. */
    method Withdraw(x: BookSide, o: Resting)
      requires Sound() && x == Of(o.data.side) && o in x.resting
      requires Filed(cfg, shard.orders, bids.resting + asks.resting - {o})
      requires Invariant.Valid(cfg, Value()) && cfg.KeyOf(o.data) in index
      requires Find(cfg, Value(), cfg.KeyOf(o.data)) == Some(o.data)
      modifies this`index, x, x.levels.Values, x.known`data, o`pxLevel, shard
      ensures Sound() && Value() == Leave(cfg, old(Value()), o.data)
      ensures shard.orders == old(shard.orders) && Filed(cfg, shard.orders, bids.resting + asks.resting)
      ensures x.resting == old(x.resting) - {o} && x.known == old(x.known) && x.levels.Values <= old(x.levels.Values)
      ensures o.pxLevel == null && o !in bids.resting + asks.resting && o in x.known
      ensures o.data == old(o.data) && index == old(index) - {cfg.KeyOf(o.data)}
      ensures x.nv == old(x.nv) - x.Worth(o.data.price, o.data.qty)
    {
      hide Left, Leave, SideOf, Invariant.Valid, Find, Mul, WithoutOrder, Filed, Good, BookSide.Ranked;
      SoundSide(cfg, Value(), x);
      LeavesNothing(cfg, Value(), x.qty, x.model, cfg.KeyOf(o.data));
      LeaveIs(cfg, Value(), x.qty, x.model, o.data);
      LeaveSide(x, o);
      index := index - {cfg.KeyOf(o.data)};
    }

    method LeaveSide(x: BookSide, o: Resting)
      requires Sound() && x == Of(o.data.side) && o in x.resting && x.Ranked()
      requires Filed(cfg, shard.orders, bids.resting + asks.resting - {o})
      requires o.data.price in x.model
      requires var l := Left(cfg.uniform, x.model, o.data); l.qty == 0 ==> l.orders == []
      modifies x, x.levels.Values, x.known`data, o`pxLevel, shard
      ensures Sound()
      ensures shard.orders == old(shard.orders) && Filed(cfg, shard.orders, bids.resting + asks.resting)
      ensures x.model == WithoutOrder(cfg.uniform, old(x.model), old(o.data)) && x.qty == old(x.qty) - o.data.qty
      ensures x.resting == old(x.resting) - {o} && x.known == old(x.known) && x.levels.Values <= old(x.levels.Values)
      ensures o.pxLevel == null && o.data == old(o.data) && o !in bids.resting + asks.resting && o in x.known
      ensures x.nv == old(x.nv) - x.Worth(o.data.price, o.data.qty)
    {
      hide Good, Filed, BookSide.Ranked, BookSide.Worth, Left, WithoutOrder;
      SidesApart(x, Of(x.side.Opposite()));
      ghost var all := bids.resting + asks.resting - {o};
      FiledIs(cfg, shard.orders, all);
      LeaveApart(cfg, x, o, shard, Of(x.side.Opposite()));
      assert bids.resting + asks.resting == all;
      forall r | r in all ensures cfg.KeyOf(r.data) in shard.orders && shard.orders[cfg.KeyOf(r.data)] == r {
        if r in x.known {}
      }
      FiledIs(cfg, shard.orders, all);
    }

    /** Rests an indexed order on its side. */
    method Place(x: BookSide, o: Resting, rank: Option<nat>)
      requires Sound() && x == Of(o.data.side) && o.pxLevel == null
      requires Filed(cfg, shard.orders, bids.resting + asks.resting + {o})
      requires Invariant.Valid(cfg, Value()) && Invariant.Valid(cfg, Enter(cfg, Value(), o.data, rank))
      requires index.Keys + {cfg.KeyOf(o.data)} == shard.orders.Keys
      modifies this`index, x, x.levels.Values, x.known`data, o
      ensures Ready() && Value() == Enter(cfg, old(Value()), old(o.data), rank)
      ensures x.resting == old(x.resting) + {o} && x.known == old(x.known) + {o}
        && (forall l <- x.levels.Values :: l in old(x.levels.Values) || fresh(l))
      ensures o.pxLevel != null && o.data == old(o.data).(rank := o.data.rank)
      ensures x.nv == old(x.nv) + x.Worth(o.data.price, o.data.qty)
    {
      hide *;
      ghost var b, s := Value(), x.side;
      OnSide(x);
      SoundSide(cfg, Value(), x);
      EnterIs(cfg, Value(), x.qty, x.model, o.data, rank);
      index := index[cfg.KeyOf(o.data) := At(o.data.side, o.data.price)];
      EnterSide(x, o, rank);
      NowIs(b, s);
      IsReady();
    }

    method EnterSide(x: BookSide, o: Resting, rank: Option<nat>)
      requires Sound() && x == Of(o.data.side) && o.pxLevel == null && x.Ranked()
      requires Filed(cfg, shard.orders, bids.resting + asks.resting + {o})
      modifies x, x.levels.Values, x.known`data, o
      ensures Sound() && Filed(cfg, shard.orders, bids.resting + asks.resting)
      ensures x.model == WithOrder(cfg.uniform, old(x.model), old(o.data), rank) && x.qty == old(x.qty) + o.data.qty
      ensures x.resting == old(x.resting) + {o} && x.known == old(x.known) + {o}
        && (forall l <- x.levels.Values :: l in old(x.levels.Values) || fresh(l))
      ensures o.pxLevel != null && o.data == old(o.data).(rank := o.data.rank)
      ensures x.nv == old(x.nv) + x.Worth(o.data.price, o.data.qty)
    {
      hide Good, Filed, BookSide.Ranked, BookSide.Worth, WithOrder;
      SidesApart(x, Of(x.side.Opposite()));
      ghost var all := bids.resting + asks.resting + {o};
      FiledIs(cfg, shard.orders, all);
      EnterApart(cfg, x, o, rank, Of(x.side.Opposite()));
      assert bids.resting + asks.resting == all;
      forall r | r in all ensures cfg.KeyOf(r.data) in shard.orders && shard.orders[cfg.KeyOf(r.data)] == r {
        if r in x.known {}
      }
      FiledIs(cfg, shard.orders, all);
    }

    /** The index finds the object of the order that the value of the book has under the key. */
    lemma {:induction false} Found(k: OrderKey)
      requires Ready() && k in index
      ensures k in shard.orders && Find(cfg, Value(), k) == Some(shard.orders[k].data)
      ensures var o := shard.orders[k]; cfg.KeyOf(o.data) == k && o.data.qty > 0
      ensures var o := shard.orders[k]; o in Of(o.data.side).resting && o in Of(o.data.side).known
    {
      hide BookSide.Placed, SideOf, Find, Invariant.Valid;
      var b := Value();
      var i := Invariant.FindFacts(cfg, b, k);
      var v := Find(cfg, b, k).value;
      var x := Of(v.side);
      SideLevels(x.qty, x.model);
      var l := x.levels[v.price];
      x.At(v.price);
      x.QueueOf(l);
      assert l.Holds(l.orders[i]) && l.orders[i].data == l.queue[i] == v;
    }

    /** The order rests on its side and the value of the book has it; the index may have given it up already. */
    ghost predicate Live(o: Resting)
      reads this`index, bids, bids.levels.Values, bids.known, bids.resting
      reads asks, asks.levels.Values, asks.known, asks.resting, shard`orders, o`data
    {
      var b, k := Value(), cfg.KeyOf(o.data);
      && Sound() && o in Of(o.data.side).resting && o in Of(o.data.side).known
      && Filed(cfg, shard.orders, bids.resting + asks.resting - {o})
      && Invariant.Valid(cfg, b) && k in index && Find(cfg, b, k) == Some(o.data)
      && index.Keys == shard.orders.Keys + {k} && (k in shard.orders ==> shard.orders[k] == o)
    }

    /** Takes an order out of its side and the index. */
    method Remove(x: BookSide, o: Resting)
      requires Live(o) && x == Of(o.data.side)
      modifies this`index, x, x.levels.Values, x.known`data, o`pxLevel, shard
      ensures Ready() && Value() == Leave(cfg, old(Value()), o.data) && o.data == old(o.data)
      ensures x.known == old(x.known) && x.levels.Values <= old(x.levels.Values)
      ensures x.nv == old(x.nv) - x.Worth(o.data.price, o.data.qty)
    {
      hide Leave, Value, Invariant.Valid, Find, Mul, Good, Filed;
      Indexes();
      Invariant.LeaveValid(cfg, Value(), cfg.KeyOf(o.data));
      Withdraw(x, o);
      Forget(o);
    }

    /** Takes an order that does not rest out of the index. */
    method Forget(o: Resting)
      requires Sound() && Filed(cfg, shard.orders, bids.resting + asks.resting) && o !in bids.resting + asks.resting
      requires var k := cfg.KeyOf(o.data);
        (k in shard.orders ==> shard.orders[k] == o) && index.Keys == shard.orders.Keys - {k}
      requires Invariant.Valid(cfg, Value())
      modifies shard
      ensures Ready()
    {
      hide Value, Invariant.Valid, Good, Filed;
      FiledWithout(cfg, shard.orders, bids.resting + asks.resting, cfg.KeyOf(o.data), o);
      var _ := shard.DelOrder(o.data.side, o.data.id);
    }

    /** Takes an order out, changes it and rests it again. */
    method Reenter(x: BookSide, o: Resting, o': Order, rank: Option<nat>)
      requires Live(o) && x == Of(o.data.side) && cfg.KeyOf(o.data) in shard.orders
      requires o'.side == o.data.side && o'.id == o.data.id
      requires Invariant.Valid(cfg, Enter(cfg, Leave(cfg, Value(), o.data), o', rank))
      modifies this`index, x, x.levels.Values, x.known`data, o, shard
      ensures Ready() && Value() == Enter(cfg, Leave(cfg, old(Value()), old(o.data)), o', rank)
      ensures x.known == old(x.known) && (forall l <- x.levels.Values :: l in old(x.levels.Values) || fresh(l))
      ensures x.nv == old(x.nv) - x.Worth(old(o.data.price), old(o.data.qty)) + x.Worth(o'.price, o'.qty)
    {
      hide *;
      Lives(o);
      Invariant.LeaveValid(cfg, Value(), cfg.KeyOf(o.data));
      SameKey(o.data, o');
      Withdraw(x, o);
      JoinFiled(o);
      NothingNew(x.known, o);
      Amend(o, o');
      Place(x, o, rank);
    }

    lemma {:induction false} Lives(o: Resting)
      requires Live(o)
      ensures Sound() && o in Of(o.data.side).resting && Filed(cfg, shard.orders, bids.resting + asks.resting - {o})
      ensures var b, k := Value(), cfg.KeyOf(o.data);
        && Invariant.Valid(cfg, b) && b.index == index && k in index && Find(cfg, b, k) == Some(o.data)
        && index.Keys == shard.orders.Keys + {k} && (k in shard.orders ==> shard.orders[k] == o)
    {
    }

    lemma {:induction false} SameKey(o: Order, o': Order)
      requires o.side == o'.side && o.id == o'.id
      ensures cfg.KeyOf(o) == cfg.KeyOf(o')
    {
    }

    lemma {:induction false} JoinFiled(o: Resting)
      requires Filed(cfg, shard.orders, bids.resting + asks.resting)
      requires cfg.KeyOf(o.data) in shard.orders && shard.orders[cfg.KeyOf(o.data)] == o
      ensures Filed(cfg, shard.orders, bids.resting + asks.resting + {o})
    {
    }

    /** Changes an order that does not rest. */
    method Amend(o: Resting, o': Order)
      requires Sound() && o.pxLevel == null && o'.side == o.data.side && o'.id == o.data.id
      requires Filed(cfg, shard.orders, bids.resting + asks.resting + {o})
      modifies o`data
      ensures Sound() && Filed(cfg, shard.orders, bids.resting + asks.resting + {o}) && o.data == o'
    {
      hide PxLevel.Valid, Says, Within;
      bids.Nowhere(o);
      asks.Nowhere(o);
      o.data := o';
    }

    lemma {:induction false} SameIndex()
      requires Ready()
      ensures index.Keys == shard.orders.Keys && shard.cfg == cfg
    {
    }

    lemma {:induction false} Agrees()
      requires Ready()
      ensures Value().index == index && Invariant.Valid(cfg, Value())
    {
    }

    lemma {:induction false} View(x: BookSide)
      requires Ready() && x == Of(x.side)
      ensures x.Valid() && Value().Of(x.side) == SideOf(x.qty, x.model)
    {
    }

    lemma {:induction false} Views()
      ensures Value().bids == SideOf(bids.qty, bids.model) && Value().asks == SideOf(asks.qty, asks.model)
      ensures Ready() ==> bids.Valid() && asks.Valid() && bids.side == Buy && asks.side == Sell && bids.ndp == asks.ndp
    {
    }

    lemma {:induction false} Indexes()
      ensures Value().index == index
    {
    }
  }

  lemma {:induction false} NothingNew<T>(s: set<T>, x: T)
    requires x in s
    ensures s + {x} == s
  {
  }

  /** What the change of a level adds to the notional value of its side, and not of the other. */
  lemma {:induction false} NvMoveIs(x: BookSide, nv: int, p: Price, d: int)
    ensures var us := if d != 0 then NvMove(x.side, p, d) else [];
      && Renewed(nv, us, x.side, x.ndp) == nv + (if d != 0 then x.Worth(p, d) else 0)
      && forall ndp :: Renewed(nv, us, x.side.Opposite(), ndp) == nv
  {
    hide Mul, RevaluedAll;
    AtMostOne(if d != 0 then NvMove(x.side, p, d) else []);
  }

  lemma {:induction false} KeyIs(cfg: Config, o: Order)
    ensures cfg.KeyOf(o) == cfg.Key(o.side, o.id)
  {
  }

  /** A notional value after some updates. */
  function Renewed(nv: int, us: seq<NvUpdate>, s: Side, ndp: nat): int {
    RevaluedAll(Running(nv, 0), us, s, ndp).nv
  }

  /** What the change of an order adds to the notional value of its side, and not of the other. */
  lemma {:induction false} NvMovesIs(x: BookSide, nv: int, o: Order, o': Order)
    requires o.side == o'.side == x.side && o.qty != 0
    ensures Renewed(nv, NvMoves(o, o'), x.side, x.ndp) ==
      nv - x.Worth(o.price, o.qty) + if o'.qty == 0 then 0 else x.Worth(o'.price, o'.qty)
    ensures forall ndp :: Renewed(nv, NvMoves(o, o'), x.side.Opposite(), ndp) == nv
  {
    hide Mul, RevaluedAll;
    var s := x.side;
    var u := if o.price.Some? then [Withdrawn(s, o.price.value, o.qty)] else [];
    var v := if o'.qty != 0 && o'.price.Some? then [Moved(s, o'.price.value, o'.qty)] else [];
    assert NvMoves(o, o') == u + v;
    forall n: Running, t: Side, ndp: nat
      ensures RevaluedAll(n, u + v, t, ndp) == RevaluedAll(RevaluedAll(n, u, t, ndp), v, t, ndp)
    {
      RevaluedConcat(n, u, v, t, ndp);
    }
    AtMostOne(u);
    AtMostOne(v);
  }

  lemma {:induction false} AtMostOne(us: seq<NvUpdate>)
    requires |us| <= 1
    ensures forall n: Running, s: Side, ndp: nat ::
      RevaluedAll(n, us, s, ndp) == if us == [] then n else Revalued(n, us[0], s, ndp)
  {
    hide Revalued;
    assert us != [] ==> us[1..] == [];
  }

  lemma {:induction false} UpdateIs(cfg: Config, b: Book, side: Side, q: int, m: map<Price, Level>,
                                    m': map<Price, Level>, delta: bool, price: Price, qty: int, nOrders: int,
                                    flags: Flags, d: int, dn: int)
    requires b.Of(side) == SideOf(q, m) && PxChanged(m, m', delta, price, qty, nOrders, flags, d, dn)
    ensures UpdatePx(cfg, b, side, delta, price, qty, nOrders, flags) ==
      (b.With(side, SideOf(q + d, m')).(index := b.index - KeysOf(cfg, Gone(m, m', price))), d, dn)
  {
    hide SideOf, UpdateDelta, UpdateAbs, KeysOf;
    SideLevels(q, m);
    NoneGone(cfg);
    assert b.index - {} == b.index;
    if price in m {
      var l := Operations.Updated(m[price], delta, qty, nOrders, flags);
      UpdateQueue(m[price], delta, qty, nOrders, flags);
      SidePut(q, m, price, l, q + d);
      SideDrop(q, m, price, q + d);
    } else {
      SidePut(q, m, price, Level(qty, nOrders, flags, []), q + d);
    }
  }

  lemma {:induction false} UsesUp(cfg: Config, b: Book, s: Side, px: int, l: Level, open: int, executed: int,
                                  fill: FillFn)
    requires Invariant.Valid(cfg, b) && b.LevelAt(s, Some(px)) == Some(l)
    ensures UsedUp(l, px, open, executed, fill)
  {
    hide Invariant.Valid, Invariant.LevelOk, MatchOrders, Traded, Filled, MatchInvariant.Prefix;
    var m := MatchOrders(l.orders, px, open, executed, fill);
    Invariant.LevelIsOk(cfg, b, s, Some(px));
    MatchInvariant.MatchOrdersPrefix(l.orders, px, open, executed, fill);
    MatchInvariant.MatchOrdersConserves(l.orders, px, open, executed, fill);
    MatchInvariant.AfterOk(cfg, b, b.(index := b.index - Filled(cfg, m.fills)), s, Some(px), l, m);
  }

  lemma {:induction false} MatchMeans(cfg: Config, s: Side, q: int, m: map<Price, Level>, nv: int, q': int,
                                      m': map<Price, Level>, nv': int, ndp: nat, px: int, open: int, executed: int,
                                      fill: FillFn, leaves: int, cum: int, aborted: bool,
                                      index: map<OrderKey, Resting>, index': map<OrderKey, Resting>, msgs: seq<Msg>,
                                      msgs': seq<Msg>)
    requires Some(px) in m && LevelMatched(m, m', px, open, executed, fill, leaves, cum, aborted)
    requires TradeCounted(q, nv, q', nv', px, m[Some(px)], open, executed, fill, ndp)
    requires MatchEmits(cfg, s, m[Some(px)].orders, px, open, executed, fill, index, index', msgs, msgs')
    ensures q' == q - Traded(MatchOrders(m[Some(px)].orders, px, open, executed, fill).fills)
    ensures index' == index - Filled(cfg, MatchOrders(m[Some(px)].orders, px, open, executed, fill).fills)
    ensures forall p: Price | p != Some(px) :: p in m' <==> p in m
  {
    hide MatchOrders, Traded, Filled, MsgsOf, Mul;
  }

  lemma {:induction false} MatchLevelIs(cfg: Config, b: Book, s: Side, q: int, m: map<Price, Level>, q': int,
                                        m': map<Price, Level>, px: int, open: int, executed: int, fill: FillFn,
                                        leaves: int, cum: int, aborted: bool)
    requires b.Of(s) == SideOf(q, m) && Some(px) in m
    requires LevelMatched(m, m', px, open, executed, fill, leaves, cum, aborted)
    requires q' == q - Traded(MatchOrders(m[Some(px)].orders, px, open, executed, fill).fills)
    ensures var r := MatchLevel(cfg, b, s, px, open, executed, fill);
      && r.book == b.With(s, SideOf(q', m')).(index := b.index - Filled(cfg, r.fills))
      && r.fills == MatchOrders(m[Some(px)].orders, px, open, executed, fill).fills
      && leaves == r.leaves && cum == executed + Traded(r.fills) && aborted == r.aborted
  {
    hide SideOf, MatchOrders, Traded, Filled;
    SideLevels(q, m);
    var l := m[Some(px)];
    var r := MatchOrders(l.orders, px, open, executed, fill);
    var l' := Level(l.qty - Traded(r.fills), l.nOrders - (|l.orders| - |r.rest|), l.flags, r.rest);
    SidePut(q, m, Some(px), l', q');
    SideDrop(q, m, Some(px), q');
  }

  lemma {:induction false} RenewedConcat(nv: int, us: seq<NvUpdate>, vs: seq<NvUpdate>, s: Side, ndp: nat)
    ensures Renewed(nv, us + vs, s, ndp) == Renewed(Renewed(nv, us, s, ndp), vs, s, ndp)
  {
    RevaluedConcat(Running(nv, 0), us, vs, s, ndp);
    SameNv(RevaluedAll(Running(nv, 0), us, s, ndp), Running(Renewed(nv, us, s, ndp), 0), vs, s, ndp);
  }

  /** The value does not depend on the count. */
  lemma {:induction false} SameNv(m: Running, n: Running, us: seq<NvUpdate>, s: Side, ndp: nat)
    requires m.nv == n.nv
    ensures RevaluedAll(m, us, s, ndp).nv == RevaluedAll(n, us, s, ndp).nv
    decreases |us|
  {
    if us != [] { SameNv(Revalued(m, us[0], s, ndp), Revalued(n, us[0], s, ndp), us[1..], s, ndp); }
  }

  /** What is left of a match when the next level has been visited. */
  lemma {:induction false} NextLevel(cfg: Config, m: Match, s: Side, ps: seq<int>, i: nat, limit: Price,
                                     executed: int, fill: FillFn)
    requires i < |ps| && s.Within(limit, ps[i])
    ensures var m2 := MatchLevel(cfg, m.book, s, ps[i], m.leaves, executed + Traded(m.fills), fill);
      var t := Then(m, m2);
      Then(m, MatchLadder(cfg, m.book, s, ps[i..], limit, m.leaves, executed + Traded(m.fills), fill)) ==
        if m2.aborted || m2.leaves == 0 then t
        else Then(t, MatchLadder(cfg, t.book, s, ps[i + 1..], limit, t.leaves,
          executed + Traded(m.fills) + Traded(m2.fills), fill))
  {
    hide MatchLevel, MatchLadder, Traded;
    var cum := executed + Traded(m.fills);
    var m2 := MatchLevel(cfg, m.book, s, ps[i], m.leaves, cum, fill);
    assert ps[i..][1..] == ps[i + 1..];
    LadderUnfold(cfg, m.book, s, ps[i..], limit, m.leaves, cum, fill);
    ThenThen(m, m2, MatchLadder(cfg, m2.book, s, ps[i + 1..], limit, m2.leaves, cum + Traded(m2.fills), fill));
  }

  lemma {:induction false} ThenIs(m: Match, m2: Match)
    ensures var t := Then(m, m2);
      t.book == m2.book && t.leaves == m2.leaves && t.aborted == m2.aborted
        && Traded(t.fills) == Traded(m.fills) + Traded(m2.fills)
  {
    TradedConcat(m.fills, m2.fills);
  }

  lemma {:induction false} ThenThen(a: Match, b: Match, c: Match)
    ensures Then(a, Then(b, c)) == Then(Then(a, b), c)
  {
    assert a.fills + (b.fills + c.fills) == a.fills + b.fills + c.fills;
    assert a.deltas + (b.deltas + c.deltas) == a.deltas + b.deltas + c.deltas;
    assert a.nvs + (b.nvs + c.nvs) == a.nvs + b.nvs + c.nvs;
  }

  /** A match ends where there are no further levels within the limit. */
  lemma {:induction false} NoMore(cfg: Config, m: Match, s: Side, ps: seq<int>, limit: Price, cum: int, fill: FillFn)
    requires (ps == [] || !s.Within(limit, ps[0])) && !m.aborted
    ensures Then(m, MatchLadder(cfg, m.book, s, ps, limit, m.leaves, cum, fill)) == m
  {
    assert m.fills + [] == m.fills && m.deltas + [] == m.deltas && m.nvs + [] == m.nvs;
  }

  /** A match moves the notional value of the side it trades with only. */
  lemma {:induction false} OnlyOneSide(cfg: Config, b: Book, s: Side, ps: seq<int>, limit: Price, qty: int, cum: int,
                                       fill: FillFn)
    ensures forall nv: int, ndp: nat :: Renewed(nv, MatchLadder(cfg, b, s, ps, limit, qty, cum, fill).nvs,
      s.Opposite(), ndp) == nv
    decreases |ps|
  {
    hide RevaluedAll, Matched, MatchOrders, Traded;
    NoUpdates();
    if ps != [] && s.Within(limit, ps[0]) {
      var m := MatchLevel(cfg, b, s, ps[0], qty, cum, fill);
      AtMostOne(m.nvs);
      OnlyOneSide(cfg, m.book, s, ps[1..], limit, m.leaves, cum + Traded(m.fills), fill);
      var r := MatchLadder(cfg, m.book, s, ps[1..], limit, m.leaves, cum + Traded(m.fills), fill);
      forall nv: int, ndp: nat ensures Renewed(nv, m.nvs + r.nvs, s.Opposite(), ndp) == nv {
        RenewedConcat(nv, m.nvs, r.nvs, s.Opposite(), ndp);
      }
    }
  }

  lemma {:induction false} ResetIs(b: Book, bidNdp: nat, askNdp: nat)
    ensures var e := Books.Reset(b);
      && e.msgs == [ResetOB]
      && e.deltas == ResetDeltas(Buy, b.bids, Ladder(Sell, b.bids.levels.Keys))
        + ResetDeltas(Sell, b.asks, Ladder(Sell, b.asks.levels.Keys))
      && forall nv: int :: Renewed(nv, e.nvs, Buy, bidNdp) == 0 && Renewed(nv, e.nvs, Sell, askNdp) == 0
  {
    hide RevaluedAll, ResetDeltas;
    var us, vs := [Cleared(Buy)], [Cleared(Sell)];
    AtMostOne(us);
    AtMostOne(vs);
    assert Books.Reset(b).nvs == us + vs;
    forall nv: int ensures Renewed(nv, us + vs, Buy, bidNdp) == 0 && Renewed(nv, us + vs, Sell, askNdp) == 0 {
      RenewedConcat(nv, us, vs, Buy, bidNdp);
      RenewedConcat(nv, us, vs, Sell, askNdp);
    }
  }

  /** When the orders of all levels are gone from the index, nothing is left in it. */
  lemma {:induction false} NothingIndexed(cfg: Config, b: Book, m: map<Price, Level>, n: map<Price, Level>,
                                          was: map<OrderKey, Resting>,
                                          index1: map<OrderKey, Resting>, index2: map<OrderKey, Resting>)
    requires Invariant.Valid(cfg, b) && b.index.Keys == was.Keys
    requires b.bids == SideOf(b.bids.qty, m) && b.asks == SideOf(b.asks.qty, n)
    requires AllDropped(cfg, was, index1, m, {}) && AllDropped(cfg, index1, index2, n, {})
    ensures index2 == map[]
  {
    hide SideOf, Invariant.Valid;
    SideLevels(b.bids.qty, m);
    SideLevels(b.asks.qty, n);
    forall k | k in was ensures k !in index2 {
      var i := Invariant.FindFacts(cfg, b, k);
      var o := Find(cfg, b, k).value;
      var l := if o.side == Buy then m[o.price] else n[o.price];
      assert l.orders[i] == o;
    }
    assert index2.Keys == {};
  }

  lemma {:induction false} NoUpdates()
    ensures forall nv: int, s: Side, ndp: nat :: Renewed(nv, [], s, ndp) == nv
  {
  }

  lemma {:induction false} ReduceIs(cfg: Config, b: Book, id: OrderId, side: Side, reduceQty: int)
    requires Invariant.Valid(cfg, b)
    ensures var k, e := cfg.Key(side, id), Reduce(cfg, b, id, side, reduceQty);
      if k !in b.index then e == Effect(b, [], [], [])
      else
        && Find(cfg, b, k).Some? && Invariant.Valid(cfg, e.book)
        && var o := Find(cfg, b, k).value;
           var q := if o.qty > reduceQty then o.qty - reduceQty else 0;
           e == Effect(EnterAny(cfg, LeaveAny(cfg, b, o), o.(qty := q), Some(o.rank)),
             [ModifyOrder(id, o.side, None, None, q, {})],
                       Moves(o, o.(qty := q)), NvMoves(o, o.(qty := q)))
  {
    hide EnterAny, LeaveAny, Moves, NvMoves, Invariant.Valid;
    if cfg.Key(side, id) in b.index { var i := Invariant.FindFacts(cfg, b, cfg.Key(side, id)); }
    Operations.ReduceValid(cfg, b, id, side, reduceQty);
  }

  lemma {:induction false} CancelIs(cfg: Config, b: Book, id: OrderId, side: Side)
    requires Invariant.Valid(cfg, b)
    ensures var k, e := cfg.Key(side, id), Cancel(cfg, b, id, side);
      if k !in b.index then e == Effect(b, [], [], [])
      else
        && Find(cfg, b, k).Some? && Invariant.Valid(cfg, e.book)
        && var o := Find(cfg, b, k).value;
           e == Effect(EnterAny(cfg, LeaveAny(cfg, b, o), o.(qty := 0), None), [CancelOrder(id, o.side)],
                       Moves(o, o.(qty := 0)), NvMoves(o, o.(qty := 0)))
  {
    hide LeaveAny, Moves, NvMoves, Invariant.Valid;
    if cfg.Key(side, id) in b.index { var i := Invariant.FindFacts(cfg, b, cfg.Key(side, id)); }
    Operations.CancelValid(cfg, b, id, side);
  }

  lemma {:induction false} AddIs(cfg: Config, b: Book, id: OrderId, side: Side, rank: Option<nat>, price: Price,
                                 qty: int, flags: Flags)
    requires Invariant.Valid(cfg, b) && Operations.Allowed(cfg, b, Operations.OpAdd(id, side, rank, price, qty, flags))
    ensures var k, e := cfg.Key(side, id), Add(cfg, b, id, side, rank, price, qty, flags);
      if k in b.index then
        e == Modify(cfg, b, id, side, rank, price, qty, flags) && Operations.MayModify(cfg, b, k, rank, price, qty)
      else
        var o := Order(id, side, if rank.Some? then rank.value else 0, price, qty, flags);
        && e == Effect(Enter(cfg, b, o, rank), [AddOrder(id, side, rank, price, qty, flags)],
          [Delta(side, price, qty, 1, flags)],
                       NvMove(side, price, qty))
        && Invariant.Valid(cfg, e.book)
  {
    hide Modify, Enter, Invariant.Valid;
    if cfg.Key(side, id) in b.index { var i := Invariant.FindFacts(cfg, b, cfg.Key(side, id)); }
    Operations.AddValid(cfg, b, id, side, rank, price, qty, flags);
  }

  lemma {:induction false} ModifyIs(cfg: Config, b: Book, id: OrderId, side: Side, rank: Option<nat>, price: Price,
                                    qty: int, flags: Flags)
    requires Invariant.Valid(cfg, b) && Operations.MayModify(cfg, b, cfg.Key(side, id), rank, price, qty)
    ensures var k, e := cfg.Key(side, id), Modify(cfg, b, id, side, rank, price, qty, flags);
      if k !in b.index then e == Effect(b, [], [], [])
      else
        && Find(cfg, b, k).Some? && Invariant.Valid(cfg, e.book)
        && var o := Find(cfg, b, k).value;
           e == Effect(EnterAny(cfg, LeaveAny(cfg, b, o), Amended(o, price, qty, flags), rank),
                       [ModifyOrder(id, side, rank, price, qty, flags)],
                       Moves(o, Amended(o, price, qty, flags)), NvMoves(o, Amended(o, price, qty, flags)))
  {
    hide EnterAny, LeaveAny, Moves, NvMoves, Invariant.Valid;
    if cfg.Key(side, id) in b.index { var i := Invariant.FindFacts(cfg, b, cfg.Key(side, id)); }
    Operations.ModifyValid(cfg, b, id, side, rank, price, qty, flags);
  }

  /** An order that does not rest may go from the index. */
  lemma {:induction false} FiledWithout(cfg: Config, index: map<OrderKey, Resting>, orders: set<Resting>, k: OrderKey,
                                        o: Resting)
    requires Filed(cfg, index, orders) && o !in orders && (k in index ==> index[k] == o)
    ensures Filed(cfg, index - {k}, orders)
  {
  }
}
