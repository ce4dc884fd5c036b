/** The public operations of a book, when exactly each keeps the book's invariant, and runs. */
module Operations {
  import opened Types
  import opened Levels
  import opened Books
  import opened Invariant
  import opened Matching
  import MatchInvariant

  datatype Op =
    | OpAdd(id: OrderId, side: Side, rank: Option<nat>, price: Price, qty: int, flags: Flags)
    | OpModify(id: OrderId, side: Side, rank: Option<nat>, price: Price, qty: int, flags: Flags)
    | OpReduce(id: OrderId, side: Side, reduceQty: int)
    | OpCancel(id: OrderId, side: Side)
    | OpMatch(taker: Side, limit: Price, qty: int, fill: FillFn)
    | OpReset
    | OpPxLevel(side: Side, delta: bool, price: Price, qty: int, nOrders: int, flags: Flags)

  ghost function Step(cfg: Config, b: Book, op: Op): Effect {
    match op
    case OpAdd(id, side, rank, price, qty, flags) => Add(cfg, b, id, side, rank, price, qty, flags)
    case OpModify(id, side, rank, price, qty, flags) => Modify(cfg, b, id, side, rank, price, qty, flags)
    case OpReduce(id, side, reduceQty) => Reduce(cfg, b, id, side, reduceQty)
    case OpCancel(id, side) => Cancel(cfg, b, id, side)
    case OpMatch(taker, limit, qty, fill) => MatchEffect(cfg, b, taker, limit, qty, fill)
    case OpReset => Reset(b)
    case OpPxLevel(side, delta, price, qty, nOrders, flags) =>
      SetPxLevel(cfg, b, side, delta, price, qty, nOrders, flags)
  }

  // ---- what the caller must respect

  /** A modification may name an unknown order, or delete the order, or else must leave it with a
      positive quantity at a price and rank where it fits. */
  ghost predicate MayModify(cfg: Config, b: Book, k: OrderKey, rank: Option<nat>, price: Price, qty: int) {
    k in b.index && qty != 0 ==>
      && qty > 0
      && Find(cfg, b, k).Some?
      && var o := Find(cfg, b, k).value;
         Fits(cfg, b, o.side, if price.Some? then price else o.price, rank, Some(k))
  }

  /** The level at a price after an aggregate update. */
  function Updated(l: Level, delta: bool, qty: int, nOrders: int, flags: Flags): Level {
    if delta then UpdateDelta(l, qty, nOrders, flags) else UpdateAbs(l, qty, nOrders, flags)
  }

  /** An aggregate update must not touch a level of orders, unless it removes it or changes nothing. */
  ghost predicate MayUpdate(b: Book, side: Side, delta: bool, price: Price, qty: int, nOrders: int, flags: Flags) {
    var l := b.LevelAt(side, price);
    l.Some? && l.value.orders != [] ==>
      var l' := Updated(l.value, delta, qty, nOrders, flags);
      l'.qty == 0 || l' == l.value
  }

  ghost predicate Allowed(cfg: Config, b: Book, op: Op) {
    match op
    case OpAdd(id, side, rank, price, qty, flags) =>
      if cfg.Key(side, id) in b.index then MayModify(cfg, b, cfg.Key(side, id), rank, price, qty)
      else qty > 0 && Fits(cfg, b, side, price, rank, None)
    case OpModify(id, side, rank, price, qty, flags) => MayModify(cfg, b, cfg.Key(side, id), rank, price, qty)
    case OpPxLevel(side, delta, price, qty, nOrders, flags) =>
      MayUpdate(b, side, delta, price, qty, nOrders, flags)
    case _ => true
  }

  // ---- operation by operation

  lemma {:induction false} FitsElsewhere(cfg: Config, l: Level, rank: Option<nat>, k: OrderKey)
    requires forall i | 0 <= i < |l.orders| :: cfg.KeyOf(l.orders[i]) != k
    ensures FitsLevel(cfg, Some(l), rank, None) <==> FitsLevel(cfg, Some(l), rank, Some(k))
  {
  }

  lemma {:induction false} FitsSameLevel(cfg: Config, b: Book, s: Side, p: Price, l: Level, i: nat, rank: Option<nat>)
    requires LevelOk(cfg, b, s, p, l) && i < |l.orders|
    ensures FitsLevel(cfg, Remaining(cfg, l, l.orders[i]), rank, None)
       <==> FitsLevel(cfg, Some(l), rank, Some(cfg.KeyOf(l.orders[i])))
  {
    var b0 := b.With(s, b.Of(s).Put(p, Some(l)));
    forall j | 0 <= j < |l.orders| ensures OrderOk(cfg, b0, s, p, l.orders[j]) {
      assert OrderOk(cfg, b, s, p, l.orders[j]);
    }
    LeaveLevelOk(cfg, b0, b0.(index := b0.index - {cfg.KeyOf(l.orders[i])}), s, p, i);
    if !cfg.uniform && rank.Some? {
      FitsRemaining(cfg, l, i, rank);
    }
    if |l.orders| == 1 {
      assert i == 0;
    }
  }

  /** Room for an order once it has left is room, not counting the order itself, before. */
  lemma {:induction false} FitsAfterLeave(cfg: Config, b: Book, k: OrderKey, p: Price, rank: Option<nat>)
    requires Valid(cfg, b) && k in b.index && Find(cfg, b, k).Some?
    ensures var o := Find(cfg, b, k).value;
      Fits(cfg, Leave(cfg, b, o), o.side, p, rank, None) <==> Fits(cfg, b, o.side, p, rank, Some(k))
  {
    var o := Find(cfg, b, k).value;
    var i := FindFacts(cfg, b, k);
    LeaveValid(cfg, b, k);
    var s, l, l' := o.side, b.LevelAt(o.side, p), Leave(cfg, b, o).LevelAt(o.side, p);
    assert l.Some? ==> LevelOk(cfg, b, s, p, l.value);
    if p == o.price {
      assert l' == Remaining(cfg, l.value, o);
      FitsSameLevel(cfg, b, s, p, l.value, i, rank);
    } else {
      assert l' == l;
      if l.Some? {
        forall j | 0 <= j < |l.value.orders| ensures cfg.KeyOf(l.value.orders[j]) != k {
          assert OrderOk(cfg, b, s, p, l.value.orders[j]);
        }
        FitsElsewhere(cfg, l.value, rank, k);
      }
    }
  }

  lemma {:induction false} FitsRemaining(cfg: Config, l: Level, i: nat, rank: Option<nat>)
    requires i < |l.orders| && RanksIncrease(l.orders) && DistinctIds(l.orders)
    requires forall j | 0 <= j < |l.orders| :: l.orders[j].side == l.orders[i].side
    requires !cfg.uniform && rank.Some?
    ensures var os := Delete(false, l.orders, l.orders[i].rank);
      (forall j | 0 <= j < |os| :: os[j].rank != rank.value) <==>
      (forall j | 0 <= j < |l.orders| ::
        Some(cfg.KeyOf(l.orders[j])) == Some(cfg.KeyOf(l.orders[i])) || l.orders[j].rank != rank.value)
  {
    var all := l.orders;
    DeleteAt(false, all, i);
    var os := Delete(false, all, all[i].rank);
    forall j | 0 <= j < |all| && j != i ensures cfg.KeyOf(all[j]) != cfg.KeyOf(all[i]) {
      assert all[j].id != all[i].id;
    }
    hide Delete, RanksIncrease, DistinctIds, SameOrders;
    assert forall j | 0 <= j < i :: os[j] == all[j] by {
      forall j | 0 <= j < i ensures os[j] == all[j] { assert os[..i][j] == all[..i][j]; }
    }
    assert forall j | i <= j < |os| :: os[j] == all[j + 1] by {
      forall j | i <= j < |os| ensures os[j] == all[j + 1] { assert os[i..][j - i] == all[i + 1..][j - i]; }
    }
    forall j | 0 <= j < |all| && j != i && all[j].rank == rank.value ensures exists j' ::
      0 <= j' < |os| && os[j'].rank == rank.value {
      assert all[j] == os[if j < i then j else j - 1];
    }
  }

  /** An order that leaves and enters again, as modifications do. */
  lemma {:induction false} ReenterValid(cfg: Config, b: Book, k: OrderKey, o': Order, rank: Option<nat>)
    requires Valid(cfg, b) && k in b.index && Find(cfg, b, k).Some?
    requires o'.side == Find(cfg, b, k).value.side && cfg.KeyOf(o') == k && o'.qty != 0
    ensures Valid(cfg, Enter(cfg, Leave(cfg, b, Find(cfg, b, k).value), o', rank))
       <==> o'.qty > 0 && Fits(cfg, b, o'.side, o'.price, rank, Some(k))
  {
    LeaveValid(cfg, b, k);
    FitsAfterLeave(cfg, b, k, o'.price, rank);
    EnterValid(cfg, Leave(cfg, b, Find(cfg, b, k).value), o', rank);
  }

  lemma {:induction false} ModifyValid(cfg: Config, b: Book, id: OrderId, side: Side, rank: Option<nat>, price: Price,
                                       qty: int, flags: Flags)
    requires Valid(cfg, b)
    ensures Valid(cfg, Modify(cfg, b, id, side, rank, price, qty, flags).book)
       <==> MayModify(cfg, b, cfg.Key(side, id), rank, price, qty)
  {
    var k := cfg.Key(side, id);
    if k in b.index {
      LeaveValid(cfg, b, k);
      var i := FindFacts(cfg, b, k);
      if qty != 0 {
        ReenterValid(cfg, b, k, Amended(Find(cfg, b, k).value, price, qty, flags), rank);
      }
    }
  }

  lemma {:induction false} AddValid(cfg: Config, b: Book, id: OrderId, side: Side, rank: Option<nat>, price: Price,
                                    qty: int, flags: Flags)
    requires Valid(cfg, b)
    ensures Valid(cfg, Add(cfg, b, id, side, rank, price, qty, flags).book)
       <==> Allowed(cfg, b, OpAdd(id, side, rank, price, qty, flags))
  {
    var k := cfg.Key(side, id);
    if k in b.index {
      LeaveValid(cfg, b, k);
      ModifyValid(cfg, b, id, side, rank, price, qty, flags);
    } else {
      var o := Order(id, side, if rank.Some? then rank.value else 0, price, qty, flags);
      if qty == 0 {
        var b' := Add(cfg, b, id, side, rank, price, qty, flags).book;
        assert k in b'.index && !Indexed(cfg, b', k);
      } else {
        EnterValid(cfg, b, o, rank);
      }
    }
  }

  /** A reduction is always allowed: the order goes back to its own rank, or goes. */
  lemma {:induction false} ReduceValid(cfg: Config, b: Book, id: OrderId, side: Side, reduceQty: int)
    requires Valid(cfg, b)
    ensures Valid(cfg, Reduce(cfg, b, id, side, reduceQty).book)
  {
    var k := cfg.Key(side, id);
    if k in b.index {
      LeaveValid(cfg, b, k);
      var i := FindFacts(cfg, b, k);
      var o := Find(cfg, b, k).value;
      var l := b.LevelAt(o.side, o.price).value;
      assert LevelOk(cfg, b, o.side, o.price, l);
      forall j | 0 <= j < |l.orders| && j != i ensures l.orders[j].rank != o.rank {
        assert j < i ==> l.orders[j].rank < l.orders[i].rank;
        assert i < j ==> l.orders[i].rank < l.orders[j].rank;
      }
      assert Fits(cfg, b, o.side, o.price, Some(o.rank), Some(k));
      if o.qty > reduceQty {
        ReenterValid(cfg, b, k, o.(qty := o.qty - reduceQty), Some(o.rank));
      }
    }
  }

  lemma {:induction false} CancelValid(cfg: Config, b: Book, id: OrderId, side: Side)
    requires Valid(cfg, b)
    ensures Valid(cfg, Cancel(cfg, b, id, side).book)
  {
    var k := cfg.Key(side, id);
    if k in b.index {
      LeaveValid(cfg, b, k);
    }
  }

  lemma {:induction false} ResetValid(cfg: Config, b: Book)
    requires Valid(cfg, b)
    ensures Reset(b).book == EMPTY_BOOK && Valid(cfg, EMPTY_BOOK)
  {
    forall k | k in b.index ensures b.index[k].At? {
      assert Indexed(cfg, b, k);
    }
    assert Invariant.Qtys(EMPTY_SIDE.levels) == map[];
  }

  lemma {:induction false} PxLevelValid(cfg: Config, b: Book, side: Side, delta: bool, price: Price, qty: int,
                                        nOrders: int, flags: Flags)
    requires Valid(cfg, b)
    ensures Valid(cfg, UpdatePx(cfg, b, side, delta, price, qty, nOrders, flags).0)
       <==> MayUpdate(b, side, delta, price, qty, nOrders, flags)
  {
    var b' := UpdatePx(cfg, b, side, delta, price, qty, nOrders, flags).0;
    var l := b.LevelAt(side, price);
    if l.Some? {
      assert LevelOk(cfg, b, side, price, l.value);
    }
    if l.Some? || qty != 0 {
      var u := if l.Some? then Updated(l.value, delta, qty, nOrders, flags) else Level(qty, nOrders, flags, []);
      var l' := if u.qty == 0 then None else Some(u);
      PxLevelShape(cfg, b, side, delta, price, qty, nOrders, flags);
      forall k | k in b'.index && b'.index[k] == At(side, price) ensures l'.Some? && Holds(cfg, l'.value.orders, k) {
        var i := FindFacts(cfg, b, k);
      }
      ReplacedValid(cfg, b, b', side, price, l');
      if l'.Some? {
        UpdatedOk(cfg, b, b', side, price, l, l'.value);
      }
    }
  }

  lemma {:induction false} PxLevelShape(cfg: Config, b: Book, side: Side, delta: bool, price: Price, qty: int,
                                        nOrders: int, flags: Flags)
    requires b.LevelAt(side, price).Some? ==> LevelOk(cfg, b, side, price, b.LevelAt(side, price).value)
    requires b.LevelAt(side, price).Some? || qty != 0
    ensures var l := b.LevelAt(side, price); var b' := UpdatePx(cfg, b, side, delta, price, qty, nOrders, flags).0;
      var u := if l.Some? then Updated(l.value, delta, qty, nOrders, flags) else Level(qty, nOrders, flags, []);
      && Replaced(cfg, b, b', side, price, if u.qty == 0 then None else Some(u))
      && (u.qty != 0 ==> b'.index == b.index)
  {
    var l := b.LevelAt(side, price);
    if l.Some? {
      forall k | k in KeysOf(cfg, l.value.orders) ensures k in b.index && b.index[k] == At(side, price) {
        var i :| 0 <= i < |l.value.orders| && cfg.KeyOf(l.value.orders[i]) == k;
        assert OrderOk(cfg, b, side, price, l.value.orders[i]);
      }
    }
  }

  /** An updated level that stays is sound if and only if it holds no orders or is unchanged. */
  lemma {:induction false} UpdatedOk(cfg: Config, b: Book, b': Book, s: Side, p: Price, l: Option<Level>, l': Level)
    requires b'.index == b.index && l'.qty != 0
    requires l.Some? ==> LevelOk(cfg, b, s, p, l.value)
    requires l'.orders == if l.Some? then l.value.orders else []
    ensures LevelOk(cfg, b', s, p, l') <==> l'.orders == [] || Some(l') == l
  {
    if l.Some? {
      forall i | 0 <= i < |l'.orders| ensures OrderOk(cfg, b', s, p, l'.orders[i]) {
        assert OrderOk(cfg, b, s, p, l.value.orders[i]);
      }
    }
  }

  // ---- all operations, and runs

  /** The invariant of a book survives an operation if and only if the operation is allowed. */
  lemma {:induction false} StepValid(cfg: Config, b: Book, op: Op)
    requires Valid(cfg, b)
    ensures Valid(cfg, Step(cfg, b, op).book) <==> Allowed(cfg, b, op)
  {
    match op
    case OpAdd(id, side, rank, price, qty, flags) => AddValid(cfg, b, id, side, rank, price, qty, flags);
    case OpModify(id, side, rank, price, qty, flags) => ModifyValid(cfg, b, id, side, rank, price, qty, flags);
    case OpReduce(id, side, reduceQty) => ReduceValid(cfg, b, id, side, reduceQty);
    case OpCancel(id, side) => CancelValid(cfg, b, id, side);
    case OpMatch(taker, limit, qty, fill) => MatchInvariant.MatchValid(cfg, b, taker, limit, qty, 0, fill);
    case OpReset => ResetValid(cfg, b);
    case OpPxLevel(side, delta, price, qty, nOrders, flags) =>
      PxLevelValid(cfg, b, side, delta, price, qty, nOrders, flags);
  }

  ghost function Run(cfg: Config, b: Book, ops: seq<Op>): Book
    decreases |ops|
  {
    if ops == [] then b else Run(cfg, Step(cfg, b, ops[0]).book, ops[1..])
  }

  ghost predicate AllAllowed(cfg: Config, b: Book, ops: seq<Op>)
    decreases |ops|
  {
    ops == [] || (Allowed(cfg, b, ops[0]) && AllAllowed(cfg, Step(cfg, b, ops[0]).book, ops[1..]))
  }

  /** Every run of allowed operations from the empty book ends in a valid book. */
  lemma {:induction false} RunValid(cfg: Config, b: Book, ops: seq<Op>)
    requires Valid(cfg, b) && AllAllowed(cfg, b, ops)
    ensures Valid(cfg, Run(cfg, b, ops))
    decreases |ops|
  {
    if ops != [] {
      StepValid(cfg, b, ops[0]);
      RunValid(cfg, Step(cfg, b, ops[0]).book, ops[1..]);
    }
  }

  lemma {:induction false} RunFromEmpty(cfg: Config, ops: seq<Op>)
    requires AllAllowed(cfg, EMPTY_BOOK, ops)
    ensures Valid(cfg, Run(cfg, EMPTY_BOOK, ops))
  {
    EmptyValid(cfg);
    RunValid(cfg, EMPTY_BOOK, ops);
  }

  lemma {:induction false} EmptyValid(cfg: Config)
    ensures Valid(cfg, EMPTY_BOOK)
  {
    assert Invariant.Qtys(EMPTY_SIDE.levels) == map[];
  }
}
