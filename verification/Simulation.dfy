/** Replication of reductions. A reduction is broadcast without rank, price or flags, so the replica sends
    the order to the back of its queue; the replica still holds the same orders at the same prices and
    quantities for as long as its own ranks stay distinct. */
module Simulation {
  import opened Types
  import opened Levels
  import opened Ladders
  import opened Books
  import opened Invariant
  import opened Matching
  import opened Operations
  import opened Replica
  import MatchInvariant
  import Priority

  // ---- where orders are found after a change

  /** The same order, wherever it queues. */
  ghost predicate SameOrder(a: Option<Order>, b: Option<Order>) {
    a.Some? && b.Some? && a.value.(rank := b.value.rank, flags := b.value.flags) == b.value
  }

  /** The same order, flags included, but for its rank. */
  ghost predicate Alike(a: Option<Order>, b: Option<Order>) {
    a.Some? && b.Some? && SameButRank(a.value, b.value)
  }

  lemma {:induction false} FindAt(cfg: Config, b: Book, s: Side, p: Price, i: nat)
    requires Valid(cfg, b) && b.LevelAt(s, p).Some? && i < |b.LevelAt(s, p).value.orders|
    ensures var o := b.LevelAt(s, p).value.orders[i];
      cfg.KeyOf(o) in b.index && b.index[cfg.KeyOf(o)] == At(s, p) && Find(cfg, b, cfg.KeyOf(o)) == Some(o)
  {
    LevelIsOk(cfg, b, s, p);
    var os := b.LevelAt(s, p).value.orders;
    assert OrderOk(cfg, b, s, p, os[i]);
    var j := FindFacts(cfg, b, cfg.KeyOf(os[i]));
  }

  /** Orders of other levels are found as before. */
  lemma {:induction false} FoundElsewhere(cfg: Config, b: Book, b': Book, s: Side, p: Price, l: Option<Level>,
                                          k: OrderKey)
    requires Valid(cfg, b) && Replaced(cfg, b, b', s, p, l) && k in b.index && b.index[k] != At(s, p)
    ensures k in b'.index && b'.index[k] == b.index[k] && Find(cfg, b', k) == Find(cfg, b, k)
  {
    var i := FindFacts(cfg, b, k);
    hide Valid;
    var o := Find(cfg, b, k).value;
    assert b'.LevelAt(o.side, o.price) == b.LevelAt(o.side, o.price) by {
      if o.side != s { assert o.side == s.Opposite(); }
    }
  }

  lemma {:induction false} LeaveFinds(cfg: Config, b: Book, k: OrderKey, k': OrderKey)
    requires Valid(cfg, b) && k in b.index && k' in b.index && k' != k && Find(cfg, b, k).Some?
    ensures var b' := Leave(cfg, b, Find(cfg, b, k).value);
      Alike(Find(cfg, b, k'), Find(cfg, b', k')) && SameOrder(Find(cfg, b, k'), Find(cfg, b', k'))
  {
    hide Valid, Find, Leave, Delete, RanksIncrease, LevelOk;
    var i := FindFacts(cfg, b, k);
    var o := Find(cfg, b, k).value;
    var s, p := o.side, o.price;
    LeaveValid(cfg, b, k);
    var b' := Leave(cfg, b, o);
    if b.index[k'] == At(s, p) {
      LeaveFindsHere(cfg, b, b', s, p, i, k');
    } else {
      FoundElsewhere(cfg, b, b', s, p, Remaining(cfg, b.LevelAt(s, p).value, o), k');
      var j := FindFacts(cfg, b, k');
    }
  }

  /** An order that stays in the level another one leaves. */
  lemma {:induction false} LeaveFindsHere(cfg: Config, b: Book, b': Book, s: Side, p: Price, i: nat, k': OrderKey)
    requires Valid(cfg, b) && Valid(cfg, b') && b.LevelAt(s, p).Some? && i < |b.LevelAt(s, p).value.orders|
    requires var l := b.LevelAt(s, p).value;
      && b'.index == b.index - {cfg.KeyOf(l.orders[i])}
      && Replaced(cfg, b, b', s, p, Remaining(cfg, l, l.orders[i]))
      && k' in b.index && b.index[k'] == At(s, p) && k' != cfg.KeyOf(l.orders[i])
    ensures Alike(Find(cfg, b, k'), Find(cfg, b', k')) && SameOrder(Find(cfg, b, k'), Find(cfg, b', k'))
  {
    hide Valid, Find, Delete, RanksIncrease;
    var l := b.LevelAt(s, p).value;
    var j := FindFacts(cfg, b, k');
    LevelIsOk(cfg, b, s, p);
    LeaveLevelOk(cfg, b, b', s, p, i);
    OtherLevelsStay(cfg, b, b', s, p, Remaining(cfg, l, l.orders[i]));
    hide LevelOk, Replaced;
    var j0 := if j < i then j else j - 1;
    DeleteAt(cfg.uniform, l.orders, i);
    var j1 := DeleteSource(cfg.uniform, l.orders, i, j0);
    FindAt(cfg, b', s, p, j0);
  }

  /** Where an order goes when another one is inserted, and where the inserted one goes. */
  lemma {:induction false} InsertTarget(uniform: bool, os: seq<Order>, r: Order, j: nat) returns (q: nat, t: nat)
    requires RanksIncrease(os) && Free(uniform, os, r.rank)
    ensures var s := Insert(uniform, os, r);
      q < |s| && s[q] == r && (j < |os| ==> t < |s| && SameButRank(s[t], os[j]))
  {
    q := Position(os, r.rank);
    t := if j < q then j else j + 1;
    InsertAt(uniform, os, r);
    if j < |os| {
      var j1 := InsertSource(uniform, os, r, t);
    }
  }

  /** The level an order has entered, and its positions. */
  lemma {:induction false} EnteredLevel(cfg: Config, b: Book, o: Order, rank: Option<nat>, j: nat)
    returns (q: nat, t: nat)
    requires Valid(cfg, b) && cfg.KeyOf(o) !in b.index && o.qty != 0
    requires Valid(cfg, Enter(cfg, b, o, rank))
    ensures var lo, l' := b.LevelAt(o.side, o.price), Enter(cfg, b, o, rank).LevelAt(o.side, o.price);
      && l'.Some? && q < |l'.value.orders| && SameButRank(l'.value.orders[q], o)
      && (lo.Some? && j < |lo.value.orders| ==>
            t < |l'.value.orders| && SameButRank(l'.value.orders[t], lo.value.orders[j]))
  {
    hide Valid;
    EnterValid(cfg, b, o, rank);
    var lo := b.LevelAt(o.side, o.price);
    var os := if lo.None? then [] else lo.value.orders;
    if lo.Some? { LevelIsOk(cfg, b, o.side, o.price); }
    hide LevelOk, Enter;
    if rank.None? { RankFree(os, rank); }
    q, t := InsertTarget(cfg.uniform, os, Ranked(os, o, rank), j);
    if lo.None? {
      assert Insert(cfg.uniform, [], Ranked([], o, rank)) == [Ranked([], o, rank)];
    }
  }

  lemma {:induction false} EnterFinds(cfg: Config, b: Book, o: Order, rank: Option<nat>, k': OrderKey)
    requires Valid(cfg, b) && cfg.KeyOf(o) !in b.index && o.qty != 0
    requires Valid(cfg, Enter(cfg, b, o, rank))
    requires k' in b.index || k' == cfg.KeyOf(o)
    ensures var was, found := if k' == cfg.KeyOf(o) then Some(o)
      else Find(cfg, b, k'), Find(cfg, Enter(cfg, b, o, rank), k');
      Alike(was, found) && SameOrder(was, found)
  {
    hide Valid, Enter;
    var s, p := o.side, o.price;
    var b' := Enter(cfg, b, o, rank);
    EnterValid(cfg, b, o, rank);
    if k' == cfg.KeyOf(o) {
      var q, t := EnteredLevel(cfg, b, o, rank, 0);
      FindAt(cfg, b', s, p, q);
    } else {
      var j := FindFacts(cfg, b, k');
      if b.index[k'] == At(s, p) {
        var q, t := EnteredLevel(cfg, b, o, rank, j);
        FindAt(cfg, b', s, p, t);
      } else {
        FoundElsewhere(cfg, b, b', s, p, Some(Joined(cfg, b.LevelAt(s, p), o, rank)), k');
      }
    }
  }

  // ---- a replica in step

  ghost predicate SameLevel(a: Option<Level>, b: Option<Level>) {
    && (a.Some? <==> b.Some?)
    && (a.Some? ==>
          && a.value.qty == b.value.qty && a.value.nOrders == b.value.nOrders
          && (a.value.orders == [] <==> b.value.orders == []))
  }

  ghost predicate SameLevels(m: Book, r: Book) {
    && (forall s: Side, p: Price :: SameLevel(m.LevelAt(s, p), r.LevelAt(s, p)))
    && (forall s: Side :: m.Of(s).qty == r.Of(s).qty)
  }

  /** Two books hold the same orders (ID, side, price and quantity), and so the same quantity and number
      of orders at every price; where the orders queue at their prices may differ. */
  ghost predicate InStep(cfg: Config, m: Book, r: Book) {
    && m.index == r.index
    && SameLevels(m, r)
    && forall k | k in m.index :: SameOrder(Find(cfg, m, k), Find(cfg, r, k))
  }

  lemma {:induction false} ReplacedSameLevels(cfg: Config, m: Book, m': Book, r: Book, r': Book, s: Side, p: Price,
                                              l: Option<Level>, l': Option<Level>)
    requires SameLevels(m, r)
    requires Replaced(cfg, m, m', s, p, l) && Replaced(cfg, r, r', s, p, l')
    requires SameLevel(l, l')
    ensures SameLevels(m', r')
  {
    forall s2: Side, p2: Price ensures SameLevel(m'.LevelAt(s2, p2), r'.LevelAt(s2, p2)) {
      assert SameLevel(m.LevelAt(s2, p2), r.LevelAt(s2, p2));
      if s2 != s { assert s2 == s.Opposite(); }
    }
    assert SameLevel(m.LevelAt(s, p), r.LevelAt(s, p));
    forall s2: Side ensures m'.Of(s2).qty == r'.Of(s2).qty {
      assert m.Of(s2).qty == r.Of(s2).qty;
      if s2 != s { assert s2 == s.Opposite(); }
    }
  }

  /** What is left of the level of an order that leaves. */
  lemma {:induction false} RemainingOrders(cfg: Config, b: Book, k: OrderKey)
    requires Valid(cfg, b) && k in b.index && Find(cfg, b, k).Some?
    ensures var o := Find(cfg, b, k).value;
      && b.LevelAt(o.side, o.price).Some? && b.index[k] == At(o.side, o.price) && cfg.KeyOf(o) == k
      && var r := Remaining(cfg, b.LevelAt(o.side, o.price).value, o);
         r.Some? ==> r.value.orders != []
  {
    hide Valid;
    var i := FindFacts(cfg, b, k);
    var o := Find(cfg, b, k).value;
    LevelIsOk(cfg, b, o.side, o.price);
    LeaveLevelOk(cfg, b, b.(index := b.index - {k}), o.side, o.price, i);
  }

  lemma {:induction false} LeaveInStep(cfg: Config, m: Book, r: Book, k: OrderKey)
    requires Valid(cfg, m) && Valid(cfg, r) && InStep(cfg, m, r) && k in m.index
    requires Find(cfg, m, k).Some? && Find(cfg, r, k).Some?
    ensures InStep(cfg, Leave(cfg, m, Find(cfg, m, k).value), Leave(cfg, r, Find(cfg, r, k).value))
  {
    hide Valid, Leave, Find;
    assert SameOrder(Find(cfg, m, k), Find(cfg, r, k));
    var o, o' := Find(cfg, m, k).value, Find(cfg, r, k).value;
    var s, p := o.side, o.price;
    LeaveValid(cfg, m, k);
    LeaveValid(cfg, r, k);
    RemainingOrders(cfg, m, k);
    RemainingOrders(cfg, r, k);
    assert SameLevel(m.LevelAt(s, p), r.LevelAt(s, p));
    ReplacedSameLevels(cfg, m, Leave(cfg, m, o), r, Leave(cfg, r, o'), s, p,
                       Remaining(cfg, m.LevelAt(s, p).value, o), Remaining(cfg, r.LevelAt(s, p).value, o'));
    forall k' | k' in m.index && k' != k
      ensures SameOrder(Find(cfg, Leave(cfg, m, o), k'), Find(cfg, Leave(cfg, r, o'), k'))
    {
      assert SameOrder(Find(cfg, m, k'), Find(cfg, r, k'));
      LeaveFinds(cfg, m, k, k');
      LeaveFinds(cfg, r, k, k');
    }
  }

  lemma {:induction false} JoinedSameLevel(cfg: Config, a: Option<Level>, b: Option<Level>, o: Order, o': Order,
                                           rank: Option<nat>, rank': Option<nat>)
    requires SameLevel(a, b) && o.qty == o'.qty
    ensures SameLevel(Some(Joined(cfg, a, o, rank)), Some(Joined(cfg, b, o', rank')))
  {
    if a.Some? {
      InsertShape(cfg.uniform, a.value.orders, Ranked(a.value.orders, o, rank));
      InsertShape(cfg.uniform, b.value.orders, Ranked(b.value.orders, o', rank'));
    }
  }

  lemma {:induction false} EnterInStep(cfg: Config, m: Book, r: Book, o: Order, o': Order, rank: Option<nat>,
                                       rank': Option<nat>)
    requires Valid(cfg, m) && Valid(cfg, r) && InStep(cfg, m, r)
    requires SameOrder(Some(o), Some(o')) && cfg.KeyOf(o) !in m.index && o.qty != 0
    requires Valid(cfg, Enter(cfg, m, o, rank)) && Valid(cfg, Enter(cfg, r, o', rank'))
    ensures InStep(cfg, Enter(cfg, m, o, rank), Enter(cfg, r, o', rank'))
  {
    hide Valid, Enter, Find, Joined;
    var s, p, k := o.side, o.price, cfg.KeyOf(o);
    var m', r' := Enter(cfg, m, o, rank), Enter(cfg, r, o', rank');
    EnterValid(cfg, m, o, rank);
    EnterValid(cfg, r, o', rank');
    assert SameLevel(m.LevelAt(s, p), r.LevelAt(s, p));
    JoinedSameLevel(cfg, m.LevelAt(s, p), r.LevelAt(s, p), o, o', rank, rank');
    ReplacedSameLevels(cfg, m, m', r, r', s, p, Some(Joined(cfg, m.LevelAt(s, p), o, rank)),
                       Some(Joined(cfg, r.LevelAt(s, p), o', rank')));
    forall k' | k' in m'.index ensures SameOrder(Find(cfg, m', k'), Find(cfg, r', k')) {
      EnterFinds(cfg, m, o, rank, k');
      EnterFinds(cfg, r, o', rank', k');
      if k' != k { assert SameOrder(Find(cfg, m, k'), Find(cfg, r, k')); }
    }
  }

  /** Orders that change in the same way on both sides stay the same order. */
  lemma {:induction false} ReenterInStep(cfg: Config, m: Book, r: Book, k: OrderKey, o: Order, o': Order,
                                         rank: Option<nat>, rank': Option<nat>)
    requires Valid(cfg, m) && Valid(cfg, r) && InStep(cfg, m, r) && k in m.index
    requires Find(cfg, m, k).Some? && Find(cfg, r, k).Some?
    requires SameOrder(Some(o), Some(o')) && cfg.KeyOf(o) == k && o.qty != 0
    requires Valid(cfg, Enter(cfg, Leave(cfg, m, Find(cfg, m, k).value), o, rank))
    requires Valid(cfg, Enter(cfg, Leave(cfg, r, Find(cfg, r, k).value), o', rank'))
    ensures InStep(cfg, Enter(cfg, Leave(cfg, m, Find(cfg, m, k).value), o, rank),
                   Enter(cfg, Leave(cfg, r, Find(cfg, r, k).value), o', rank'))
  {
    hide Valid, Enter, Leave, Find, InStep;
    LeaveValid(cfg, m, k);
    InStepIndex(cfg, m, r);
    LeaveValid(cfg, r, k);
    LeaveInStep(cfg, m, r, k);
    EnterInStep(cfg, Leave(cfg, m, Find(cfg, m, k).value), Leave(cfg, r, Find(cfg, r, k).value), o, o', rank, rank');
  }

  lemma {:induction false} InStepIndex(cfg: Config, m: Book, r: Book)
    requires InStep(cfg, m, r)
    ensures m.index == r.index
  {
  }

  // ---- messages and reductions

  lemma {:induction false} ModifyInStep(cfg: Config, m: Book, r: Book, id: OrderId, side: Side, rank: Option<nat>,
                                        price: Price, qty: int, flags: Flags)
    requires Valid(cfg, m) && Valid(cfg, r) && InStep(cfg, m, r)
    requires Valid(cfg, Modify(cfg, m, id, side, rank, price, qty, flags).book)
    requires Valid(cfg, Modify(cfg, r, id, side, rank, price, qty, flags).book)
    ensures InStep(cfg, Modify(cfg, m, id, side, rank, price, qty, flags).book,
                   Modify(cfg, r, id, side, rank, price, qty, flags).book)
  {
    hide Valid, Enter, Leave;
    var k := cfg.Key(side, id);
    if k in m.index {
      var i := FindFacts(cfg, m, k);
      var j := FindFacts(cfg, r, k);
      assert SameOrder(Find(cfg, m, k), Find(cfg, r, k));
      hide InStep, Find;
      var o, o' := Find(cfg, m, k).value, Find(cfg, r, k).value;
      if qty == 0 {
        LeaveInStep(cfg, m, r, k);
      } else {
        ReenterInStep(cfg, m, r, k, Amended(o, price, qty, flags), Amended(o', price, qty, flags), rank, rank);
      }
    }
  }

  /** A reduction, and what the replica makes of its message. */
  lemma {:induction false} ReduceInStep(cfg: Config, m: Book, r: Book, id: OrderId, side: Side, reduceQty: int)
    requires Valid(cfg, m) && Valid(cfg, r) && InStep(cfg, m, r)
    ensures var e := Reduce(cfg, m, id, side, reduceQty); var r' := ApplyAll(cfg, r, e.msgs);
      Valid(cfg, e.book) && Valid(cfg, r') && InStep(cfg, e.book, r')
  {
    ReduceValid(cfg, m, id, side, reduceQty);
    var k := cfg.Key(side, id);
    if k in m.index {
      ReduceFoundInStep(cfg, m, r, id, side, reduceQty);
    }
  }

  lemma {:induction false} ReduceFoundInStep(cfg: Config, m: Book, r: Book, id: OrderId, side: Side, reduceQty: int)
    requires Valid(cfg, m) && Valid(cfg, r) && InStep(cfg, m, r) && cfg.Key(side, id) in m.index
    requires Valid(cfg, Reduce(cfg, m, id, side, reduceQty).book)
    ensures var e := Reduce(cfg, m, id, side, reduceQty); var r' := ApplyAll(cfg, r, e.msgs);
      Valid(cfg, r') && InStep(cfg, e.book, r')
  {
    hide Valid, Enter, Leave;
    var k := cfg.Key(side, id);
    var e := Reduce(cfg, m, id, side, reduceQty);
    var i := FindFacts(cfg, m, k);
    var j := FindFacts(cfg, r, k);
    assert SameOrder(Find(cfg, m, k), Find(cfg, r, k));
    var o, o' := Find(cfg, m, k).value, Find(cfg, r, k).value;
    var qty := if o.qty > reduceQty then o.qty - reduceQty else 0;
    assert e.msgs[1..] == [];
    assert ApplyAll(cfg, r, e.msgs) == Modify(cfg, r, id, o.side, None, None, qty, {}).book;
    assert cfg.Key(o.side, id) == k;
    LevelIsOk(cfg, r, o'.side, o'.price);
    ModifyValid(cfg, r, id, o.side, None, None, qty, {});
    hide InStep, Find;
    if qty == 0 {
      LeaveInStep(cfg, m, r, k);
    } else {
      ReenterInStep(cfg, m, r, k, o.(qty := qty), Amended(o', None, qty, {}), Some(o.rank), None);
    }
  }

  lemma {:induction false} PxFinds(cfg: Config, b: Book, side: Side, delta: bool, price: Price, qty: int,
                                   nOrders: int, flags: Flags, k: OrderKey)
    requires Valid(cfg, b)
    requires k in UpdatePx(cfg, b, side, delta, price, qty, nOrders, flags).0.index
    ensures k in b.index && Find(cfg, UpdatePx(cfg, b, side, delta, price, qty, nOrders, flags).0, k) == Find(cfg, b, k)
  {
    var l := b.LevelAt(side, price);
    if l.Some? || qty != 0 {
      if l.Some? {
        LevelIsOk(cfg, b, side, price);
        KeysAtLevel(cfg, b, side, price);
      }
      PxLevelShape(cfg, b, side, delta, price, qty, nOrders, flags);
      hide Valid, LevelOk;
      var b' := UpdatePx(cfg, b, side, delta, price, qty, nOrders, flags).0;
      var i := FindFacts(cfg, b, k);
      if b.index[k] != At(side, price) {
        FoundElsewhere(cfg, b, b', side, price, b'.LevelAt(side, price), k);
      }
    }
  }

  /** The level after an update, on both sides. */
  lemma {:induction false} UpdatedSameLevel(cfg: Config, m: Book, r: Book, side: Side, delta: bool, price: Price,
                                            qty: int, nOrders: int, flags: Flags)
    requires SameLevel(m.LevelAt(side, price), r.LevelAt(side, price)) && m.LevelAt(side, price).Some?
    ensures var u, v := Updated(m.LevelAt(side, price).value, delta, qty, nOrders, flags),
                        Updated(r.LevelAt(side, price).value, delta, qty, nOrders, flags);
      u.qty == v.qty && u.nOrders == v.nOrders && (u.orders == [] <==> v.orders == [])
  {
  }

  lemma {:induction false} PxInStep(cfg: Config, m: Book, r: Book, side: Side, delta: bool, price: Price, qty: int,
                                    nOrders: int, flags: Flags)
    requires Valid(cfg, m) && Valid(cfg, r) && InStep(cfg, m, r)
    ensures InStep(cfg, UpdatePx(cfg, m, side, delta, price, qty, nOrders, flags).0,
                   UpdatePx(cfg, r, side, delta, price, qty, nOrders, flags).0)
  {
    hide Valid, Find;
    var m', r' := UpdatePx(cfg, m, side, delta, price, qty, nOrders, flags).0,
                  UpdatePx(cfg, r, side, delta, price, qty, nOrders, flags).0;
    var l, l' := m.LevelAt(side, price), r.LevelAt(side, price);
    assert SameLevel(l, l');
    if l.Some? || qty != 0 {
      if l.Some? {
        LevelIsOk(cfg, m, side, price);
        LevelIsOk(cfg, r, side, price);
        KeysAtLevel(cfg, m, side, price);
        KeysAtLevel(cfg, r, side, price);
        UpdatedSameLevel(cfg, m, r, side, delta, price, qty, nOrders, flags);
      }
      PxLevelShape(cfg, m, side, delta, price, qty, nOrders, flags);
      PxLevelShape(cfg, r, side, delta, price, qty, nOrders, flags);
      PxIndex(cfg, m, r, side, delta, price, qty, nOrders, flags);
      hide LevelOk, UpdatePx;
      ReplacedSameLevels(cfg, m, m', r, r', side, price, m'.LevelAt(side, price), r'.LevelAt(side, price));
      forall k | k in m'.index ensures SameOrder(Find(cfg, m', k), Find(cfg, r', k)) {
        PxFinds(cfg, m, side, delta, price, qty, nOrders, flags, k);
        PxFinds(cfg, r, side, delta, price, qty, nOrders, flags, k);
        assert SameOrder(Find(cfg, m, k), Find(cfg, r, k));
      }
    }
  }

  lemma {:induction false} PxIndex(cfg: Config, m: Book, r: Book, side: Side, delta: bool, price: Price, qty: int,
                                   nOrders: int, flags: Flags)
    requires m.index == r.index && SameLevel(m.LevelAt(side, price), r.LevelAt(side, price))
    requires m.LevelAt(side, price).Some? ==>
      forall k :: k in KeysOf(cfg, m.LevelAt(side, price).value.orders) <==>
        k in KeysOf(cfg, r.LevelAt(side, price).value.orders)
    ensures UpdatePx(cfg, m, side, delta, price, qty, nOrders, flags).0.index
         == UpdatePx(cfg, r, side, delta, price, qty, nOrders, flags).0.index
  {
    if m.LevelAt(side, price).Some? {
      var a, b := KeysOf(cfg, m.LevelAt(side, price).value.orders), KeysOf(cfg, r.LevelAt(side, price).value.orders);
      assert a == b;
    }
  }

  // ---- steps and runs

  /** The replica is a valid book after every one of the messages. */
  ghost predicate StaysValid(cfg: Config, r: Book, ms: seq<Msg>)
    decreases |ms|
  {
    ms == [] || (Valid(cfg, Apply(cfg, r, ms[0])) && StaysValid(cfg, Apply(cfg, r, ms[0]), ms[1..]))
  }

  lemma {:induction false} MessageInStep(cfg: Config, m: Book, r: Book, msg: Msg)
    requires Valid(cfg, m) && Valid(cfg, r) && InStep(cfg, m, r)
    requires Valid(cfg, Apply(cfg, m, msg)) && Valid(cfg, Apply(cfg, r, msg))
    ensures InStep(cfg, Apply(cfg, m, msg), Apply(cfg, r, msg))
  {
    match msg
    case AddOrder(id, side, rank, price, qty, flags) => AddInStep(cfg, m, r, id, side, rank, price, qty, flags);
    case ModifyOrder(id, side, rank, price, qty, flags) => ModifyInStep(cfg, m, r, id, side, rank, price, qty, flags);
    case CancelOrder(id, side) => CancelInStep(cfg, m, r, id, side);
    case ResetOB =>
      ResetValid(cfg, m);
      ResetValid(cfg, r);
    case PxLevel(side, delta, price, qty, nOrders, flags) =>
      PxInStep(cfg, m, r, side, delta, price, qty, nOrders, flags);
  }

  lemma {:induction false} CancelInStep(cfg: Config, m: Book, r: Book, id: OrderId, side: Side)
    requires Valid(cfg, m) && Valid(cfg, r) && InStep(cfg, m, r)
    ensures InStep(cfg, Cancel(cfg, m, id, side).book, Cancel(cfg, r, id, side).book)
  {
    hide Valid, Leave;
    var k := cfg.Key(side, id);
    if k in m.index {
      var i := FindFacts(cfg, m, k);
      var j := FindFacts(cfg, r, k);
      LeaveInStep(cfg, m, r, k);
    }
  }

  lemma {:induction false} AddInStep(cfg: Config, m: Book, r: Book, id: OrderId, side: Side, rank: Option<nat>,
                                     price: Price, qty: int, flags: Flags)
    requires Valid(cfg, m) && Valid(cfg, r) && InStep(cfg, m, r)
    requires Valid(cfg, Add(cfg, m, id, side, rank, price, qty, flags).book)
    requires Valid(cfg, Add(cfg, r, id, side, rank, price, qty, flags).book)
    ensures InStep(cfg, Add(cfg, m, id, side, rank, price, qty, flags).book,
                   Add(cfg, r, id, side, rank, price, qty, flags).book)
  {
    hide Valid, Enter, Leave;
    var k := cfg.Key(side, id);
    if k in m.index {
      var i := FindFacts(cfg, m, k);
      var j := FindFacts(cfg, r, k);
      ModifyInStep(cfg, m, r, id, side, rank, price, qty, flags);
    } else {
      AddValid(cfg, m, id, side, rank, price, qty, flags);
      var o := Order(id, side, if rank.Some? then rank.value else 0, price, qty, flags);
      hide Find, InStep;
      InStepIndex(cfg, m, r);
      EnterInStep(cfg, m, r, o, o, rank, rank);
    }
  }

  lemma {:induction false} MessagesInStep(cfg: Config, m: Book, r: Book, ms: seq<Msg>)
    requires Valid(cfg, m) && Valid(cfg, r) && InStep(cfg, m, r)
    requires StaysValid(cfg, m, ms) && StaysValid(cfg, r, ms)
    ensures Valid(cfg, ApplyAll(cfg, r, ms)) && InStep(cfg, ApplyAll(cfg, m, ms), ApplyAll(cfg, r, ms))
    decreases |ms|
  {
    hide Valid, Apply, InStep;
    if ms != [] {
      MessageInStep(cfg, m, r, ms[0]);
      MessagesInStep(cfg, Apply(cfg, m, ms[0]), Apply(cfg, r, ms[0]), ms[1..]);
    }
  }

  /** Cancellations, then one more message at most. */
  predicate CancelsFirst(ms: seq<Msg>) {
    forall i | 0 <= i < |ms| - 1 :: ms[i].CancelOrder?
  }

  lemma {:induction false} CancelsStayValid(cfg: Config, b: Book, ms: seq<Msg>)
    requires Valid(cfg, b) && CancelsFirst(ms) && Valid(cfg, ApplyAll(cfg, b, ms))
    ensures StaysValid(cfg, b, ms)
    decreases |ms|
  {
    hide Valid;
    if |ms| == 1 {
      assert ms[1..] == [];
    } else if |ms| > 1 {
      assert ms[0].CancelOrder?;
      CancelValid(cfg, b, ms[0].id, ms[0].side);
      CancelsStayValid(cfg, Apply(cfg, b, ms[0]), ms[1..]);
    }
  }

  /** A match is broadcast as cancellations and at most one modification, which comes last. */
  lemma {:induction false} FullUpToLast(q: seq<Priority.Resting>, qty: int, m: Priority.QueueMatch)
    requires Priority.InPriority(q, qty, 0, m)
    ensures forall i | 0 <= i < |m.fills| - 1 :: !m.fills[i].Partial()
  {
  }

  lemma {:induction false} MatchMessages(cfg: Config, b: Book, taker: Side, limit: Price, qty: int, fill: FillFn)
    requires Valid(cfg, b)
    ensures CancelsFirst(MatchEffect(cfg, b, taker, limit, qty, fill).msgs)
  {
    hide Valid, MatchLadder, Priority.MatchQueue, Priority.InPriority, Priority.Queue;
    var s := taker.Opposite();
    if qty != 0 {
      var q := Priority.Queue(b, s, limit);
      Priority.MatchIsQueue(cfg, b, taker, limit, qty, 0, fill);
      Priority.QueueInPriority(q, qty, 0, fill);
      FullUpToLast(q, qty, Priority.MatchQueue(q, qty, 0, fill));
    } else {
      ZeroMatch(cfg, b, s, Ladder(s, b.Of(s).levels.Keys), limit, fill);
    }
  }

  /** A match of nothing makes at most one trade, of nothing. */
  lemma {:induction false} ZeroMatch(cfg: Config, b: Book, s: Side, ps: seq<int>, limit: Price, fill: FillFn)
    requires Valid(cfg, b)
    ensures |MatchLadder(cfg, b, s, ps, limit, 0, 0, fill).fills| <= 1
  {
    if ps != [] && s.Within(limit, ps[0]) && ps[0] in b.Of(s).levels {
      LevelIsOk(cfg, b, s, Some(ps[0]));
      MatchInvariant.LevelPositive(cfg, b, s, Some(ps[0]), b.Of(s).levels[ps[0]]);
    }
  }

  /** A replica in step stays in step with every allowed operation, as long as it remains a valid book
      itself, that is, as long as no rank it is sent is taken on its side; for a reduction, always. */
  lemma {:induction false} StepInStep(cfg: Config, m: Book, r: Book, op: Op)
    requires Valid(cfg, m) && Valid(cfg, r) && InStep(cfg, m, r) && !cfg.uniform && Allowed(cfg, m, op)
    requires !op.OpReduce? ==> StaysValid(cfg, r, Step(cfg, m, op).msgs)
    ensures var r' := ApplyAll(cfg, r, Step(cfg, m, op).msgs);
      Valid(cfg, r') && InStep(cfg, Step(cfg, m, op).book, r')
  {
    hide Valid, InStep;
    if op.OpReduce? {
      ReduceInStep(cfg, m, r, op.id, op.side, op.reduceQty);
    } else {
      var e := Step(cfg, m, op);
      StepValid(cfg, m, op);
      ReplicaStep(cfg, m, op);
      StepMessages(cfg, m, op);
      hide Step;
      CancelsStayValid(cfg, m, e.msgs);
      MessagesInStep(cfg, m, r, e.msgs);
    }
  }

  lemma {:induction false} StepMessages(cfg: Config, m: Book, op: Op)
    requires Valid(cfg, m)
    ensures CancelsFirst(Step(cfg, m, op).msgs)
  {
    hide Valid;
    if op.OpMatch? {
      MatchMessages(cfg, m, op.taker, op.limit, op.qty, op.fill);
    }
  }

  /** Operations that leave ranks to the book: none is named, and none is sent by a partial fill. */
  predicate Unranked(op: Op) {
    match op
    case OpAdd(_, _, rank, _, _, _) => rank.None?
    case OpModify(_, _, rank, _, _, _) => rank.None?
    case OpMatch(_, _, _, _) => false
    case _ => true
  }

  /** An unranked message that is allowed on one side is allowed on the other. */
  lemma {:induction false} UnrankedAllowed(cfg: Config, m: Book, r: Book, op: Op)
    requires Valid(cfg, m) && Valid(cfg, r) && InStep(cfg, m, r)
    requires Allowed(cfg, m, op) && Unranked(op)
    ensures Allowed(cfg, r, op)
  {
    hide Valid, LevelOk, Find;
    match op
    case OpAdd(id, side, _, price, qty, _) =>
      UnrankedFits(cfg, m, r, cfg.Key(side, id), side, price);
    case OpModify(id, side, _, price, qty, _) =>
      UnrankedFits(cfg, m, r, cfg.Key(side, id), side, price);
    case OpPxLevel(side, delta, price, qty, nOrders, flags) =>
      assert SameLevel(m.LevelAt(side, price), r.LevelAt(side, price));
      if m.LevelAt(side, price).Some? {
        LevelIsOk(cfg, m, side, price);
        LevelIsOk(cfg, r, side, price);
      }
    case _ =>
  }

  lemma {:induction false} UnrankedFits(cfg: Config, m: Book, r: Book, k: OrderKey, side: Side, price: Price)
    requires Valid(cfg, m) && Valid(cfg, r) && InStep(cfg, m, r)
    ensures forall s: Side, p: Price, self: Option<OrderKey> :: Fits(cfg, m, s, p, None, self) ==>
      Fits(cfg, r, s, p, None, self)
    ensures k in m.index ==> k in r.index && SameOrder(Find(cfg, m, k), Find(cfg, r, k))
  {
    hide Valid, Find;
    forall s: Side, p: Price, self: Option<OrderKey> | Fits(cfg, m, s, p, None, self)
      ensures Fits(cfg, r, s, p, None, self)
    {
      assert SameLevel(m.LevelAt(s, p), r.LevelAt(s, p));
    }
  }

  /** Where ranks are left to the book, and trades are not matched by it, a replica never falls out of
      step, reductions included. */
  lemma {:induction false} UnrankedRunInStep(cfg: Config, m: Book, r: Book, ops: seq<Op>)
    requires Valid(cfg, m) && Valid(cfg, r) && InStep(cfg, m, r) && !cfg.uniform
    requires AllAllowed(cfg, m, ops) && forall i | 0 <= i < |ops| :: Unranked(ops[i])
    ensures InStep(cfg, Run(cfg, m, ops), ApplyAll(cfg, r, Broadcast(cfg, m, ops)))
    decreases |ops|
  {
    hide Valid, InStep, Step, Allowed;
    if ops != [] {
      var e := Step(cfg, m, ops[0]);
      if !ops[0].OpReduce? {
        UnrankedStays(cfg, m, r, ops[0]);
      }
      StepInStep(cfg, m, r, ops[0]);
      StepValid(cfg, m, ops[0]);
      UnrankedRunInStep(cfg, e.book, ApplyAll(cfg, r, e.msgs), ops[1..]);
      ApplyConcat(cfg, r, e.msgs, Broadcast(cfg, e.book, ops[1..]));
    }
  }

  lemma {:induction false} UnrankedStays(cfg: Config, m: Book, r: Book, op: Op)
    requires Valid(cfg, m) && Valid(cfg, r) && InStep(cfg, m, r)
    requires Allowed(cfg, m, op) && Unranked(op) && !op.OpReduce?
    ensures StaysValid(cfg, r, Step(cfg, m, op).msgs)
  {
    hide Valid, Allowed, InStep, Step, Apply, Unranked;
    UnrankedAllowed(cfg, m, r, op);
    StepValid(cfg, r, op);
    UnrankedIs(op);
    SingleMessage(cfg, m, op);
    if Step(cfg, m, op).msgs != [] {
      SentAsCalled(cfg, m, r, op);
    }
  }

  lemma {:induction false} UnrankedIs(op: Op)
    requires Unranked(op)
    ensures !op.OpMatch?
  {
  }

  /** Applying what such an operation broadcasts is performing the operation. */
  lemma {:induction false} SentAsCalled(cfg: Config, m: Book, r: Book, op: Op)
    requires Valid(cfg, m) && Valid(cfg, r) && InStep(cfg, m, r)
    requires !op.OpReduce? && !op.OpMatch? && Step(cfg, m, op).msgs != []
    ensures Apply(cfg, r, Step(cfg, m, op).msgs[0]) == Step(cfg, r, op).book
  {
    hide Valid, Enter, Leave, UpdatePx;
    if (op.OpAdd? || op.OpModify? || op.OpCancel?) && cfg.Key(op.side, op.id) in m.index {
      var k := cfg.Key(op.side, op.id);
      var i := FindFacts(cfg, m, k);
      var j := FindFacts(cfg, r, k);
      assert SameOrder(Find(cfg, m, k), Find(cfg, r, k));
    }
  }
}
