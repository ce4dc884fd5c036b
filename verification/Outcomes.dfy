/** What an order is, and where it queues, after each call on it: stated of the orders that the book holds and of the
    queues at their prices, and of nothing that the calls are made of. */
module Outcomes {
  import opened Types
  import opened Levels
  import opened Books
  import opened Invariant
  import opened Operations
  import opened Simulation
  import opened Ladders
  import opened Matching
  import opened Priority

  // ---- what is said of the orders of a book

  /** The orders that queue at a price. */
  function QueueAt(b: Book, s: Side, p: Price): seq<Order> {
    if b.LevelAt(s, p).Some? then b.LevelAt(s, p).value.orders else []
  }

  /** A rank behind all others: the first one where nothing queues, or else one above the last. */
  predicate LastPlace(os: seq<Order>, rank: nat) {
    rank == if os == [] then 0 else os[|os| - 1].rank + 1
  }

  /** The orders up to the i-th have consecutive ranks from `first` on. */
  ghost predicate Consecutive(os: seq<Order>, first: nat, i: nat) {
    forall j | 0 <= j <= i :: j < |os| && os[j].rank == first + j
  }

  /** A run of consecutive ranks from `first` on has moved by `d`; the orders behind it have stayed. */
  ghost predicate RunMoved(os: seq<Order>, os': seq<Order>, first: nat, d: int) {
    && |os'| == |os|
    && forall i | 0 <= i < |os| ::
         if Consecutive(os, first, i) then os'[i].rank == os[i].rank + d && SameButRank(os'[i], os[i])
         else os'[i] == os[i]
  }

  /** The order has gone from the queue. The others stay in their order and, unless ranks are uniform and follow on its
      own, at their ranks. */
  ghost predicate Out(uniform: bool, os: seq<Order>, os': seq<Order>, o: Order) {
    exists i :: 0 <= i < |os| && os[i] == o && OutAt(uniform, os, os', i)
  }

  ghost predicate OutAt(uniform: bool, os: seq<Order>, os': seq<Order>, i: nat)
    requires i < |os|
  {
    && |os'| == |os| - 1 && os'[..i] == os[..i]
    && if uniform then RunMoved(os[i + 1..], os'[i..], os[i].rank + 1, -1) else os'[i..] == os[i + 1..]
  }

  /** The order has come into the queue, behind those of lower rank and ahead of all others. These stay in their order
      and, unless ranks are uniform and follow on its own, at their ranks. */
  ghost predicate In(uniform: bool, os: seq<Order>, os': seq<Order>, o: Order) {
    exists i :: 0 <= i <= |os| && |os'| == |os| + 1 && os'[i] == o && InAt(uniform, os, os', i)
  }

  ghost predicate InAt(uniform: bool, os: seq<Order>, os': seq<Order>, i: nat)
    requires i <= |os| && |os'| == |os| + 1
  {
    && os'[..i] == os[..i] && (forall j | 0 <= j < i :: os[j].rank < os'[i].rank)
    && (forall j | i <= j < |os| :: os'[i].rank <= os[j].rank)
    && if uniform then RunMoved(os[i..], os'[i + 1..], os'[i].rank, 1) else os'[i + 1..] == os[i..]
  }

  /** Every other order is still there, unchanged but, possibly, for its rank, and no other has come. */
  ghost predicate OthersAlike(cfg: Config, b: Book, b': Book, k: OrderKey) {
    forall k' | k' != k ::
      (k' in b.index <==> k' in b'.index) && (k' in b.index ==> Alike(Find(cfg, b, k'), Find(cfg, b', k')))
  }

  /** No other level of the book has changed. */
  ghost predicate LevelsStay(b: Book, b': Book, s: Side, ps: set<Price>) {
    forall s2: Side, p2: Price | s2 != s || p2 !in ps :: b'.LevelAt(s2, p2) == b.LevelAt(s2, p2)
  }

  // ---- leaving and entering

  lemma {:induction false} ConsecutiveTail(os: seq<Order>, first: nat, i: nat)
    requires 0 < i < |os| && os[0].rank == first
    ensures Consecutive(os, first, i) <==> Consecutive(os[1..], first + 1, i - 1)
  {
    if Consecutive(os[1..], first + 1, i - 1) {
      forall j | 0 <= j <= i ensures os[j].rank == first + j {
        if j > 0 { assert os[1..][j - 1].rank == first + 1 + (j - 1); }
      }
    }
  }

  lemma {:induction false} RunMovedOn(os: seq<Order>, os': seq<Order>, first: nat, d: int)
    requires os != [] && os' != [] && RunMoved(os[1..], os'[1..], first + 1, d)
    requires os[0].rank == first && os'[0].rank == first + d && SameButRank(os'[0], os[0])
    ensures RunMoved(os, os', first, d)
  {
    forall i | 0 <= i < |os|
      ensures if Consecutive(os, first, i) then os'[i].rank == os[i].rank + d && SameButRank(os'[i], os[i])
              else os'[i] == os[i]
    {
      hide Consecutive, SameButRank;
      if i > 0 {
        ConsecutiveTail(os, first, i);
        assert os'[i] == os'[1..][i - 1] && os[i] == os[1..][i - 1];
      } else {
        FirstOnly(os, first);
      }
    }
  }

  lemma {:induction false} FirstOnly(os: seq<Order>, first: nat)
    requires os != []
    ensures Consecutive(os, first, 0) <==> os[0].rank == first
  {
  }

  /** Where the run does not begin, nothing moves. */
  lemma {:induction false} NoRun(os: seq<Order>, first: nat, d: int)
    requires os != [] ==> os[0].rank != first
    ensures RunMoved(os, os, first, d)
  {
    forall i | 0 <= i < |os| ensures !Consecutive(os, first, i) {
      FirstIs(os, first, i);
    }
  }

  lemma {:induction false} FirstIs(os: seq<Order>, first: nat, i: nat)
    requires os != []
    ensures Consecutive(os, first, i) ==> os[0].rank == first
  {
    if Consecutive(os, first, i) { assert os[0].rank == first + 0; }
  }

  lemma {:induction false} ShiftUpMoves(os: seq<Order>, rank: nat)
    ensures RunMoved(os, ShiftUp(os, rank), rank, 1)
  {
    hide RunMoved;
    if os != [] && os[0].rank == rank {
      ShiftUpMoves(os[1..], rank + 1);
      RunMovedOn(os, ShiftUp(os, rank), rank, 1);
    } else {
      NoRun(os, rank, 1);
    }
  }

  lemma {:induction false} ShiftDownMoves(os: seq<Order>, rank: nat)
    ensures RunMoved(os, ShiftDown(os, rank), rank + 1, -1)
  {
    hide RunMoved;
    if os != [] && os[0].rank == rank + 1 {
      ShiftDownMoves(os[1..], rank + 1);
      RunMovedOn(os, ShiftDown(os, rank), rank + 1, -1);
    } else {
      NoRun(os, rank + 1, -1);
    }
  }

  lemma {:induction false} DeletedOut(uniform: bool, os: seq<Order>, i: nat)
    requires RanksIncrease(os) && i < |os|
    ensures OutAt(uniform, os, Delete(uniform, os, os[i].rank), i)
  {
    DeleteAt(uniform, os, i);
    ShiftDownMoves(os[i + 1..], os[i].rank);
  }

  lemma {:induction false} InsertedIn(uniform: bool, os: seq<Order>, o: Order)
    requires RanksIncrease(os) && Free(uniform, os, o.rank)
    ensures In(uniform, os, Insert(uniform, os, o), o)
  {
    var i, os' := Position(os, o.rank), Insert(uniform, os, o);
    InsertAt(uniform, os, o);
    if uniform {
      InsertShape(true, os, o);
      ShiftUpMoves(os[i..], o.rank);
      assert os'[i + 1..] == ShiftUp(os[i..], o.rank);
    } else {
      InsertDistinct(os, o);
      assert os'[i + 1..] == os[i..];
    }
    assert os'[i] == o && InAt(uniform, os, os', i);
  }

  /** The queue that an order leaves. */
  lemma {:induction false} LeftQueue(cfg: Config, b: Book, k: OrderKey)
    requires Valid(cfg, b) && k in b.index && Find(cfg, b, k).Some?
    ensures var o := Find(cfg, b, k).value;
      Out(cfg.uniform, QueueAt(b, o.side, o.price), QueueAt(Leave(cfg, b, o), o.side, o.price), o)
  {
    hide Valid, Leave, OutAt, Delete;
    var i := FindFacts(cfg, b, k);
    var o := Find(cfg, b, k).value;
    var l := b.LevelAt(o.side, o.price).value;
    LeaveValid(cfg, b, k);
    var b' := Leave(cfg, b, o);
    OtherLevelsStay(cfg, b, b', o.side, o.price, Remaining(cfg, l, o));
    LevelIsOk(cfg, b, o.side, o.price);
    LeaveLevelOk(cfg, b, b', o.side, o.price, i);
    DeletedOut(cfg.uniform, l.orders, i);
    if |l.orders| == 1 { OnlyOut(cfg.uniform, l.orders); }
  }

  lemma {:induction false} OnlyOut(uniform: bool, os: seq<Order>)
    requires |os| == 1
    ensures OutAt(uniform, os, [], 0)
  {
  }

  lemma {:induction false} Left(cfg: Config, b: Book, k: OrderKey)
    requires Valid(cfg, b) && k in b.index && Find(cfg, b, k).Some?
    ensures var o := Find(cfg, b, k).value; var b' := Leave(cfg, b, o);
      Valid(cfg, b') && k !in b'.index && OthersAlike(cfg, b, b', k) && LevelsStay(b, b', o.side, {o.price})
  {
    hide Valid, Leave, Find;
    LeaveValid(cfg, b, k);
    var o := Find(cfg, b, k).value;
    var b' := Leave(cfg, b, o);
    OtherLevelsStay(cfg, b, b', o.side, o.price, Remaining(cfg, b.LevelAt(o.side, o.price).value, o));
    forall k' | k' != k && k' in b.index ensures Alike(Find(cfg, b, k'), Find(cfg, b', k')) {
      LeaveFinds(cfg, b, k, k');
    }
  }

  /** An order without a rank goes behind all others. */
  lemma {:induction false} InsertBehind(uniform: bool, os: seq<Order>, o: Order)
    requires forall i | 0 <= i < |os| :: os[i].rank < o.rank
    ensures Insert(uniform, os, o) == os + [o]
  {
    if os != [] {
      InsertBehind(uniform, os[1..], o);
      assert os == [os[0]] + os[1..];
    }
  }

  lemma {:induction false} JoinedIn(cfg: Config, l: Option<Level>, o: Order, rank: Option<nat>) returns (i: nat)
    requires l.Some? ==> RanksIncrease(l.value.orders) && (rank.Some? ==> Free(cfg.uniform, l.value.orders, rank.value))
    ensures var os, t := if l.Some? then l.value.orders else [], Invariant.Joined(cfg, l, o, rank).orders;
      && i < |t| && In(cfg.uniform, os, t, t[i]) && SameButRank(t[i], o)
      && (rank.Some? ==> t[i].rank == rank.value)
      && (rank.None? ==> t == os + [t[i]] && LastPlace(os, t[i].rank))
  {
    hide In;
    var os := if l.Some? then l.value.orders else [];
    var r := Ranked(os, o, rank);
    if rank.None? {
      RankFree(os, rank);
      InsertBehind(cfg.uniform, os, r);
    }
    InsertedIn(cfg.uniform, os, r);
    if l.None? { assert Insert(cfg.uniform, [], r) == [r]; }
    i := InsertedSomewhere(cfg.uniform, os, r);
  }

  /** The order that the book holds after one has entered, and where it queues. */
  ghost predicate EnteredAs(cfg: Config, b': Book, o: Order, rank: Option<nat>, os: seq<Order>) {
    var found, os' := Find(cfg, b', cfg.KeyOf(o)), QueueAt(b', o.side, o.price);
    && found.Some? && SameButRank(found.value, o) && In(cfg.uniform, os, os', found.value)
    && (rank.Some? ==> found.value.rank == rank.value)
    && (rank.None? ==> os' == os + [found.value] && LastPlace(os, found.value.rank))
  }

  lemma {:induction false} Entered(cfg: Config, b: Book, o: Order, rank: Option<nat>)
    requires Valid(cfg, b) && cfg.KeyOf(o) !in b.index && o.qty != 0 && Valid(cfg, Enter(cfg, b, o, rank))
    ensures var b' := Enter(cfg, b, o, rank);
      && EnteredAs(cfg, b', o, rank, QueueAt(b, o.side, o.price))
      && OthersAlike(cfg, b, b', cfg.KeyOf(o)) && LevelsStay(b, b', o.side, {o.price})
  {
    hide Valid, Enter, Invariant.Joined, LevelOk;
    var b', s, p := Enter(cfg, b, o, rank), o.side, o.price;
    EnterValid(cfg, b, o, rank);
    var l := b.LevelAt(s, p);
    OtherLevelsStay(cfg, b, b', s, p, Some(Invariant.Joined(cfg, l, o, rank)));
    forall k' | k' != cfg.KeyOf(o) && k' in b.index ensures Alike(Find(cfg, b, k'), Find(cfg, b', k')) {
      EnterFinds(cfg, b, o, rank, k');
    }
    EnteredHere(cfg, b, b', o, rank);
  }

  lemma {:induction false} EnteredHere(cfg: Config, b: Book, b': Book, o: Order, rank: Option<nat>)
    requires Valid(cfg, b) && Valid(cfg, b')
    requires b'.LevelAt(o.side, o.price) == Some(Invariant.Joined(cfg, b.LevelAt(o.side, o.price), o, rank))
    requires Fits(cfg, b, o.side, o.price, rank, None)
    ensures EnteredAs(cfg, b', o, rank, QueueAt(b, o.side, o.price))
  {
    hide Valid, Invariant.Joined, RanksIncrease, Find, In;
    var l := b.LevelAt(o.side, o.price);
    if l.Some? { LevelIsOk(cfg, b, o.side, o.price); }
    var i := JoinedIn(cfg, l, o, rank);
    FindAt(cfg, b', o.side, o.price, i);
  }

  // ---- additions

  /** A new order is in the book as it was given, at the rank given; without one it queues behind the orders at its
      price, which stay as they are. */
  lemma {:induction false} AddedIs(cfg: Config, b: Book, id: OrderId, side: Side, rank: Option<nat>, price: Price,
                                   qty: int, flags: Flags)
    requires Valid(cfg, b) && cfg.Key(side, id) !in b.index
    requires Allowed(cfg, b, OpAdd(id, side, rank, price, qty, flags))
    ensures var b', k := Step(cfg, b, OpAdd(id, side, rank, price, qty, flags)).book, cfg.Key(side, id);
      var os, os', found := QueueAt(b, side, price), QueueAt(b', side, price), Find(cfg, b', k);
      && found.Some? && In(cfg.uniform, os, os', found.value)
      && found.value == Order(id, side, found.value.rank, price, qty, flags)
      && (rank.Some? ==> found.value.rank == rank.value)
      && (rank.None? ==> os' == os + [found.value] && LastPlace(os, found.value.rank))
      && OthersAlike(cfg, b, b', k) && LevelsStay(b, b', side, {price})
  {
    var o := Order(id, side, if rank.Some? then rank.value else 0, price, qty, flags);
    StepValid(cfg, b, OpAdd(id, side, rank, price, qty, flags));
    hide Valid, Enter;
    Entered(cfg, b, o, rank);
  }

  /** Adding an order whose ID is in use is modifying that order. */
  lemma {:induction false} AddedAgain(cfg: Config, b: Book, id: OrderId, side: Side, rank: Option<nat>, price: Price,
                                      qty: int, flags: Flags)
    requires Valid(cfg, b) && cfg.Key(side, id) in b.index
    ensures Step(cfg, b, OpAdd(id, side, rank, price, qty, flags))
         == Step(cfg, b, OpModify(id, side, rank, price, qty, flags))
  {
    var i := FindFacts(cfg, b, cfg.Key(side, id));
  }

  // ---- modifications

  /** An order has moved from its queue into another or, by way of `mid`, to another place in its own. */
  ghost predicate Requeued(uniform: bool, b: Book, b': Book, o: Order, o': Order, rank: Option<nat>, mid: seq<Order>) {
    && (if o'.price == o.price then Out(uniform, QueueAt(b, o.side, o.price), mid, o)
        else mid == QueueAt(b, o.side, o'.price)
             && Out(uniform, QueueAt(b, o.side, o.price), QueueAt(b', o.side, o.price), o))
    && In(uniform, mid, QueueAt(b', o.side, o'.price), o')
    && (rank.Some? ==> o'.rank == rank.value)
    && (rank.None? ==> QueueAt(b', o.side, o'.price) == mid + [o'] && LastPlace(mid, o'.rank))
  }

  /** A modified order is at the price given or where it was, with the quantity and flags given, at the rank given;
      without one it queues behind the others at its price. */
  lemma {:induction false} ModifiedIs(cfg: Config, b: Book, id: OrderId, side: Side, rank: Option<nat>, price: Price,
                                      qty: int, flags: Flags) returns (mid: seq<Order>)
    requires Valid(cfg, b) && cfg.Key(side, id) in b.index && qty != 0
    requires Allowed(cfg, b, OpModify(id, side, rank, price, qty, flags))
    ensures var b', k := Step(cfg, b, OpModify(id, side, rank, price, qty, flags)).book, cfg.Key(side, id);
      var was, found := Find(cfg, b, k), Find(cfg, b', k);
      && was.Some? && found.Some?
      && var p := if price.Some? then price else was.value.price;
      && found.value == Order(id, was.value.side, found.value.rank, p, qty, flags)
      && Requeued(cfg.uniform, b, b', was.value, found.value, rank, mid)
      && OthersAlike(cfg, b, b', k) && LevelsStay(b, b', was.value.side, {was.value.price, p})
  {
    var k, op := cfg.Key(side, id), OpModify(id, side, rank, price, qty, flags);
    var i := FindFacts(cfg, b, k);
    var o := Find(cfg, b, k).value;
    var o' := Order(id, o.side, o.rank, if price.Some? then price else o.price, qty, flags);
    StepValid(cfg, b, op);
    assert Step(cfg, b, op).book == Enter(cfg, Leave(cfg, b, o), o', rank);
    mid := QueueAt(Leave(cfg, b, o), o.side, o'.price);
    hide Valid, Enter, Leave, Find, Step, Requeued;
    Reentered(cfg, b, k, o', rank);
  }

  /** An order that leaves and enters again. */
  lemma {:induction false} Reentered(cfg: Config, b: Book, k: OrderKey, o': Order, rank: Option<nat>)
    requires Valid(cfg, b) && k in b.index && Find(cfg, b, k).Some? && cfg.KeyOf(o') == k && o'.qty != 0
    requires var o := Find(cfg, b, k).value;
      o'.side == o.side && Valid(cfg, Enter(cfg, Leave(cfg, b, o), o', rank))
    ensures var o := Find(cfg, b, k).value;
      var b1, b' := Leave(cfg, b, o), Enter(cfg, Leave(cfg, b, o), o', rank);
      && Find(cfg, b', k).Some? && SameButRank(Find(cfg, b', k).value, o')
      && Requeued(cfg.uniform, b, b', o, Find(cfg, b', k).value, rank, QueueAt(b1, o.side, o'.price))
      && OthersAlike(cfg, b, b', k) && LevelsStay(b, b', o.side, {o.price, o'.price})
  {
    hide Valid, Enter, Leave, Find, Out, In;
    var o := Find(cfg, b, k).value;
    var b1 := Leave(cfg, b, o);
    var b' := Enter(cfg, b1, o', rank);
    Left(cfg, b, k);
    LeftQueue(cfg, b, k);
    Entered(cfg, b1, o', rank);
    forall k' | k' != k && k' in b.index ensures Alike(Find(cfg, b, k'), Find(cfg, b', k')) {
      assert Alike(Find(cfg, b, k'), Find(cfg, b1, k')) && Alike(Find(cfg, b1, k'), Find(cfg, b', k'));
    }
  }

  // ---- orders that go

  /** The order is gone, and the others stay as they are, in their order. */
  ghost predicate Gone(cfg: Config, b: Book, b': Book, k: OrderKey) {
    var was := Find(cfg, b, k);
    && was.Some? && k !in b'.index && Find(cfg, b', k).None?
    && Out(cfg.uniform, QueueAt(b, was.value.side, was.value.price), QueueAt(b', was.value.side, was.value.price),
           was.value)
    && OthersAlike(cfg, b, b', k) && LevelsStay(b, b', was.value.side, {was.value.price})
  }

  /** An order goes when it is cancelled, modified to nothing, or reduced by all it has or more. */
  lemma {:induction false} GoneIs(cfg: Config, b: Book, op: Op, k: OrderKey)
    requires Valid(cfg, b) && k in b.index
    requires || (op.OpCancel? && k == cfg.Key(op.side, op.id))
             || (op.OpModify? && k == cfg.Key(op.side, op.id) && op.qty == 0)
             || (op.OpReduce? && k == cfg.Key(op.side, op.id)
                 && Find(cfg, b, k).Some? && Find(cfg, b, k).value.qty <= op.reduceQty)
    ensures Gone(cfg, b, Step(cfg, b, op).book, k)
  {
    var i := FindFacts(cfg, b, k);
    var o := Find(cfg, b, k).value;
    assert Step(cfg, b, op).book == Leave(cfg, b, o);
    hide Valid, Step, Leave, Find;
    Left(cfg, b, k);
    LeftQueue(cfg, b, k);
    NotFound(cfg, Leave(cfg, b, o), k);
  }

  lemma {:induction false} NotFound(cfg: Config, b: Book, k: OrderKey)
    requires k !in b.index
    ensures Find(cfg, b, k).None?
  {
  }

  /** One order stands in the place of another. */
  ghost predicate Replaces(os: seq<Order>, os': seq<Order>, o: Order, o': Order) {
    exists i :: 0 <= i < |os| && os[i] == o && os' == os[i := o']
  }

  /** An order that is reduced by less than it has keeps its place in the queue, its rank, its price and its flags, and
      nothing else changes. */
  lemma {:induction false} ReducedIs(cfg: Config, b: Book, id: OrderId, side: Side, reduceQty: int)
    requires Valid(cfg, b) && cfg.Key(side, id) in b.index && Find(cfg, b, cfg.Key(side, id)).Some?
    requires reduceQty < Find(cfg, b, cfg.Key(side, id)).value.qty
    ensures var b', k := Step(cfg, b, OpReduce(id, side, reduceQty)).book, cfg.Key(side, id);
      var o := Find(cfg, b, k).value; var o' := o.(qty := o.qty - reduceQty);
      && Find(cfg, b', k) == Some(o')
      && Replaces(QueueAt(b, o.side, o.price), QueueAt(b', o.side, o.price), o, o')
      && OthersAlike(cfg, b, b', k) && LevelsStay(b, b', o.side, {o.price})
  {
    hide Valid, Step, Enter, Leave, Find, LevelsStay, OthersAlike, In, Out, LastPlace;
    var k := cfg.Key(side, id);
    var i := FindFacts(cfg, b, k);
    var o := Find(cfg, b, k).value;
    var o' := o.(qty := o.qty - reduceQty);
    ReducedStep(cfg, b, id, side, reduceQty);
    Reentered(cfg, b, k, o', Some(o.rank));
    ReducedQueue(cfg, b, k, i, o');
    assert {o.price, o'.price} == {o.price};
    assert Find(cfg, Enter(cfg, Leave(cfg, b, o), o', Some(o.rank)), k).value == o';
  }

  lemma {:induction false} ReducedStep(cfg: Config, b: Book, id: OrderId, side: Side, reduceQty: int)
    requires Valid(cfg, b) && cfg.Key(side, id) in b.index && Find(cfg, b, cfg.Key(side, id)).Some?
    requires reduceQty < Find(cfg, b, cfg.Key(side, id)).value.qty
    ensures var o := Find(cfg, b, cfg.Key(side, id)).value;
      var b' := Enter(cfg, Leave(cfg, b, o), o.(qty := o.qty - reduceQty), Some(o.rank));
      Step(cfg, b, OpReduce(id, side, reduceQty)).book == b' && Valid(cfg, b')
  {
    hide Valid, Enter, Leave, Find;
    var i := FindFacts(cfg, b, cfg.Key(side, id));
    ReduceValid(cfg, b, id, side, reduceQty);
  }

  lemma {:induction false} ReducedQueue(cfg: Config, b: Book, k: OrderKey, i: nat, o': Order)
    requires Valid(cfg, b) && k in b.index && Find(cfg, b, k).Some?
    requires var o := Find(cfg, b, k).value;
      && b.LevelAt(o.side, o.price).Some? && i < |b.LevelAt(o.side, o.price).value.orders|
      && b.LevelAt(o.side, o.price).value.orders[i] == o && cfg.KeyOf(o) == k
      && o' == o.(qty := o'.qty) && o'.qty != 0
    ensures var o := Find(cfg, b, k).value;
      QueueAt(Enter(cfg, Leave(cfg, b, o), o', Some(o.rank)), o.side, o.price) == QueueAt(b, o.side, o.price)[i := o']
  {
    hide Valid, Enter, Leave, Find, Insert, Delete;
    var o := Find(cfg, b, k).value;
    var s, p := o.side, o.price;
    var l := b.LevelAt(s, p).value;
    LevelIsOk(cfg, b, s, p);
    LeaveValid(cfg, b, k);
    var b1 := Leave(cfg, b, o);
    OtherLevelsStay(cfg, b, b1, s, p, Remaining(cfg, l, o));
    EnterShape(cfg, b1, o', Some(o.rank));
    var l' := Invariant.Joined(cfg, b1.LevelAt(s, p), o', Some(o.rank));
    OtherLevelsStay(cfg, b1, Enter(cfg, b1, o', Some(o.rank)), s, p, Some(l'));
    LeaveLevelOk(cfg, b, b1, s, p, i);
    DeleteAt(cfg.uniform, l.orders, i);
    ReinsertKeepsPosition(cfg.uniform, l.orders, i, o');
    InsertAlone(cfg.uniform, o');
  }

  lemma {:induction false} InsertAlone(uniform: bool, o: Order)
    ensures Insert(uniform, [], o) == [o]
  {
  }

  /** Calls on orders that are not there change nothing and emit nothing. */
  lemma {:induction false} UnknownIs(cfg: Config, b: Book, op: Op)
    requires op.OpModify? || op.OpReduce? || op.OpCancel?
    requires cfg.Key(op.side, op.id) !in b.index
    ensures Step(cfg, b, op) == Effect(b, [], [], [])
  {
  }

  // ---- priority

  lemma {:induction false} TagIs(px: int, os: seq<Order>)
    ensures |Tag(px, os)| == |os| && forall i | 0 <= i < |os| :: Tag(px, os)[i] == Resting(px, os[i])
  {
    if os != [] {
      TagIs(px, os[1..]);
    }
  }

  lemma {:induction false} QueuedAt(s: Side, x: OBSide, ps: seq<int>, limit: Price, i: nat)
    requires i < |QueueOf(s, x, ps, limit)|
    ensures QueueOf(s, x, ps, limit)[i].px in ps
  {
    var os := OrdersAt(x, ps[0]);
    TagIs(ps[0], os);
    if i >= |os| { QueuedAt(s, x, ps[1..], limit, i - |os|); }
  }

  /** The last order at a price has those at its price and better ahead of it, and nobody else. */
  lemma {:induction false} LastQueued(s: Side, x: OBSide, ps: seq<int>, limit: Price, p: int) returns (i: nat)
    requires Sorted(s, ps) && p in ps && s.Within(limit, p) && OrdersAt(x, p) != []
    ensures var q, os := QueueOf(s, x, ps, limit), OrdersAt(x, p);
      && i < |q| && q[i] == Resting(p, os[|os| - 1])
      && forall j | 0 <= j < |q| :: s.Better(p, q[j].px) <==> i < j
  {
    hide Sorted, OrdersAt;
    var q, os, first := QueueOf(s, x, ps, limit), OrdersAt(x, ps[0]), |OrdersAt(x, ps[0])|;
    var behind := QueueOf(s, x, ps[1..], limit);
    SortedTail(s, ps);
    if p != ps[0] { InTail(ps, p); }
    TagIs(ps[0], os);
    assert q == Tag(ps[0], os) + behind;
    if p == ps[0] {
      i := first - 1;
      forall j | first <= j < |q| ensures s.Better(p, q[j].px) {
        QueuedAt(s, x, ps[1..], limit, j - first);
      }
    } else {
      var i1 := LastQueued(s, x, ps[1..], limit, p);
      i := first + i1;
      forall j | first <= j < |q| ensures s.Better(p, q[j].px) <==> i < j {
        assert q[j] == behind[j - first];
      }
    }
  }

  /** In the queue that takers trade with, an order that went last at its price is behind every order at that price or
      a better one, and ahead of all others. */
  lemma {:induction false} LastInPriority(b: Book, s: Side, limit: Price, p: int, os: seq<Order>, o: Order)
    returns (i: nat)
    requires QueueAt(b, s, Some(p)) == os + [o] && s.Within(limit, p)
    ensures var q := Queue(b, s, limit);
      i < |q| && q[i] == Resting(p, o) && forall j | 0 <= j < |q| :: s.Better(p, q[j].px) <==> i < j
  {
    i := LastQueued(s, b.Of(s), Ladder(s, b.Of(s).levels.Keys), limit, p);
  }

  /** A new order without a rank is behind every order at its price or a better one. */
  lemma {:induction false} AddedInPriority(cfg: Config, b: Book, id: OrderId, side: Side, px: int, qty: int,
                                           flags: Flags, limit: Price) returns (i: nat)
    requires Valid(cfg, b) && cfg.Key(side, id) !in b.index && side.Within(limit, px)
    requires Allowed(cfg, b, OpAdd(id, side, None, Some(px), qty, flags))
    ensures var b' := Step(cfg, b, OpAdd(id, side, None, Some(px), qty, flags)).book;
      var q := Queue(b', side, limit);
      && i < |q| && q[i].px == px && Find(cfg, b', cfg.Key(side, id)) == Some(q[i].order)
      && forall j | 0 <= j < |q| :: side.Better(px, q[j].px) <==> i < j
  {
    hide Valid, Allowed, Step, Find, In, Queue, OthersAlike, LevelsStay, LastPlace;
    AddedIs(cfg, b, id, side, None, Some(px), qty, flags);
    var b' := Step(cfg, b, OpAdd(id, side, None, Some(px), qty, flags)).book;
    i := LastInPriority(b', side, limit, px, QueueAt(b, side, Some(px)), Find(cfg, b', cfg.Key(side, id)).value);
  }

  /** So is an order that is modified without a rank. */
  lemma {:induction false} ModifiedInPriority(cfg: Config, b: Book, id: OrderId, side: Side, price: Price, qty: int,
                                              flags: Flags, limit: Price) returns (i: nat)
    requires Valid(cfg, b) && cfg.Key(side, id) in b.index && qty != 0
    requires Allowed(cfg, b, OpModify(id, side, None, price, qty, flags))
    requires var found := Find(cfg, Step(cfg, b, OpModify(id, side, None, price, qty, flags)).book, cfg.Key(side, id));
      found.Some? ==> found.value.price.Some? && found.value.side.Within(limit, found.value.price.value)
    ensures var b' := Step(cfg, b, OpModify(id, side, None, price, qty, flags)).book;
      var found := Find(cfg, b', cfg.Key(side, id));
      && found.Some?
      && var s, px := found.value.side, found.value.price.value; var q := Queue(b', s, limit);
      && i < |q| && q[i] == Resting(px, found.value)
      && forall j | 0 <= j < |q| :: s.Better(px, q[j].px) <==> i < j
  {
    hide Valid, Allowed, Step, Find, In, Out, Queue, OthersAlike, LevelsStay, LastPlace;
    var mid := ModifiedIs(cfg, b, id, side, None, price, qty, flags);
    var b' := Step(cfg, b, OpModify(id, side, None, price, qty, flags)).book;
    var o := Find(cfg, b', cfg.Key(side, id)).value;
    i := LastInPriority(b', o.side, limit, o.price.value, mid, o);
  }

  // ---- aggregate levels

  /** An aggregate update gives the level the quantity, count and flags it names or, if relative, changes them by what
      it names; a level of no quantity goes. Its orders stay, and no other level changes. */
  lemma {:induction false} LevelSetIs(cfg: Config, b: Book, side: Side, delta: bool, price: Price, qty: int,
                                      nOrders: int, flags: Flags)
    ensures var b' := Step(cfg, b, OpPxLevel(side, delta, price, qty, nOrders, flags)).book;
      var l, l' := b.LevelAt(side, price), b'.LevelAt(side, price);
      var was := if l.Some? then l.value else Level(0, 0, {}, []);
      && (l'.Some? <==> (if delta then was.qty + qty else qty) != 0)
      && (l'.Some? && !delta ==> l'.value == Level(qty, nOrders, flags, was.orders))
      && (l'.Some? && delta ==>
            l'.value == Level(was.qty + qty, was.nOrders + nOrders,
                              if qty != 0 then was.flags + flags else was.flags - flags, was.orders))
      && LevelsStay(b, b', side, {price})
  {
    hide KeysOf, LevelsStay, Step;
    var b', d, dn := UpdatedAs(cfg, b, side, delta, price, qty, nOrders, flags);
    SetElsewhere(cfg, b, side, delta, price, qty, nOrders, flags);
  }

  lemma {:induction false} SetElsewhere(cfg: Config, b: Book, side: Side, delta: bool, price: Price, qty: int,
                                        nOrders: int, flags: Flags)
    ensures LevelsStay(b, UpdatePx(cfg, b, side, delta, price, qty, nOrders, flags).0, side, {price})
  {
    hide KeysOf, UpdateAbs, UpdateDelta;
  }

  lemma {:induction false} UpdatedAs(cfg: Config, b: Book, side: Side, delta: bool, price: Price, qty: int,
                                     nOrders: int,
                                     flags: Flags) returns (b': Book, d: int, dn: int)
    ensures (b', d, dn) == UpdatePx(cfg, b, side, delta, price, qty, nOrders, flags)
    ensures Step(cfg, b, OpPxLevel(side, delta, price, qty, nOrders, flags)).book == b'
    ensures Step(cfg, b, OpPxLevel(side, delta, price, qty, nOrders, flags)).deltas
      == [Delta(side, price, d, dn, flags)]
  {
    hide UpdatePx;
    var u := UpdatePx(cfg, b, side, delta, price, qty, nOrders, flags);
    b', d, dn := u.0, u.1, u.2;
  }

  /** The side total follows the level, the index loses the orders of a level that goes, and what is passed on to the
      book above is the change in quantity and, for a level that stays, in count. */
  lemma {:induction false} LevelSetMoves(cfg: Config, b: Book, side: Side, delta: bool, price: Price, qty: int,
                                         nOrders: int, flags: Flags)
    ensures var e := Step(cfg, b, OpPxLevel(side, delta, price, qty, nOrders, flags));
      var l, l', os := b.LevelAt(side, price), e.book.LevelAt(side, price), QueueAt(b, side, price);
      var moved := (if l'.Some? then l'.value.qty else 0) - if l.Some? then l.value.qty else 0;
      && e.book.Of(side).qty == b.Of(side).qty + moved
      && (forall k :: k in e.book.index <==> k in b.index && (l'.Some? || k !in KeysOf(cfg, os)))
      && (forall k <- e.book.index :: e.book.index[k] == b.index[k])
      && |e.deltas| == 1 && e.deltas[0] == Delta(side, price, moved, e.deltas[0].nOrders, flags)
      && (l'.Some? ==> e.deltas[0].nOrders == l'.value.nOrders - if l.Some? then l.value.nOrders else 0)
  {
    hide KeysOf;
    var b', d, dn := UpdatedAs(cfg, b, side, delta, price, qty, nOrders, flags);
    NoKeys(cfg);
  }

  lemma {:induction false} NoKeys(cfg: Config)
    ensures KeysOf(cfg, []) == {}
  {
  }

  // ---- keys, broadcasts, and what is passed on

  /** IDs are unique within a book or within a side of it. */
  lemma {:induction false} KeysApart(cfg: Config, s: Side, id: OrderId, s2: Side, id2: OrderId)
    ensures cfg.Key(s, id) == cfg.Key(s2, id2) <==> id == id2 && (cfg.scope == PerBook || s == s2)
  {
  }

  /** An order of no quantity is indexed, with all it was given, but rests nowhere. */
  lemma {:induction false} AddedNothing(cfg: Config, b: Book, id: OrderId, side: Side, rank: Option<nat>, price: Price,
                                        flags: Flags)
    requires cfg.Key(side, id) !in b.index
    ensures var e, k := Step(cfg, b, OpAdd(id, side, rank, price, 0, flags)), cfg.Key(side, id);
      && e.book.bids == b.bids && e.book.asks == b.asks && e.deltas == [] && e.nvs == []
      && Find(cfg, e.book, k) == Some(Order(id, side, if rank.Some? then rank.value else 0, price, 0, flags))
      && forall k' | k' != k :: Find(cfg, e.book, k') == Find(cfg, b, k')
  {
  }

  /** A call that does something is broadcast as it was made; a reduction as a modification without rank, price or
      flags,
      to what is left. */
  lemma {:induction false} Broadcasts(cfg: Config, b: Book, op: Op)
    requires Valid(cfg, b) && (op.OpModify? || op.OpReduce? || op.OpCancel? ==> cfg.Key(op.side, op.id) in b.index)
    ensures var msgs := Step(cfg, b, op).msgs;
      match op
      case OpAdd(id, side, rank, price, qty, flags) =>
        msgs == [if cfg.Key(side, id) in b.index then ModifyOrder(id, side, rank, price, qty, flags)
                 else AddOrder(id, side, rank, price, qty, flags)]
      case OpModify(id, side, rank, price, qty, flags) => msgs == [ModifyOrder(id, side, rank, price, qty, flags)]
      case OpReduce(id, side, reduceQty) =>
        exists o :: Find(cfg, b, cfg.Key(side, id)) == Some(o)
          && msgs == [ModifyOrder(id, o.side, None, None, if o.qty > reduceQty then o.qty - reduceQty else 0, {})]
      case OpCancel(id, side) =>
        exists o :: Find(cfg, b, cfg.Key(side, id)) == Some(o) && msgs == [CancelOrder(id, o.side)]
      case OpPxLevel(side, delta, price, qty, nOrders, flags) =>
        msgs == [PxLevel(side, delta, price, qty, nOrders, flags)]
      case OpReset => msgs == [ResetOB]
      case OpMatch(_, _, _, _) => true
  {
    hide Valid, Enter, Leave, UpdatePx, Find, Moves, NvMoves, MatchBook, ResetDeltas, NvMove;
    if op.OpAdd? || op.OpModify? || op.OpReduce? || op.OpCancel? {
      var k := cfg.Key(op.side, op.id);
      if k in b.index { var i := FindFacts(cfg, b, k); } else { NotFound(cfg, b, k); }
    }
  }

  /** A match is broadcast as the cancellations of the orders it uses up, in the order of its fills, and at most one
      modification, of the last: to what is left of it, at its rank, price and flags. */
  lemma {:induction false} MatchBroadcasts(cfg: Config, b: Book, taker: Side, limit: Price, qty: int, fill: FillFn)
    requires Valid(cfg, b) && qty > 0
    ensures var fills, msgs := MatchBook(cfg, b, taker, limit, qty, fill).fills,
                               Step(cfg, b, OpMatch(taker, limit, qty, fill)).msgs;
      && |msgs| == |fills|
      && forall i | 0 <= i < |fills| ::
           var o := fills[i].contra;
           msgs[i] == if fills[i].qty == o.qty then CancelOrder(o.id, taker.Opposite())
                      else ModifyOrder(o.id, taker.Opposite(), Some(o.rank), Some(fills[i].px), o.qty - fills[i].qty,
                        o.flags)
  {
    hide Valid, MatchFrom, Queue, SumQueue, MatchQty, InPriority, Traded;
    MatchVolume(cfg, b, taker, limit, qty, 0, fill);
    var m, q := MatchBook(cfg, b, taker, limit, qty, fill), Queue(b, taker.Opposite(), limit);
    FillsAre(q, qty, QueueMatch(Queue(m.book, taker.Opposite(), limit), m.leaves, m.fills, m.aborted));
  }

  lemma {:induction false} FillsAre(q: seq<Resting>, qty: int, m: QueueMatch)
    requires InPriority(q, qty, 0, m)
    ensures forall i | 0 <= i < |m.fills| :: m.fills[i].qty == Min(m.fills[i].contra.qty, m.fills[i].leaves)
  {
  }

  /** What is passed on has the flags that a new order or an aggregate update names, or those of the level that is
      matched; what a modification, reduction, cancellation or reset passes on has none. */
  lemma {:induction false} PassedFlags(cfg: Config, b: Book, op: Op, i: nat)
    requires Valid(cfg, b) && i < |Step(cfg, b, op).deltas|
    ensures var d := Step(cfg, b, op).deltas[i];
      match op
      case OpAdd(id, side, _, _, _, flags) => d.flags == if cfg.Key(side, id) in b.index then {} else flags
      case OpPxLevel(_, _, _, _, _, flags) => d.flags == flags
      case OpMatch(_, _, _, _) => b.LevelAt(d.side, d.price).Some? && d.flags == b.LevelAt(d.side, d.price).value.flags
      case _ => d.flags == {}
  {
    hide Valid, Enter, Leave, UpdatePx, FindIn, MatchLadder;
    match op
    case OpMatch(taker, limit, qty, fill) =>
      var s := taker.Opposite();
      MatchedFlags(cfg, b, s, Ladder(s, b.Of(s).levels.Keys), limit, qty, 0, fill);
    case OpReset =>
      var bids, asks := Ladder(Sell, b.bids.levels.Keys), Ladder(Sell, b.asks.levels.Keys);
      NoFlags(Buy, b.bids, bids);
      NoFlags(Sell, b.asks, asks);
    case OpAdd(id, side, _, _, _, _) =>
      if cfg.Key(side, id) in b.index { var j := FindFacts(cfg, b, cfg.Key(side, id)); }
    case _ =>
  }

  lemma {:induction false} NoFlags(s: Side, x: OBSide, ps: seq<int>)
    requires forall i | 0 <= i < |ps| :: ps[i] in x.levels
    ensures forall i | 0 <= i < |ResetDeltas(s, x, ps)| :: ResetDeltas(s, x, ps)[i].flags == {}
  {
    if ps != [] {
      NoFlags(s, x, ps[1..]);
    }
  }

  /** Each of these was passed on with the flags of a level at one of the prices. */
  ghost predicate FlagsFrom(b: Book, s: Side, ps: seq<int>, ds: seq<Delta>) {
    forall i | 0 <= i < |ds| ::
      && ds[i].side == s && ds[i].price.Some? && ds[i].price.value in ps
      && b.LevelAt(s, ds[i].price).Some? && ds[i].flags == b.LevelAt(s, ds[i].price).value.flags
  }

  lemma {:induction false} MatchedFlags(cfg: Config, b: Book, s: Side, ps: seq<int>, limit: Price, qty: int, cum: int,
                                        fill: FillFn)
    requires forall i, j | 0 <= i < j < |ps| :: ps[i] != ps[j]
    ensures FlagsFrom(b, s, ps, MatchLadder(cfg, b, s, ps, limit, qty, cum, fill).deltas)
    decreases |ps|
  {
    hide MatchLevel, MatchLadder, Traded, OrdersAt, FlagsFrom;
    if ps == [] || !s.Within(limit, ps[0]) {
      NothingFlagged(cfg, b, s, ps, limit, qty, cum, fill);
      return;
    }
    LadderUnfold(cfg, b, s, ps, limit, qty, cum, fill);
    var m := MatchLevel(cfg, b, s, ps[0], qty, cum, fill);
    var r := MatchLadder(cfg, m.book, s, ps[1..], limit, m.leaves, cum + Traded(m.fills), fill);
    LevelFlags(cfg, b, s, ps, qty, cum, fill);
    LevelKeeps(cfg, b, s, ps[0], qty, cum, fill);
    MatchedFlags(cfg, m.book, s, ps[1..], limit, m.leaves, cum + Traded(m.fills), fill);
    FlagsBehind(b, m.book, s, ps, m.deltas, r.deltas);
  }

  lemma {:induction false} NothingFlagged(cfg: Config, b: Book, s: Side, ps: seq<int>, limit: Price, qty: int, cum: int,
                                          fill: FillFn)
    requires ps == [] || !s.Within(limit, ps[0])
    ensures FlagsFrom(b, s, ps, MatchLadder(cfg, b, s, ps, limit, qty, cum, fill).deltas)
  {
  }

  lemma {:induction false} FlagsBehind(b: Book, b': Book, s: Side, ps: seq<int>, ds: seq<Delta>, es: seq<Delta>)
    requires ps != [] && forall i, j | 0 <= i < j < |ps| :: ps[i] != ps[j]
    requires FlagsFrom(b, s, ps, ds) && FlagsFrom(b', s, ps[1..], es)
    requires forall p | p != ps[0] :: p in b'.Of(s).levels <==> p in b.Of(s).levels
    requires forall p | p != ps[0] && p in b.Of(s).levels :: b'.Of(s).levels[p] == b.Of(s).levels[p]
    ensures FlagsFrom(b, s, ps, ds + es)
  {
    forall i | 0 <= i < |es|
      ensures es[i].price.value != ps[0] && es[i].price.value in ps
    {
      var j :| 0 <= j < |ps| - 1 && ps[1..][j] == es[i].price.value;
      assert ps[j + 1] == es[i].price.value;
    }
  }

  lemma {:induction false} LevelFlags(cfg: Config, b: Book, s: Side, ps: seq<int>, qty: int, cum: int, fill: FillFn)
    requires ps != []
    ensures FlagsFrom(b, s, ps, MatchLevel(cfg, b, s, ps[0], qty, cum, fill).deltas)
  {
    hide Matched, MatchOrders, Traded;
  }
}
