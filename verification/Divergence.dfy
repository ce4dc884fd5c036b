/** A replica out of step: why reductions and matches together need distinct ranks on the replica. */
module Divergence {
  import opened Types
  import opened Levels
  import opened Ladders
  import opened Books
  import opened Invariant
  import opened Matching
  import opened Operations
  import opened Replica
  import opened Simulation
  import Collisions
  import Priority

  const CFG := Config(false, PerBook)
  const PX := Some(100)

  function Sell10(id: OrderId): Op {
    OpAdd(id, Sell, None, PX, 10, {})
  }

  /** Two unranked orders; the first is cancelled and the second reduced, so that the replica ranks it
      lower; a third joins; a match partly fills the second; the second is cancelled. */
  function Colliding(): seq<Op> {
    [Sell10("A"), Sell10("B"), OpCancel("A", Sell), OpReduce("B", Sell, 1), Sell10("C"),
     OpMatch(Buy, None, 1, Priority.Never), OpCancel("B", Sell)]
  }

  function O(id: OrderId, rank: nat, qty: int): Order {
    Order(id, Sell, rank, PX, qty, {})
  }

  /** A book whose only orders are these, all selling at one price. */
  function Sells(os: seq<Order>): Book {
    var l := Level(SumQty(os), |os|, {}, os);
    Book(EMPTY_SIDE, OBSide(l.qty, None, if os == [] then map[] else map[100 := l]),
         map k | k in KeysOf(CFG, os) :: At(Sell, PX))
  }

  lemma {:induction false} Keys1(a: Order)
    ensures KeysOf(CFG, [a]) == {CFG.KeyOf(a)} && SumQty([a]) == a.qty
  {
    assert [a][0] == a && [a][1..] == [];
  }

  lemma {:induction false} Keys2(a: Order, b: Order)
    ensures KeysOf(CFG, [a, b]) == {CFG.KeyOf(a), CFG.KeyOf(b)} && SumQty([a, b]) == a.qty + b.qty
  {
    assert [a, b][0] == a && [a, b][1] == b && [a] + [b] == [a, b];
    SumQtyConcat([a], [b]);
    Keys1(a);
    Keys1(b);
  }

  /** Adding to an empty book, and behind one order. */
  lemma {:induction false} Add1(id: OrderId)
    ensures Step(CFG, EMPTY_BOOK, Sell10(id)).book == Sells([O(id, 0, 10)])
    ensures Step(CFG, EMPTY_BOOK, Sell10(id)).msgs == [AddOrder(id, Sell, None, PX, 10, {})]
  {
    Keys1(O(id, 0, 10));
    var b := Step(CFG, EMPTY_BOOK, Sell10(id)).book;
    assert b.index == Sells([O(id, 0, 10)]).index;
  }

  lemma {:induction false} Found1(a: Order)
    requires a.side == Sell && a.price == PX
    ensures Find(CFG, Sells([a]), CFG.KeyOf(a)) == Some(a)
    ensures forall k | k != CFG.KeyOf(a) :: Find(CFG, Sells([a]), k).None?
  {
    Keys1(a);
  }

  lemma {:induction false} Found2(a: Order, b: Order)
    requires a.side == Sell && a.price == PX && b.side == Sell && b.price == PX && a.id != b.id
    ensures Find(CFG, Sells([a, b]), CFG.KeyOf(a)) == Some(a)
    ensures Find(CFG, Sells([a, b]), CFG.KeyOf(b)) == Some(b)
  {
    Keys2(a, b);
    assert [a, b][1..] == [b];
    assert FindIn(CFG, [a, b], CFG.KeyOf(b)) == FindIn(CFG, [b], CFG.KeyOf(b)) == Some(b);
  }

  lemma {:induction false} Add2(a: Order, id: OrderId)
    requires a.side == Sell && a.price == PX && a.id != id && a.qty > 0
    ensures Step(CFG, Sells([a]), Sell10(id)).book == Sells([a, O(id, a.rank + 1, 10)])
    ensures Step(CFG, Sells([a]), Sell10(id)).msgs == [AddOrder(id, Sell, None, PX, 10, {})]
  {
    var o := O(id, a.rank + 1, 10);
    Keys1(a);
    Keys2(a, o);
    Found1(a);
    assert Insert(false, [a], o) == [a, o] by {
      assert Insert(false, [], o) == [o];
      assert [a][1..] == [];
    }
    EnterSecond(a, id);
    hide Insert, Enter, KeysOf, SumQty, FindIn;
  }

  lemma {:induction false} EnterSecond(a: Order, id: OrderId)
    requires a.side == Sell && a.price == PX && a.id != id && a.qty > 0
    requires Insert(false, [a], O(id, a.rank + 1, 10)) == [a, O(id, a.rank + 1, 10)]
    ensures Enter(CFG, Sells([a]), Order(id, Sell, 0, PX, 10, {}), None) == Sells([a, O(id, a.rank + 1, 10)])
  {
    var o := O(id, a.rank + 1, 10);
    Keys1(a);
    Keys2(a, o);
    var b := Enter(CFG, Sells([a]), Order(id, Sell, 0, PX, 10, {}), None);
    assert b.index == Sells([a, o]).index;
    EnterShape(CFG, Sells([a]), Order(id, Sell, 0, PX, 10, {}), None);
    assert NextRank([a]) == a.rank + 1;
    assert b.asks.levels[100] == Joined(CFG, Some(Level(a.qty, 1, {}, [a])), Order(id, Sell, 0, PX, 10, {}), None);
    assert b.asks.levels == Sells([a, o]).asks.levels;
  }

  /** What is left once one of two orders is gone. */
  lemma {:induction false} LeaveOne(a: Order, b: Order, gone: Order, left: Order)
    requires a.side == Sell && a.price == PX && b.side == Sell && b.price == PX && a.id != b.id
    requires a.qty > 0 && b.qty > 0 && ((gone == a && left == b) || (gone == b && left == a))
    requires Delete(false, [a, b], gone.rank) == [left]
    ensures Leave(CFG, Sells([a, b]), gone) == Sells([left])
  {
    Keys1(left);
    Keys2(a, b);
    LeaveShape(CFG, Sells([a, b]), gone);
    hide Leave, Delete, KeysOf, SumQty;
    var x := Leave(CFG, Sells([a, b]), gone);
    assert x.asks.levels == Sells([left]).asks.levels;
    assert x.index == Sells([left]).index;
  }

  lemma {:induction false} CancelFound(x: Book, o: Order)
    requires Find(CFG, x, CFG.KeyOf(o)) == Some(o) && o.side == Sell && o.qty != 0
    ensures Step(CFG, x, OpCancel(o.id, Sell)).book == Leave(CFG, x, o)
    ensures Step(CFG, x, OpCancel(o.id, Sell)).msgs == [CancelOrder(o.id, Sell)]
  {
  }

  /** Cancelling the first of two, and the second of two. */
  lemma {:induction false} Cancel2(a: Order, b: Order)
    requires a.side == Sell && a.price == PX && b.side == Sell && b.price == PX && a.id != b.id
    requires a.rank < b.rank && a.qty > 0 && b.qty > 0
    ensures Step(CFG, Sells([a, b]), OpCancel(a.id, Sell)).book == Sells([b])
    ensures Step(CFG, Sells([a, b]), OpCancel(a.id, Sell)).msgs == [CancelOrder(a.id, Sell)]
    ensures Step(CFG, Sells([a, b]), OpCancel(b.id, Sell)).book == Sells([a])
    ensures Step(CFG, Sells([a, b]), OpCancel(b.id, Sell)).msgs == [CancelOrder(b.id, Sell)]
  {
    Found2(a, b);
    assert [a, b][1..] == [b] && [b][1..] == [];
    assert Delete(false, [a, b], a.rank) == [b];
    assert Delete(false, [b], b.rank) == [];
    assert Delete(false, [a, b], b.rank) == [a];
    hide Step, Find, Leave, Sells;
    CancelFound(Sells([a, b]), a);
    CancelFound(Sells([a, b]), b);
    LeaveOne(a, b, a, b);
    LeaveOne(a, b, b, a);
  }

  /** Reducing the only order, and what the replica makes of it. */
  lemma {:induction false} Reduce1(a: Order, q: int)
    requires a.side == Sell && a.price == PX && 0 < q < a.qty
    ensures Step(CFG, Sells([a]), OpReduce(a.id, Sell, q)).book == Sells([a.(qty := a.qty - q)])
    ensures Step(CFG, Sells([a]), OpReduce(a.id, Sell, q)).msgs == [ModifyOrder(a.id, Sell, None, None, a.qty - q, {})]
    ensures a.flags == {} ==>
      Apply(CFG, Sells([a]), ModifyOrder(a.id, Sell, None, None, a.qty - q, {}))
        == Sells([a.(rank := 0, qty := a.qty - q)])
  {
    Found1(a);
    LeaveLast(a);
    EnterFirst(a.(qty := a.qty - q), Some(a.rank));
    EnterFirst(a.(qty := a.qty - q), None);
    hide Enter, Leave, Sells, Find;
  }

  lemma {:induction false} LeaveLast(a: Order)
    requires a.side == Sell && a.price == PX && a.qty > 0
    ensures Leave(CFG, Sells([a]), a) == EMPTY_BOOK
  {
    Keys1(a);
    LeaveShape(CFG, Sells([a]), a);
    assert Delete(false, [a], a.rank) == [] by { assert [a][1..] == []; }
    var b := Leave(CFG, Sells([a]), a);
    assert b.index == map[] && b.asks.levels == map[];
  }

  lemma {:induction false} EnterFirst(a: Order, rank: Option<nat>)
    requires a.side == Sell && a.price == PX && a.qty > 0
    ensures Enter(CFG, EMPTY_BOOK, a, rank) == Sells([a.(rank := if rank.Some? then rank.value else 0)])
  {
    var o := a.(rank := if rank.Some? then rank.value else 0);
    Keys1(o);
    assert Insert(false, [], o) == [o];
    var b := Enter(CFG, EMPTY_BOOK, a, rank);
    assert b.index == Sells([o]).index;
  }

  lemma {:induction false} LadderOne(s: Side, p: int)
    ensures Ladder(s, {p}) == [p]
  {
    var r := Ladder(s, {p});
    assert p in r;
  }

  /** A taker of one unit trades with the first of two orders. */
  lemma {:induction false} Match2(a: Order, b: Order)
    requires a.side == Sell && a.price == PX && b.side == Sell && b.price == PX && a.id != b.id
    requires a.qty > 1 && b.qty > 0
    ensures var e := Step(CFG, Sells([a, b]), OpMatch(Buy, None, 1, Priority.Never));
      && e.book == Sells([a.(qty := a.qty - 1), b])
      && e.msgs == [ModifyOrder(a.id, Sell, Some(a.rank), PX, a.qty - 1, a.flags)]
  {
    hide MatchOrders, Filled, Traded, KeysOf, SumQty, Matched;
    var x := Sells([a, b]);
    assert x.asks.levels.Keys == {100};
    LadderOne(Sell, 100);
    FillOne(a, b);
    MatchedOne(a, b);
    LadderUnfold(CFG, x, Sell, [100], None, 1, 0, Priority.Never);
  }

  lemma {:induction false} MatchedOne(a: Order, b: Order)
    requires a.side == Sell && a.price == PX && b.side == Sell && b.price == PX && a.id != b.id
    requires a.qty > 1 && b.qty > 0
    ensures var a' := a.(qty := a.qty - 1);
      Matched(CFG, Sells([a, b]), Sell, 100, LevelMatch([a', b], 0, [Fill(1, 0, 100, 1, a)], false)) == Sells([a', b])
  {
    var a' := a.(qty := a.qty - 1);
    var x, m := Sells([a, b]), LevelMatch([a', b], 0, [Fill(1, 0, 100, 1, a)], false);
    Keys2(a, b);
    Keys2(a', b);
    FillOne(a, b);
    assert Matched(CFG, x, Sell, 100, m).asks.levels == Sells([a', b]).asks.levels;
    assert Matched(CFG, x, Sell, 100, m).index == Sells([a', b]).index;
  }

  /** One unit of the first of two orders is filled. */
  lemma {:induction false} FillOne(a: Order, b: Order)
    requires a.qty > 1
    ensures var f := Fill(1, 0, 100, 1, a);
      && MatchOrders([a, b], 100, 1, 0, Priority.Never) == LevelMatch([a.(qty := a.qty - 1), b], 0, [f], false)
      && Filled(CFG, [f]) == {} && Traded([f]) == 1 && MsgsOf(Sell, [f]) == [MsgOf(Sell, f)]
  {
    var f := Fill(1, 0, 100, 1, a);
    assert [a, b][1..] == [b] && [f][0] == f && [f][1..] == [];
  }

  /** The replica, whose second order has the rank the first is sent, queues the first behind it. */
  lemma {:induction false} Collide(a: Order, b: Order)
    requires a.side == Sell && a.price == PX && b.side == Sell && b.price == PX && a.id != b.id
    requires a.rank < b.rank && a.qty > 1 && b.qty > 0 && a.flags == {}
    ensures Apply(CFG, Sells([a, b]), ModifyOrder(a.id, Sell, Some(b.rank), PX, a.qty - 1, {}))
         == Sells([b, a.(rank := b.rank, qty := a.qty - 1)])
  {
    var a' := a.(rank := b.rank, qty := a.qty - 1);
    Keys1(b);
    Keys2(a, b);
    Keys2(b, a');
    Found2(a, b);
    Cancel2(a, b);
    assert Leave(CFG, Sells([a, b]), a) == Sells([b]);
    assert Apply(CFG, Sells([a, b]), ModifyOrder(a.id, Sell, Some(b.rank), PX, a.qty - 1, {}))
        == Enter(CFG, Sells([b]), a.(qty := a.qty - 1), Some(b.rank));
    hide Leave, Apply, Find;
    EnterTied(a.(qty := a.qty - 1), b);
  }

  /** An order that enters at a taken rank queues behind the first order of that rank. */
  lemma {:induction false} EnterTied(a: Order, b: Order)
    requires a.side == Sell && a.price == PX && b.side == Sell && b.price == PX && a.id != b.id
    requires a.qty > 0 && b.qty > 0
    ensures Enter(CFG, Sells([b]), a, Some(b.rank)) == Sells([b, a.(rank := b.rank)])
  {
    var a' := a.(rank := b.rank);
    Keys1(b);
    Keys2(b, a');
    EnterShape(CFG, Sells([b]), a, Some(b.rank));
    assert Insert(false, [b], a') == [b, a'] by { assert [b][1..] == []; }
    var y := Enter(CFG, Sells([b]), a, Some(b.rank));
    assert y.asks.levels == Sells([b, a']).asks.levels;
    assert y.index == Sells([b, a']).index;
  }

  /** Cancelling the second of two orders of the same rank takes out the first. */
  lemma {:induction false} CancelWrong(a: Order, b: Order)
    requires a.side == Sell && a.price == PX && b.side == Sell && b.price == PX && a.id != b.id
    requires a.rank == b.rank && a.qty > 0 && b.qty > 0
    ensures var r := Apply(CFG, Sells([a, b]), CancelOrder(b.id, Sell));
      && CFG.KeyOf(a) in r.index && Find(CFG, r, CFG.KeyOf(a)).None?
      && r.LevelAt(Sell, PX).Some? && r.LevelAt(Sell, PX).value.orders == [b]
  {
    Keys2(a, b);
    Found2(a, b);
    LeaveShape(CFG, Sells([a, b]), b);
    assert [a, b][1..] == [b];
    assert Delete(false, [a, b], b.rank) == [b];
    assert FindIn(CFG, [b], CFG.KeyOf(a)) == None;
  }

  lemma {:induction false} Unroll(m: Book, r: Book, ops: seq<Op>, m': Book, msg: Msg)
    requires ops != [] && Step(CFG, m, ops[0]).book == m' && Step(CFG, m, ops[0]).msgs == [msg]
    requires Allowed(CFG, m, ops[0])
    ensures Run(CFG, m, ops) == Run(CFG, m', ops[1..])
    ensures AllAllowed(CFG, m, ops) <==> AllAllowed(CFG, m', ops[1..])
    ensures ApplyAll(CFG, r, Broadcast(CFG, m, ops))
         == ApplyAll(CFG, Apply(CFG, r, msg), Broadcast(CFG, m', ops[1..]))
  {
    hide Apply, Allowed, Step;
    assert ([msg] + Broadcast(CFG, m', ops[1..]))[1..] == Broadcast(CFG, m', ops[1..]);
  }

  /** The first three operations, on the book and its replica alike. */
  lemma {:induction false} CollidingStart(ops: seq<Op>)
    requires |ops| >= 3 && ops[..3] == [Sell10("A"), Sell10("B"), OpCancel("A", Sell)]
    ensures var m := Sells([O("B", 1, 10)]);
      && Run(CFG, EMPTY_BOOK, ops) == Run(CFG, m, ops[3..])
      && (AllAllowed(CFG, EMPTY_BOOK, ops) <==> AllAllowed(CFG, m, ops[3..]))
      && ApplyAll(CFG, EMPTY_BOOK, Broadcast(CFG, EMPTY_BOOK, ops)) == ApplyAll(CFG, m, Broadcast(CFG, m, ops[3..]))
  {
    var A, B := O("A", 0, 10), O("B", 1, 10);
    assert ops[0] == Sell10("A") && ops[1] == Sell10("B") && ops[2] == OpCancel("A", Sell) by {
      assert ops[0] == ops[..3][0] && ops[1] == ops[..3][1] && ops[2] == ops[..3][2];
    }
    var ops1, ops2 := ops[1..], ops[1..][1..];
    MayAddFirst("A");
    MayAdd(A, "B");
    MayMatchAndCancel(Sells([A, B]), ops[2]);
    hide Step, Apply, Allowed, Sells, Run, AllAllowed, ApplyAll, Broadcast;
    Add1("A");
    Add2(A, "B");
    Cancel2(A, B);
    AddApplied(EMPTY_BOOK, "A");
    AddApplied(Sells([A]), "B");
    CancelApplied(Sells([A, B]), "A");
    Unroll(EMPTY_BOOK, EMPTY_BOOK, ops, Sells([A]), AddOrder("A", Sell, None, PX, 10, {}));
    Unroll(Sells([A]), Sells([A]), ops1, Sells([A, B]), AddOrder("B", Sell, None, PX, 10, {}));
    Unroll(Sells([A, B]), Sells([A, B]), ops2, Sells([B]), CancelOrder("A", Sell));
    assert ops2[1..] == ops[3..];
  }

  /** Reductions can put a replica out of step, even where no feed ever names a rank: this run is allowed
      from the empty book and leaves order C resting in the book, but B in its replica. */
  lemma {:induction false} ReplicaFallsOutOfStep()
    ensures var m, r := Run(CFG, EMPTY_BOOK, Colliding()),
      ApplyAll(CFG, EMPTY_BOOK, Broadcast(CFG, EMPTY_BOOK, Colliding()));
      && AllAllowed(CFG, EMPTY_BOOK, Colliding())
      && m == Sells([O("C", 2, 10)])
      && r.LevelAt(Sell, PX).Some? && r.LevelAt(Sell, PX).value.orders == [O("B", 1, 8)]
      && !InStep(CFG, m, r)
  {
    hide Step, Apply, Sells;
    var B, B', B'', C := O("B", 1, 10), O("B", 1, 9), O("B", 1, 8), O("C", 2, 10);
    var rB', rC := O("B", 0, 9), O("C", 1, 10);
    var ops3 := Colliding()[3..];
    CollidingStart(Colliding());
    Reduce1(B, 1);
    Unroll(Sells([B]), Sells([B]), ops3, Sells([B']), ModifyOrder("B", Sell, None, None, 9, {}));
    CollidingEnd(ops3[1..]);
    LastIsLost();
  }

  /** The last three operations, on the book and on its replica. */
  lemma {:induction false} CollidingEnd(ops: seq<Op>)
    requires ops == [Sell10("C"), OpMatch(Buy, None, 1, Priority.Never), OpCancel("B", Sell)]
    ensures var m, r := Run(CFG, Sells([O("B", 1, 9)]), ops),
                        ApplyAll(CFG, Sells([O("B", 0, 9)]), Broadcast(CFG, Sells([O("B", 1, 9)]), ops));
      && AllAllowed(CFG, Sells([O("B", 1, 9)]), ops)
      && m == Sells([O("C", 2, 10)])
      && r == Apply(CFG, Sells([O("C", 1, 10), O("B", 1, 8)]), CancelOrder("B", Sell))
  {
    var B', B'', C := O("B", 1, 9), O("B", 1, 8), O("C", 2, 10);
    var rB', rC := O("B", 0, 9), O("C", 1, 10);
    MayAdd(B', "C");
    MayMatchAndCancel(Sells([B', C]), ops[1]);
    MayMatchAndCancel(Sells([B'', C]), ops[2]);
    hide Step, Apply, Allowed, Sells, Run, AllAllowed, ApplyAll, Broadcast;
    Add2(B', "C");
    Add2(rB', "C");
    Match2(B', C);
    Collide(rB', rC);
    Cancel2(B'', C);
    AddApplied(Sells([rB']), "C");
    Unroll(Sells([B']), Sells([rB']), ops, Sells([B', C]), AddOrder("C", Sell, None, PX, 10, {}));
    Unroll(Sells([B', C]), Sells([rB', rC]), ops[1..], Sells([B'', C]), ModifyOrder("B", Sell, Some(1), PX, 8, {}));
    Unroll(Sells([B'', C]), Sells([rC, B'']), ops[1..][1..], Sells([C]), CancelOrder("B", Sell));
    assert ops[1..][1..][1..] == [];
    NoMore(Sells([C]), Apply(CFG, Sells([rC, B'']), CancelOrder("B", Sell)));
  }

  lemma {:induction false} NoMore(m: Book, r: Book)
    ensures Run(CFG, m, []) == m && AllAllowed(CFG, m, []) && ApplyAll(CFG, r, Broadcast(CFG, m, [])) == r
  {
  }

  lemma {:induction false} MayMatchAndCancel(b: Book, op: Op)
    requires op.OpMatch? || op.OpCancel?
    ensures Allowed(CFG, b, op)
  {
  }

  lemma {:induction false} MayAdd(a: Order, id: OrderId)
    requires a.id != id
    ensures Allowed(CFG, Sells([a]), Sell10(id))
  {
    Keys1(a);
  }

  lemma {:induction false} MayAddFirst(id: OrderId)
    ensures Allowed(CFG, EMPTY_BOOK, Sell10(id))
  {
  }

  /** The replica lacks the order that the book holds. */
  lemma {:induction false} LastIsLost()
    ensures var m, r := Sells([O("C", 2, 10)]), Apply(CFG, Sells([O("C", 1, 10), O("B", 1, 8)]),
      CancelOrder("B", Sell));
      && r.LevelAt(Sell, PX).Some? && r.LevelAt(Sell, PX).value.orders == [O("B", 1, 8)]
      && !InStep(CFG, m, r)
  {
    var C := O("C", 2, 10);
    Keys1(C);
    Found1(C);
    CancelWrong(O("C", 1, 10), O("B", 1, 8));
    hide Apply, Find;
    var m, r := Sells([C]), Apply(CFG, Sells([O("C", 1, 10), O("B", 1, 8)]), CancelOrder("B", Sell));
    assert CFG.KeyOf(C) in m.index && !SameOrder(Find(CFG, m, CFG.KeyOf(C)), Find(CFG, r, CFG.KeyOf(C)));
  }

  lemma {:induction false} AddApplied(b: Book, id: OrderId)
    ensures Apply(CFG, b, AddOrder(id, Sell, None, PX, 10, {})) == Step(CFG, b, Sell10(id)).book
  {
  }

  lemma {:induction false} CancelApplied(b: Book, id: OrderId)
    ensures Apply(CFG, b, CancelOrder(id, Sell)) == Step(CFG, b, OpCancel(id, Sell)).book
  {
  }

  /** The run sends the replica a rank that is taken there: no such run could leave it out of step otherwise. */
  lemma {:induction false} CollidingRankTaken()
    ensures !Collisions.RanksFree(CFG, EMPTY_BOOK, EMPTY_BOOK, Colliding())
  {
    ReplicaFallsOutOfStep();
    EmptyValid(CFG);
    hide *;
    EmptyInStep();
    if Collisions.RanksFree(CFG, EMPTY_BOOK, EMPTY_BOOK, Colliding()) {
      Collisions.RunInStep(CFG, EMPTY_BOOK, EMPTY_BOOK, Colliding());
      assert false;
    }
  }

  lemma {:induction false} EmptyInStep()
    ensures InStep(CFG, EMPTY_BOOK, EMPTY_BOOK) && !CFG.uniform
  {
  }
}
