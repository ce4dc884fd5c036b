/** Replication by message: a replica that only applies what a book broadcasts. */
module Replica {
  import opened Types
  import opened Levels
  import opened Ladders
  import opened Books
  import opened Invariant
  import opened Matching
  import opened Operations
  import MatchInvariant

  /** What a replica does with one message. */
  ghost function Apply(cfg: Config, r: Book, m: Msg): Book {
    match m
    case AddOrder(id, side, rank, price, qty, flags) => Add(cfg, r, id, side, rank, price, qty, flags).book
    case ModifyOrder(id, side, rank, price, qty, flags) => Modify(cfg, r, id, side, rank, price, qty, flags).book
    case CancelOrder(id, side) => Cancel(cfg, r, id, side).book
    case ResetOB => Reset(r).book
    case PxLevel(side, delta, price, qty, nOrders, flags) =>
      SetPxLevel(cfg, r, side, delta, price, qty, nOrders, flags).book
  }

  ghost function ApplyAll(cfg: Config, r: Book, ms: seq<Msg>): Book
    decreases |ms|
  {
    if ms == [] then r else ApplyAll(cfg, Apply(cfg, r, ms[0]), ms[1..])
  }

  lemma {:induction false} ApplyConcat(cfg: Config, r: Book, a: seq<Msg>, b: seq<Msg>)
    ensures ApplyAll(cfg, r, a + b) == ApplyAll(cfg, ApplyAll(cfg, r, a), b)
    decreases |a|
  {
    hide Apply;
    if a == [] {
      assert a + b == b;
    } else {
      assert (a + b)[1..] == a[1..] + b;
      ApplyConcat(cfg, Apply(cfg, r, a[0]), a[1..], b);
    }
  }

  // ---- a match is its own replay

  /** The match of one order: used up, or partly filled. */
  function One(os: seq<Order>, f: Fill): LevelMatch
    requires os != []
  {
    if f.Partial() then LevelMatch([os[0].(qty := os[0].qty - f.qty)] + os[1..], 0, [f], false)
    else LevelMatch(os[1..], f.leaves - f.qty, [f], false)
  }

  /** Cancelling the first order of a level is a full trade with it. */
  lemma {:induction false} CancelFirst(cfg: Config, b: Book, s: Side, px: int, f: Fill)
    requires Valid(cfg, b) && !cfg.uniform && px in b.Of(s).levels && b.Of(s).levels[px].orders != []
    requires var os := b.Of(s).levels[px].orders; f.contra == os[0] && f.qty == os[0].qty && !f.Partial()
    ensures Cancel(cfg, b, f.contra.id, s).book == Matched(cfg, b, s, px, One(b.Of(s).levels[px].orders, f))
  {
    hide Valid, Traded, Filled, SumQty, FindIn;
    var l := b.Of(s).levels[px];
    var o, k := l.orders[0], cfg.KeyOf(l.orders[0]);
    FirstFound(cfg, b, s, px);
    LeaveValid(cfg, b, k);
    var m := One(l.orders, f);
    TradedCons(f, []);
    FilledOne(cfg, f);
    assert Delete(false, l.orders, o.rank) == l.orders[1..];
    assert Remaining(cfg, l, o) == MatchInvariant.After(l, m);
  }

  lemma {:induction false} FirstFound(cfg: Config, b: Book, s: Side, px: int)
    requires Valid(cfg, b) && px in b.Of(s).levels && b.Of(s).levels[px].orders != []
    ensures var o := b.Of(s).levels[px].orders[0]; var k := cfg.KeyOf(o);
      && k in b.index && Find(cfg, b, k) == Some(o) && b.index[k] == At(s, Some(px))
      && o.side == s && o.price == Some(px) && cfg.Key(s, o.id) == k && o.qty > 0
  {
    LevelIsOk(cfg, b, s, Some(px));
    var l := b.LevelAt(s, Some(px)).value;
    assert OrderOk(cfg, b, s, Some(px), l.orders[0]);
    var i := FindFacts(cfg, b, cfg.KeyOf(l.orders[0]));
    assert i == 0;
  }

  /** The level of a partly filled first order is the level it leaves and enters again. */
  lemma {:induction false} PartialLevel(cfg: Config, b: Book, s: Side, px: int, l: Level, f: Fill)
    requires LevelOk(cfg, b, s, Some(px), l) && !cfg.uniform && l.orders != []
    requires f.contra == l.orders[0] && f.Partial() && f.qty == f.leaves
    ensures var o := l.orders[0]; var o' := o.(qty := o.qty - f.qty);
      Some(Joined(cfg, Remaining(cfg, l, o), o', Some(o.rank))) == MatchInvariant.After(l, One(l.orders, f))
  {
    var o := l.orders[0];
    var o' := o.(qty := o.qty - f.qty);
    MatchInvariant.LevelPositive(cfg, b, s, Some(px), l);
    SumQtyPositive(l.orders[1..]);
    assert Traded([f]) == f.qty by { assert [f][1..] == []; }
    assert Delete(false, l.orders, o.rank) == l.orders[1..];
    if |l.orders| > 1 {
      assert l.orders[0].rank < l.orders[1].rank;
      assert Insert(false, l.orders[1..], o') == [o'] + l.orders[1..];
    } else {
      assert l.orders == [o] && l.orders[1..] == [];
      assert SumQty(l.orders) == o.qty;
      assert One(l.orders, f).rest == [o'];
    }
  }

  /** Modifying the first order of a level down to what a partial trade leaves is that trade. */
  lemma {:induction false} ModifyFirst(cfg: Config, b: Book, s: Side, px: int, f: Fill)
    requires Valid(cfg, b) && !cfg.uniform && px in b.Of(s).levels && b.Of(s).levels[px].orders != []
    requires f.contra == b.Of(s).levels[px].orders[0] && f.Partial() && f.qty == f.leaves
    ensures Modify(cfg, b, f.contra.id, s, Some(f.contra.rank), Some(px), f.contra.qty - f.qty, f.contra.flags).book
         == Matched(cfg, b, s, px, One(b.Of(s).levels[px].orders, f))
  {
    hide Valid, LevelOk;
    var l := b.Of(s).levels[px];
    var o, k := l.orders[0], cfg.KeyOf(l.orders[0]);
    FirstFound(cfg, b, s, px);
    LevelIsOk(cfg, b, s, Some(px));
    PartialLevel(cfg, b, s, px, l, f);
    LeaveValid(cfg, b, k);
    var o' := o.(qty := o.qty - f.qty);
    EnterShape(cfg, Leave(cfg, b, o), o', Some(o.rank));
    var b' := Modify(cfg, b, o.id, s, Some(o.rank), Some(px), o.qty - f.qty, o.flags).book;
    assert b' == Enter(cfg, Leave(cfg, b, o), o', Some(o.rank));
    assert Traded([f]) == f.qty by { assert [f][1..] == []; }
    assert Filled(cfg, [f]) == {} by { assert [f][0] == f; }
    PartialShape(cfg, b, Leave(cfg, b, o), b', s, px, f);
  }

  lemma {:induction false} PartialShape(cfg: Config, b: Book, b1: Book, b': Book, s: Side, px: int, f: Fill)
    requires px in b.Of(s).levels && b.Of(s).levels[px].orders != []
    requires f.contra == b.Of(s).levels[px].orders[0] && f.Partial() && f.qty == f.leaves
    requires Traded([f]) == f.qty && Filled(cfg, [f]) == {}
    requires var l := b.Of(s).levels[px]; var o := l.orders[0]; var k := cfg.KeyOf(o);
      && o.side == s && o.price == Some(px)
      && k in b.index && b.index[k] == At(s, Some(px))
      && Replaced(cfg, b, b1, s, Some(px), Remaining(cfg, l, o))
      && b1.index == b.index - {k}
      && Replaced(cfg, b1, b', s, Some(px), MatchInvariant.After(l, One(l.orders, f)))
      && b'.index == b1.index[k := At(s, Some(px))]
    ensures b' == Matched(cfg, b, s, px, One(b.Of(s).levels[px].orders, f))
  {
    hide Traded, Filled, Remaining;
    var l := b.Of(s).levels[px];
    PutTwice(b.Of(s), px, Remaining(cfg, l, l.orders[0]), MatchInvariant.After(l, One(l.orders, f)));
    assert b'.index == b.index;
  }

  lemma {:induction false} PutTwice(x: OBSide, px: int, l1: Option<Level>, l2: Option<Level>)
    ensures x.Put(Some(px), l1).Put(Some(px), l2) == x.Put(Some(px), l2)
  {
  }

  lemma {:induction false} Applied(cfg: Config, b: Book, s: Side, f: Fill)
    ensures Apply(cfg, b, MsgOf(s, f)) ==
      if f.Partial()
      then Modify(cfg, b, f.contra.id, s, Some(f.contra.rank), Some(f.px), f.contra.qty - f.qty, f.contra.flags).book
      else Cancel(cfg, b, f.contra.id, s).book
  {
    hide Modify, Cancel;
  }

  lemma {:induction false} OneIsApply(cfg: Config, b: Book, s: Side, px: int, f: Fill)
    requires Valid(cfg, b) && !cfg.uniform && px in b.Of(s).levels && b.Of(s).levels[px].orders != []
    requires f.contra == b.Of(s).levels[px].orders[0] && f.px == px
    requires f.qty == if f.Partial() then f.leaves else f.contra.qty
    ensures Apply(cfg, b, MsgOf(s, f)) == Matched(cfg, b, s, px, One(b.Of(s).levels[px].orders, f))
  {
    Applied(cfg, b, s, f);
    hide Valid, Matched, One, Modify, Cancel, Apply, MsgOf;
    if f.Partial() {
      ModifyFirst(cfg, b, s, px, f);
    } else {
      CancelFirst(cfg, b, s, px, f);
    }
  }

  function Prepend(f: Fill, t: LevelMatch): LevelMatch {
    t.(fills := [f] + t.fills)
  }

  /** Matching the first order and then the rest of its level is matching the level. */
  lemma {:induction false} MatchedCompose(cfg: Config, b: Book, s: Side, px: int, f: Fill, t: LevelMatch)
    requires px in b.Of(s).levels && b.Of(s).levels[px].orders != []
    requires !f.Partial()
    requires var b1 := Matched(cfg, b, s, px, One(b.Of(s).levels[px].orders, f));
      px in b1.Of(s).levels
    ensures var b1 := Matched(cfg, b, s, px, One(b.Of(s).levels[px].orders, f));
      Matched(cfg, b, s, px, Prepend(f, t)) == Matched(cfg, b1, s, px, t)
  {
    hide Traded, Filled, SumQty;
    var os := b.Of(s).levels[px].orders;
    TradedCons(f, t.fills);
    FilledCons(cfg, f, t.fills);
    var b1 := Matched(cfg, b, s, px, One(os, f));
    assert b1.index - Filled(cfg, t.fills) == b.index - Filled(cfg, [f] + t.fills);
  }

  lemma {:induction false} TradedCons(f: Fill, fills: seq<Fill>)
    ensures Traded([f]) == f.qty && Traded([f] + fills) == f.qty + Traded(fills)
  {
    assert [f][1..] == [] && ([f] + fills)[1..] == fills;
  }

  lemma {:induction false} FilledOne(cfg: Config, f: Fill)
    requires !f.Partial()
    ensures Filled(cfg, [f]) == {cfg.KeyOf(f.contra)}
  {
    assert [f][0] == f;
  }

  lemma {:induction false} FilledCons(cfg: Config, f: Fill, fills: seq<Fill>)
    ensures Filled(cfg, [f] + fills) == Filled(cfg, [f]) + Filled(cfg, fills)
  {
    var all := [f] + fills;
    forall k | k in Filled(cfg, [f]) + Filled(cfg, fills) ensures k in Filled(cfg, all) {
      if k in Filled(cfg, fills) {
        var i :| 0 <= i < |fills| && !fills[i].Partial() && cfg.KeyOf(fills[i].contra) == k;
        assert all[i + 1] == fills[i];
      } else {
        assert all[0] == [f][0];
      }
    }
    forall k | k in Filled(cfg, all) ensures k in Filled(cfg, [f]) + Filled(cfg, fills) {
      var i :| 0 <= i < |all| && !all[i].Partial() && cfg.KeyOf(all[i].contra) == k;
      if i > 0 { assert all[i] == fills[i - 1]; } else { assert [f][0] == f; }
    }
  }

  lemma {:induction false} MatchedNothing(cfg: Config, b: Book, s: Side, px: int, m: LevelMatch)
    requires px in b.Of(s).levels && b.Of(s).levels[px].qty != 0
    requires m.fills == [] && m.rest == b.Of(s).levels[px].orders
    ensures Matched(cfg, b, s, px, m) == b
  {
    assert b.Of(s).levels[px := b.Of(s).levels[px]] == b.Of(s).levels;
  }

  /** Replaying the messages of a match within one level gives the level after the match. */
  lemma {:induction false} LevelReplay(cfg: Config, b: Book, s: Side, px: int, qty: int, cum: int, fill: FillFn)
    requires Valid(cfg, b) && !cfg.uniform && px in b.Of(s).levels
    ensures var m := MatchOrders(b.Of(s).levels[px].orders, px, qty, cum, fill);
      ApplyAll(cfg, b, MsgsOf(s, m.fills)) == Matched(cfg, b, s, px, m)
    decreases |b.Of(s).levels[px].orders|
  {
    hide Valid, Apply, Matched, MsgOf;
    var l := b.Of(s).levels[px];
    var os := l.orders;
    var m := MatchOrders(os, px, qty, cum, fill);
    if m.fills == [] {
      LevelNotEmpty(cfg, b, s, px);
      MatchedNothing(cfg, b, s, px, m);
    } else if os[0].qty < qty {
      LevelReplayNext(cfg, b, s, px, qty, cum, fill);
    } else {
      var f := m.fills[0];
      OneIsApply(cfg, b, s, px, f);
      assert m == One(os, f) && MsgsOf(s, m.fills) == [MsgOf(s, f)];
      assert ApplyAll(cfg, b, [MsgOf(s, f)]) == Apply(cfg, b, MsgOf(s, f)) by {
        assert [MsgOf(s, f)][1..] == [];
      }
    }
  }

  lemma {:induction false} LevelNotEmpty(cfg: Config, b: Book, s: Side, px: int)
    requires Valid(cfg, b) && px in b.Of(s).levels
    ensures b.Of(s).levels[px].qty != 0
  {
    LevelIsOk(cfg, b, s, Some(px));
    MatchInvariant.LevelPositive(cfg, b, s, Some(px), b.Of(s).levels[px]);
    SumQtyPositive(b.Of(s).levels[px].orders);
  }

  lemma {:induction false} LevelReplayNext(cfg: Config, b: Book, s: Side, px: int, qty: int, cum: int, fill: FillFn)
    requires Valid(cfg, b) && !cfg.uniform && px in b.Of(s).levels && b.Of(s).levels[px].orders != []
    requires var os := b.Of(s).levels[px].orders; os[0].qty < qty && !fill(Fill(qty, cum, px, os[0].qty, os[0]))
    ensures var m := MatchOrders(b.Of(s).levels[px].orders, px, qty, cum, fill);
      ApplyAll(cfg, b, MsgsOf(s, m.fills)) == Matched(cfg, b, s, px, m)
    decreases |b.Of(s).levels[px].orders|, 0
  {
    hide Valid, Apply;
    var l := b.Of(s).levels[px];
    var os := l.orders;
    var f := Fill(qty, cum, px, os[0].qty, os[0]);
    var m := MatchOrders(os, px, qty, cum, fill);
    var t := MatchOrders(os[1..], px, qty - os[0].qty, cum + os[0].qty, fill);
    assert m == Prepend(f, t);
    OneIsApply(cfg, b, s, px, f);
    var b1 := Matched(cfg, b, s, px, One(os, f));
    OneValid(cfg, b, s, px, f);
    assert os[1..] == [] ==> t.fills == [] && t.rest == [];
    hide MatchOrders;
    assert MsgsOf(s, m.fills) == [MsgOf(s, f)] + MsgsOf(s, t.fills);
    assert ([MsgOf(s, f)] + MsgsOf(s, t.fills))[1..] == MsgsOf(s, t.fills);
    if px in b1.Of(s).levels {
      assert b1.Of(s).levels[px].orders == os[1..];
      LevelReplay(cfg, b1, s, px, qty - os[0].qty, cum + os[0].qty, fill);
      MatchedCompose(cfg, b, s, px, f, t);
    } else {
      assert os[1..] == [] && t.fills == [] && m.fills == [f];
    }
  }

  /** The book after one full trade: valid, and without the level if that was its last order. */
  lemma {:induction false} OneValid(cfg: Config, b: Book, s: Side, px: int, f: Fill)
    requires Valid(cfg, b) && !cfg.uniform && px in b.Of(s).levels && b.Of(s).levels[px].orders != []
    requires var os := b.Of(s).levels[px].orders; f.contra == os[0] && f.qty == os[0].qty && !f.Partial()
    ensures var b1 := Matched(cfg, b, s, px, One(b.Of(s).levels[px].orders, f));
      && Valid(cfg, b1)
      && (px in b1.Of(s).levels <==> |b.Of(s).levels[px].orders| > 1)
      && (px in b1.Of(s).levels ==> b1.Of(s).levels[px].orders == b.Of(s).levels[px].orders[1..])
  {
    var l := b.Of(s).levels[px];
    LevelIsOk(cfg, b, s, Some(px));
    MatchInvariant.LevelPositive(cfg, b, s, Some(px), l);
    CancelFirst(cfg, b, s, px, f);
    CancelValid(cfg, b, f.contra.id, s);
    hide Valid, LevelOk, Cancel, Matched, One;
    OneLevel(cfg, b, s, px, f);
  }

  lemma {:induction false} OneLevel(cfg: Config, b: Book, s: Side, px: int, f: Fill)
    requires px in b.Of(s).levels && b.Of(s).levels[px].orders != []
    requires var l := b.Of(s).levels[px]; l.qty == SumQty(l.orders) && MatchInvariant.Positive(l.orders)
    requires var os := b.Of(s).levels[px].orders; f.contra == os[0] && f.qty == os[0].qty && !f.Partial()
    ensures var b1 := Matched(cfg, b, s, px, One(b.Of(s).levels[px].orders, f));
      && (px in b1.Of(s).levels <==> |b.Of(s).levels[px].orders| > 1)
      && (px in b1.Of(s).levels ==> b1.Of(s).levels[px].orders == b.Of(s).levels[px].orders[1..])
  {
    var os := b.Of(s).levels[px].orders;
    assert Traded([f]) == f.qty by { assert [f][1..] == []; }
    SumQtyPositive(os[1..]);
    hide Traded, Filled;
    assert |os| == 1 ==> os[1..] == [];
  }

  lemma {:induction false} MatchLevelReplay(cfg: Config, b: Book, s: Side, px: int, qty: int, cum: int, fill: FillFn)
    requires Valid(cfg, b) && !cfg.uniform
    ensures var m := MatchLevel(cfg, b, s, px, qty, cum, fill);
      ApplyAll(cfg, b, MsgsOf(s, m.fills)) == m.book
  {
    if px in b.Of(s).levels {
      LevelReplay(cfg, b, s, px, qty, cum, fill);
    }
  }

  lemma {:induction false} LadderReplay(cfg: Config, b: Book, s: Side, ps: seq<int>, limit: Price, qty: int, cum: int,
                                        fill: FillFn)
    requires Valid(cfg, b) && !cfg.uniform
    ensures var m := MatchLadder(cfg, b, s, ps, limit, qty, cum, fill);
      ApplyAll(cfg, b, MsgsOf(s, m.fills)) == m.book
    decreases |ps|
  {
    hide Valid, MatchLevel, MatchLadder, Apply, ApplyAll, MsgsOf;
    if ps == [] || !s.Within(limit, ps[0]) {
      ReplayNothing(cfg, b, s, ps, limit, qty, cum, fill);
    } else {
      var m := MatchLevel(cfg, b, s, ps[0], qty, cum, fill);
      MatchLevelReplay(cfg, b, s, ps[0], qty, cum, fill);
      MatchInvariant.MatchLevelValid(cfg, b, s, ps[0], qty, cum, fill);
      LadderUnfold(cfg, b, s, ps, limit, qty, cum, fill);
      if !m.aborted && m.leaves != 0 {
        var t := MatchLadder(cfg, m.book, s, ps[1..], limit, m.leaves, cum + Traded(m.fills), fill);
        LadderReplay(cfg, m.book, s, ps[1..], limit, m.leaves, cum + Traded(m.fills), fill);
        ApplyConcat(cfg, b, MsgsOf(s, m.fills), MsgsOf(s, t.fills));
        MsgsConcat(s, m.fills, t.fills);
      }
    }
  }

  lemma {:induction false} ReplayNothing(cfg: Config, b: Book, s: Side, ps: seq<int>, limit: Price, qty: int,
                                         cum: int, fill: FillFn)
    requires ps == [] || !s.Within(limit, ps[0])
    ensures var m := MatchLadder(cfg, b, s, ps, limit, qty, cum, fill);
      m.book == b && ApplyAll(cfg, b, MsgsOf(s, m.fills)) == b
  {
  }

  lemma {:induction false} MsgsConcat(s: Side, a: seq<Fill>, b: seq<Fill>)
    ensures MsgsOf(s, a + b) == MsgsOf(s, a) + MsgsOf(s, b)
  {
  }

  // ---- replication

  /** Without uniform ranks, every operation but a reduction takes the replica to the very book it takes
      its original to. */
  lemma {:induction false} ReplicaStep(cfg: Config, b: Book, op: Op)
    requires Valid(cfg, b) && !cfg.uniform && !op.OpReduce?
    ensures ApplyAll(cfg, b, Step(cfg, b, op).msgs) == Step(cfg, b, op).book
  {
    if op.OpMatch? {
      var s := op.taker.Opposite();
      LadderReplay(cfg, b, s, Ladder(s, b.Of(s).levels.Keys), op.limit, op.qty, 0, op.fill);
    } else {
      SingleMessage(cfg, b, op);
    }
  }

  /** An operation other than a match broadcasts itself, or an update it amounts to, or nothing. */
  lemma {:induction false} SingleMessage(cfg: Config, b: Book, op: Op)
    requires Valid(cfg, b) && !op.OpReduce? && !op.OpMatch?
    ensures var e := Step(cfg, b, op);
      (e.msgs == [] && e.book == b) || (|e.msgs| == 1 && e.msgs[1..] == [] && Apply(cfg, b, e.msgs[0]) == e.book)
  {
    hide Valid, Enter, Leave, UpdatePx;
    if op.OpCancel? && cfg.Key(op.side, op.id) in b.index {
      var i := FindFacts(cfg, b, cfg.Key(op.side, op.id));
    }
  }

  /** The messages of a whole run. */
  ghost function Broadcast(cfg: Config, b: Book, ops: seq<Op>): seq<Msg>
    decreases |ops|
  {
    if ops == [] then []
    else Step(cfg, b, ops[0]).msgs + Broadcast(cfg, Step(cfg, b, ops[0]).book, ops[1..])
  }

  lemma {:induction false} ReplicaRun(cfg: Config, b: Book, ops: seq<Op>)
    requires Valid(cfg, b) && !cfg.uniform && AllAllowed(cfg, b, ops)
    requires forall i | 0 <= i < |ops| :: !ops[i].OpReduce?
    ensures ApplyAll(cfg, b, Broadcast(cfg, b, ops)) == Run(cfg, b, ops)
    decreases |ops|
  {
    if ops != [] {
      var e := Step(cfg, b, ops[0]);
      ReplicaStep(cfg, b, ops[0]);
      StepValid(cfg, b, ops[0]);
      hide Valid, Step, Allowed;
      ReplicaRun(cfg, e.book, ops[1..]);
      ApplyConcat(cfg, b, e.msgs, Broadcast(cfg, e.book, ops[1..]));
    }
  }
}
