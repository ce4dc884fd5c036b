/** Exactly when a replica that is fed reductions stays in step. Reductions reorder its queues, so that a rank
    which was free in the book may be taken on the replica: it stays a valid book, and in step, if and only if
    every rank it is sent is free there. */
module Collisions {
  import opened Types
  import opened Levels
  import opened Ladders
  import opened Books
  import opened Invariant
  import opened Matching
  import opened Operations
  import opened Replica
  import opened Simulation
  import MatchInvariant
  import Priority

  // ---- free ranks

  /** None of the orders holds the rank, those apart. */
  ghost predicate Unheld(cfg: Config, os: seq<Order>, rank: nat, apart: set<OrderKey>) {
    forall i | 0 <= i < |os| :: os[i].rank != rank || cfg.KeyOf(os[i]) in apart
  }

  /** No order resting at a price holds the rank, those apart. */
  ghost predicate RankFree(cfg: Config, b: Book, s: Side, p: Price, rank: Option<nat>, apart: set<OrderKey>) {
    rank.Some? && b.LevelAt(s, p).Some? ==> Unheld(cfg, b.LevelAt(s, p).value.orders, rank.value, apart)
  }

  /** The rank a modification names is free where it puts the order. */
  ghost predicate AmendFree(cfg: Config, r: Book, k: OrderKey, rank: Option<nat>, price: Price, qty: int) {
    k in r.index && qty != 0 && Find(cfg, r, k).Some? ==>
      var o := Find(cfg, r, k).value;
      RankFree(cfg, r, o.side, if price.Some? then price else o.price, rank, {k})
  }

  /** The orders that messages cancel. */
  function Cancelled(cfg: Config, ms: seq<Msg>): set<OrderKey> {
    set i | 0 <= i < |ms| && ms[i].CancelOrder? :: cfg.Key(ms[i].side, ms[i].id)
  }

  /** The rank that a replica is sent is free there: the rank a feed names, or, for a match that ends with a partly
      filled order, the rank of that order, where neither it nor the orders used up count. */
  ghost predicate SentRankFree(cfg: Config, m: Book, r: Book, op: Op) {
    match op
    case OpAdd(id, side, rank, price, qty, flags) =>
      if cfg.Key(side, id) in r.index then AmendFree(cfg, r, cfg.Key(side, id), rank, price, qty)
      else RankFree(cfg, r, side, price, rank, {})
    case OpModify(id, side, rank, price, qty, flags) => AmendFree(cfg, r, cfg.Key(side, id), rank, price, qty)
    case OpMatch(taker, limit, qty, fill) =>
      var s, fills := taker.Opposite(), MatchBook(cfg, m, taker, limit, qty, fill).fills;
      fills != [] && fills[|fills| - 1].Partial() ==>
        var f := fills[|fills| - 1];
        RankFree(cfg, r, s, Some(f.px), Some(f.contra.rank),
                 {cfg.Key(s, f.contra.id)} + Cancelled(cfg, MsgsOf(s, fills)))
    case _ => true
  }

  lemma {:induction false} FitsIffFree(cfg: Config, r: Book, s: Side, p: Price, rank: Option<nat>, k: OrderKey)
    requires !cfg.uniform && (r.LevelAt(s, p).Some? ==> r.LevelAt(s, p).value.orders != [])
    ensures Fits(cfg, r, s, p, rank, Some(k)) <==> RankFree(cfg, r, s, p, rank, {k})
    ensures Fits(cfg, r, s, p, rank, None) <==> RankFree(cfg, r, s, p, rank, {})
  {
  }

  /** What fits into the book fits into a replica in step if and only if the rank is free there. */
  lemma {:induction false} SameRoom(cfg: Config, m: Book, r: Book, s: Side, p: Price, rank: Option<nat>,
                                    self: Option<OrderKey>)
    requires !cfg.uniform && InStep(cfg, m, r) && Fits(cfg, m, s, p, rank, self)
    ensures r.LevelAt(s, p).Some? ==> r.LevelAt(s, p).value.orders != []
  {
    assert SameLevel(m.LevelAt(s, p), r.LevelAt(s, p));
  }

  lemma {:induction false} MayAmendIff(cfg: Config, m: Book, r: Book, k: OrderKey, rank: Option<nat>, price: Price,
                                       qty: int)
    requires Valid(cfg, r) && !cfg.uniform && InStep(cfg, m, r) && MayModify(cfg, m, k, rank, price, qty)
    ensures MayModify(cfg, r, k, rank, price, qty) <==> AmendFree(cfg, r, k, rank, price, qty)
  {
    if k in r.index && qty != 0 {
      var i := FindFacts(cfg, r, k);
      hide Valid, Find, Fits, RankFree;
      assert SameOrder(Find(cfg, m, k), Find(cfg, r, k));
      var o := Find(cfg, r, k).value;
      var p := if price.Some? then price else o.price;
      SameRoom(cfg, m, r, o.side, p, rank, Some(k));
      FitsIffFree(cfg, r, o.side, p, rank, k);
    }
  }

  // ---- operations other than matches

  lemma {:induction false} AllowedIffFree(cfg: Config, m: Book, r: Book, op: Op)
    requires Valid(cfg, m) && Valid(cfg, r) && InStep(cfg, m, r) && !cfg.uniform
    requires Allowed(cfg, m, op) && !op.OpMatch?
    ensures Allowed(cfg, r, op) <==> SentRankFree(cfg, m, r, op)
  {
    hide Valid, Find, Fits, RankFree, AmendFree, MayModify, MayUpdate;
    match op
    case OpAdd(id, side, rank, price, qty, flags) =>
      var k := cfg.Key(side, id);
      if k in m.index {
        MayAmendIff(cfg, m, r, k, rank, price, qty);
      } else {
        SameRoom(cfg, m, r, side, price, rank, None);
        FitsIffFree(cfg, r, side, price, rank, k);
      }
    case OpModify(id, side, rank, price, qty, flags) =>
      MayAmendIff(cfg, m, r, cfg.Key(side, id), rank, price, qty);
    case OpPxLevel(_, _, _, _, _, _) => UnrankedAllowed(cfg, m, r, op);
    case _ =>
  }

  lemma {:induction false} CallStaysIff(cfg: Config, m: Book, r: Book, op: Op)
    requires Valid(cfg, m) && Valid(cfg, r) && InStep(cfg, m, r) && !cfg.uniform
    requires Allowed(cfg, m, op) && !op.OpMatch? && !op.OpReduce?
    ensures StaysValid(cfg, r, Step(cfg, m, op).msgs) <==> SentRankFree(cfg, m, r, op)
  {
    AllowedIffFree(cfg, m, r, op);
    StepValid(cfg, r, op);
    SingleMessage(cfg, m, op);
    hide Valid, SentRankFree;
    var ms := Step(cfg, m, op).msgs;
    if ms == [] {
      NothingSent(cfg, m, r, op);
    } else {
      SentAsCalled(cfg, m, r, op);
    }
  }

  /** Only an order that is not there goes without a message. */
  lemma {:induction false} NothingSent(cfg: Config, m: Book, r: Book, op: Op)
    requires m.index == r.index && !op.OpMatch? && Step(cfg, m, op).msgs == []
    requires forall k | k in m.index :: Find(cfg, m, k).Some?
    ensures SentRankFree(cfg, m, r, op)
  {
  }

  // ---- cancellations first

  /** Cancelling an order frees its rank and touches no other. */
  lemma {:induction false} CancelFrees(cfg: Config, r: Book, id: OrderId, side: Side, s: Side, p: Price,
                                       rank: Option<nat>, apart: set<OrderKey>)
    requires Valid(cfg, r) && !cfg.uniform
    ensures RankFree(cfg, Cancel(cfg, r, id, side).book, s, p, rank, apart)
       <==> RankFree(cfg, r, s, p, rank, apart + {cfg.Key(side, id)})
  {
    var k := cfg.Key(side, id);
    if k in r.index && r.index[k] == At(s, p) {
      CancelHere(cfg, r, id, side, s, p, rank, apart);
    } else {
      CancelElsewhere(cfg, r, id, side, s, p);
      NotThere(cfg, r, s, p, k, rank, apart);
    }
  }

  lemma {:induction false} CancelHere(cfg: Config, r: Book, id: OrderId, side: Side, s: Side, p: Price,
                                      rank: Option<nat>, apart: set<OrderKey>)
    requires Valid(cfg, r) && !cfg.uniform && cfg.Key(side, id) in r.index && r.index[cfg.Key(side, id)] == At(s, p)
    ensures RankFree(cfg, Cancel(cfg, r, id, side).book, s, p, rank, apart)
       <==> RankFree(cfg, r, s, p, rank, apart + {cfg.Key(side, id)})
  {
    hide Valid, Find, Leave, Unheld, LevelOk, Delete;
    var k := cfg.Key(side, id);
    var i := FindFacts(cfg, r, k);
    LeaveValid(cfg, r, k);
    LevelIsOk(cfg, r, s, p);
    LastLeaves(cfg, r, s, p, i);
    if rank.Some? {
      DeleteFrees(cfg, r, s, p, i, rank.value, apart);
    }
  }

  lemma {:induction false} CancelElsewhere(cfg: Config, r: Book, id: OrderId, side: Side, s: Side, p: Price)
    requires Valid(cfg, r)
    requires cfg.Key(side, id) in r.index ==> r.index[cfg.Key(side, id)] != At(s, p)
    ensures Cancel(cfg, r, id, side).book.LevelAt(s, p) == r.LevelAt(s, p)
  {
    hide Valid, Leave;
    var k := cfg.Key(side, id);
    if k in r.index {
      var i := FindFacts(cfg, r, k);
      LeaveValid(cfg, r, k);
      var o := Find(cfg, r, k).value;
      OtherLevelsStay(cfg, r, Leave(cfg, r, o), o.side, o.price, Remaining(cfg, r.LevelAt(o.side, o.price).value, o));
    }
  }

  /** A level goes with its last order. */
  lemma {:induction false} LastLeaves(cfg: Config, r: Book, s: Side, p: Price, i: nat)
    requires Valid(cfg, r) && r.LevelAt(s, p).Some? && i < |r.LevelAt(s, p).value.orders|
    ensures var l := r.LevelAt(s, p).value;
      Remaining(cfg, l, l.orders[i]).None? ==> Delete(cfg.uniform, l.orders, l.orders[i].rank) == []
  {
    LevelIsOk(cfg, r, s, p);
    var l := r.LevelAt(s, p).value;
    DeleteAt(cfg.uniform, l.orders, i);
    LeaveLevelOk(cfg, r, r.(index := r.index - {cfg.KeyOf(l.orders[i])}), s, p, i);
  }

  lemma {:induction false} DeleteFrees(cfg: Config, r: Book, s: Side, p: Price, i: nat, rank: nat,
                                       apart: set<OrderKey>)
    requires Valid(cfg, r) && r.LevelAt(s, p).Some? && i < |r.LevelAt(s, p).value.orders|
    ensures var os := r.LevelAt(s, p).value.orders;
      Unheld(cfg, Delete(false, os, os[i].rank), rank, apart) <==> Unheld(cfg, os, rank, apart + {cfg.KeyOf(os[i])})
    ensures Unheld(cfg, [], rank, apart)
  {
    LevelIsOk(cfg, r, s, p);
    hide Valid;
    var os := r.LevelAt(s, p).value.orders;
    assert OrderOk(cfg, r, s, p, os[i]);
    forall j | 0 <= j < |os| && j != i ensures cfg.KeyOf(os[j]) != cfg.KeyOf(os[i]) {
      assert OrderOk(cfg, r, s, p, os[j]);
      assert os[j].id != os[i].id;
    }
    DeleteAt(false, os, i);
    var t := Delete(false, os, os[i].rank);
    assert t == os[..i] + os[i + 1..];
    hide Delete, LevelOk;
    UnheldWithout(cfg, os, i, rank, apart);
  }

  lemma {:induction false} UnheldWithout(cfg: Config, os: seq<Order>, i: nat, rank: nat, apart: set<OrderKey>)
    requires i < |os| && forall j | 0 <= j < |os| && j != i :: cfg.KeyOf(os[j]) != cfg.KeyOf(os[i])
    ensures Unheld(cfg, os[..i] + os[i + 1..], rank, apart) <==> Unheld(cfg, os, rank, apart + {cfg.KeyOf(os[i])})
  {
    var t := os[..i] + os[i + 1..];
    if Unheld(cfg, t, rank, apart) {
      forall j | 0 <= j < |os| ensures os[j].rank != rank || cfg.KeyOf(os[j]) in apart + {cfg.KeyOf(os[i])} {
        if j != i { assert os[j] == t[if j < i then j else j - 1]; }
      }
    }
    if Unheld(cfg, os, rank, apart + {cfg.KeyOf(os[i])}) {
      forall j | 0 <= j < |t| ensures t[j].rank != rank || cfg.KeyOf(t[j]) in apart {
        assert t[j] == os[if j < i then j else j + 1];
      }
    }
  }

  lemma {:induction false} NotThere(cfg: Config, r: Book, s: Side, p: Price, k: OrderKey, rank: Option<nat>,
                                    apart: set<OrderKey>)
    requires Valid(cfg, r) && (k in r.index ==> r.index[k] != At(s, p))
    ensures RankFree(cfg, r, s, p, rank, apart) <==> RankFree(cfg, r, s, p, rank, apart + {k})
  {
    if r.LevelAt(s, p).Some? {
      LevelIsOk(cfg, r, s, p);
      hide Valid;
      var os := r.LevelAt(s, p).value.orders;
      forall i | 0 <= i < |os| ensures cfg.KeyOf(os[i]) != k {
        assert OrderOk(cfg, r, s, p, os[i]);
      }
    }
  }

  predicate AllCancels(ms: seq<Msg>) {
    forall i | 0 <= i < |ms| :: ms[i].CancelOrder?
  }

  lemma {:induction false} CancelledCons(cfg: Config, ms: seq<Msg>)
    requires ms != [] && ms[0].CancelOrder?
    ensures Cancelled(cfg, ms) == {cfg.Key(ms[0].side, ms[0].id)} + Cancelled(cfg, ms[1..])
  {
    forall k | k in Cancelled(cfg, ms) ensures k in {cfg.Key(ms[0].side, ms[0].id)} + Cancelled(cfg, ms[1..]) {
      var i :| 0 <= i < |ms| && ms[i].CancelOrder? && cfg.Key(ms[i].side, ms[i].id) == k;
      if i > 0 { assert ms[1..][i - 1] == ms[i]; }
    }
    forall k | k in Cancelled(cfg, ms[1..]) ensures k in Cancelled(cfg, ms) {
      var i :| 0 <= i < |ms[1..]| && ms[1..][i].CancelOrder? && cfg.Key(ms[1..][i].side, ms[1..][i].id) == k;
      assert ms[1..][i] == ms[i + 1];
    }
  }

  /** Cancellations keep a book valid, and free the ranks of the orders they cancel, no others. */
  lemma {:induction false} CancelsFree(cfg: Config, r: Book, ms: seq<Msg>, s: Side, p: Price, rank: Option<nat>,
                                       apart: set<OrderKey>)
    requires Valid(cfg, r) && !cfg.uniform && AllCancels(ms)
    ensures StaysValid(cfg, r, ms) && Valid(cfg, ApplyAll(cfg, r, ms))
    ensures RankFree(cfg, ApplyAll(cfg, r, ms), s, p, rank, apart)
       <==> RankFree(cfg, r, s, p, rank, apart + Cancelled(cfg, ms))
    decreases |ms|
  {
    hide Valid, RankFree, Cancel;
    if ms == [] {
      assert apart + Cancelled(cfg, ms) == apart;
    } else {
      var k := cfg.Key(ms[0].side, ms[0].id);
      CancelValid(cfg, r, ms[0].id, ms[0].side);
      CancelsFree(cfg, Apply(cfg, r, ms[0]), ms[1..], s, p, rank, apart);
      CancelFrees(cfg, r, ms[0].id, ms[0].side, s, p, rank, apart + Cancelled(cfg, ms[1..]));
      CancelledCons(cfg, ms);
      assert apart + Cancelled(cfg, ms[1..]) + {k} == apart + Cancelled(cfg, ms);
    }
  }

  // ---- the partly filled order of a match

  /** The order that a fill of side `s` leaves partly filled still rests at its price. */
  ghost predicate StillRests(cfg: Config, b: Book, s: Side, f: Fill) {
    var k := cfg.Key(s, f.contra.id);
    f.contra.side == s && k in b.index && b.index[k] == At(s, Some(f.px))
  }

  ghost predicate LastStillRests(cfg: Config, b: Book, s: Side, fills: seq<Fill>) {
    fills != [] && fills[|fills| - 1].Partial() ==> StillRests(cfg, b, s, fills[|fills| - 1])
  }

  lemma {:induction false} LevelLastRests(cfg: Config, b: Book, s: Side, px: int, qty: int, cum: int, fill: FillFn)
    requires Valid(cfg, b)
    ensures var m := MatchLevel(cfg, b, s, px, qty, cum, fill);
      && LastStillRests(cfg, m.book, s, m.fills)
      && (m.fills != [] && m.fills[|m.fills| - 1].Partial() ==> m.leaves == 0)
  {
    if px in b.Of(s).levels {
      var os := b.Of(s).levels[px].orders;
      var m := MatchOrders(os, px, qty, cum, fill);
      MatchInvariant.MatchOrdersPrefix(os, px, qty, cum, fill);
      FillsAt(os, px, qty, cum, fill);
      MatchInvariant.MatchLevelValid(cfg, b, s, px, qty, cum, fill);
      Priority.MatchLevelOrders(cfg, b, s, px, qty, cum, fill);
      hide Valid, MatchOrders;
      if m.fills != [] && m.fills[|m.fills| - 1].Partial() {
        var b' := MatchLevel(cfg, b, s, px, qty, cum, fill).book;
        assert Priority.OrdersAt(b'.Of(s), px) == m.rest && m.rest != [];
        LevelIsOk(cfg, b', s, Some(px));
        assert OrderOk(cfg, b', s, Some(px), m.rest[0]);
      }
    }
  }

  ghost predicate AllAt(fills: seq<Fill>, px: int) {
    forall i | 0 <= i < |fills| :: fills[i].px == px
  }

  lemma {:induction false} FillsAt(os: seq<Order>, px: int, qty: int, cum: int, fill: FillFn)
    ensures AllAt(MatchOrders(os, px, qty, cum, fill).fills, px)
  {
    if os != [] && os[0].qty < qty && !fill(Fill(qty, cum, px, os[0].qty, os[0])) {
      FillsAt(os[1..], px, qty - os[0].qty, cum + os[0].qty, fill);
      AllAtCons(Fill(qty, cum, px, os[0].qty, os[0]),
                MatchOrders(os[1..], px, qty - os[0].qty, cum + os[0].qty, fill).fills, px);
    }
  }

  lemma {:induction false} AllAtCons(f: Fill, fills: seq<Fill>, px: int)
    requires f.px == px && AllAt(fills, px)
    ensures AllAt([f] + fills, px)
  {
  }

  lemma {:induction false} LadderLastRests(cfg: Config, b: Book, s: Side, ps: seq<int>, limit: Price, qty: int,
                                           cum: int, fill: FillFn)
    requires Valid(cfg, b)
    ensures var m := MatchLadder(cfg, b, s, ps, limit, qty, cum, fill); LastStillRests(cfg, m.book, s, m.fills)
    decreases |ps|
  {
    hide *;
    if ps == [] || !s.Within(limit, ps[0]) {
      NothingLast(cfg, b, s, ps, limit, qty, cum, fill);
    } else {
      var m := MatchLevel(cfg, b, s, ps[0], qty, cum, fill);
      LevelLastRests(cfg, b, s, ps[0], qty, cum, fill);
      MatchInvariant.MatchLevelValid(cfg, b, s, ps[0], qty, cum, fill);
      LadderUnfold(cfg, b, s, ps, limit, qty, cum, fill);
      if !m.aborted && m.leaves != 0 {
        var t := MatchLadder(cfg, m.book, s, ps[1..], limit, m.leaves, cum + Traded(m.fills), fill);
        LadderLastRests(cfg, m.book, s, ps[1..], limit, m.leaves, cum + Traded(m.fills), fill);
        LastOfBoth(cfg, s, m, t);
      }
    }
  }

  lemma {:induction false} NothingLast(cfg: Config, b: Book, s: Side, ps: seq<int>, limit: Price, qty: int, cum: int,
                                       fill: FillFn)
    requires ps == [] || !s.Within(limit, ps[0])
    ensures var m := MatchLadder(cfg, b, s, ps, limit, qty, cum, fill); LastStillRests(cfg, m.book, s, m.fills)
  {
  }

  lemma {:induction false} LastOfBoth(cfg: Config, s: Side, m: Match, t: Match)
    requires LastStillRests(cfg, t.book, s, t.fills)
    requires m.fills != [] ==> !m.fills[|m.fills| - 1].Partial()
    ensures LastStillRests(cfg, Then(m, t).book, s, Then(m, t).fills)
  {
  }

  // ---- matches

  /** The last message of a match that ends with a partly filled order. */
  lemma {:induction false} PartialStaysIff(cfg: Config, m: Book, r: Book, f: Fill, s: Side)
    requires Valid(cfg, m) && Valid(cfg, r) && InStep(cfg, m, r) && !cfg.uniform && f.Partial()
    requires Valid(cfg, Apply(cfg, m, MsgOf(s, f))) && StillRests(cfg, Apply(cfg, m, MsgOf(s, f)), s, f)
    ensures Valid(cfg, Apply(cfg, r, MsgOf(s, f)))
       <==> RankFree(cfg, r, s, Some(f.px), Some(f.contra.rank), {cfg.Key(s, f.contra.id)})
  {
    hide Valid, Modify, RankFree;
    var id, rank, px, q := f.contra.id, Some(f.contra.rank), Some(f.px), f.contra.qty - f.qty;
    var k := cfg.Key(s, id);
    Applied(cfg, m, s, f);
    Applied(cfg, r, s, f);
    ModifyValid(cfg, m, id, s, rank, px, q, f.contra.flags);
    ModifyValid(cfg, r, id, s, rank, px, q, f.contra.flags);
    MayAmendIff(cfg, m, r, k, rank, px, q);
    ModifiedThere(cfg, m, id, s, rank, f.px, q, f.contra.flags);
    var i := FindFacts(cfg, m, k);
    var j := FindFacts(cfg, r, k);
    assert SameOrder(Find(cfg, m, k), Find(cfg, r, k));
  }

  /** An order that rests at a price after a modification was there to be modified, on the same side. */
  lemma {:induction false} ModifiedThere(cfg: Config, m: Book, id: OrderId, s: Side, rank: Option<nat>, px: int,
                                         qty: int, flags: Flags)
    requires Valid(cfg, m) && Valid(cfg, Modify(cfg, m, id, s, rank, Some(px), qty, flags).book)
    requires var m' := Modify(cfg, m, id, s, rank, Some(px), qty, flags).book;
      cfg.Key(s, id) in m'.index && m'.index[cfg.Key(s, id)] == At(s, Some(px))
    ensures var k := cfg.Key(s, id);
      k in m.index && qty != 0 && Find(cfg, m, k).Some? && Find(cfg, m, k).value.side == s
  {
    hide Valid, Leave, Enter;
    var k := cfg.Key(s, id);
    if k in m.index {
      var i := FindFacts(cfg, m, k);
      LeaveValid(cfg, m, k);
      var o := Find(cfg, m, k).value;
      if qty != 0 {
        EnterShape(cfg, Leave(cfg, m, o), Amended(o, Some(px), qty, flags), rank);
      }
    }
  }

  /** The messages of a match. */
  lemma {:induction false} MatchStaysIff(cfg: Config, m: Book, r: Book, s: Side, fills: seq<Fill>, m': Book)
    requires Valid(cfg, m) && Valid(cfg, r) && InStep(cfg, m, r) && !cfg.uniform
    requires ApplyAll(cfg, m, MsgsOf(s, fills)) == m' && Valid(cfg, m')
    requires CancelsFirst(MsgsOf(s, fills)) && LastStillRests(cfg, m', s, fills)
    ensures Valid(cfg, ApplyAll(cfg, r, MsgsOf(s, fills))) <==>
      (fills != [] && fills[|fills| - 1].Partial() ==>
        var f := fills[|fills| - 1];
        RankFree(cfg, r, s, Some(f.px), Some(f.contra.rank),
          {cfg.Key(s, f.contra.id)} + Cancelled(cfg, MsgsOf(s, fills))))
  {
    hide Valid, InStep, RankFree, ApplyAll, StillRests, Cancelled;
    var ms := MsgsOf(s, fills);
    if fills == [] || !fills[|fills| - 1].Partial() {
      CancelsFree(cfg, r, ms, s, None, None, {});
    } else {
      var n, f := |ms| - 1, fills[|ms| - 1];
      assert ms == ms[..n] + [MsgOf(s, f)];
      SplitStaysIff(cfg, m, r, s, ms[..n], f, m');
      CancelledInit(cfg, ms);
    }
  }

  lemma {:induction false} CancelledInit(cfg: Config, ms: seq<Msg>)
    requires ms != [] && !ms[|ms| - 1].CancelOrder?
    ensures Cancelled(cfg, ms) == Cancelled(cfg, ms[..|ms| - 1])
  {
    forall k | k in Cancelled(cfg, ms) ensures k in Cancelled(cfg, ms[..|ms| - 1]) {
      var i :| 0 <= i < |ms| && ms[i].CancelOrder? && cfg.Key(ms[i].side, ms[i].id) == k;
      assert ms[..|ms| - 1][i] == ms[i];
    }
  }

  lemma {:induction false} ApplyOne(cfg: Config, r: Book, msg: Msg)
    ensures ApplyAll(cfg, r, [msg]) == Apply(cfg, r, msg)
  {
    hide Apply;
    assert [msg][1..] == [];
  }

  lemma {:induction false} SplitStaysIff(cfg: Config, m: Book, r: Book, s: Side, cancels: seq<Msg>, f: Fill, m': Book)
    requires Valid(cfg, m) && Valid(cfg, r) && InStep(cfg, m, r) && !cfg.uniform
    requires AllCancels(cancels) && f.Partial()
    requires ApplyAll(cfg, m, cancels + [MsgOf(s, f)]) == m' && Valid(cfg, m') && StillRests(cfg, m', s, f)
    ensures Valid(cfg, ApplyAll(cfg, r, cancels + [MsgOf(s, f)]))
       <==> RankFree(cfg, r, s, Some(f.px), Some(f.contra.rank), {cfg.Key(s, f.contra.id)} + Cancelled(cfg, cancels))
  {
    hide *;
    CancelsFree(cfg, m, cancels, s, None, None, {});
    CancelsFree(cfg, r, cancels, s, Some(f.px), Some(f.contra.rank), {cfg.Key(s, f.contra.id)});
    MessagesInStep(cfg, m, r, cancels);
    ApplyConcat(cfg, m, cancels, [MsgOf(s, f)]);
    ApplyConcat(cfg, r, cancels, [MsgOf(s, f)]);
    ApplyOne(cfg, ApplyAll(cfg, m, cancels), MsgOf(s, f));
    ApplyOne(cfg, ApplyAll(cfg, r, cancels), MsgOf(s, f));
    PartialStaysIff(cfg, ApplyAll(cfg, m, cancels), ApplyAll(cfg, r, cancels), f, s);
  }

  // ---- steps and runs

  lemma {:induction false} MatchOpStaysIff(cfg: Config, m: Book, r: Book, op: Op)
    requires Valid(cfg, m) && Valid(cfg, r) && InStep(cfg, m, r) && !cfg.uniform && op.OpMatch?
    ensures Valid(cfg, ApplyAll(cfg, r, Step(cfg, m, op).msgs)) <==> SentRankFree(cfg, m, r, op)
  {
    hide Valid, InStep, RankFree, ApplyAll, MatchLadder, LastStillRests;
    var s := op.taker.Opposite();
    LadderLastRests(cfg, m, s, Ladder(s, m.Of(s).levels.Keys), op.limit, op.qty, 0, op.fill);
    MatchMessages(cfg, m, op.taker, op.limit, op.qty, op.fill);
    ReplicaStep(cfg, m, op);
    MatchInvariant.MatchValid(cfg, m, op.taker, op.limit, op.qty, 0, op.fill);
    MatchStaysIff(cfg, m, r, s, MatchBook(cfg, m, op.taker, op.limit, op.qty, op.fill).fills, Step(cfg, m, op).book);
  }

  /** A replica in step is a valid book, and in step, after an allowed operation if and only if the rank it is sent
      is free there. */
  lemma {:induction false} StepInStepIff(cfg: Config, m: Book, r: Book, op: Op)
    requires Valid(cfg, m) && Valid(cfg, r) && InStep(cfg, m, r) && !cfg.uniform && Allowed(cfg, m, op)
    ensures var r' := ApplyAll(cfg, r, Step(cfg, m, op).msgs);
      Valid(cfg, r') && InStep(cfg, Step(cfg, m, op).book, r') <==> SentRankFree(cfg, m, r, op)
  {
    hide Valid, InStep, Step, Allowed, SentRankFree, ApplyAll, StaysValid;
    var ms := Step(cfg, m, op).msgs;
    if op.OpReduce? {
      ReducedRankFree(cfg, m, r, op);
      StepInStep(cfg, m, r, op);
    } else {
      if op.OpMatch? {
        MatchOpStaysIff(cfg, m, r, op);
      } else {
        CallStaysIff(cfg, m, r, op);
      }
      StepMessages(cfg, m, op);
      if Valid(cfg, ApplyAll(cfg, r, ms)) {
        CancelsStayValid(cfg, r, ms);
        StepInStep(cfg, m, r, op);
      }
      if StaysValid(cfg, r, ms) {
        StepInStep(cfg, m, r, op);
      }
    }
  }

  lemma {:induction false} ReducedRankFree(cfg: Config, m: Book, r: Book, op: Op)
    requires op.OpReduce?
    ensures SentRankFree(cfg, m, r, op)
  {
  }

  /** Every rank that is sent to the replica during a run is free there when it arrives. */
  ghost predicate RanksFree(cfg: Config, m: Book, r: Book, ops: seq<Op>)
    decreases |ops|
  {
    ops == [] ||
      var e := Step(cfg, m, ops[0]);
      SentRankFree(cfg, m, r, ops[0]) && RanksFree(cfg, e.book, ApplyAll(cfg, r, e.msgs), ops[1..])
  }

  /** The replica is a valid book, and in step, all through a run. */
  ghost predicate InStepThroughout(cfg: Config, m: Book, r: Book, ops: seq<Op>)
    decreases |ops|
  {
    && Valid(cfg, r) && InStep(cfg, m, r)
    && (ops == [] ||
          var e := Step(cfg, m, ops[0]);
          InStepThroughout(cfg, e.book, ApplyAll(cfg, r, e.msgs), ops[1..]))
  }

  /** Over any run of allowed operations, reductions and matches included, a replica remains a valid book that
      holds the same orders and the same levels if and only if every rank it is sent is free there. */
  lemma {:induction false} RunInStepIff(cfg: Config, m: Book, r: Book, ops: seq<Op>)
    requires Valid(cfg, m) && Valid(cfg, r) && InStep(cfg, m, r) && !cfg.uniform && AllAllowed(cfg, m, ops)
    ensures InStepThroughout(cfg, m, r, ops) <==> RanksFree(cfg, m, r, ops)
    decreases |ops|
  {
    hide Valid, InStep, Step, Allowed, SentRankFree, ApplyAll;
    if ops != [] {
      var e := Step(cfg, m, ops[0]);
      var r' := ApplyAll(cfg, r, e.msgs);
      StepInStepIff(cfg, m, r, ops[0]);
      StepValid(cfg, m, ops[0]);
      if Valid(cfg, r') && InStep(cfg, e.book, r') {
        RunInStepIff(cfg, e.book, r', ops[1..]);
      }
    }
  }

  /** In particular it ends in step. */
  lemma {:induction false} RunInStep(cfg: Config, m: Book, r: Book, ops: seq<Op>)
    requires Valid(cfg, m) && Valid(cfg, r) && InStep(cfg, m, r) && !cfg.uniform && AllAllowed(cfg, m, ops)
    requires RanksFree(cfg, m, r, ops)
    ensures InStep(cfg, Run(cfg, m, ops), ApplyAll(cfg, r, Broadcast(cfg, m, ops)))
  {
    RunInStepIff(cfg, m, r, ops);
    EndsInStep(cfg, m, r, ops);
  }

  lemma {:induction false} EndsInStep(cfg: Config, m: Book, r: Book, ops: seq<Op>)
    requires InStepThroughout(cfg, m, r, ops)
    ensures InStep(cfg, Run(cfg, m, ops), ApplyAll(cfg, r, Broadcast(cfg, m, ops)))
    decreases |ops|
  {
    hide Valid, InStep, Step, Apply;
    if ops != [] {
      var e := Step(cfg, m, ops[0]);
      EndsInStep(cfg, e.book, ApplyAll(cfg, r, e.msgs), ops[1..]);
      ApplyConcat(cfg, r, e.msgs, Broadcast(cfg, e.book, ops[1..]));
    }
  }
}
