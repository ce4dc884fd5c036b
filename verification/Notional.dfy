/** The running notional value of a book side: a sum of products each truncated to whole units, kept by
    addition and subtraction, against the exact sum of price times quantity over the side's levels. */
module Notional {
  import opened Types
  import opened Levels
  import opened Ladders
  import opened Books
  import opened Invariant
  import opened Matching
  import opened Operations
  import opened FixedPoint
  import opened RunningValue
  import MatchInvariant
  import Simulation
  import Sums

  /** What exact arithmetic would make of the same updates, in units of 10^-ndp. */
  function ExactAfter(x: int, us: seq<NvUpdate>, s: Side): int
    decreases |us|
  {
    if us == [] then x else ExactAfter(ExactUpdate(x, us[0], s), us[1..], s)
  }

  function ExactUpdate(x: int, u: NvUpdate, s: Side): int {
    if u.side != s then x else
      match u
      case Moved(_, px, qty) => x + px * qty
      case Withdrawn(_, px, qty) => x - px * qty
      case Cleared(_) => 0
  }

  lemma {:induction false} ExactConcat(x: int, us: seq<NvUpdate>, vs: seq<NvUpdate>, s: Side)
    ensures ExactAfter(x, us + vs, s) == ExactAfter(ExactAfter(x, us, s), vs, s)
    decreases |us|
  {
    if us == [] {
      assert us + vs == vs;
    } else {
      assert (us + vs)[1..] == us[1..] + vs;
      ExactConcat(ExactUpdate(x, us[0], s), us[1..], vs, s);
    }
  }

  /** No product overflows. */
  predicate InRange(u: NvUpdate, ndp: nat) {
    u.Cleared? || Quotient(u.px * u.qty, Pow10(ndp)) < MAX_PRODUCT
  }

  predicate AllInRange(us: seq<NvUpdate>, ndp: nat) {
    forall i | 0 <= i < |us| :: InRange(us[i], ndp)
  }

  /** The running value is off by less than one unit for every update since it was last zeroed. */
  predicate WithinDrift(n: Running, x: int, ndp: nat) {
    -(n.updates * (Pow10(ndp) - 1)) <= n.nv * Pow10(ndp) - x <= n.updates * (Pow10(ndp) - 1)
  }

  lemma {:induction false} UpdateDrift(n: Running, x: int, u: NvUpdate, s: Side, ndp: nat)
    requires WithinDrift(n, x, ndp) && InRange(u, ndp)
    ensures WithinDrift(Revalued(n, u, s, ndp), ExactUpdate(x, u, s), ndp)
  {
    if u.side == s && !u.Cleared? {
      var d, a := Pow10(ndp), u.px * u.qty;
      QuotientError(a, d);
      var q, k := Quotient(a, d), n.updates * (d - 1);
      assert (n.nv + q) * d == n.nv * d + q * d;
      assert (n.nv - q) * d == n.nv * d - q * d;
      assert (n.updates + 1) * (d - 1) == k + (d - 1);
    }
  }

  lemma {:induction false} UpdatesDrift(n: Running, x: int, us: seq<NvUpdate>, s: Side, ndp: nat)
    requires WithinDrift(n, x, ndp) && AllInRange(us, ndp)
    ensures WithinDrift(RevaluedAll(n, us, s, ndp), ExactAfter(x, us, s), ndp)
    decreases |us|
  {
    hide WithinDrift, InRange, Revalued, ExactUpdate;
    if us != [] {
      UpdateDrift(n, x, us[0], s, ndp);
      forall i | 0 <= i < |us[1..]| ensures InRange(us[1..][i], ndp) {
        assert us[1..][i] == us[i + 1];
      }
      UpdatesDrift(Revalued(n, us[0], s, ndp), ExactUpdate(x, us[0], s), us[1..], s, ndp);
    }
  }

  // ---- the exact value of a side

  function Values(levels: map<int, Level>): map<int, int> {
    map p | p in levels :: p * levels[p].qty
  }

  /** Price times quantity, summed over the limit levels of a side. */
  ghost function Exact(b: Book, s: Side): int {
    Sums.Sum(Values(b.Of(s).levels))
  }

  function ValueOf(p: Price, l: Option<Level>): int {
    if p.Some? && l.Some? then p.value * l.value.qty else 0
  }

  lemma {:induction false} PutExact(x: OBSide, p: Price, l: Option<Level>)
    ensures Sums.Sum(Values(x.Put(p, l).levels))
      == Sums.Sum(Values(x.levels)) - ValueOf(p, x.LevelAt(p)) + ValueOf(p, l)
  {
    if p.Some? {
      var m := Values(x.levels);
      if l.Some? {
        assert Values(x.Put(p, l).levels) == m[p.value := p.value * l.value.qty];
        Sums.SumUpdate(m, p.value, p.value * l.value.qty);
      } else {
        assert Values(x.Put(p, l).levels) == m - {p.value};
        Sums.SumDelete(m, p.value);
      }
    }
  }

  lemma {:induction false} ReplacedExact(cfg: Config, b: Book, b': Book, s: Side, p: Price, l: Option<Level>, s2: Side)
    requires Replaced(cfg, b, b', s, p, l)
    ensures Exact(b', s2) == Exact(b, s2) + if s2 == s then ValueOf(p, l) - ValueOf(p, b.LevelAt(s, p)) else 0
  {
    PutExact(b.Of(s), p, l);
    if s2 != s { assert s2 == s.Opposite(); }
  }

  /** The updates `us` are exactly what changes on both sides. */
  ghost predicate Followed(b: Book, b': Book, us: seq<NvUpdate>) {
    forall s: Side :: Exact(b', s) == ExactAfter(Exact(b, s), us, s)
  }

  lemma {:induction false} ValuesConcat(a: Book, b: Book, c: Book, us: seq<NvUpdate>, vs: seq<NvUpdate>)
    requires Followed(a, b, us) && Followed(b, c, vs)
    ensures Followed(a, c, us + vs)
  {
    forall s: Side ensures Exact(c, s) == ExactAfter(Exact(a, s), us + vs, s) {
      ExactConcat(Exact(a, s), us, vs, s);
      assert Exact(b, s) == ExactAfter(Exact(a, s), us, s);
    }
  }

  lemma {:induction false} ValuesNothing(b: Book)
    ensures Followed(b, b, [])
  {
  }

  lemma {:induction false} ValuesOne(b: Book, b': Book, u: NvUpdate)
    requires forall s: Side :: Exact(b', s) == ExactUpdate(Exact(b, s), u, s)
    ensures Followed(b, b', [u])
  {
    hide Exact, ExactUpdate;
    forall s: Side ensures Exact(b', s) == ExactAfter(Exact(b, s), [u], s) {
      var x, us := Exact(b, s), [u];
      assert us[0] == u && us[1..] == [];
      assert ExactAfter(x, us, s) == ExactUpdate(x, u, s);
    }
  }

  function Withdrawal(o: Order): seq<NvUpdate> {
    if o.price.Some? then [Withdrawn(o.side, o.price.value, o.qty)] else []
  }

  lemma {:induction false} LeaveValues(cfg: Config, b: Book, k: OrderKey)
    requires Valid(cfg, b) && k in b.index && Find(cfg, b, k).Some?
    ensures var o := Find(cfg, b, k).value; Followed(b, Leave(cfg, b, o), Withdrawal(o))
  {
    hide Valid, Leave, Find, Exact, Replaced;
    LeaveValid(cfg, b, k);
    var o := Find(cfg, b, k).value;
    var b' := Leave(cfg, b, o);
    var l := b.LevelAt(o.side, o.price).value;
    forall s: Side ensures Exact(b', s) == Exact(b, s) - if s == o.side && o.price.Some? then o.price.value * o.qty
      else 0 {
      ReplacedExact(cfg, b, b', o.side, o.price, Remaining(cfg, l, o), s);
      if o.price.Some? {
        Distributes(o.price.value, l.qty, -o.qty);
      }
    }
    if o.price.Some? {
      ValuesOne(b, b', Withdrawn(o.side, o.price.value, o.qty));
    }
  }

  lemma {:induction false} Distributes(p: int, a: int, b: int)
    ensures p * (a + b) == p * a + p * b && p * (a - b) == p * a - p * b && p * -b == -(p * b)
  {
  }

  lemma {:induction false} EnterValues(cfg: Config, b: Book, o: Order, rank: Option<nat>)
    requires o.qty != 0 && cfg.KeyOf(o) !in b.index
    ensures Followed(b, Enter(cfg, b, o, rank), NvMove(o.side, o.price, o.qty))
  {
    EnterShape(cfg, b, o, rank);
    hide Enter, Exact, Replaced;
    var b' := Enter(cfg, b, o, rank);
    var l := b.LevelAt(o.side, o.price);
    forall s: Side ensures Exact(b', s) == Exact(b, s) + if s == o.side && o.price.Some? then o.price.value * o.qty
      else 0 {
      ReplacedExact(cfg, b, b', o.side, o.price, Some(Joined(cfg, l, o, rank)), s);
      if o.price.Some? && l.Some? {
        Distributes(o.price.value, l.value.qty, o.qty);
      }
    }
    if o.price.Some? {
      ValuesOne(b, b', Moved(o.side, o.price.value, o.qty));
    }
  }

  lemma {:induction false} MoveValues(cfg: Config, b: Book, k: OrderKey, o': Order, rank: Option<nat>)
    requires Valid(cfg, b) && k in b.index && Find(cfg, b, k).Some? && cfg.KeyOf(o') == k
    ensures var o := Find(cfg, b, k).value;
      Followed(b, EnterAny(cfg, LeaveAny(cfg, b, o), o', rank), NvMoves(o, o'))
  {
    hide Valid, Leave, Enter, Find, Followed;
    LeaveValid(cfg, b, k);
    LeaveValues(cfg, b, k);
    var o := Find(cfg, b, k).value;
    if o'.qty != 0 {
      EnterValues(cfg, Leave(cfg, b, o), o', rank);
      ValuesConcat(b, Leave(cfg, b, o), Enter(cfg, Leave(cfg, b, o), o', rank), Withdrawal(o),
        NvMove(o'.side, o'.price, o'.qty));
    } else {
      assert NvMoves(o, o') == Withdrawal(o);
    }
  }

  lemma {:induction false} SideExact(b: Book, b': Book, side: Side, p: Price, l: Option<Level>)
    requires b'.Of(side.Opposite()) == b.Of(side.Opposite())
    requires b'.Of(side).levels == b.Of(side).Put(p, l).levels
    ensures Exact(b', side.Opposite()) == Exact(b, side.Opposite())
    ensures Exact(b', side) == Exact(b, side) + ValueOf(p, l) - ValueOf(p, b.LevelAt(side, p))
  {
    PutExact(b.Of(side), p, l);
  }

  lemma {:induction false} PxValues(cfg: Config, b: Book, side: Side, delta: bool, price: Price, qty: int,
                                    nOrders: int, flags: Flags)
    ensures var (b', d, dn) := UpdatePx(cfg, b, side, delta, price, qty, nOrders, flags);
      Followed(b, b', if d != 0 then NvMove(side, price, d) else [])
  {
    hide Exact;
    var (b', d, dn) := UpdatePx(cfg, b, side, delta, price, qty, nOrders, flags);
    var l := b.LevelAt(side, price);
    if l.Some? || qty != 0 {
      PxExact(cfg, b, side, delta, price, qty, nOrders, flags);
      if d != 0 && price.Some? {
        forall s: Side ensures Exact(b', s) == ExactUpdate(Exact(b, s), Moved(side, price.value, d), s) {
          if s != side { assert s == side.Opposite(); }
        }
        ValuesOne(b, b', Moved(side, price.value, d));
      } else {
        forall s: Side ensures Exact(b', s) == Exact(b, s) {
          if s != side { assert s == side.Opposite(); }
        }
      }
    }
  }

  lemma {:induction false} PxExact(cfg: Config, b: Book, side: Side, delta: bool, price: Price, qty: int,
                                   nOrders: int, flags: Flags)
    requires b.LevelAt(side, price).Some? || qty != 0
    ensures var (b', d, dn) := UpdatePx(cfg, b, side, delta, price, qty, nOrders, flags);
      && Exact(b', side.Opposite()) == Exact(b, side.Opposite())
      && Exact(b', side) == Exact(b, side) + if price.Some? then price.value * d else 0
  {
    var (b', d, dn) := UpdatePx(cfg, b, side, delta, price, qty, nOrders, flags);
    var l := b.LevelAt(side, price);
    var q := (if l.Some? then l.value.qty else 0) + d;
    var l' := b'.LevelAt(side, price);
    assert ValueOf(price, l') == if price.Some? then price.value * q else 0 by {
      assert price.Some? && q == 0 ==> price.value * q == 0;
    }
    if price.Some? { Distributes(price.value, q - d, d); }
    SideExact(b, b', side, price, l');
  }

  // ---- matching

  /** Every level has something to trade. */
  ghost predicate Positive(b: Book) {
    forall s: Side, p: Price | b.LevelAt(s, p).Some? :: b.LevelAt(s, p).value.qty > 0
  }

  lemma {:induction false} EmptiedSide(cfg: Config, b: Book, s: Side)
    requires Valid(cfg, b) && Positive(b) && b.Of(s).qty == 0
    ensures Exact(b, s) == 0
  {
    var x := b.Of(s);
    var m := Qtys(x.levels);
    assert x.qty == Total(x);
    assert x.mkt.Some? ==> b.LevelAt(s, None).value.qty > 0;
    forall p | p in m ensures m[p] > 0 { assert b.LevelAt(s, Some(p)).value.qty > 0; }
    if p :| p in x.levels {
      Sums.SumAtLeast(m, p);
    } else {
      Sums.SumAtLeast(m, 0);
      assert Values(x.levels) == map[];
    }
  }

  lemma {:induction false} MatchedPositive(cfg: Config, b: Book, s: Side, px: int, qty: int, cum: int, fill: FillFn)
    requires Valid(cfg, b) && Positive(b)
    ensures var b' := MatchLevel(cfg, b, s, px, qty, cum, fill).book; Valid(cfg, b') && Positive(b')
  {
    MatchInvariant.MatchLevelValid(cfg, b, s, px, qty, cum, fill);
    var b' := MatchLevel(cfg, b, s, px, qty, cum, fill).book;
    hide Valid;
    forall s2: Side, p: Price | b'.LevelAt(s2, p).Some? ensures b'.LevelAt(s2, p).value.qty > 0 {
      if s2 == s && p == Some(px) {
        MatchedLevelPositive(cfg, b, s, px, qty, cum, fill);
      } else {
        MatchedElsewhere(cfg, b, s, px, qty, cum, fill, s2, p);
      }
    }
  }

  lemma {:induction false} MatchedElsewhere(cfg: Config, b: Book, s: Side, px: int, qty: int, cum: int,
                                            fill: FillFn, s2: Side, p: Price)
    requires s2 != s || p != Some(px)
    ensures MatchLevel(cfg, b, s, px, qty, cum, fill).book.LevelAt(s2, p) == b.LevelAt(s2, p)
  {
    hide MatchOrders, Traded, Filled;
    if s2 != s { assert s2 == s.Opposite(); }
  }

  lemma {:induction false} MatchedLevelPositive(cfg: Config, b: Book, s: Side, px: int, qty: int, cum: int,
                                                fill: FillFn)
    requires Valid(cfg, b) && Positive(b)
    ensures var l' := MatchLevel(cfg, b, s, px, qty, cum, fill).book.LevelAt(s, Some(px));
      l'.Some? ==> l'.value.qty > 0
  {
    var b' := MatchLevel(cfg, b, s, px, qty, cum, fill).book;
    if px in b.Of(s).levels && px in b'.Of(s).levels {
      var l, l' := b.Of(s).levels[px], b'.Of(s).levels[px];
      assert b.LevelAt(s, Some(px)).value.qty > 0;
      MatchInvariant.MatchLevelValid(cfg, b, s, px, qty, cum, fill);
      LevelIsOk(cfg, b', s, Some(px));
      if l'.orders != [] {
        SumQtyPositiveOk(cfg, b', s, Some(px), l'.orders);
      } else {
        LevelIsOk(cfg, b, s, Some(px));
        MatchInvariant.LevelPositive(cfg, b, s, Some(px), l);
        hide Valid, LevelOk, MatchOrders;
        RestEmpty(cfg, b, s, px, qty, cum, fill);
        NothingToMatch(px, qty, cum, fill);
      }
    }
  }

  lemma {:induction false} NothingToMatch(px: int, qty: int, cum: int, fill: FillFn)
    ensures MatchOrders([], px, qty, cum, fill) == LevelMatch([], qty, [], false)
  {
  }

  /** A level of orders that keeps none is gone. */
  lemma {:induction false} RestEmpty(cfg: Config, b: Book, s: Side, px: int, qty: int, cum: int, fill: FillFn)
    requires Valid(cfg, b) && px in b.Of(s).levels
    requires var b' := MatchLevel(cfg, b, s, px, qty, cum, fill).book;
      px in b'.Of(s).levels && b'.Of(s).levels[px].orders == []
    ensures b.Of(s).levels[px].orders == []
  {
    hide Valid;
    var l := b.Of(s).levels[px];
    LevelIsOk(cfg, b, s, Some(px));
    MatchInvariant.MatchOrdersConserves(l.orders, px, qty, cum, fill);
    hide MatchOrders;
  }

  lemma {:induction false} MatchLevelValues(cfg: Config, b: Book, s: Side, px: int, qty: int, cum: int, fill: FillFn)
    requires Valid(cfg, b) && Positive(b)
    ensures var m := MatchLevel(cfg, b, s, px, qty, cum, fill); Followed(b, m.book, m.nvs)
  {
    hide Valid, Positive, Exact;
    if px in b.Of(s).levels {
      var l, b' := b.Of(s).levels[px], MatchLevel(cfg, b, s, px, qty, cum, fill).book;
      var m := MatchOrders(l.orders, px, qty, cum, fill);
      hide MatchOrders, Traded;
      var t := Traded(m.fills);
      SideExact(b, b', s, Some(px), MatchInvariant.After(l, m));
      Distributes(px, l.qty, t);
      assert ValueOf(Some(px), MatchInvariant.After(l, m)) == px * (l.qty - t);
      if t != 0 && b.Of(s).qty == t {
        MatchedPositive(cfg, b, s, px, qty, cum, fill);
        EmptiedSide(cfg, b', s);
      }
      var us := LevelNvs(s, px, b.Of(s), m);
      forall s2: Side ensures Exact(b', s2) == ExactAfter(Exact(b, s2), us, s2) {
        assert us != [] ==> us[1..] == [];
        if s2 != s { assert s2 == s.Opposite(); }
      }
    }
  }

  lemma {:induction false} MatchLadderValues(cfg: Config, b: Book, s: Side, ps: seq<int>, limit: Price, qty: int,
                                             cum: int, fill: FillFn)
    requires Valid(cfg, b) && Positive(b)
    ensures var m := MatchLadder(cfg, b, s, ps, limit, qty, cum, fill);
      Followed(b, m.book, m.nvs) && Positive(m.book)
    decreases |ps|
  {
    hide Valid, Positive, MatchLevel, MatchLadder, Followed, Traded;
    if ps == [] || !s.Within(limit, ps[0]) {
      LadderNothing(cfg, b, s, ps, limit, qty, cum, fill);
      ValuesNothing(b);
    } else {
      var m := MatchLevel(cfg, b, s, ps[0], qty, cum, fill);
      MatchLevelValues(cfg, b, s, ps[0], qty, cum, fill);
      MatchedPositive(cfg, b, s, ps[0], qty, cum, fill);
      LadderUnfold(cfg, b, s, ps, limit, qty, cum, fill);
      if !m.aborted && m.leaves != 0 {
        var t := MatchLadder(cfg, m.book, s, ps[1..], limit, m.leaves, cum + Traded(m.fills), fill);
        MatchLadderValues(cfg, m.book, s, ps[1..], limit, m.leaves, cum + Traded(m.fills), fill);
        ValuesConcat(b, m.book, t.book, m.nvs, t.nvs);
      }
    }
  }

  lemma {:induction false} LadderNothing(cfg: Config, b: Book, s: Side, ps: seq<int>, limit: Price, qty: int,
                                         cum: int, fill: FillFn)
    requires ps == [] || !s.Within(limit, ps[0])
    ensures MatchLadder(cfg, b, s, ps, limit, qty, cum, fill) == Match(b, qty, [], false, [], [])
  {
  }

  // ---- every operation, and runs

  lemma {:induction false} ResetValues(b: Book)
    ensures Followed(b, Reset(b).book, Reset(b).nvs)
  {
    var e := Reset(b);
    assert Values(EMPTY_SIDE.levels) == map[];
    assert [Cleared(Buy), Cleared(Sell)][1..] == [Cleared(Sell)] && [Cleared(Sell)][1..] == [];
    forall s: Side ensures Exact(e.book, s) == ExactAfter(Exact(b, s), e.nvs, s) {
      assert e.book.Of(s) == EMPTY_SIDE && Exact(e.book, s) == 0;
      hide Exact;
      assert ExactAfter(ExactUpdate(Exact(b, s), Cleared(Buy), s), [Cleared(Sell)], s) == 0;
    }
  }

  lemma {:induction false} IndexValues(b: Book, index: map<OrderKey, Location>)
    ensures Followed(b, b.(index := index), [])
  {
  }

  /** The notional updates of an operation account for exactly what it changes. */
  lemma {:induction false} StepValues(cfg: Config, b: Book, op: Op)
    requires Valid(cfg, b) && (op.OpMatch? ==> Positive(b))
    ensures Followed(b, Step(cfg, b, op).book, Step(cfg, b, op).nvs)
  {
    hide Valid, Followed, Enter, Leave, Positive;
    ValuesNothing(b);
    match op
    case OpAdd(id, side, rank, price, qty, flags) =>
      var k := cfg.Key(side, id);
      if k in b.index {
        var i := FindFacts(cfg, b, k);
        MoveValues(cfg, b, k, Amended(Find(cfg, b, k).value, price, qty, flags), rank);
      } else if qty != 0 {
        EnterValues(cfg, b, Order(id, side, if rank.Some? then rank.value else 0, price, qty, flags), rank);
      } else {
        IndexValues(b, b.index[k := Detached(Order(id, side, if rank.Some? then rank.value else 0, price, qty,
          flags))]);
      }
    case OpModify(id, side, rank, price, qty, flags) =>
      var k := cfg.Key(side, id);
      if k in b.index {
        var i := FindFacts(cfg, b, k);
        MoveValues(cfg, b, k, Amended(Find(cfg, b, k).value, price, qty, flags), rank);
      }
    case OpReduce(id, side, reduceQty) =>
      var k := cfg.Key(side, id);
      if k in b.index {
        var i := FindFacts(cfg, b, k);
        var o := Find(cfg, b, k).value;
        MoveValues(cfg, b, k, o.(qty := if o.qty > reduceQty then o.qty - reduceQty else 0), Some(o.rank));
      }
    case OpCancel(id, side) =>
      var k := cfg.Key(side, id);
      if k in b.index {
        var i := FindFacts(cfg, b, k);
        MoveValues(cfg, b, k, Find(cfg, b, k).value.(qty := 0), None);
      }
    case OpMatch(taker, limit, qty, fill) =>
      var s := taker.Opposite();
      MatchLadderValues(cfg, b, s, Ladder(s, b.Of(s).levels.Keys), limit, qty, 0, fill);
    case OpReset => ResetValues(b);
    case OpPxLevel(side, delta, price, qty, nOrders, flags) =>
      PxValues(cfg, b, side, delta, price, qty, nOrders, flags);
  }

  /** The notional updates of a whole run. */
  ghost function NvStream(cfg: Config, b: Book, ops: seq<Op>): seq<NvUpdate>
    decreases |ops|
  {
    if ops == [] then []
    else Step(cfg, b, ops[0]).nvs + NvStream(cfg, Step(cfg, b, ops[0]).book, ops[1..])
  }

  /** No match meets a level of zero or negative aggregate quantity. */
  ghost predicate MatchesPositive(cfg: Config, b: Book, ops: seq<Op>)
    decreases |ops|
  {
    ops == [] || ((ops[0].OpMatch? ==> Positive(b)) && MatchesPositive(cfg, Step(cfg, b, ops[0]).book, ops[1..]))
  }

  lemma {:induction false} RunValues(cfg: Config, b: Book, ops: seq<Op>)
    requires Valid(cfg, b) && AllAllowed(cfg, b, ops) && MatchesPositive(cfg, b, ops)
    ensures Followed(b, Run(cfg, b, ops), NvStream(cfg, b, ops))
    decreases |ops|
  {
    hide Valid, Followed, Step, Allowed, Positive;
    if ops == [] {
      ValuesNothing(b);
    } else {
      var e := Step(cfg, b, ops[0]);
      StepValues(cfg, b, ops[0]);
      StepValid(cfg, b, ops[0]);
      RunValues(cfg, e.book, ops[1..]);
      ValuesConcat(b, e.book, Run(cfg, e.book, ops[1..]), e.nvs, NvStream(cfg, e.book, ops[1..]));
    }
  }

  /** The notional value a side of a new book carries after any run is off by less than one unit of its
      last place for every update since it was last zeroed. */
  lemma {:induction false} RunDrift(cfg: Config, ops: seq<Op>, s: Side, ndp: nat)
    requires AllAllowed(cfg, EMPTY_BOOK, ops) && MatchesPositive(cfg, EMPTY_BOOK, ops)
    requires AllInRange(NvStream(cfg, EMPTY_BOOK, ops), ndp)
    ensures WithinDrift(RevaluedAll(Running(0, 0), NvStream(cfg, EMPTY_BOOK, ops), s, ndp),
                        Exact(Run(cfg, EMPTY_BOOK, ops), s), ndp)
  {
    var us := NvStream(cfg, EMPTY_BOOK, ops);
    EmptyValid(cfg);
    RunValues(cfg, EMPTY_BOOK, ops);
    assert Exact(EMPTY_BOOK, s) == 0 by {
      assert Values(EMPTY_SIDE.levels) == map[];
      assert EMPTY_BOOK.Of(s) == EMPTY_SIDE;
    }
    UpdatesDrift(Running(0, 0), 0, us, s, ndp);
  }

  // ---- books of orders only

  /** Every level holds orders. */
  ghost predicate OrdersOnly(b: Book) {
    forall s: Side, p: Price | b.LevelAt(s, p).Some? :: b.LevelAt(s, p).value.orders != []
  }

  lemma {:induction false} OrdersArePositive(cfg: Config, b: Book)
    requires Valid(cfg, b) && OrdersOnly(b)
    ensures Positive(b)
  {
    hide Valid;
    forall s: Side, p: Price | b.LevelAt(s, p).Some? ensures b.LevelAt(s, p).value.qty > 0 {
      LevelIsOk(cfg, b, s, p);
      SumQtyPositiveOk(cfg, b, s, p, b.LevelAt(s, p).value.orders);
    }
  }

  lemma {:induction false} ReplacedOrdersOnly(cfg: Config, b: Book, b': Book, s: Side, p: Price, l: Option<Level>)
    requires OrdersOnly(b) && Replaced(cfg, b, b', s, p, l) && (l.Some? ==> l.value.orders != [])
    ensures OrdersOnly(b')
  {
    OtherLevelsStay(cfg, b, b', s, p, l);
    hide Replaced;
    forall s2: Side, p2: Price | b'.LevelAt(s2, p2).Some? ensures b'.LevelAt(s2, p2).value.orders != [] {
      if s2 == s && p2 == p {} else { assert b.LevelAt(s2, p2).Some?; }
    }
  }

  lemma {:induction false} MoveOrdersOnly(cfg: Config, b: Book, k: OrderKey, o': Order, rank: Option<nat>)
    requires Valid(cfg, b) && k in b.index && Find(cfg, b, k).Some? && cfg.KeyOf(o') == k && OrdersOnly(b)
    ensures OrdersOnly(EnterAny(cfg, LeaveAny(cfg, b, Find(cfg, b, k).value), o', rank))
  {
    hide Valid, Leave, Enter, Find, Replaced, OrdersOnly;
    LeaveValid(cfg, b, k);
    Simulation.RemainingOrders(cfg, b, k);
    var o := Find(cfg, b, k).value;
    ReplacedOrdersOnly(cfg, b, Leave(cfg, b, o), o.side, o.price, Remaining(cfg, b.LevelAt(o.side, o.price).value, o));
    if o'.qty != 0 {
      EnterOrdersOnly(cfg, Leave(cfg, b, o), o', rank);
    }
  }

  lemma {:induction false} EnterOrdersOnly(cfg: Config, b: Book, o: Order, rank: Option<nat>)
    requires o.qty != 0 && cfg.KeyOf(o) !in b.index && OrdersOnly(b)
    ensures OrdersOnly(Enter(cfg, b, o, rank))
  {
    hide Enter, Replaced, OrdersOnly;
    EnterShape(cfg, b, o, rank);
    var l := b.LevelAt(o.side, o.price);
    if l.Some? { InsertShape(cfg.uniform, l.value.orders, Ranked(l.value.orders, o, rank)); }
    ReplacedOrdersOnly(cfg, b, Enter(cfg, b, o, rank), o.side, o.price, Some(Joined(cfg, l, o, rank)));
  }

  lemma {:induction false} MatchLevelOrdersOnly(cfg: Config, b: Book, s: Side, px: int, qty: int, cum: int,
                                                fill: FillFn)
    requires Valid(cfg, b) && OrdersOnly(b)
    ensures OrdersOnly(MatchLevel(cfg, b, s, px, qty, cum, fill).book)
  {
    var b' := MatchLevel(cfg, b, s, px, qty, cum, fill).book;
    hide Valid, MatchOrders, Traded;
    forall s2: Side, p: Price | b'.LevelAt(s2, p).Some? ensures b'.LevelAt(s2, p).value.orders != [] {
      if s2 == s && p == Some(px) {
        assert b.LevelAt(s, p).Some?;
        if b'.LevelAt(s, p).value.orders == [] { RestEmpty(cfg, b, s, px, qty, cum, fill); }
      } else {
        assert b.LevelAt(s2, p).Some? && b'.LevelAt(s2, p) == b.LevelAt(s2, p) by {
          if s2 != s { assert s2 == s.Opposite(); }
        }
      }
    }
  }

  lemma {:induction false} MatchLadderOrdersOnly(cfg: Config, b: Book, s: Side, ps: seq<int>, limit: Price, qty: int,
                                                 cum: int, fill: FillFn)
    requires Valid(cfg, b) && OrdersOnly(b)
    ensures OrdersOnly(MatchLadder(cfg, b, s, ps, limit, qty, cum, fill).book)
    decreases |ps|
  {
    hide Valid, OrdersOnly, MatchLevel, MatchLadder, Traded;
    if ps == [] || !s.Within(limit, ps[0]) {
      LadderNothing(cfg, b, s, ps, limit, qty, cum, fill);
    } else {
      var m := MatchLevel(cfg, b, s, ps[0], qty, cum, fill);
      MatchLevelOrdersOnly(cfg, b, s, ps[0], qty, cum, fill);
      MatchInvariant.MatchLevelValid(cfg, b, s, ps[0], qty, cum, fill);
      LadderUnfold(cfg, b, s, ps, limit, qty, cum, fill);
      if !m.aborted && m.leaves != 0 {
        MatchLadderOrdersOnly(cfg, m.book, s, ps[1..], limit, m.leaves, cum + Traded(m.fills), fill);
      }
    }
  }

  lemma {:induction false} StepOrdersOnly(cfg: Config, b: Book, op: Op)
    requires Valid(cfg, b) && OrdersOnly(b) && !op.OpPxLevel?
    ensures OrdersOnly(Step(cfg, b, op).book)
  {
    hide Valid, OrdersOnly, Enter, Leave;
    match op
    case OpAdd(id, side, rank, price, qty, flags) =>
      var k := cfg.Key(side, id);
      if k in b.index {
        var i := FindFacts(cfg, b, k);
        MoveOrdersOnly(cfg, b, k, Amended(Find(cfg, b, k).value, price, qty, flags), rank);
      } else if qty != 0 {
        EnterOrdersOnly(cfg, b, Order(id, side, if rank.Some? then rank.value else 0, price, qty, flags), rank);
      } else {
        SameLevelsOrdersOnly(b, Step(cfg, b, op).book);
      }
    case OpModify(id, side, rank, price, qty, flags) =>
      var k := cfg.Key(side, id);
      if k in b.index {
        var i := FindFacts(cfg, b, k);
        MoveOrdersOnly(cfg, b, k, Amended(Find(cfg, b, k).value, price, qty, flags), rank);
      }
    case OpReduce(id, side, reduceQty) =>
      var k := cfg.Key(side, id);
      if k in b.index {
        var i := FindFacts(cfg, b, k);
        var o := Find(cfg, b, k).value;
        MoveOrdersOnly(cfg, b, k, o.(qty := if o.qty > reduceQty then o.qty - reduceQty else 0), Some(o.rank));
      }
    case OpCancel(id, side) =>
      var k := cfg.Key(side, id);
      if k in b.index {
        var i := FindFacts(cfg, b, k);
        MoveOrdersOnly(cfg, b, k, Find(cfg, b, k).value.(qty := 0), None);
      }
    case OpMatch(taker, limit, qty, fill) =>
      var s := taker.Opposite();
      MatchLadderOrdersOnly(cfg, b, s, Ladder(s, b.Of(s).levels.Keys), limit, qty, 0, fill);
    case OpReset => EmptyOrdersOnly(Reset(b).book);
  }

  lemma {:induction false} SameLevelsOrdersOnly(b: Book, b': Book)
    requires OrdersOnly(b) && b'.bids == b.bids && b'.asks == b.asks
    ensures OrdersOnly(b')
  {
    forall s: Side, p: Price | b'.LevelAt(s, p).Some? ensures b'.LevelAt(s, p).value.orders != [] {
      assert b'.LevelAt(s, p) == b.LevelAt(s, p);
    }
  }

  lemma {:induction false} EmptyOrdersOnly(b: Book)
    requires b.bids == EMPTY_SIDE && b.asks == EMPTY_SIDE
    ensures OrdersOnly(b)
  {
  }

  /** A book that only ever takes orders never has a level of zero or negative quantity. */
  lemma {:induction false} OrderRunPositive(cfg: Config, b: Book, ops: seq<Op>)
    requires Valid(cfg, b) && OrdersOnly(b) && AllAllowed(cfg, b, ops)
    requires forall i | 0 <= i < |ops| :: !ops[i].OpPxLevel?
    ensures MatchesPositive(cfg, b, ops)
    decreases |ops|
  {
    hide Valid, OrdersOnly, Positive, Step, Allowed;
    if ops != [] {
      OrdersArePositive(cfg, b);
      StepValid(cfg, b, ops[0]);
      StepOrdersOnly(cfg, b, ops[0]);
      OrderRunPositive(cfg, Step(cfg, b, ops[0]).book, ops[1..]);
    }
  }

  /** The drift bound for a book fed by orders alone. */
  lemma {:induction false} OrderRunDrift(cfg: Config, ops: seq<Op>, s: Side, ndp: nat)
    requires AllAllowed(cfg, EMPTY_BOOK, ops) && forall i | 0 <= i < |ops| :: !ops[i].OpPxLevel?
    requires AllInRange(NvStream(cfg, EMPTY_BOOK, ops), ndp)
    ensures WithinDrift(RevaluedAll(Running(0, 0), NvStream(cfg, EMPTY_BOOK, ops), s, ndp),
                        Exact(Run(cfg, EMPTY_BOOK, ops), s), ndp)
  {
    EmptyValid(cfg);
    EmptyOrdersOnly(EMPTY_BOOK);
    OrderRunPositive(cfg, EMPTY_BOOK, ops);
    RunDrift(cfg, ops, s, ndp);
  }

  // ---- adding and cancelling

  predicate NoneCleared(us: seq<NvUpdate>, s: Side) {
    forall i | 0 <= i < |us| :: us[i] != Cleared(s)
  }

  /** Until the next time it is zeroed, the running value forgets nothing: a difference stays. */
  lemma {:induction false} DifferenceStays(n: Running, m: Running, us: seq<NvUpdate>, s: Side, ndp: nat)
    requires NoneCleared(us, s)
    ensures RevaluedAll(n, us, s, ndp).nv - RevaluedAll(m, us, s, ndp).nv == n.nv - m.nv
    decreases |us|
  {
    if us != [] {
      assert us[0] != Cleared(s);
      forall i | 0 <= i < |us[1..]| ensures us[1..][i] != Cleared(s) {
        assert us[1..][i] == us[i + 1];
      }
      hide Mul;
      DifferenceStays(Revalued(n, us[0], s, ndp), Revalued(m, us[0], s, ndp), us[1..], s, ndp);
    }
  }

  /** Adding an order and cancelling it later, its price and quantity untouched, leaves exactly the
      notional value that the operations in between make of the old one, truncation, overflow and all. */
  lemma {:induction false} AddThenCancel(cfg: Config, b: Book, n: Running, id: OrderId, side: Side, rank: Option<nat>,
                                         price: Price, qty: int, flags: Flags, ops: seq<Op>, ndp: nat)
    requires Valid(cfg, b) && cfg.Key(side, id) !in b.index && qty > 0
    requires var a := Add(cfg, b, id, side, rank, price, qty, flags);
      var found := Find(cfg, Run(cfg, a.book, ops), cfg.Key(side, id));
      && found.Some? && found.value.side == side && found.value.price == price && found.value.qty == qty
      && NoneCleared(NvStream(cfg, a.book, ops), side)
    ensures var a := Add(cfg, b, id, side, rank, price, qty, flags);
      var us, c := NvStream(cfg, a.book, ops), Cancel(cfg, Run(cfg, a.book, ops), id, side);
      RevaluedAll(n, a.nvs + us + c.nvs, side, ndp).nv == RevaluedAll(n, us, side, ndp).nv
  {
    hide Valid, Enter, Mul, Run, NvStream;
    var a := Add(cfg, b, id, side, rank, price, qty, flags);
    var us, c := NvStream(cfg, a.book, ops), Cancel(cfg, Run(cfg, a.book, ops), id, side);
    assert a.nvs == NvMove(side, price, qty);
    var o := Find(cfg, Run(cfg, a.book, ops), cfg.Key(side, id)).value;
    assert c.nvs == Withdrawal(o) by { assert Withdrawal(o) + [] == Withdrawal(o); }
    RevaluedConcat(n, a.nvs + us, c.nvs, side, ndp);
    RevaluedConcat(n, a.nvs, us, side, ndp);
    DifferenceStays(RevaluedAll(n, a.nvs, side, ndp), n, us, side, ndp);
    if price.Some? {
      assert a.nvs == [Moved(side, price.value, qty)] && a.nvs[1..] == [];
      assert c.nvs == [Withdrawn(side, price.value, qty)] && c.nvs[1..] == [];
    } else {
      assert a.nvs == [] && c.nvs == [];
    }
  }

  // ---- back to zero

  /** What a match does to the notional value: nothing if it does not change the side, and otherwise it ends with
      zeroing
      the value exactly if nothing is left on the side. */
  ghost predicate EndsCleared(s: Side, was: int, now: int, us: seq<NvUpdate>) {
    if us == [] then now == was else us[|us| - 1] == Cleared(s) <==> now == 0
  }

  lemma {:induction false} LevelEnds(cfg: Config, b: Book, s: Side, px: int, qty: int, cum: int, fill: FillFn)
    ensures var m := MatchLevel(cfg, b, s, px, qty, cum, fill); EndsCleared(s, b.Of(s).qty, m.book.Of(s).qty, m.nvs)
  {
    hide MatchOrders, Traded;
  }

  lemma {:induction false} EndsBoth(s: Side, a: int, b: int, c: int, us: seq<NvUpdate>, vs: seq<NvUpdate>)
    requires EndsCleared(s, a, b, us) && EndsCleared(s, b, c, vs)
    ensures EndsCleared(s, a, c, us + vs)
  {
    if vs == [] { assert us + vs == us; } else { assert (us + vs)[|us + vs| - 1] == vs[|vs| - 1]; }
  }

  lemma {:induction false} LadderEnds(cfg: Config, b: Book, s: Side, ps: seq<int>, limit: Price, qty: int, cum: int,
                                      fill: FillFn)
    ensures var m := MatchLadder(cfg, b, s, ps, limit, qty, cum, fill);
      EndsCleared(s, b.Of(s).qty, m.book.Of(s).qty, m.nvs)
    decreases |ps|
  {
    hide MatchLevel, EndsCleared, Traded;
    if ps == [] || !s.Within(limit, ps[0]) {
      NothingEnds(s, b.Of(s).qty);
    } else {
      var m := MatchLevel(cfg, b, s, ps[0], qty, cum, fill);
      LevelEnds(cfg, b, s, ps[0], qty, cum, fill);
      LadderUnfold(cfg, b, s, ps, limit, qty, cum, fill);
      hide MatchLadder;
      if !m.aborted && m.leaves != 0 {
        var t := MatchLadder(cfg, m.book, s, ps[1..], limit, m.leaves, cum + Traded(m.fills), fill);
        LadderEnds(cfg, m.book, s, ps[1..], limit, m.leaves, cum + Traded(m.fills), fill);
        EndsBoth(s, b.Of(s).qty, m.book.Of(s).qty, t.book.Of(s).qty, m.nvs, t.nvs);
      }
    }
  }

  lemma {:induction false} NothingEnds(s: Side, q: int)
    ensures EndsCleared(s, q, q, [])
  {
  }

  lemma {:induction false} LastClears(n: Running, us: seq<NvUpdate>, s: Side, ndp: nat)
    requires us != [] && us[|us| - 1] == Cleared(s)
    ensures RevaluedAll(n, us, s, ndp) == Running(0, 0)
  {
    var i := |us| - 1;
    assert us == us[..i] + [Cleared(s)] && [Cleared(s)][1..] == [];
    RevaluedConcat(n, us[..i], [Cleared(s)], s, ndp);
  }

  /** A match that trades all there is on a side leaves no notional value behind, whatever was truncated before; so
      does a
      reset, on both sides. */
  lemma {:induction false} BackToZero(cfg: Config, b: Book, op: Op, n: Running, s: Side, ndp: nat)
    requires op.OpReset? || (op.OpMatch? && s == op.taker.Opposite())
    requires op.OpMatch? ==> b.Of(s).qty != 0 && Step(cfg, b, op).book.Of(s).qty == 0
    ensures RevaluedAll(n, Step(cfg, b, op).nvs, s, ndp) == Running(0, 0)
  {
    hide MatchLadder, RevaluedAll, ResetDeltas;
    if op.OpMatch? {
      LadderEnds(cfg, b, s, Ladder(s, b.Of(s).levels.Keys), op.limit, op.qty, 0, op.fill);
      LastClears(n, Step(cfg, b, op).nvs, s, ndp);
    } else {
      BothCleared(n, s, ndp);
    }
  }

  lemma {:induction false} BothCleared(n: Running, s: Side, ndp: nat)
    ensures RevaluedAll(n, [Cleared(Buy), Cleared(Sell)], s, ndp) == Running(0, 0)
  {
    var us := [Cleared(Buy), Cleared(Sell)];
    assert us[1..] == [Cleared(Sell)] && [Cleared(Sell)][1..] == [];
  }
}
