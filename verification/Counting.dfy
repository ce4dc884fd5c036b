/** The consolidated book's number of orders at every limit price is the sum of its inputs', too, as long as no level
    runs
    empty or negative while it is named a count. */
module Counting {
  import opened Types
  import opened Levels
  import opened Ladders
  import opened Books
  import opened Invariant
  import opened Matching
  import opened MatchInvariant
  import opened Operations
  import opened Consolidation
  import Priority

  // ---- counts and their changes

  function CountOf(l: Option<Level>): int {
    if l.Some? then l.value.nOrders else 0
  }

  function CountAt(b: Book, s: Side, p: int): int {
    CountOf(b.LevelAt(s, Some(p)))
  }

  function QtyIn(d: Delta, s: Side, p: int): int {
    if d.side == s && d.price == Some(p) then d.qty else 0
  }

  function CountIn(d: Delta, s: Side, p: int): int {
    if d.side == s && d.price == Some(p) then d.nOrders else 0
  }

  function CountSum(ds: seq<Delta>, s: Side, p: int): int {
    if ds == [] then 0 else CountIn(ds[0], s, p) + CountSum(ds[1..], s, p)
  }

  /** From a quantity and a count, the changes lead only to quantities that are not negative, and to none only with no
      orders. */
  predicate Steady(q: int, n: int, ds: seq<Delta>, s: Side, p: int)
    decreases |ds|
  {
    && q >= 0 && (q == 0 ==> n == 0)
    && (ds != [] ==> Steady(q + QtyIn(ds[0], s, p), n + CountIn(ds[0], s, p), ds[1..], s, p))
  }

  /** All levels at limit prices have a positive quantity. */
  ghost predicate Stocked(b: Book) {
    forall s: Side, p: int | p in b.Of(s).levels :: b.Of(s).levels[p].qty > 0
  }

  /** `ds` leads steadily from `b` to `b'`, and is what `b'` counts more. */
  ghost predicate Counts(b: Book, b': Book, ds: seq<Delta>) {
    forall s: Side, p: int ::
      Steady(BookQty(b, s, p), CountAt(b, s, p), ds, s, p) && CountAt(b', s, p) == CountAt(b, s, p) + CountSum(ds, s, p)
  }

  lemma {:induction false} SteadyConcat(q: int, n: int, a: seq<Delta>, b: seq<Delta>, s: Side, p: int)
    requires Steady(q, n, a, s, p) && Steady(q + DeltaSum(a, s, p), n + CountSum(a, s, p), b, s, p)
    ensures Steady(q, n, a + b, s, p) && CountSum(a + b, s, p) == CountSum(a, s, p) + CountSum(b, s, p)
    decreases |a|
  {
    if a == [] {
      assert a + b == b;
    } else {
      assert (a + b)[1..] == a[1..] + b;
      SteadyConcat(q + QtyIn(a[0], s, p), n + CountIn(a[0], s, p), a[1..], b, s, p);
    }
  }

  lemma {:induction false} CountsConcat(a: Book, b: Book, c: Book, ds: seq<Delta>, es: seq<Delta>)
    requires Counts(a, b, ds) && Counts(b, c, es) && Accounts(a, b, ds)
    ensures Counts(a, c, ds + es)
  {
    hide Steady;
    forall s: Side, p: int
      ensures Steady(BookQty(a, s, p), CountAt(a, s, p), ds + es, s, p)
      ensures CountAt(c, s, p) == CountAt(a, s, p) + CountSum(ds + es, s, p)
    {
      assert BookQty(b, s, p) == BookQty(a, s, p) + DeltaSum(ds, s, p);
      assert CountAt(b, s, p) == CountAt(a, s, p) + CountSum(ds, s, p);
      assert CountAt(c, s, p) == CountAt(b, s, p) + CountSum(es, s, p);
      SteadyConcat(BookQty(a, s, p), CountAt(a, s, p), ds, es, s, p);
    }
  }

  lemma {:induction false} CountsNothing(b: Book)
    requires Stocked(b)
    ensures Counts(b, b, [])
  {
  }

  lemma {:induction false} SteadyOne(q: int, n: int, d: Delta, s: Side, p: int)
    requires q >= 0 && (q == 0 ==> n == 0)
    requires q + QtyIn(d, s, p) >= 0 && (q + QtyIn(d, s, p) == 0 ==> n + CountIn(d, s, p) == 0)
    ensures Steady(q, n, [d], s, p) && CountSum([d], s, p) == CountIn(d, s, p)
  {
    assert [d][1..] == [];
  }

  /** One level changes, and the change says so. */
  lemma {:induction false} LevelCounts(cfg: Config, b: Book, b': Book, d: Delta, l: Option<Level>)
    requires Stocked(b) && Replaced(cfg, b, b', d.side, d.price, l)
    requires d.price.Some? ==>
      && (l.Some? ==> l.value.qty > 0)
      && d.qty == QtyOf(l) - QtyOf(b.LevelAt(d.side, d.price))
      && d.nOrders == CountOf(l) - CountOf(b.LevelAt(d.side, d.price))
    ensures Stocked(b') && Counts(b, b', [d])
  {
    hide Replaced, Steady;
    OtherLevelsStay(cfg, b, b', d.side, d.price, l);
    forall s: Side, p: int | p in b'.Of(s).levels ensures b'.Of(s).levels[p].qty > 0 {
      assert b'.LevelAt(s, Some(p)).Some?;
      if s != d.side || Some(p) != d.price { assert b'.LevelAt(s, Some(p)) == b.LevelAt(s, Some(p)); }
    }
    forall s: Side, p: int
      ensures Steady(BookQty(b, s, p), CountAt(b, s, p), [d], s, p)
      ensures CountAt(b', s, p) == CountAt(b, s, p) + CountSum([d], s, p)
    {
      LevelIs(b, s, p);
      LevelIs(b', s, p);
      assert s != d.side || Some(p) != d.price ==> b'.LevelAt(s, Some(p)) == b.LevelAt(s, Some(p));
      SteadyOne(BookQty(b, s, p), CountAt(b, s, p), d, s, p);
    }
  }

  lemma {:induction false} LevelIs(b: Book, s: Side, p: int)
    requires Stocked(b)
    ensures BookQty(b, s, p) == QtyOf(b.LevelAt(s, Some(p))) >= 0
    ensures BookQty(b, s, p) == 0 <==> b.LevelAt(s, Some(p)).None?
  {
  }

  // ---- operation by operation

  lemma {:induction false} OrdersPositive(cfg: Config, b: Book, s: Side, p: Price, l: Level)
    requires LevelOk(cfg, b, s, p, l) && l.orders != []
    ensures l.qty > 0
  {
    SumQtyPositiveOk(cfg, b, s, p, l.orders);
  }

  lemma {:induction false} LeaveCounts(cfg: Config, b: Book, k: OrderKey)
    requires Valid(cfg, b) && Stocked(b) && k in b.index && Find(cfg, b, k).Some?
    ensures var o := Find(cfg, b, k).value;
      Stocked(Leave(cfg, b, o)) && Counts(b, Leave(cfg, b, o), [Delta(o.side, o.price, -o.qty, -1, {})])
  {
    hide Valid, Leave, Find, Stocked, Counts, Replaced, Delete, RanksIncrease;
    var i := FindFacts(cfg, b, k);
    var o := Find(cfg, b, k).value;
    LeaveValid(cfg, b, k);
    LevelIsOk(cfg, b, o.side, o.price);
    var b', l := Leave(cfg, b, o), b.LevelAt(o.side, o.price).value;
    LeaveLevelOk(cfg, b, b', o.side, o.price, i);
    var r := Remaining(cfg, l, o);
    if r.Some? { OrdersPositive(cfg, b', o.side, o.price, r.value); }
    LevelCounts(cfg, b, b', Delta(o.side, o.price, -o.qty, -1, {}), r);
  }

  lemma {:induction false} EnterCounts(cfg: Config, b: Book, o: Order, rank: Option<nat>, flags: Flags)
    requires Valid(cfg, b) && Stocked(b) && o.qty != 0 && cfg.KeyOf(o) !in b.index && Valid(cfg, Enter(cfg, b, o, rank))
    ensures Stocked(Enter(cfg, b, o, rank))
    ensures Counts(b, Enter(cfg, b, o, rank), [Delta(o.side, o.price, o.qty, 1, flags)])
  {
    hide Valid, Enter, Stocked, Counts, Replaced, Insert, RanksIncrease;
    EnterValid(cfg, b, o, rank);
    var b', l := Enter(cfg, b, o, rank), b.LevelAt(o.side, o.price);
    if l.Some? {
      LevelIsOk(cfg, b, o.side, o.price);
      OrdersPositive(cfg, b, o.side, o.price, l.value);
    }
    LevelCounts(cfg, b, b', Delta(o.side, o.price, o.qty, 1, flags), Some(Joined(cfg, l, o, rank)));
  }

  lemma {:induction false} MoveCounts(cfg: Config, b: Book, k: OrderKey, o': Order, rank: Option<nat>)
    requires Valid(cfg, b) && Stocked(b) && k in b.index && Find(cfg, b, k).Some? && cfg.KeyOf(o') == k
    requires Valid(cfg, EnterAny(cfg, LeaveAny(cfg, b, Find(cfg, b, k).value), o', rank))
    ensures var o := Find(cfg, b, k).value; var b' := EnterAny(cfg, LeaveAny(cfg, b, o), o', rank);
      Stocked(b') && Counts(b, b', Moves(o, o'))
  {
    hide Valid, Leave, Enter, Find, Accounts, Counts, Stocked;
    LeaveValid(cfg, b, k);
    LeaveCounts(cfg, b, k);
    LeaveAccounts(cfg, b, k);
    var o := Find(cfg, b, k).value;
    if o'.qty != 0 {
      EnterCounts(cfg, Leave(cfg, b, o), o', rank, {});
      CountsConcat(b, Leave(cfg, b, o), Enter(cfg, Leave(cfg, b, o), o', rank),
                   [Delta(o.side, o.price, -o.qty, -1, {})], [Delta(o'.side, o'.price, o'.qty, 1, {})]);
    } else {
      assert Moves(o, o') == [Delta(o.side, o.price, -o.qty, -1, {})];
    }
  }

  lemma {:induction false} MatchLevelCounts(cfg: Config, b: Book, s: Side, px: int, qty: int, cum: int, fill: FillFn)
    requires Valid(cfg, b) && Stocked(b)
    ensures var m := MatchLevel(cfg, b, s, px, qty, cum, fill); Stocked(m.book) && Counts(b, m.book, m.deltas)
  {
    hide Valid, Stocked, Counts, LevelOk, Prefix, Filled, MatchOrders, Matched, Replaced, MatchInvariant.Positive;
    if px in b.Of(s).levels {
      var l := b.Of(s).levels[px];
      var m := MatchOrders(l.orders, px, qty, cum, fill);
      MatchOrdersPrefix(l.orders, px, qty, cum, fill);
      MatchOrdersConserves(l.orders, px, qty, cum, fill);
      LevelIsOk(cfg, b, s, Some(px));
      LevelPositive(cfg, b, s, Some(px), l);
      NothingUsed(l.orders, px, qty, cum, fill);
      AfterCounts(cfg, b, s, px, m);
    } else {
      CountsNothing(b);
    }
  }

  lemma {:induction false} AfterCounts(cfg: Config, b: Book, s: Side, px: int, m: LevelMatch)
    requires Valid(cfg, b) && Stocked(b) && px in b.Of(s).levels
    requires var l := b.Of(s).levels[px];
      LevelOk(cfg, b, s, Some(px), l) && Prefix(l.orders, m) && SumQty(m.rest) + Traded(m.fills) == SumQty(l.orders)
    requires Traded(m.fills) == 0 ==> |m.rest| == |b.Of(s).levels[px].orders|
    ensures var b', l := Matched(cfg, b, s, px, m), b.Of(s).levels[px];
      Stocked(b') && Counts(b, b', LevelDeltas(s, px, l, m))
  {
    hide Valid, Stocked, Counts, Filled, Replaced, RanksIncrease, DistinctIds;
    var p, l, b' := Some(px), b.Of(s).levels[px], Matched(cfg, b, s, px, m);
    LevelPositive(cfg, b, s, p, l);
    RestPositive(l.orders, m);
    FilledIndexed(cfg, b, s, p, l, m);
    AfterOk(cfg, b, b', s, p, l, m);
    MatchedShape(cfg, b, s, px, m);
    AfterStocked(cfg, b, b', s, px, m);
    var d := Delta(s, p, -Traded(m.fills), -(|l.orders| - |m.rest|), l.flags);
    LevelCounts(cfg, b, b', d, After(l, m));
    if Traded(m.fills) == 0 { CountsDropped(b, b', d); }
  }

  lemma {:induction false} AfterStocked(cfg: Config, b: Book, b': Book, s: Side, px: int, m: LevelMatch)
    requires Stocked(b) && px in b.Of(s).levels
    requires var l := b.Of(s).levels[px];
      && LevelOk(cfg, b, s, Some(px), l) && Prefix(l.orders, m) && SumQty(m.rest) >= |m.rest|
      && SumQty(m.rest) + Traded(m.fills) == SumQty(l.orders)
      && (After(l, m).None? ==> l.orders != [] && m.rest == [])
    ensures var r := After(b.Of(s).levels[px], m);
      && (r.Some? ==> r.value.qty > 0)
      && CountOf(r) == b.Of(s).levels[px].nOrders - (|b.Of(s).levels[px].orders| - |m.rest|)
  {
    if b.Of(s).levels[px].orders == [] { assert m.fills == []; }
  }

  /** Where nothing trades, nobody is used up. */
  lemma {:induction false} NothingUsed(os: seq<Order>, px: int, qty: int, cum: int, fill: FillFn)
    requires MatchInvariant.Positive(os)
    ensures var m := MatchOrders(os, px, qty, cum, fill); Traded(m.fills) == 0 ==> |m.rest| == |os|
  {
    if os != [] && os[0].qty <= qty && !fill(Fill(qty, cum, px, os[0].qty, os[0])) {
      var m := MatchOrders(os, px, qty, cum, fill);
      MatchOrdersConserves(os, px, qty, cum, fill);
      if os[0].qty < qty { LeavesNoMore(os[1..], px, qty - os[0].qty, cum + os[0].qty, fill); }
      assert m.leaves < qty;
    }
  }

  lemma {:induction false} LeavesNoMore(os: seq<Order>, px: int, qty: int, cum: int, fill: FillFn)
    requires MatchInvariant.Positive(os) && qty > 0
    ensures 0 <= MatchOrders(os, px, qty, cum, fill).leaves <= qty
  {
    if os != [] && os[0].qty < qty && !fill(Fill(qty, cum, px, os[0].qty, os[0])) {
      LeavesNoMore(os[1..], px, qty - os[0].qty, cum + os[0].qty, fill);
    }
  }

  lemma {:induction false} CountsDropped(b: Book, b': Book, d: Delta)
    requires Counts(b, b', [d]) && d.nOrders == 0
    ensures Counts(b, b', [])
  {
    assert [d][1..] == [];
    forall s: Side, p: int
      ensures Steady(BookQty(b, s, p), CountAt(b, s, p), [], s, p) && CountAt(b', s, p) == CountAt(b, s, p)
    {
      assert Steady(BookQty(b, s, p), CountAt(b, s, p), [d], s, p);
      assert CountAt(b', s, p) == CountAt(b, s, p) + CountSum([d], s, p);
    }
  }

  lemma {:induction false} MatchLadderCounts(cfg: Config, b: Book, s: Side, ps: seq<int>, limit: Price, qty: int,
                                             cum: int, fill: FillFn)
    requires Valid(cfg, b) && Stocked(b)
    ensures var m := MatchLadder(cfg, b, s, ps, limit, qty, cum, fill); Stocked(m.book) && Counts(b, m.book, m.deltas)
    decreases |ps|
  {
    hide Valid, MatchLevel, Accounts, Counts, Stocked;
    if ps == [] || !s.Within(limit, ps[0]) {
      CountsNothing(b);
    } else {
      var m := MatchLevel(cfg, b, s, ps[0], qty, cum, fill);
      MatchLevelAccounts(cfg, b, s, ps[0], qty, cum, fill);
      MatchLevelCounts(cfg, b, s, ps[0], qty, cum, fill);
      MatchLevelValid(cfg, b, s, ps[0], qty, cum, fill);
      LadderUnfold(cfg, b, s, ps, limit, qty, cum, fill);
      hide MatchLadder;
      if !m.aborted && m.leaves != 0 {
        var t := MatchLadder(cfg, m.book, s, ps[1..], limit, m.leaves, cum + Traded(m.fills), fill);
        MatchLadderCounts(cfg, m.book, s, ps[1..], limit, m.leaves, cum + Traded(m.fills), fill);
        CountsConcat(b, m.book, t.book, m.deltas, t.deltas);
      }
    }
  }

  /** Clearing a side takes each of its levels away at once, and touches no other price. */
  lemma {:induction false} ResetSteady(s: Side, x: OBSide, ps: seq<int>, q: int, n: int, s2: Side, p: int)
    requires forall i | 0 <= i < |ps| :: ps[i] in x.levels
    requires forall i, j | 0 <= i < j < |ps| :: ps[i] != ps[j]
    requires q >= 0 && (q == 0 ==> n == 0)
    requires s2 == s && p in ps ==> q == x.levels[p].qty && n == x.levels[p].nOrders
    ensures Steady(q, n, ResetDeltas(s, x, ps), s2, p)
    ensures CountSum(ResetDeltas(s, x, ps), s2, p) == if s2 == s && p in ps then -n else 0
    decreases |ps|
  {
    if ps != [] {
      var d := Delta(s, Some(ps[0]), -x.levels[ps[0]].qty, -x.levels[ps[0]].nOrders, {});
      var ds := ResetDeltas(s, x, ps);
      assert ds == [d] + ResetDeltas(s, x, ps[1..]) && ds[1..] == ResetDeltas(s, x, ps[1..]);
      if p in ps[1..] {
        var i :| 0 <= i < |ps[1..]| && ps[1..][i] == p;
        assert ps[i + 1] != ps[0];
      }
      ResetSteady(s, x, ps[1..], q + QtyIn(d, s2, p), n + CountIn(d, s2, p), s2, p);
    }
  }

  /** The prices of a side, each once. */
  ghost predicate PricesOf(ps: seq<int>, x: OBSide) {
    && (forall i | 0 <= i < |ps| :: ps[i] in x.levels) && (forall i, j | 0 <= i < j < |ps| :: ps[i] != ps[j])
    && forall p <- x.levels :: p in ps
  }

  lemma {:induction false} SideReset(s: Side, x: OBSide, ps: seq<int>, q: int, n: int, s2: Side, p: int)
    requires PricesOf(ps, x) && q >= 0 && (q == 0 ==> n == 0)
    requires s2 == s ==> q == Priority.QtyAt(x, p) && n == if p in x.levels then x.levels[p].nOrders else 0
    ensures var ds := ResetDeltas(s, x, ps);
      && Steady(q, n, ds, s2, p)
      && DeltaSum(ds, s2, p) == (if s2 == s then -q else 0) && CountSum(ds, s2, p) == if s2 == s then -n else 0
  {
    hide Steady, ResetDeltas;
    ResetSteady(s, x, ps, q, n, s2, p);
    ResetDeltaSum(s, x, ps, s2, p);
    if s2 == s && p !in ps { assert p !in x.levels; }
  }

  lemma {:induction false} ResetCountsAt(b: Book, ps: seq<int>, qs: seq<int>, s: Side, p: int)
    requires Stocked(b) && PricesOf(ps, b.bids) && PricesOf(qs, b.asks)
    ensures var ds := ResetDeltas(Buy, b.bids, ps) + ResetDeltas(Sell, b.asks, qs);
      && Steady(BookQty(b, s, p), CountAt(b, s, p), ds, s, p)
      && CountAt(b, s, p) + CountSum(ds, s, p) == 0
  {
    var bids, asks := ResetDeltas(Buy, b.bids, ps), ResetDeltas(Sell, b.asks, qs);
    var q, n := BookQty(b, s, p), CountAt(b, s, p);
    hide Steady, ResetDeltas, CountSum, DeltaSum, PricesOf;
    LevelIs(b, s, p);
    SideReset(Buy, b.bids, ps, q, n, s, p);
    SideReset(Sell, b.asks, qs, q + DeltaSum(bids, s, p), n + CountSum(bids, s, p), s, p);
    SteadyConcat(q, n, bids, asks, s, p);
  }

  lemma {:induction false} ResetCounts(b: Book)
    requires Stocked(b)
    ensures Stocked(Reset(b).book) && Counts(b, Reset(b).book, Reset(b).deltas)
  {
    hide Steady, ResetDeltas, CountSum;
    var e := Reset(b);
    var ps, qs := Ladder(Sell, b.bids.levels.Keys), Ladder(Sell, b.asks.levels.Keys);
    forall s: Side, p: int
      ensures Steady(BookQty(b, s, p), CountAt(b, s, p), e.deltas, s, p)
      ensures CountAt(e.book, s, p) == CountAt(b, s, p) + CountSum(e.deltas, s, p)
    {
      ResetCountsAt(b, ps, qs, s, p);
    }
  }

  /** An aggregate update leaves the level a quantity that is not negative and, with none, no count. */
  predicate Neat(b: Book, op: Op) {
    op.OpPxLevel? && op.price.Some? ==>
      var l := b.LevelAt(op.side, op.price);
      var relative := op.delta && l.Some?;
      var total, count := if relative then l.value.qty + op.qty else op.qty,
                          if relative then l.value.nOrders + op.nOrders else op.nOrders;
      total >= 0 && (total == 0 && l.Some? ==> count == 0)
  }

  lemma {:induction false} PxCounts(cfg: Config, b: Book, side: Side, delta: bool, price: Price, qty: int, nOrders: int,
                                    flags: Flags)
    requires Valid(cfg, b) && Stocked(b) && Neat(b, OpPxLevel(side, delta, price, qty, nOrders, flags))
    ensures var (b', d, dn) := UpdatePx(cfg, b, side, delta, price, qty, nOrders, flags);
      Stocked(b') && Counts(b, b', [Delta(side, price, d, dn, flags)])
  {
    hide Valid, Stocked, Counts, LevelOk, KeysOf, Replaced;
    var (b', d, dn) := UpdatePx(cfg, b, side, delta, price, qty, nOrders, flags);
    var l := b.LevelAt(side, price);
    if l.Some? || qty != 0 {
      if l.Some? { LevelIsOk(cfg, b, side, price); }
      if l.Some? && price.Some? { LevelIs(b, side, price.value); }
      PxLevelShape(cfg, b, side, delta, price, qty, nOrders, flags);
      var u := if l.Some? then Updated(l.value, delta, qty, nOrders, flags) else Level(qty, nOrders, flags, []);
      LevelCounts(cfg, b, b', Delta(side, price, d, dn, flags), if u.qty == 0 then None else Some(u));
    } else {
      Unchanged(cfg, b, side, price);
      LevelCounts(cfg, b, b, Delta(side, price, 0, 0, flags), None);
    }
  }

  lemma {:induction false} Unchanged(cfg: Config, b: Book, s: Side, p: Price)
    requires b.LevelAt(s, p).None?
    ensures Replaced(cfg, b, b, s, p, None)
  {
    if p.Some? { assert b.Of(s).levels - {p.value} == b.Of(s).levels; }
  }

  /** An operation that only moves one order. */
  lemma {:induction false} MoveStepCounts(cfg: Config, b: Book, op: Op)
    requires Valid(cfg, b) && Stocked(b) && Valid(cfg, Step(cfg, b, op).book)
    requires op.OpModify? || op.OpReduce? || op.OpCancel?
    ensures var e := Step(cfg, b, op); Stocked(e.book) && Counts(b, e.book, e.deltas)
  {
    hide Valid, Counts, Stocked, Enter, Leave, FindIn, Moves;
    var k := cfg.Key(op.side, op.id);
    if k !in b.index {
      CountsNothing(b);
    } else {
      var i := FindFacts(cfg, b, k);
      var o := Find(cfg, b, k).value;
      match op
      case OpModify(_, _, rank, price, qty, flags) =>
        MoveCounts(cfg, b, k, Amended(o, price, qty, flags), rank);
      case OpReduce(_, _, reduceQty) =>
        MoveCounts(cfg, b, k, o.(qty := if o.qty > reduceQty then o.qty - reduceQty else 0), Some(o.rank));
      case OpCancel(_, _) =>
        MoveCounts(cfg, b, k, o.(qty := 0), None);
    }
  }

  lemma {:induction false} AddCounts(cfg: Config, b: Book, op: Op)
    requires Valid(cfg, b) && Stocked(b) && Allowed(cfg, b, op) && Valid(cfg, Step(cfg, b, op).book)
    requires op.OpAdd? && cfg.Key(op.side, op.id) !in b.index
    ensures var e := Step(cfg, b, op); Stocked(e.book) && Counts(b, e.book, e.deltas)
  {
    hide Valid, Counts, Stocked, Enter, Fits;
    var r := if op.rank.Some? then op.rank.value else 0;
    EnterCounts(cfg, b, Order(op.id, op.side, r, op.price, op.qty, op.flags), op.rank, op.flags);
  }

  /** What an allowed operation passes on is exactly the change in the number of orders, too. */
  lemma {:induction false} StepCounts(cfg: Config, b: Book, op: Op)
    requires Valid(cfg, b) && Stocked(b) && Allowed(cfg, b, op) && Neat(b, op)
    ensures var e := Step(cfg, b, op); Stocked(e.book) && Counts(b, e.book, e.deltas)
  {
    hide Valid, Counts, Stocked, Neat, Allowed, Add, Modify, Reduce, Cancel, UpdatePx, Reset, MatchLadder, Find;
    StepValid(cfg, b, op);
    match op
    case OpAdd(id, side, rank, price, qty, flags) =>
      if cfg.Key(side, id) in b.index {
        var i := FindFacts(cfg, b, cfg.Key(side, id));
        AddsAgain(cfg, b, op);
        MoveStepCounts(cfg, b, OpModify(id, side, rank, price, qty, flags));
      } else {
        AddCounts(cfg, b, op);
      }
    case OpMatch(taker, limit, qty, fill) =>
      var s := taker.Opposite();
      MatchLadderCounts(cfg, b, s, Ladder(s, b.Of(s).levels.Keys), limit, qty, 0, fill);
    case OpReset => ResetCounts(b);
    case OpPxLevel(side, delta, price, qty, nOrders, flags) =>
      PxCounts(cfg, b, side, delta, price, qty, nOrders, flags);
    case _ => MoveStepCounts(cfg, b, op);
  }

  lemma {:induction false} AddsAgain(cfg: Config, b: Book, op: Op)
    requires op.OpAdd? && Find(cfg, b, cfg.Key(op.side, op.id)).Some?
    ensures Step(cfg, b, op) == Step(cfg, b, OpModify(op.id, op.side, op.rank, op.price, op.qty, op.flags))
  {
    hide Modify;
  }

  // ---- the consolidated book

  /** Applied to a book that has `rest` and `others` besides, steady changes have the same effect. */
  lemma {:induction false} AppliedCount(cfg: Config, out: Book, ds: seq<Delta>, q: int, n: int, rest: int, others: int,
                                        s: Side, p: int)
    requires NoEmptyLevel(out) && Steady(q, n, ds, s, p) && rest >= 0 && (rest == 0 ==> others == 0)
    requires BookQty(out, s, p) == q + rest && CountAt(out, s, p) == n + others
    ensures CountAt(ApplyDeltas(cfg, out, ds), s, p) == n + others + CountSum(ds, s, p)
    decreases |ds|
  {
    hide NoEmptyLevel, ApplyDelta;
    if ds != [] {
      var d, out' := ds[0], ApplyDelta(cfg, out, ds[0]);
      DeltaKeepsLevels(cfg, out, d);
      DeltaCounts(cfg, out, d, s, p);
      assert Steady(q + QtyIn(d, s, p), n + CountIn(d, s, p), ds[1..], s, p);
      AppliedCount(cfg, out', ds[1..], q + QtyIn(d, s, p), n + CountIn(d, s, p), rest, others, s, p);
    }
  }

  lemma {:induction false} DeltaCounts(cfg: Config, out: Book, d: Delta, s: Side, p: int)
    requires NoEmptyLevel(out)
    ensures var out', q := ApplyDelta(cfg, out, d), BookQty(out, s, p) + QtyIn(d, s, p);
      && BookQty(out', s, p) == q
      && CountAt(out', s, p) == if q == 0 then 0 else CountAt(out, s, p) + CountIn(d, s, p)
  {
    if s != d.side { assert s == d.side.Opposite(); }
    assert p in out.Of(s).levels ==> out.Of(s).levels[p].qty != 0;
  }

  function InputCount(ins: seq<Input>, s: Side, p: int): int {
    if ins == [] then 0 else CountAt(ins[0].book, s, p) + InputCount(ins[1..], s, p)
  }

  ghost predicate AllStocked(ins: seq<Input>) {
    forall i | 0 <= i < |ins| :: Stocked(ins[i].book)
  }

  /** The consolidated book counts the orders of its inputs at every limit price. */
  ghost predicate Tallied(out: Book, ins: seq<Input>) {
    forall s: Side, p: int :: CountAt(out, s, p) == InputCount(ins, s, p)
  }

  lemma {:induction false} InputCountUpdate(ins: seq<Input>, i: nat, x: Input, s: Side, p: int)
    requires i < |ins|
    ensures InputCount(ins[i := x], s, p) == InputCount(ins, s, p) - CountAt(ins[i].book, s, p) + CountAt(x.book, s, p)
  {
    if i > 0 {
      assert ins[i := x][1..] == ins[1..][i - 1 := x];
      InputCountUpdate(ins[1..], i - 1, x, s, p);
    } else {
      assert ins[i := x][1..] == ins[1..];
    }
  }

  /** The other inputs have a quantity that is not negative, and orders only with some. */
  lemma {:induction false} OthersNeat(ins: seq<Input>, i: nat, s: Side, p: int)
    requires AllStocked(ins) && i <= |ins|
    ensures var q, n := InputQty(ins, s, p) - (if i < |ins| then BookQty(ins[i].book, s, p) else 0),
                        InputCount(ins, s, p) - (if i < |ins| then CountAt(ins[i].book, s, p) else 0);
      q >= 0 && (q == 0 ==> n == 0)
  {
    if ins != [] {
      assert Stocked(ins[0].book);
      LevelIs(ins[0].book, s, p);
      assert forall j | 0 <= j < |ins[1..]| :: ins[1..][j] == ins[j + 1];
      OthersNeat(ins[1..], if i > 0 then i - 1 else |ins[1..]|, s, p);
    }
  }

  /** Any allowed operation on any input keeps the count. */
  lemma {:induction false} TallyStep(cfg: Config, out: Book, ins: seq<Input>, i: nat, op: Op)
    requires Consolidated(out, ins) && Tallied(out, ins) && AllStocked(ins) && i < |ins|
    requires Valid(ins[i].cfg, ins[i].book) && Allowed(ins[i].cfg, ins[i].book, op) && Neat(ins[i].book, op)
    ensures var e := Step(ins[i].cfg, ins[i].book, op); var ins' := ins[i := ins[i].(book := e.book)];
      Tallied(ApplyDeltas(cfg, out, e.deltas), ins') && AllStocked(ins')
  {
    hide Valid, Step, Allowed, Neat, Stocked, Steady, ApplyDeltas;
    var b, e := ins[i].book, Step(ins[i].cfg, ins[i].book, op);
    var ins' := ins[i := ins[i].(book := e.book)];
    assert Stocked(b);
    StepCounts(ins[i].cfg, b, op);
    forall s: Side, p: int ensures CountAt(ApplyDeltas(cfg, out, e.deltas), s, p) == InputCount(ins', s, p) {
      OthersNeat(ins, i, s, p);
      InputCountUpdate(ins, i, ins[i].(book := e.book), s, p);
      assert BookQty(out, s, p) == InputQty(ins, s, p) && CountAt(out, s, p) == InputCount(ins, s, p);
      assert CountAt(e.book, s, p) == CountAt(b, s, p) + CountSum(e.deltas, s, p);
      AppliedCount(cfg, out, e.deltas, BookQty(b, s, p), CountAt(b, s, p), InputQty(ins, s, p) - BookQty(b, s, p),
                   InputCount(ins, s, p) - CountAt(b, s, p), s, p);
    }
  }

  ghost predicate AllNeat(cfg: Config, v: Venue, cs: seq<Call>)
    decreases |cs|
  {
    cs != [] ==>
      && (cs[0].input < |v.ins| ==> Neat(v.ins[cs[0].input].book, cs[0].op))
      && AllNeat(cfg, Do(cfg, v, cs[0]), cs[1..])
  }

  lemma {:induction false} TallyRun(cfg: Config, v: Venue, cs: seq<Call>)
    requires Sound(v) && CallsAllowed(cfg, v, cs) && AllNeat(cfg, v, cs) && Tallied(v.out, v.ins) && AllStocked(v.ins)
    ensures var v' := DoAll(cfg, v, cs); Tallied(v'.out, v'.ins)
    decreases |cs|
  {
    hide Valid, Consolidated, Step, Allowed, Neat, Tallied, AllStocked;
    if cs != [] {
      var c := cs[0];
      if c.input < |v.ins| {
        ConsolidationStep(cfg, v.out, v.ins, c.input, c.op);
        StepValid(v.ins[c.input].cfg, v.ins[c.input].book, c.op);
        TallyStep(cfg, v.out, v.ins, c.input, c.op);
      }
      TallyRun(cfg, Do(cfg, v, c), cs[1..]);
    }
  }

  /** Books mapped while empty stay counted along every run of allowed, neat calls on any of them. */
  lemma {:induction false} TalliedFromEmpty(cfg: Config, ins: seq<Input>, cs: seq<Call>)
    requires forall i | 0 <= i < |ins| :: ins[i].book == EMPTY_BOOK
    requires CallsAllowed(cfg, Venue(EMPTY_BOOK, ins), cs) && AllNeat(cfg, Venue(EMPTY_BOOK, ins), cs)
    ensures var v := DoAll(cfg, Venue(EMPTY_BOOK, ins), cs); Tallied(v.out, v.ins)
  {
    ConsolidationFromEmpty(cfg, ins, []);
    forall s: Side, p: int ensures CountAt(EMPTY_BOOK, s, p) == InputCount(ins, s, p) {
      NoCounts(ins, s, p);
    }
    TallyRun(cfg, Venue(EMPTY_BOOK, ins), cs);
  }

  lemma {:induction false} NoCounts(ins: seq<Input>, s: Side, p: int)
    requires forall i | 0 <= i < |ins| :: ins[i].book == EMPTY_BOOK
    ensures InputCount(ins, s, p) == 0
  {
    if ins != [] {
      NoCounts(ins[1..], s, p);
    }
  }
}
