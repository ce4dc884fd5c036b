/** A consolidated book: each input book passes its aggregate changes on, and the consolidated book's
    quantity at every limit price is the sum of its inputs'. Matching on the consolidated book matches on
    its inputs in turn. */
module Consolidation {
  import opened Types
  import opened Levels
  import opened Ladders
  import opened Books
  import opened Invariant
  import opened Matching
  import opened Operations
  import Priority
  import Sums

  /** An input book, with the conventions of its venue. */
  datatype Input = Input(cfg: Config, book: Book)

  function BookQty(b: Book, s: Side, p: int): int {
    Priority.QtyAt(b.Of(s), p)
  }

  function DeltaSum(ds: seq<Delta>, s: Side, p: int): int {
    if ds == [] then 0
    else (if ds[0].side == s && ds[0].price == Some(p) then ds[0].qty else 0) + DeltaSum(ds[1..], s, p)
  }

  lemma {:induction false} DeltaSumConcat(a: seq<Delta>, b: seq<Delta>, s: Side, p: int)
    ensures DeltaSum(a + b, s, p) == DeltaSum(a, s, p) + DeltaSum(b, s, p)
  {
    if a == [] {
      assert a + b == b;
    } else {
      assert (a + b)[1..] == a[1..] + b;
      DeltaSumConcat(a[1..], b, s, p);
    }
  }

  // ---- an operation's deltas are what it changes

  lemma {:induction false} ReplacedQty(cfg: Config, b: Book, b': Book, s: Side, p: Price,
                                       l: Option<Level>, s2: Side, p2: int)
    requires Replaced(cfg, b, b', s, p, l)
    ensures BookQty(b', s2, p2) == if s2 == s && p == Some(p2) then QtyOf(l) else BookQty(b, s2, p2)
  {
    if s2 != s { assert s2 == s.Opposite(); }
  }

  /** `ds` is, at every limit price, what `b'` has more than `b`. */
  ghost predicate Accounts(b: Book, b': Book, ds: seq<Delta>) {
    forall s: Side, p: int :: BookQty(b', s, p) == BookQty(b, s, p) + DeltaSum(ds, s, p)
  }

  lemma {:induction false} AccountsConcat(a: Book, b: Book, c: Book, ds: seq<Delta>, es: seq<Delta>)
    requires Accounts(a, b, ds) && Accounts(b, c, es)
    ensures Accounts(a, c, ds + es)
  {
    forall s: Side, p: int ensures BookQty(c, s, p) == BookQty(a, s, p) + DeltaSum(ds + es, s, p) {
      DeltaSumConcat(ds, es, s, p);
      assert BookQty(b, s, p) == BookQty(a, s, p) + DeltaSum(ds, s, p);
      assert BookQty(c, s, p) == BookQty(b, s, p) + DeltaSum(es, s, p);
    }
  }

  lemma {:induction false} LeaveAccounts(cfg: Config, b: Book, k: OrderKey)
    requires Valid(cfg, b) && k in b.index && Find(cfg, b, k).Some?
    ensures var o := Find(cfg, b, k).value;
      Accounts(b, Leave(cfg, b, o), [Delta(o.side, o.price, -o.qty, -1, {})])
  {
    hide Valid, Leave, Find;
    LeaveValid(cfg, b, k);
    var o := Find(cfg, b, k).value;
    var d := Delta(o.side, o.price, -o.qty, -1, {});
    assert [d][1..] == [];
    forall s: Side, p: int ensures BookQty(Leave(cfg, b, o), s, p) == BookQty(b, s, p) + DeltaSum([d], s, p) {
      ReplacedQty(cfg, b, Leave(cfg, b, o), o.side, o.price, Remaining(cfg, b.LevelAt(o.side, o.price).value, o), s, p);
    }
  }

  lemma {:induction false} EnterAccounts(cfg: Config, b: Book, o: Order, rank: Option<nat>, flags: Flags)
    requires o.qty != 0 && cfg.KeyOf(o) !in b.index
    ensures Accounts(b, Enter(cfg, b, o, rank), [Delta(o.side, o.price, o.qty, 1, flags)])
  {
    EnterShape(cfg, b, o, rank);
    hide Enter;
    var d := Delta(o.side, o.price, o.qty, 1, flags);
    assert [d][1..] == [];
    forall s: Side, p: int ensures BookQty(Enter(cfg, b, o, rank), s, p) == BookQty(b, s, p) + DeltaSum([d], s, p) {
      ReplacedQty(cfg, b, Enter(cfg, b, o, rank), o.side, o.price,
        Some(Joined(cfg, b.LevelAt(o.side, o.price), o, rank)), s, p);
    }
  }

  /** An order that leaves and, if it has a quantity left, enters again. */
  lemma {:induction false} MoveAccounts(cfg: Config, b: Book, k: OrderKey, o': Order, rank: Option<nat>)
    requires Valid(cfg, b) && k in b.index && Find(cfg, b, k).Some? && cfg.KeyOf(o') == k
    ensures var o := Find(cfg, b, k).value;
      Accounts(b, EnterAny(cfg, LeaveAny(cfg, b, o), o', rank), Moves(o, o'))
  {
    hide Valid, Leave, Enter, Find, Accounts;
    LeaveValid(cfg, b, k);
    LeaveAccounts(cfg, b, k);
    var o := Find(cfg, b, k).value;
    if o'.qty != 0 {
      EnterAccounts(cfg, Leave(cfg, b, o), o', rank, {});
      AccountsConcat(b, Leave(cfg, b, o), Enter(cfg, Leave(cfg, b, o), o', rank),
                     [Delta(o.side, o.price, -o.qty, -1, {})], [Delta(o'.side, o'.price, o'.qty, 1, {})]);
    } else {
      assert Moves(o, o') == [Delta(o.side, o.price, -o.qty, -1, {})];
    }
  }

  lemma {:induction false} PxAccounts(cfg: Config, b: Book, side: Side, delta: bool, price: Price, qty: int,
                                      nOrders: int, flags: Flags)
    ensures var (b', d, dn) := UpdatePx(cfg, b, side, delta, price, qty, nOrders, flags);
      Accounts(b, b', [Delta(side, price, d, dn, flags)])
  {
    var (b', d, dn) := UpdatePx(cfg, b, side, delta, price, qty, nOrders, flags);
    assert [Delta(side, price, d, dn, flags)][1..] == [];
    forall s: Side, p: int
      ensures BookQty(b', s, p) == BookQty(b, s, p) + DeltaSum([Delta(side, price, d, dn, flags)], s, p)
    {
      if s != side { assert s == side.Opposite(); }
    }
  }

  lemma {:induction false} ResetDeltaSum(s: Side, x: OBSide, ps: seq<int>, s2: Side, p: int)
    requires forall i | 0 <= i < |ps| :: ps[i] in x.levels
    requires forall i, j | 0 <= i < j < |ps| :: ps[i] != ps[j]
    ensures DeltaSum(ResetDeltas(s, x, ps), s2, p) == if s2 == s && p in ps then -Priority.QtyAt(x, p) else 0
  {
    if ps != [] {
      ResetDeltaSum(s, x, ps[1..], s2, p);
      assert ResetDeltas(s, x, ps)[1..] == ResetDeltas(s, x, ps[1..]);
      if p in ps[1..] {
        var i :| 0 <= i < |ps[1..]| && ps[1..][i] == p;
        assert ps[i + 1] != ps[0];
      }
    }
  }

  lemma {:induction false} ResetAccounts(b: Book)
    ensures Accounts(b, Reset(b).book, Reset(b).deltas)
  {
    var e := Reset(b);
    var ps, qs := Ladder(Sell, b.bids.levels.Keys), Ladder(Sell, b.asks.levels.Keys);
    forall s: Side, p: int ensures BookQty(e.book, s, p) == BookQty(b, s, p) + DeltaSum(e.deltas, s, p) {
      DeltaSumConcat(ResetDeltas(Buy, b.bids, ps), ResetDeltas(Sell, b.asks, qs), s, p);
      ResetDeltaSum(Buy, b.bids, ps, s, p);
      ResetDeltaSum(Sell, b.asks, qs, s, p);
    }
  }

  lemma {:induction false} MatchLevelAccounts(cfg: Config, b: Book, s: Side, px: int, qty: int, cum: int, fill: FillFn)
    ensures var m := MatchLevel(cfg, b, s, px, qty, cum, fill); Accounts(b, m.book, m.deltas)
  {
    if px in b.Of(s).levels {
      var l := b.Of(s).levels[px];
      var m := MatchOrders(l.orders, px, qty, cum, fill);
      hide MatchOrders;
      var ds := LevelDeltas(s, px, l, m);
      assert ds != [] ==> ds[1..] == [];
      var b' := Matched(cfg, b, s, px, m);
      forall s2: Side, p: int ensures BookQty(b', s2, p) == BookQty(b, s2, p) + DeltaSum(ds, s2, p) {
        if s2 != s { assert s2 == s.Opposite(); }
      }
    }
  }

  lemma {:induction false} MatchLadderAccounts(cfg: Config, b: Book, s: Side, ps: seq<int>, limit: Price, qty: int,
                                               cum: int, fill: FillFn)
    ensures var m := MatchLadder(cfg, b, s, ps, limit, qty, cum, fill); Accounts(b, m.book, m.deltas)
    decreases |ps|
  {
    hide MatchLevel, Accounts;
    if ps == [] || !s.Within(limit, ps[0]) {
      AccountsNothing(b);
    } else {
      var m := MatchLevel(cfg, b, s, ps[0], qty, cum, fill);
      MatchLevelAccounts(cfg, b, s, ps[0], qty, cum, fill);
      LadderUnfold(cfg, b, s, ps, limit, qty, cum, fill);
      hide MatchLadder;
      if !m.aborted && m.leaves != 0 {
        var t := MatchLadder(cfg, m.book, s, ps[1..], limit, m.leaves, cum + Traded(m.fills), fill);
        MatchLadderAccounts(cfg, m.book, s, ps[1..], limit, m.leaves, cum + Traded(m.fills), fill);
        AccountsConcat(b, m.book, t.book, m.deltas, t.deltas);
      }
    }
  }

  lemma {:induction false} AccountsNothing(b: Book)
    ensures Accounts(b, b, [])
  {
  }

  /** What an operation passes on is, at every limit price, exactly what it changes there. */
  lemma {:induction false} StepAccounts(cfg: Config, b: Book, op: Op)
    requires Valid(cfg, b)
    ensures Accounts(b, Step(cfg, b, op).book, Step(cfg, b, op).deltas)
  {
    hide Valid, Accounts, Enter, Leave;
    AccountsNothing(b);
    match op
    case OpAdd(id, side, rank, price, qty, flags) =>
      var k := cfg.Key(side, id);
      if k in b.index {
        var i := FindFacts(cfg, b, k);
        MoveAccounts(cfg, b, k, Amended(Find(cfg, b, k).value, price, qty, flags), rank);
      } else if qty != 0 {
        EnterAccounts(cfg, b, Order(id, side, if rank.Some? then rank.value else 0, price, qty, flags), rank, flags);
      } else {
        DetachedAccounts(b, b.index[k := Detached(Order(id, side, if rank.Some? then rank.value else 0, price, qty,
          flags))]);
      }
    case OpModify(id, side, rank, price, qty, flags) =>
      var k := cfg.Key(side, id);
      if k in b.index {
        var i := FindFacts(cfg, b, k);
        MoveAccounts(cfg, b, k, Amended(Find(cfg, b, k).value, price, qty, flags), rank);
      }
    case OpReduce(id, side, reduceQty) =>
      var k := cfg.Key(side, id);
      if k in b.index {
        var i := FindFacts(cfg, b, k);
        var o := Find(cfg, b, k).value;
        MoveAccounts(cfg, b, k, o.(qty := if o.qty > reduceQty then o.qty - reduceQty else 0), Some(o.rank));
      }
    case OpCancel(id, side) =>
      var k := cfg.Key(side, id);
      if k in b.index {
        var i := FindFacts(cfg, b, k);
        MoveAccounts(cfg, b, k, Find(cfg, b, k).value.(qty := 0), None);
      }
    case OpMatch(taker, limit, qty, fill) =>
      var s := taker.Opposite();
      MatchLadderAccounts(cfg, b, s, Ladder(s, b.Of(s).levels.Keys), limit, qty, 0, fill);
    case OpReset => ResetAccounts(b);
    case OpPxLevel(side, delta, price, qty, nOrders, flags) =>
      PxAccounts(cfg, b, side, delta, price, qty, nOrders, flags);
  }

  lemma {:induction false} DetachedAccounts(b: Book, index: map<OrderKey, Location>)
    ensures Accounts(b, b.(index := index), [])
  {
  }

  // ---- the consolidated book

  function ApplyDelta(cfg: Config, out: Book, d: Delta): Book {
    UpdatePx(cfg, out, d.side, true, d.price, d.qty, d.nOrders, d.flags).0
  }

  function ApplyDeltas(cfg: Config, out: Book, ds: seq<Delta>): Book
    decreases |ds|
  {
    if ds == [] then out else ApplyDeltas(cfg, ApplyDelta(cfg, out, ds[0]), ds[1..])
  }

  /** No level at a limit price is empty. */
  ghost predicate NoEmptyLevel(out: Book) {
    forall s: Side, p: int | p in out.Of(s).levels :: out.Of(s).levels[p].qty != 0
  }

  lemma {:induction false} ApplyDeltasAccounts(cfg: Config, out: Book, ds: seq<Delta>)
    requires NoEmptyLevel(out)
    ensures Accounts(out, ApplyDeltas(cfg, out, ds), ds) && NoEmptyLevel(ApplyDeltas(cfg, out, ds))
    decreases |ds|
  {
    if ds == [] {
      AccountsNothing(out);
    } else {
      var d := ds[0];
      var out' := ApplyDelta(cfg, out, d);
      DeltaKeepsLevels(cfg, out, d);
      DeltaAccounts(cfg, out, d);
      hide NoEmptyLevel, ApplyDelta, Accounts;
      ApplyDeltasAccounts(cfg, out', ds[1..]);
      AccountsConcat(out, out', ApplyDeltas(cfg, out', ds[1..]), [d], ds[1..]);
      assert [d] + ds[1..] == ds;
    }
  }

  lemma {:induction false} DeltaKeepsLevels(cfg: Config, out: Book, d: Delta)
    requires NoEmptyLevel(out)
    ensures NoEmptyLevel(ApplyDelta(cfg, out, d))
  {
    var out' := ApplyDelta(cfg, out, d);
    forall s: Side, p: int | p in out'.Of(s).levels ensures out'.Of(s).levels[p].qty != 0 {
      if s != d.side { assert s == d.side.Opposite(); }
      assert p in out.Of(s).levels ==> out.Of(s).levels[p].qty != 0;
    }
  }

  lemma {:induction false} DeltaAccounts(cfg: Config, out: Book, d: Delta)
    ensures Accounts(out, ApplyDelta(cfg, out, d), [d])
  {
    var (b', q, n) := UpdatePx(cfg, out, d.side, true, d.price, d.qty, d.nOrders, d.flags);
    assert [d][1..] == [];
    forall s: Side, p: int ensures BookQty(b', s, p) == BookQty(out, s, p) + DeltaSum([d], s, p) {
      if s != d.side { assert s == d.side.Opposite(); }
    }
  }

  function InputQty(ins: seq<Input>, s: Side, p: int): int {
    if ins == [] then 0 else BookQty(ins[0].book, s, p) + InputQty(ins[1..], s, p)
  }

  /** The consolidated book shows the sum of its inputs at every limit price. */
  ghost predicate Consolidated(out: Book, ins: seq<Input>) {
    && NoEmptyLevel(out)
    && forall s: Side, p: int :: BookQty(out, s, p) == InputQty(ins, s, p)
  }

  lemma {:induction false} InputQtyUpdate(ins: seq<Input>, i: nat, x: Input, s: Side, p: int)
    requires i < |ins|
    ensures InputQty(ins[i := x], s, p) == InputQty(ins, s, p) - BookQty(ins[i].book, s, p) + BookQty(x.book, s, p)
  {
    if i > 0 {
      assert ins[i := x][1..] == ins[1..][i - 1 := x];
      InputQtyUpdate(ins[1..], i - 1, x, s, p);
    } else {
      assert ins[i := x][1..] == ins[1..];
    }
  }

  /** A change of one input that is accounted for by deltas keeps the book consolidated. */
  lemma {:induction false} AccountedKeeps(cfg: Config, out: Book, ins: seq<Input>, i: nat, b': Book, ds: seq<Delta>)
    requires Consolidated(out, ins) && i < |ins| && Accounts(ins[i].book, b', ds)
    ensures Consolidated(ApplyDeltas(cfg, out, ds), ins[i := ins[i].(book := b')])
  {
    ApplyDeltasAccounts(cfg, out, ds);
    hide ApplyDeltas;
    var out' := ApplyDeltas(cfg, out, ds);
    var ins' := ins[i := ins[i].(book := b')];
    forall s: Side, p: int ensures BookQty(out', s, p) == InputQty(ins', s, p) {
      InputQtyUpdate(ins, i, ins[i].(book := b'), s, p);
      assert BookQty(out, s, p) == InputQty(ins, s, p);
      assert BookQty(out', s, p) == BookQty(out, s, p) + DeltaSum(ds, s, p);
      assert BookQty(b', s, p) == BookQty(ins[i].book, s, p) + DeltaSum(ds, s, p);
    }
  }

  /** Any operation on any input keeps the book consolidated. */
  lemma {:induction false} ConsolidationStep(cfg: Config, out: Book, ins: seq<Input>, i: nat, op: Op)
    requires Consolidated(out, ins) && i < |ins| && Valid(ins[i].cfg, ins[i].book)
    ensures var e := Step(ins[i].cfg, ins[i].book, op);
      Consolidated(ApplyDeltas(cfg, out, e.deltas), ins[i := ins[i].(book := e.book)])
  {
    hide Valid, Step, Consolidated, Accounts;
    StepAccounts(ins[i].cfg, ins[i].book, op);
    var e := Step(ins[i].cfg, ins[i].book, op);
    AccountedKeeps(cfg, out, ins, i, e.book, e.deltas);
  }

  /** Where the inputs' levels are positive, the consolidated book has a level exactly where an input has. */
  lemma {:induction false} LevelsAgree(out: Book, ins: seq<Input>, s: Side, p: int)
    requires Consolidated(out, ins)
    requires forall i | 0 <= i < |ins| && p in ins[i].book.Of(s).levels :: ins[i].book.Of(s).levels[p].qty > 0
    ensures p in out.Of(s).levels <==> exists i :: 0 <= i < |ins| && p in ins[i].book.Of(s).levels
  {
    InputQtyPositive(ins, s, p);
    assert BookQty(out, s, p) == InputQty(ins, s, p);
    assert p in out.Of(s).levels ==> out.Of(s).levels[p].qty != 0;
  }

  lemma {:induction false} InputQtyPositive(ins: seq<Input>, s: Side, p: int)
    requires forall i | 0 <= i < |ins| && p in ins[i].book.Of(s).levels :: ins[i].book.Of(s).levels[p].qty > 0
    ensures InputQty(ins, s, p) >= 0
    ensures InputQty(ins, s, p) > 0 <==> exists i :: 0 <= i < |ins| && p in ins[i].book.Of(s).levels
  {
    if ins != [] {
      var rest := ins[1..];
      InputQtyPositive(rest, s, p);
      if i :| 0 <= i < |rest| && p in rest[i].book.Of(s).levels {
        assert p in ins[i + 1].book.Of(s).levels;
      }
      if i :| 0 <= i < |ins| && p in ins[i].book.Of(s).levels {
        assert i > 0 ==> p in rest[i - 1].book.Of(s).levels;
      }
    }
  }

  // ---- runs of operations on the inputs

  datatype Venue = Venue(out: Book, ins: seq<Input>)

  /** One operation on one input, and the changes it passes on. */
  datatype Call = Call(input: nat, op: Op)

  ghost function Do(cfg: Config, v: Venue, c: Call): Venue {
    if c.input >= |v.ins| then v else
      var x := v.ins[c.input];
      var e := Step(x.cfg, x.book, c.op);
      Venue(ApplyDeltas(cfg, v.out, e.deltas), v.ins[c.input := x.(book := e.book)])
  }

  ghost function DoAll(cfg: Config, v: Venue, cs: seq<Call>): Venue
    decreases |cs|
  {
    if cs == [] then v else DoAll(cfg, Do(cfg, v, cs[0]), cs[1..])
  }

  ghost predicate Sound(v: Venue) {
    Consolidated(v.out, v.ins) && forall i | 0 <= i < |v.ins| :: Valid(v.ins[i].cfg, v.ins[i].book)
  }

  ghost predicate CallsAllowed(cfg: Config, v: Venue, cs: seq<Call>)
    decreases |cs|
  {
    cs != [] ==>
      && (cs[0].input < |v.ins| ==> Allowed(v.ins[cs[0].input].cfg, v.ins[cs[0].input].book, cs[0].op))
      && CallsAllowed(cfg, Do(cfg, v, cs[0]), cs[1..])
  }

  lemma {:induction false} ConsolidationRun(cfg: Config, v: Venue, cs: seq<Call>)
    requires Sound(v) && CallsAllowed(cfg, v, cs)
    ensures Sound(DoAll(cfg, v, cs))
    decreases |cs|
  {
    hide Valid, Consolidated, Step, Allowed;
    if cs != [] {
      var c := cs[0];
      if c.input < |v.ins| {
        ConsolidationStep(cfg, v.out, v.ins, c.input, c.op);
        StepValid(v.ins[c.input].cfg, v.ins[c.input].book, c.op);
      }
      ConsolidationRun(cfg, Do(cfg, v, c), cs[1..]);
    }
  }

  /** Books mapped while empty stay consolidated along every run of allowed calls on any of them. */
  lemma {:induction false} ConsolidationFromEmpty(cfg: Config, ins: seq<Input>, cs: seq<Call>)
    requires forall i | 0 <= i < |ins| :: ins[i].book == EMPTY_BOOK
    requires CallsAllowed(cfg, Venue(EMPTY_BOOK, ins), cs)
    ensures Sound(DoAll(cfg, Venue(EMPTY_BOOK, ins), cs))
  {
    forall i | 0 <= i < |ins| ensures Valid(ins[i].cfg, ins[i].book) {
      EmptyValid(ins[i].cfg);
    }
    forall s: Side, p: int ensures BookQty(EMPTY_BOOK, s, p) == InputQty(ins, s, p) {
      EmptyInputs(ins, s, p);
    }
    ConsolidationRun(cfg, Venue(EMPTY_BOOK, ins), cs);
  }

  lemma {:induction false} EmptyInputs(ins: seq<Input>, s: Side, p: int)
    requires forall i | 0 <= i < |ins| :: ins[i].book == EMPTY_BOOK
    ensures InputQty(ins, s, p) == 0
  {
    if ins != [] {
      EmptyInputs(ins[1..], s, p);
    }
  }

  // ---- matching on the consolidated book

  datatype VenueMatch = VenueMatch(ins: seq<Input>, leaves: int, fills: seq<Fill>, aborted: bool, deltas: seq<Delta>)

  /** Matches on the inputs in turn, from the i-th on. */
  ghost function MatchInputs(ins: seq<Input>, i: nat, taker: Side, limit: Price, qty: int, cum: int,
                             fill: FillFn): VenueMatch
    decreases |ins| - i
  {
    if i >= |ins| then VenueMatch(ins, qty, [], false, []) else
      var m := MatchFrom(ins[i].cfg, ins[i].book, taker, limit, qty, cum, fill);
      var ins' := ins[i := ins[i].(book := m.book)];
      if m.aborted || m.leaves == 0 then VenueMatch(ins', m.leaves, m.fills, m.aborted, m.deltas)
      else
        var r := MatchInputs(ins', i + 1, taker, limit, m.leaves, cum + Traded(m.fills), fill);
        VenueMatch(r.ins, r.leaves, m.fills + r.fills, r.aborted, m.deltas + r.deltas)
  }

  lemma {:induction false} DeltasInTwo(cfg: Config, out: Book, a: seq<Delta>, b: seq<Delta>)
    ensures ApplyDeltas(cfg, out, a + b) == ApplyDeltas(cfg, ApplyDeltas(cfg, out, a), b)
    decreases |a|
  {
    hide ApplyDelta;
    if a == [] {
      assert a + b == b;
    } else {
      assert (a + b)[1..] == a[1..] + b;
      DeltasInTwo(cfg, ApplyDelta(cfg, out, a[0]), a[1..], b);
    }
  }

  /** A consolidated match keeps the book consolidated. */
  lemma {:induction false} MatchConsolidated(cfg: Config, out: Book, ins: seq<Input>, i: nat, taker: Side,
                                             limit: Price, qty: int, cum: int, fill: FillFn)
    requires Consolidated(out, ins)
    ensures var m := MatchInputs(ins, i, taker, limit, qty, cum, fill);
      Consolidated(ApplyDeltas(cfg, out, m.deltas), m.ins)
    decreases |ins| - i
  {
    hide Consolidated, MatchLadder, Accounts, Ladder;
    if i < |ins| {
      var s := taker.Opposite();
      var m := MatchFrom(ins[i].cfg, ins[i].book, taker, limit, qty, cum, fill);
      MatchLadderAccounts(ins[i].cfg, ins[i].book, s, Ladder(s, ins[i].book.Of(s).levels.Keys), limit, qty, cum, fill);
      AccountedKeeps(cfg, out, ins, i, m.book, m.deltas);
      var ins' := ins[i := ins[i].(book := m.book)];
      if !m.aborted && m.leaves != 0 {
        MatchConsolidated(cfg, ApplyDeltas(cfg, out, m.deltas), ins', i + 1, taker, limit, m.leaves,
          cum + Traded(m.fills), fill);
        DeltasInTwo(cfg, out, m.deltas, MatchInputs(ins', i + 1, taker, limit, m.leaves, cum + Traded(m.fills),
          fill).deltas);
      }
    }
  }

  // ---- the announced volume of the consolidated book

  /** What a side offers within a limit. */
  function Offered(s: Side, x: OBSide, limit: Price): map<int, int> {
    map p | p in x.levels && Priority.Counts(s, limit, p) :: x.levels[p].qty
  }

  function OfferedIn(s: Side, x: OBSide, limit: Price, ps: seq<int>): map<int, int> {
    map p | p in x.levels && Priority.Counts(s, limit, p) && p in ps :: x.levels[p].qty
  }

  lemma {:induction false} LadderQtySum(s: Side, x: OBSide, ps: seq<int>, limit: Price)
    requires Priority.Sorted(s, ps)
    ensures Priority.LadderQty(s, x, ps, limit) == Sums.Sum(OfferedIn(s, x, limit, ps))
  {
    hide Priority.Sorted;
    if ps == [] {
      assert OfferedIn(s, x, limit, ps) == map[];
    } else {
      Priority.SortedTail(s, ps);
      var m, t := OfferedIn(s, x, limit, ps), OfferedIn(s, x, limit, ps[1..]);
      if Priority.Counts(s, limit, ps[0]) {
        LadderQtySum(s, x, ps[1..], limit);
        assert m - {ps[0]} == t by {
          forall p | p in ps && p != ps[0] ensures p in ps[1..] { Priority.InTail(ps, p); }
        }
        Sums.SumDelete(m, ps[0]);
      } else {
        forall p | p in ps ensures !Priority.Counts(s, limit, p) {
          if p != ps[0] { Priority.InTail(ps, p); }
        }
        assert m == map[];
      }
    }
  }

  lemma {:induction false} MatchQtyIsSum(s: Side, x: OBSide, limit: Price)
    ensures Priority.MatchQty(s, x, limit) == Sums.Sum(Offered(s, x, limit))
  {
    hide Sums.Sum, Priority.LadderQty;
    var ps := Ladder(s, x.levels.Keys);
    LadderQtySum(s, x, ps, limit);
    assert OfferedIn(s, x, limit, ps) == Offered(s, x, limit);
  }

  ghost function InputMatchQty(ins: seq<Input>, i: nat, s: Side, limit: Price): int
    decreases |ins| - i
  {
    if i >= |ins| then 0
    else Priority.MatchQty(s, ins[i].book.Of(s), limit) + InputMatchQty(ins, i + 1, s, limit)
  }

  /** The pointwise sum of what the inputs from the i-th on offer. */
  function OfferedByInputs(ins: seq<Input>, i: nat, s: Side, limit: Price): map<int, int>
    decreases |ins| - i
  {
    if i >= |ins| then map[] else
      var a, b := Offered(s, ins[i].book.Of(s), limit), OfferedByInputs(ins, i + 1, s, limit);
      map p | p in a.Keys + b.Keys :: Sums.At(a, p) + Sums.At(b, p)
  }

  lemma {:induction false} OfferedSum(ins: seq<Input>, i: nat, s: Side, limit: Price)
    ensures Sums.Sum(OfferedByInputs(ins, i, s, limit)) == InputMatchQty(ins, i, s, limit)
    decreases |ins| - i
  {
    if i < |ins| {
      var a, b := Offered(s, ins[i].book.Of(s), limit), OfferedByInputs(ins, i + 1, s, limit);
      OfferedSum(ins, i + 1, s, limit);
      MatchQtyIsSum(s, ins[i].book.Of(s), limit);
      Sums.SumPointwise(a, b, OfferedByInputs(ins, i, s, limit));
    }
  }

  lemma {:induction false} OfferedAt(ins: seq<Input>, i: nat, s: Side, limit: Price, p: int)
    requires i <= |ins|
    ensures Sums.At(OfferedByInputs(ins, i, s, limit), p)
      == if Priority.Counts(s, limit, p) then InputQty(ins[i..], s, p) else 0
    decreases |ins| - i
  {
    if i < |ins| {
      OfferedAt(ins, i + 1, s, limit, p);
      assert ins[i..][1..] == ins[i + 1..];
    }
  }

  /** The consolidated book announces the sum of what its inputs announce. */
  lemma {:induction false} ConsolidatedMatchQty(out: Book, ins: seq<Input>, s: Side, limit: Price)
    requires Consolidated(out, ins)
    ensures Priority.MatchQty(s, out.Of(s), limit) == InputMatchQty(ins, 0, s, limit)
  {
    var a, b := OfferedByInputs(ins, 0, s, limit), Offered(s, out.Of(s), limit);
    forall p: int ensures Sums.At(b, p) == Sums.At(a, p) + Sums.At(map[], p) {
      OfferedAt(ins, 0, s, limit, p);
      assert ins[0..] == ins;
      assert BookQty(out, s, p) == InputQty(ins, s, p);
    }
    Sums.SumPointwise(a, map[], b);
    OfferedSum(ins, 0, s, limit);
    MatchQtyIsSum(s, out.Of(s), limit);
  }

  // ---- the volume of a consolidated match

  ghost predicate AllValid(ins: seq<Input>, i: nat) {
    forall j | i <= j < |ins| :: Valid(ins[j].cfg, ins[j].book)
  }

  /** What rests on a side of the inputs from the i-th on, within a limit. */
  ghost function InputRests(ins: seq<Input>, i: nat, s: Side, limit: Price): int
    decreases |ins| - i
  {
    if i >= |ins| then 0
    else Priority.SumQueue(Priority.Queue(ins[i].book, s, limit)) + InputRests(ins, i + 1, s, limit)
  }

  lemma {:induction false} RestsPositive(ins: seq<Input>, i: nat, s: Side, limit: Price)
    requires AllValid(ins, i)
    ensures InputRests(ins, i, s, limit) >= 0
    decreases |ins| - i
  {
    hide Valid, Priority.Queue;
    if i < |ins| {
      var b := ins[i].book;
      Priority.QueuePositive(ins[i].cfg, b, s, Ladder(s, b.Of(s).levels.Keys), limit);
      QueueIs(b, s, limit);
      Priority.SumQueuePositive(Priority.Queue(b, s, limit));
      RestsPositive(ins, i + 1, s, limit);
    }
  }

  lemma {:induction false} QueueIs(b: Book, s: Side, limit: Price)
    ensures Priority.Queue(b, s, limit) == Priority.QueueOf(s, b.Of(s), Ladder(s, b.Of(s).levels.Keys), limit)
  {
  }

  lemma {:induction false} RestsSame(ins: seq<Input>, i: nat, j: nat, x: Input, s: Side, limit: Price)
    requires i < j && i < |ins|
    ensures InputRests(ins[i := x], j, s, limit) == InputRests(ins, j, s, limit)
    decreases |ins| - j
  {
    hide Priority.Queue;
    if j < |ins| {
      RestsSame(ins, i, j + 1, x, s, limit);
    }
  }

  lemma {:induction false} InputsUnfold(ins: seq<Input>, i: nat, taker: Side, limit: Price, qty: int, cum: int,
                                        fill: FillFn)
    ensures var r := MatchInputs(ins, i, taker, limit, qty, cum, fill);
      if i >= |ins| then r == VenueMatch(ins, qty, [], false, []) && Traded([]) == 0
      else
        var m := MatchFrom(ins[i].cfg, ins[i].book, taker, limit, qty, cum, fill);
        var ins' := ins[i := ins[i].(book := m.book)];
        var t := MatchInputs(ins', i + 1, taker, limit, m.leaves, cum + Traded(m.fills), fill);
        r == if m.aborted || m.leaves == 0 then VenueMatch(ins', m.leaves, m.fills, m.aborted, m.deltas)
             else VenueMatch(t.ins, t.leaves, m.fills + t.fills, t.aborted, m.deltas + t.deltas)
  {
    hide MatchFrom;
  }

  /** Nothing is lost across the inputs, and without an abort the volume is the lesser of the quantity and what
      rests on all of them. */
  lemma {:induction false} InputsTrade(ins: seq<Input>, i: nat, taker: Side, limit: Price, qty: int, cum: int,
                                       fill: FillFn)
    requires AllValid(ins, i) && qty > 0
    ensures var m := MatchInputs(ins, i, taker, limit, qty, cum, fill);
      && m.leaves + Traded(m.fills) == qty
      && (!m.aborted ==> Traded(m.fills) == Priority.Min(qty, InputRests(ins, i, taker.Opposite(), limit)))
    decreases |ins| - i
  {
    hide Valid, MatchFrom, MatchInputs, Traded, Priority.Queue, Priority.MatchQty, Priority.InPriority;
    InputsUnfold(ins, i, taker, limit, qty, cum, fill);
    if i < |ins| {
      var s := taker.Opposite();
      var m := MatchFrom(ins[i].cfg, ins[i].book, taker, limit, qty, cum, fill);
      Priority.MatchVolume(ins[i].cfg, ins[i].book, taker, limit, qty, cum, fill);
      var x := ins[i].(book := m.book);
      RestsSame(ins, i, i + 1, x, s, limit);
      RestsPositive(ins, i + 1, s, limit);
      if !m.aborted && m.leaves != 0 {
        InputsTrade(ins[i := x], i + 1, taker, limit, m.leaves, cum + Traded(m.fills), fill);
        TradedConcat(m.fills, MatchInputs(ins[i := x], i + 1, taker, limit, m.leaves, cum + Traded(m.fills),
          fill).fills);
      }
    }
  }

  /** The queues of the inputs from the i-th on, one behind the other. */
  ghost function InputQueues(ins: seq<Input>, i: nat, s: Side, limit: Price): seq<Priority.Resting>
    decreases |ins| - i
  {
    if i >= |ins| then [] else Priority.Queue(ins[i].book, s, limit) + InputQueues(ins, i + 1, s, limit)
  }

  lemma {:induction false} QueuesSame(ins: seq<Input>, ins': seq<Input>, j: nat, s: Side, limit: Price)
    requires |ins| == |ins'| && forall k | j <= k < |ins| :: ins'[k] == ins[k]
    ensures InputQueues(ins', j, s, limit) == InputQueues(ins, j, s, limit)
    decreases |ins| - j
  {
    if j < |ins| {
      QueuesSame(ins, ins', j + 1, s, limit);
    }
  }

  lemma {:induction false} QueuesUnfold(ins: seq<Input>, i: nat, s: Side, limit: Price)
    ensures InputQueues(ins, i, s, limit) ==
      if i >= |ins| then [] else Priority.Queue(ins[i].book, s, limit) + InputQueues(ins, i + 1, s, limit)
  {
  }

  lemma {:induction false} NoQueue(qty: int, cum: int, fill: FillFn)
    ensures Priority.MatchQueue([], qty, cum, fill) == Priority.QueueMatch([], qty, [], false)
  {
  }

  /** The inputs before the i-th are left alone. */
  lemma {:induction false} InputsBefore(ins: seq<Input>, i: nat, taker: Side, limit: Price, qty: int, cum: int,
                                        fill: FillFn)
    ensures var m := MatchInputs(ins, i, taker, limit, qty, cum, fill);
      |m.ins| == |ins| && forall j | 0 <= j < |ins| && j < i :: m.ins[j] == ins[j]
    decreases |ins| - i
  {
    hide MatchFrom, MatchInputs;
    InputsUnfold(ins, i, taker, limit, qty, cum, fill);
    if i < |ins| {
      var m := MatchFrom(ins[i].cfg, ins[i].book, taker, limit, qty, cum, fill);
      InputsBefore(ins[i := ins[i].(book := m.book)], i + 1, taker, limit, m.leaves, cum + Traded(m.fills), fill);
    }
  }

  /** A consolidated match is a match of one queue, in which the orders of each input are ahead of those of the next:
      same fills, same outcome, and what remains of the queue is what rests on the inputs afterwards. */
  lemma {:induction false} ConsolidatedIsQueue(ins: seq<Input>, i: nat, taker: Side, limit: Price, qty: int, cum: int,
                                               fill: FillFn)
    requires AllValid(ins, i) && qty != 0
    ensures var m, s := MatchInputs(ins, i, taker, limit, qty, cum, fill), taker.Opposite();
      Priority.MatchQueue(InputQueues(ins, i, s, limit), qty, cum, fill)
      == Priority.QueueMatch(InputQueues(m.ins, i, s, limit), m.leaves, m.fills, m.aborted)
    decreases |ins| - i
  {
    hide Valid, MatchFrom, MatchInputs, Traded, Priority.Queue, Priority.MatchQueue, InputQueues;
    InputsUnfold(ins, i, taker, limit, qty, cum, fill);
    QueuesUnfold(ins, i, taker.Opposite(), limit);
    if i >= |ins| {
      NoQueue(qty, cum, fill);
    } else {
      var s := taker.Opposite();
      var m := MatchFrom(ins[i].cfg, ins[i].book, taker, limit, qty, cum, fill);
      var ins' := ins[i := ins[i].(book := m.book)];
      var first, rest := Priority.Queue(ins[i].book, s, limit), InputQueues(ins, i + 1, s, limit);
      Priority.MatchIsQueue(ins[i].cfg, ins[i].book, taker, limit, qty, cum, fill);
      Priority.MatchQueueConcat(first, rest, qty, cum, fill);
      QueuesSame(ins, ins', i + 1, s, limit);
      QueuesUnfold(ins', i, s, limit);
      if !m.aborted && m.leaves != 0 {
        var t := MatchInputs(ins', i + 1, taker, limit, m.leaves, cum + Traded(m.fills), fill);
        ConsolidatedIsQueue(ins', i + 1, taker, limit, m.leaves, cum + Traded(m.fills), fill);
        InputsBefore(ins', i + 1, taker, limit, m.leaves, cum + Traded(m.fills), fill);
        assert t.ins[i] == ins'[i];
        QueuesUnfold(t.ins, i, s, limit);
        assert [] + InputQueues(t.ins, i + 1, s, limit) == InputQueues(t.ins, i + 1, s, limit);
      }
    }
  }

  /** A consolidated match never looks at the consolidated book. It trades the lesser of its quantity and what rests
      on the inputs, and so what the consolidated book announces exactly when the announcement counts resting orders
      only, or both suffice. */
  lemma {:induction false} ConsolidatedMatchVolume(out: Book, ins: seq<Input>, taker: Side, limit: Price, qty: int,
                                                   fill: FillFn)
    requires Consolidated(out, ins) && AllValid(ins, 0) && qty > 0
    ensures var m, s := MatchInputs(ins, 0, taker, limit, qty, 0, fill), taker.Opposite();
      var rests, announced := InputRests(ins, 0, s, limit), Priority.MatchQty(s, out.Of(s), limit);
      && m.leaves + Traded(m.fills) == qty
      && announced == InputMatchQty(ins, 0, s, limit)
      && (!m.aborted ==> Traded(m.fills) == Priority.Min(qty, rests))
      && (!m.aborted ==>
           (Traded(m.fills) == Priority.Min(qty, announced) <==>
             announced == rests || (qty <= rests && qty <= announced)))
  {
    hide Valid, Consolidated, MatchInputs;
    InputsTrade(ins, 0, taker, limit, qty, 0, fill);
    ConsolidatedMatchQty(out, ins, taker.Opposite(), limit);
  }

  ghost predicate AllOrderDriven(ins: seq<Input>, i: nat, s: Side) {
    forall j | i <= j < |ins| :: Priority.OrderDriven(ins[j].book.Of(s))
  }

  /** No input has a level on this side. */
  ghost predicate NoLevels(ins: seq<Input>, i: nat, s: Side) {
    forall j | i <= j < |ins| :: ins[j].book.Of(s).levels == map[]
  }

  lemma {:induction false} AnnouncedRests(ins: seq<Input>, i: nat, s: Side, limit: Price)
    requires AllValid(ins, i) && AllOrderDriven(ins, i, s)
    ensures Priority.ReadAlike(s, limit) ==> InputMatchQty(ins, i, s, limit) == InputRests(ins, i, s, limit)
    ensures !Priority.ReadAlike(s, limit) ==>
      && InputMatchQty(ins, i, s, limit) == 0
      && (if NoLevels(ins, i, s) then InputRests(ins, i, s, limit) == 0 else InputRests(ins, i, s, limit) > 0)
    decreases |ins| - i
  {
    hide Valid, Priority.Queue, Priority.MatchQty, Priority.OrderDriven;
    if i < |ins| {
      var cfg, b := ins[i].cfg, ins[i].book;
      AnnouncedRests(ins, i + 1, s, limit);
      RestsPositive(ins, i + 1, s, limit);
      if Priority.ReadAlike(s, limit) {
        Priority.QueueSum(cfg, b, s, Ladder(s, b.Of(s).levels.Keys), limit);
        QueueIs(b, s, limit);
        MatchQtyIs(b, s, limit);
      } else {
        Priority.NothingAnnounced(s, b.Of(s));
        Priority.SomethingRests(cfg, b, s);
      }
    }
  }

  lemma {:induction false} MatchQtyIs(b: Book, s: Side, limit: Price)
    ensures Priority.MatchQty(s, b.Of(s), limit)
      == Priority.LadderQty(s, b.Of(s), Ladder(s, b.Of(s).levels.Keys), limit)
  {
  }

  /** Where every level of the inputs holds orders, a consolidated match that is not aborted trades exactly the lesser
      of its quantity and what the consolidated book announces; again an unlimited buyer is announced nothing. */
  lemma {:induction false} ConsolidatedMatchTrades(out: Book, ins: seq<Input>, taker: Side, limit: Price, qty: int,
                                                   fill: FillFn)
    requires Consolidated(out, ins) && AllValid(ins, 0) && AllOrderDriven(ins, 0, taker.Opposite()) && qty > 0
    ensures var m, s := MatchInputs(ins, 0, taker, limit, qty, 0, fill), taker.Opposite();
      !m.aborted ==>
        (Traded(m.fills) == Priority.Min(qty, Priority.MatchQty(s, out.Of(s), limit))
         <==> Priority.ReadAlike(s, limit) || NoLevels(ins, 0, s))
  {
    hide AllValid, Consolidated, MatchInputs, Priority.MatchQty, AllOrderDriven, NoLevels;
    ConsolidatedMatchVolume(out, ins, taker, limit, qty, fill);
    AnnouncedRests(ins, 0, taker.Opposite(), limit);
  }
}
