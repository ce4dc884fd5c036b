/** What a match trades, with whom and in which order. The level-by-level match refines a match against
    one flat queue of orders; the flat match is a prefix of the queue; its volume is the lesser of the
    incoming quantity and what `matchQty` announces; and `matchPx` announces a limit that changes
    nothing. */
module Priority {
  import opened Types
  import opened Levels
  import opened Ladders
  import opened Books
  import opened Invariant
  import opened Matching
  import MatchInvariant

  // ---- the flat queue

  datatype Resting = Resting(px: int, order: Order)

  function Tag(px: int, os: seq<Order>): seq<Resting> {
    if os == [] then [] else [Resting(px, os[0])] + Tag(px, os[1..])
  }

  function OrdersAt(x: OBSide, px: int): seq<Order> {
    if px in x.levels then x.levels[px].orders else []
  }

  /** The orders at the prices `ps`, up to the limit. */
  function QueueOf(s: Side, x: OBSide, ps: seq<int>, limit: Price): seq<Resting> {
    if ps == [] || !s.Within(limit, ps[0]) then []
    else Tag(ps[0], OrdersAt(x, ps[0])) + QueueOf(s, x, ps[1..], limit)
  }

  /** The orders a taker limited by `limit` may trade with on side `s`, in price-time priority. */
  ghost function Queue(b: Book, s: Side, limit: Price): seq<Resting> {
    QueueOf(s, b.Of(s), Ladder(s, b.Of(s).levels.Keys), limit)
  }

  datatype QueueMatch = QueueMatch(rest: seq<Resting>, leaves: int, fills: seq<Fill>, aborted: bool)

  /** Matching against a flat queue: the reference for the level-by-level match. */
  function MatchQueue(q: seq<Resting>, qty: int, cum: int, fill: FillFn): QueueMatch {
    if q == [] then QueueMatch([], qty, [], false) else
      var c := q[0].order;
      var trade := if c.qty <= qty then c.qty else qty;
      var f := Fill(qty, cum, q[0].px, trade, c);
      if fill(f) then QueueMatch(q, qty, [], true)
      else if c.qty > qty then
        QueueMatch([q[0].(order := c.(qty := c.qty - qty))] + q[1..], 0, [f], false)
      else if c.qty == qty then QueueMatch(q[1..], 0, [f], false)
      else
        var m := MatchQueue(q[1..], qty - trade, cum + trade, fill);
        m.(fills := [f] + m.fills)
  }

  // ---- the level-by-level match refines the flat one

  lemma {:induction false} MatchOrdersIsQueue(os: seq<Order>, px: int, qty: int, cum: int, fill: FillFn)
    ensures var m, q := MatchOrders(os, px, qty, cum, fill), MatchQueue(Tag(px, os), qty, cum, fill);
      q.rest == Tag(px, m.rest) && q.leaves == m.leaves && q.fills == m.fills && q.aborted == m.aborted
  {
    if os != [] {
      assert Tag(px, os)[1..] == Tag(px, os[1..]);
      if os[0].qty > qty {
        var c := os[0].(qty := os[0].qty - qty);
        assert ([c] + os[1..])[1..] == os[1..];
      } else if os[0].qty < qty {
        MatchOrdersIsQueue(os[1..], px, qty - os[0].qty, cum + os[0].qty, fill);
      }
    }
  }

  function FirstFill(q: seq<Resting>, qty: int, cum: int): Fill
    requires q != []
  {
    var c := q[0].order;
    Fill(qty, cum, q[0].px, if c.qty <= qty then c.qty else qty, c)
  }

  /** Whether the match moves on to the second order of the queue. */
  predicate GoesOn(q: seq<Resting>, qty: int, cum: int, fill: FillFn)
    requires q != []
  {
    q[0].order.qty < qty && !fill(FirstFill(q, qty, cum))
  }

  lemma {:induction false} QueueGoesOn(q: seq<Resting>, qty: int, cum: int, fill: FillFn)
    requires q != [] && GoesOn(q, qty, cum, fill)
    ensures var f := FirstFill(q, qty, cum); var t := MatchQueue(q[1..], qty - f.qty, cum + f.qty, fill);
      MatchQueue(q, qty, cum, fill) == t.(fills := [f] + t.fills)
  {
  }

  lemma {:induction false} QueueStops(q: seq<Resting>, more: seq<Resting>, qty: int, cum: int, fill: FillFn)
    requires q != [] && !GoesOn(q, qty, cum, fill)
    ensures var m := MatchQueue(q, qty, cum, fill);
      (m.aborted || m.leaves == 0) && MatchQueue(q + more, qty, cum, fill) == m.(rest := m.rest + more)
  {
    assert (q + more)[1..] == q[1..] + more;
  }

  /** A match `t` of the rest of the queue, once a match `m` of the first part is through. */
  function Joined(m: QueueMatch, t: QueueMatch): QueueMatch {
    t.(fills := m.fills + t.fills)
  }

  function Prepend(f: Fill, t: QueueMatch): QueueMatch {
    t.(fills := [f] + t.fills)
  }

  predicate Done(m: QueueMatch) {
    m.aborted || m.leaves == 0
  }

  lemma {:induction false} PrependJoined(f: Fill, t: QueueMatch, u: QueueMatch)
    ensures Prepend(f, Joined(t, u)) == Joined(Prepend(f, t), u)
    ensures Traded(Prepend(f, t).fills) == f.qty + Traded(t.fills)
  {
    assert [f] + (t.fills + u.fills) == [f] + t.fills + u.fills;
    assert ([f] + t.fills)[1..] == t.fills;
  }

  /** Matching a queue in two parts. */
  lemma {:induction false} MatchQueueConcat(p: seq<Resting>, q: seq<Resting>, qty: int, cum: int, fill: FillFn)
    requires qty != 0
    ensures ConcatOf(MatchQueue(p, qty, cum, fill), MatchQueue(p + q, qty, cum, fill), q, cum, fill)
  {
    if p == [] {
      assert p + q == q;
    } else if !GoesOn(p, qty, cum, fill) {
      QueueStops(p, q, qty, cum, fill);
    } else {
      assert (p + q)[1..] == p[1..] + q;
      QueueGoesOn(p, qty, cum, fill);
      QueueGoesOn(p + q, qty, cum, fill);
      var f := FirstFill(p, qty, cum);
      MatchQueueConcat(p[1..], q, qty - f.qty, cum + f.qty, fill);
      ConcatCons(f, MatchQueue(p[1..], qty - f.qty, cum + f.qty, fill),
                 MatchQueue(p[1..] + q, qty - f.qty, cum + f.qty, fill),
                 MatchQueue(p, qty, cum, fill), MatchQueue(p + q, qty, cum, fill), q, cum, fill);
    }
  }

  /** How the match of a whole queue goes with the match of its first part. */
  predicate ConcatOf(m: QueueMatch, all: QueueMatch, q: seq<Resting>, cum: int, fill: FillFn) {
    if Done(m) then all == m.(rest := m.rest + q)
    else m.rest == [] && all == Joined(m, MatchQueue(q, m.leaves, cum + Traded(m.fills), fill))
  }

  lemma {:induction false} ConcatCons(f: Fill, m: QueueMatch, all: QueueMatch, m': QueueMatch, all': QueueMatch,
                                      q: seq<Resting>, cum: int, fill: FillFn)
    requires ConcatOf(m, all, q, cum + f.qty, fill)
    requires m' == Prepend(f, m) && all' == Prepend(f, all)
    ensures ConcatOf(m', all', q, cum, fill)
  {
    PrependJoined(f, m, MatchQueue(q, m.leaves, cum + f.qty + Traded(m.fills), fill));
  }

  /** A level of a valid book that a match removes has no orders left. */
  lemma {:induction false} RemovedIsEmpty(cfg: Config, b: Book, s: Side, px: int, qty: int, cum: int, fill: FillFn)
    requires Valid(cfg, b) && px in b.Of(s).levels
    ensures var l := b.Of(s).levels[px]; var m := MatchOrders(l.orders, px, qty, cum, fill);
      MatchInvariant.After(l, m).None? ==> m.rest == []
  {
    hide Valid, MatchOrders, Traded;
    var l := b.Of(s).levels[px];
    var m := MatchOrders(l.orders, px, qty, cum, fill);
    LevelIsOk(cfg, b, s, Some(px));
    MatchInvariant.MatchOrdersPrefix(l.orders, px, qty, cum, fill);
    MatchInvariant.MatchOrdersConserves(l.orders, px, qty, cum, fill);
    MatchInvariant.AfterOk(cfg, b, b.(index := b.index - Filled(cfg, m.fills)), s, Some(px), l, m);
  }

  lemma {:induction false} MatchLevelOrders(cfg: Config, b: Book, s: Side, px: int, qty: int, cum: int, fill: FillFn)
    requires Valid(cfg, b)
    ensures OrdersAt(MatchLevel(cfg, b, s, px, qty, cum, fill).book.Of(s), px)
         == MatchOrders(OrdersAt(b.Of(s), px), px, qty, cum, fill).rest
  {
    if px in b.Of(s).levels {
      RemovedIsEmpty(cfg, b, s, px, qty, cum, fill);
      hide Valid, MatchOrders, Traded;
    }
  }

  lemma {:induction false} QueueOfAgrees(s: Side, x: OBSide, y: OBSide, ps: seq<int>, limit: Price)
    requires forall i | 0 <= i < |ps| :: OrdersAt(x, ps[i]) == OrdersAt(y, ps[i])
    ensures QueueOf(s, x, ps, limit) == QueueOf(s, y, ps, limit)
  {
    if ps != [] {
      QueueOfAgrees(s, x, y, ps[1..], limit);
    }
  }

  /** A level match touches no other level of its side, and nothing of the other side. */
  lemma {:induction false} LevelKeeps(cfg: Config, b: Book, s: Side, px: int, qty: int, cum: int, fill: FillFn)
    ensures var b' := MatchLevel(cfg, b, s, px, qty, cum, fill).book;
      && b'.Of(s.Opposite()) == b.Of(s.Opposite()) && b'.Of(s).mkt == b.Of(s).mkt
      && (forall p | p != px :: (p in b'.Of(s).levels <==> p in b.Of(s).levels)
                                && OrdersAt(b'.Of(s), p) == OrdersAt(b.Of(s), p))
      && (forall p | p != px && p in b.Of(s).levels :: b'.Of(s).levels[p] == b.Of(s).levels[p])
  {
    hide MatchOrders, Traded;
  }

  lemma {:induction false} LadderKeeps(cfg: Config, b: Book, s: Side, ps: seq<int>, limit: Price, qty: int, cum: int,
                                       fill: FillFn, p: int)
    requires p !in ps
    ensures OrdersAt(MatchLadder(cfg, b, s, ps, limit, qty, cum, fill).book.Of(s), p) == OrdersAt(b.Of(s), p)
    decreases |ps|
  {
    hide MatchLevel;
    if ps != [] && s.Within(limit, ps[0]) {
      var m := MatchLevel(cfg, b, s, ps[0], qty, cum, fill);
      LevelKeeps(cfg, b, s, ps[0], qty, cum, fill);
      if !m.aborted && m.leaves != 0 {
        LadderKeeps(cfg, m.book, s, ps[1..], limit, m.leaves, cum + Traded(m.fills), fill, p);
      }
    }
  }

  /** One level of the ladder is the flat match of its orders. */
  lemma {:induction false} LevelIsQueue(cfg: Config, b: Book, s: Side, px: int, qty: int, cum: int, fill: FillFn)
    requires Valid(cfg, b)
    ensures var m := MatchLevel(cfg, b, s, px, qty, cum, fill);
      && Valid(cfg, m.book)
      && MatchQueue(Tag(px, OrdersAt(b.Of(s), px)), qty, cum, fill)
         == QueueMatch(Tag(px, OrdersAt(m.book.Of(s), px)), m.leaves, m.fills, m.aborted)
  {
    MatchOrdersIsQueue(OrdersAt(b.Of(s), px), px, qty, cum, fill);
    MatchLevelOrders(cfg, b, s, px, qty, cum, fill);
    MatchInvariant.MatchLevelValid(cfg, b, s, px, qty, cum, fill);
  }

  /** The flat match `q` comes to the same as the match `m` at the prices `ps`. */
  predicate Agree(m: Match, q: QueueMatch, s: Side, ps: seq<int>, limit: Price) {
    q == QueueMatch(QueueOf(s, m.book.Of(s), ps, limit), m.leaves, m.fills, m.aborted)
  }

  lemma {:induction false} AgreeStop(m: Match, s: Side, ps: seq<int>, limit: Price, lvl: QueueMatch, all: QueueMatch,
                                     behind: seq<Resting>, cum: int, fill: FillFn)
    requires ps != [] && s.Within(limit, ps[0])
    requires lvl == QueueMatch(Tag(ps[0], OrdersAt(m.book.Of(s), ps[0])), m.leaves, m.fills, m.aborted)
    requires Done(lvl) && ConcatOf(lvl, all, behind, cum, fill)
    requires behind == QueueOf(s, m.book.Of(s), ps[1..], limit)
    ensures Agree(m, all, s, ps, limit)
  {
  }

  lemma {:induction false} AgreeThen(m: Match, t: Match, r: Match, s: Side, ps: seq<int>, limit: Price,
                                     lvl: QueueMatch, all: QueueMatch, rest: QueueMatch, behind: seq<Resting>,
                                     cum: int, fill: FillFn)
    requires ps != [] && s.Within(limit, ps[0])
    requires lvl == QueueMatch(Tag(ps[0], OrdersAt(m.book.Of(s), ps[0])), m.leaves, m.fills, m.aborted)
    requires !Done(lvl) && ConcatOf(lvl, all, behind, cum, fill)
    requires rest == MatchQueue(behind, m.leaves, cum + Traded(m.fills), fill)
    requires rest == QueueMatch(QueueOf(s, t.book.Of(s), ps[1..], limit), t.leaves, t.fills, t.aborted)
    requires OrdersAt(t.book.Of(s), ps[0]) == OrdersAt(m.book.Of(s), ps[0])
    requires r == Then(m, t)
    ensures Agree(r, all, s, ps, limit)
  {
    assert [] + QueueOf(s, t.book.Of(s), ps[1..], limit) == QueueOf(s, t.book.Of(s), ps[1..], limit);
  }

  /** From one level and the rest of the ladder to the whole. */
  lemma {:induction false} LadderStep(cfg: Config, b: Book, s: Side, ps: seq<int>, limit: Price, qty: int, cum: int,
                                      fill: FillFn)
    requires ps != [] && s.Within(limit, ps[0]) && qty != 0
    requires forall i, j | 0 <= i < j < |ps| :: ps[i] != ps[j]
    requires var m := MatchLevel(cfg, b, s, ps[0], qty, cum, fill);
      && MatchQueue(Tag(ps[0], OrdersAt(b.Of(s), ps[0])), qty, cum, fill)
         == QueueMatch(Tag(ps[0], OrdersAt(m.book.Of(s), ps[0])), m.leaves, m.fills, m.aborted)
      && (!m.aborted && m.leaves != 0 ==>
            Agree(MatchLadder(cfg, m.book, s, ps[1..], limit, m.leaves, cum + Traded(m.fills), fill),
                  MatchQueue(QueueOf(s, m.book.Of(s), ps[1..], limit), m.leaves, cum + Traded(m.fills), fill),
                  s, ps[1..], limit))
    ensures Agree(MatchLadder(cfg, b, s, ps, limit, qty, cum, fill),
                  MatchQueue(QueueOf(s, b.Of(s), ps, limit), qty, cum, fill), s, ps, limit)
  {
    hide MatchLevel, Matched, MatchLadder, Traded, MatchOrders, Tag, OrdersAt;
    var m := MatchLevel(cfg, b, s, ps[0], qty, cum, fill);
    var first, behind := Tag(ps[0], OrdersAt(b.Of(s), ps[0])), QueueOf(s, b.Of(s), ps[1..], limit);
    var lvl, all := MatchQueue(first, qty, cum, fill), MatchQueue(first + behind, qty, cum, fill);
    MatchQueueConcat(first, behind, qty, cum, fill);
    LevelKeeps(cfg, b, s, ps[0], qty, cum, fill);
    QueueOfAgrees(s, b.Of(s), m.book.Of(s), ps[1..], limit);
    LadderUnfold(cfg, b, s, ps, limit, qty, cum, fill);
    var r := MatchLadder(cfg, b, s, ps, limit, qty, cum, fill);
    if m.aborted || m.leaves == 0 {
      AgreeStop(r, s, ps, limit, lvl, all, behind, cum, fill);
    } else {
      var t := MatchLadder(cfg, m.book, s, ps[1..], limit, m.leaves, cum + Traded(m.fills), fill);
      var rest := MatchQueue(behind, m.leaves, cum + Traded(m.fills), fill);
      LadderKeeps(cfg, m.book, s, ps[1..], limit, m.leaves, cum + Traded(m.fills), fill, ps[0]);
      AgreeThen(m, t, r, s, ps, limit, lvl, all, rest, behind, cum, fill);
    }
  }

  lemma {:induction false} NothingAgrees(cfg: Config, b: Book, s: Side, ps: seq<int>, limit: Price, qty: int,
                                         cum: int, fill: FillFn)
    requires ps == [] || !s.Within(limit, ps[0])
    ensures Agree(MatchLadder(cfg, b, s, ps, limit, qty, cum, fill),
                  MatchQueue(QueueOf(s, b.Of(s), ps, limit), qty, cum, fill), s, ps, limit)
  {
  }

  /** The ladder match is the flat match of the queue at the same prices. */
  lemma {:induction false} LadderIsQueue(cfg: Config, b: Book, s: Side, ps: seq<int>, limit: Price, qty: int,
                                         cum: int, fill: FillFn)
    requires Valid(cfg, b) && qty != 0
    requires forall i, j | 0 <= i < j < |ps| :: ps[i] != ps[j]
    ensures Agree(MatchLadder(cfg, b, s, ps, limit, qty, cum, fill),
                  MatchQueue(QueueOf(s, b.Of(s), ps, limit), qty, cum, fill), s, ps, limit)
    decreases |ps|
  {
    hide Valid, MatchLevel, MatchLadder, MatchQueue, QueueOf, Agree;
    if ps == [] || !s.Within(limit, ps[0]) {
      NothingAgrees(cfg, b, s, ps, limit, qty, cum, fill);
    } else {
      var m := MatchLevel(cfg, b, s, ps[0], qty, cum, fill);
      LevelIsQueue(cfg, b, s, ps[0], qty, cum, fill);
      if !m.aborted && m.leaves != 0 {
        LadderIsQueue(cfg, m.book, s, ps[1..], limit, m.leaves, cum + Traded(m.fills), fill);
      }
      LadderStep(cfg, b, s, ps, limit, qty, cum, fill);
    }
  }

  // ---- the flat match is a prefix of the queue

  predicate Never(f: Fill) {
    false
  }

  function SumQueue(q: seq<Resting>): int {
    if q == [] then 0 else q[0].order.qty + SumQueue(q[1..])
  }

  ghost predicate AllPositive(q: seq<Resting>) {
    forall i | 0 <= i < |q| :: q[i].order.qty > 0
  }

  function Min(a: int, b: int): int {
    if a <= b then a else b
  }

  /** Fills take the queue from the front: the i-th fill trades with the i-th order, at its price; it is
      offered what the fills before it have left over, and takes the whole order unless it is the
      last. What the fills took is gone from the queue, and nothing else has changed. */
  ghost predicate InPriority(q: seq<Resting>, qty: int, cum: int, m: QueueMatch) {
    var n := |m.fills|;
    && n <= |q|
    && (forall i | 0 <= i < n ::
          var f := m.fills[i];
          && f.contra == q[i].order && f.px == q[i].px
          && f.leaves == qty - Traded(m.fills[..i]) && f.cum == cum + Traded(m.fills[..i])
          && f.qty == Min(f.contra.qty, f.leaves)
          && (i < n - 1 ==> f.qty == f.contra.qty && f.qty < f.leaves))
    && (m.rest == if n > 0 && m.fills[n - 1].Partial()
                  then [q[n - 1].(order := q[n - 1].order.(qty := q[n - 1].order.qty - m.fills[n - 1].qty))] + q[n..]
                  else q[n..])
  }

  lemma {:induction false} TradedPrefix(f: Fill, fills: seq<Fill>, i: nat)
    requires i < |fills|
    ensures Traded(([f] + fills)[..i + 1]) == f.qty + Traded(fills[..i])
  {
    assert ([f] + fills)[..i + 1] == [f] + fills[..i];
    assert ([f] + fills[..i])[1..] == fills[..i];
  }

  lemma {:induction false} InPriorityCons(q: seq<Resting>, qty: int, cum: int, f: Fill, t: QueueMatch, m: QueueMatch)
    requires q != [] && InPriority(q[1..], qty - f.qty, cum + f.qty, t)
    requires f == FirstFill(q, qty, cum) && q[0].order.qty < qty
    requires m == Prepend(f, t)
    ensures InPriority(q, qty, cum, m)
  {
    var n := |m.fills|;
    forall i | 0 <= i < n
      ensures var g := m.fills[i];
        && g.contra == q[i].order && g.px == q[i].px
        && g.leaves == qty - Traded(m.fills[..i]) && g.cum == cum + Traded(m.fills[..i])
        && g.qty == Min(g.contra.qty, g.leaves)
        && (i < n - 1 ==> g.qty == g.contra.qty && g.qty < g.leaves)
    {
      if i > 0 {
        assert m.fills[i] == t.fills[i - 1] && q[i] == q[1..][i - 1];
        TradedPrefix(f, t.fills, i - 1);
      } else {
        assert m.fills[..0] == [];
      }
    }
    assert q[1..][n - 1..] == q[n..];
    if n > 1 {
      assert m.fills[n - 1] == t.fills[n - 2] && q[1..][n - 2] == q[n - 1];
    } else {
      assert !f.Partial();
    }
  }

  /** Price-time priority, for every callback. */
  lemma {:induction false} QueueInPriority(q: seq<Resting>, qty: int, cum: int, fill: FillFn)
    ensures InPriority(q, qty, cum, MatchQueue(q, qty, cum, fill))
  {
    hide MatchQueue, InPriority;
    if q == [] {
      EmptyInPriority(qty, cum, fill);
    } else {
      if GoesOn(q, qty, cum, fill) {
        var f := FirstFill(q, qty, cum);
        QueueGoesOn(q, qty, cum, fill);
        QueueInPriority(q[1..], qty - f.qty, cum + f.qty, fill);
        InPriorityCons(q, qty, cum, f, MatchQueue(q[1..], qty - f.qty, cum + f.qty, fill),
          MatchQueue(q, qty, cum, fill));
      } else {
        StopInPriority(q, qty, cum, fill);
      }
    }
  }

  lemma {:induction false} EmptyInPriority(qty: int, cum: int, fill: FillFn)
    ensures InPriority([], qty, cum, MatchQueue([], qty, cum, fill))
  {
  }

  lemma {:induction false} StopInPriority(q: seq<Resting>, qty: int, cum: int, fill: FillFn)
    requires q != [] && !GoesOn(q, qty, cum, fill)
    ensures InPriority(q, qty, cum, MatchQueue(q, qty, cum, fill))
  {
    var f, m := FirstFill(q, qty, cum), MatchQueue(q, qty, cum, fill);
    assert m.fills == [] || m.fills == [f];
    assert m.fills[..0] == [] && Traded([]) == 0;
    assert q[0..] == q;
  }

  /** Whatever the callback does, what is left over and what has traded make up the quantity. */
  lemma {:induction false} QueueConserves(q: seq<Resting>, qty: int, cum: int, fill: FillFn)
    ensures var m := MatchQueue(q, qty, cum, fill);
      && m.leaves + Traded(m.fills) == qty && SumQueue(m.rest) + Traded(m.fills) == SumQueue(q)
  {
    if q != [] {
      var f, m := FirstFill(q, qty, cum), MatchQueue(q, qty, cum, fill);
      if GoesOn(q, qty, cum, fill) {
        QueueGoesOn(q, qty, cum, fill);
        QueueConserves(q[1..], qty - f.qty, cum + f.qty, fill);
        assert m.fills[1..] == MatchQueue(q[1..], qty - f.qty, cum + f.qty, fill).fills;
      } else if |m.fills| == 1 {
        assert m.fills[1..] == [];
        if f.Partial() { assert m.rest[1..] == q[1..]; }
      }
    }
  }

  /** Without an abort the volume is the lesser of the quantity and what rests in the queue. */
  lemma {:induction false} QueueVolume(q: seq<Resting>, qty: int, cum: int, fill: FillFn)
    requires AllPositive(q) && qty >= 0
    requires !MatchQueue(q, qty, cum, fill).aborted
    ensures Traded(MatchQueue(q, qty, cum, fill).fills) == Min(qty, SumQueue(q))
  {
    if q != [] {
      SumQueuePositive(q[1..]);
      var f, m := FirstFill(q, qty, cum), MatchQueue(q, qty, cum, fill);
      if GoesOn(q, qty, cum, fill) {
        QueueGoesOn(q, qty, cum, fill);
        QueueVolume(q[1..], qty - f.qty, cum + f.qty, fill);
        assert m.fills[1..] == MatchQueue(q[1..], qty - f.qty, cum + f.qty, fill).fills;
      } else {
        assert m.fills == [f] && m.fills[1..] == [];
      }
    }
  }

  lemma {:induction false} SumQueuePositive(q: seq<Resting>)
    requires AllPositive(q)
    ensures SumQueue(q) >= 0
  {
    if q != [] {
      SumQueuePositive(q[1..]);
    }
  }

  /** The match `m` has made exactly the trades of `full`, up to the first one that the callback rejects. */
  predicate CutOff(m: QueueMatch, full: QueueMatch, fill: FillFn) {
    && !full.aborted && |m.fills| <= |full.fills| && m.fills == full.fills[..|m.fills|]
    && (forall i | 0 <= i < |m.fills| :: !fill(m.fills[i]))
    && (if m.aborted then |m.fills| < |full.fills| && fill(full.fills[|m.fills|]) else m == full)
  }

  lemma {:induction false} CutOffCons(f: Fill, m: QueueMatch, full: QueueMatch, fill: FillFn)
    requires CutOff(m, full, fill) && !fill(f)
    ensures CutOff(Prepend(f, m), Prepend(f, full), fill)
  {
    assert ([f] + full.fills)[..|m.fills| + 1] == [f] + full.fills[..|m.fills|];
  }

  lemma {:induction false} CutOffFirst(q: seq<Resting>, qty: int, cum: int, fill: FillFn)
    requires q == [] || !GoesOn(q, qty, cum, Never) || fill(FirstFill(q, qty, cum))
    requires q != [] ==>
      var f := FirstFill(q, qty, cum); !MatchQueue(q[1..], qty - f.qty, cum + f.qty, Never).aborted
    ensures CutOff(MatchQueue(q, qty, cum, fill), MatchQueue(q, qty, cum, Never), fill)
  {
  }

  /** An aborted match has made exactly the trades a match without aborts would have made, up to the
      first one that the callback rejects. */
  lemma {:induction false} AbortCutsOff(q: seq<Resting>, qty: int, cum: int, fill: FillFn)
    ensures CutOff(MatchQueue(q, qty, cum, fill), MatchQueue(q, qty, cum, Never), fill)
  {
    hide MatchQueue, CutOff;
    if q != [] {
      var f := FirstFill(q, qty, cum);
      AbortCutsOff(q[1..], qty - f.qty, cum + f.qty, fill);
      NeverAborts(q[1..], qty - f.qty, cum + f.qty);
      if GoesOn(q, qty, cum, fill) {
        QueueGoesOn(q, qty, cum, Never);
        QueueGoesOn(q, qty, cum, fill);
        CutOffCons(f, MatchQueue(q[1..], qty - f.qty, cum + f.qty, fill),
          MatchQueue(q[1..], qty - f.qty, cum + f.qty, Never), fill);
      } else {
        CutOffFirst(q, qty, cum, fill);
      }
    } else {
      CutOffFirst(q, qty, cum, fill);
    }
  }

  lemma {:induction false} NeverAborts(q: seq<Resting>, qty: int, cum: int)
    ensures !MatchQueue(q, qty, cum, Never).aborted
  {
    if q != [] {
      var f := FirstFill(q, qty, cum);
      NeverAborts(q[1..], qty - f.qty, cum + f.qty);
    }
  }

  // ---- the queue of a whole side

  ghost predicate Sorted(s: Side, ps: seq<int>) {
    forall i, j | 0 <= i < j < |ps| :: s.Better(ps[i], ps[j])
  }

  lemma {:induction false} SortedTail(s: Side, ps: seq<int>)
    requires ps != [] && Sorted(s, ps)
    ensures Sorted(s, ps[1..]) && forall q | q in ps[1..] :: s.Better(ps[0], q)
  {
    forall q | q in ps[1..] ensures s.Better(ps[0], q) {
      var i :| 0 <= i < |ps[1..]| && ps[1..][i] == q;
      assert s.Better(ps[0], ps[i + 1]);
    }
  }

  lemma {:induction false} InTail(ps: seq<int>, q: int)
    requires q in ps && q != ps[0]
    ensures q in ps[1..]
  {
    var i :| 0 <= i < |ps| && ps[i] == q;
    assert ps[1..][i - 1] == q;
  }

  /** Prices without a level contribute nothing: a longer ladder gives the same queue. */
  lemma {:induction false} QueueSkips(s: Side, x: OBSide, ps: seq<int>, qs: seq<int>, limit: Price)
    requires Sorted(s, ps) && Sorted(s, qs)
    requires forall i | 0 <= i < |qs| :: qs[i] in ps
    requires forall i | 0 <= i < |ps| :: ps[i] in qs || OrdersAt(x, ps[i]) == []
    ensures QueueOf(s, x, ps, limit) == QueueOf(s, x, qs, limit)
    decreases |ps|
  {
    if ps != [] {
      hide OrdersAt;
      SortedTail(s, ps);
      if qs != [] {
        SortedTail(s, qs);
        assert qs[0] in ps;
      }
      if qs != [] && qs[0] == ps[0] {
        forall i | 0 <= i < |qs[1..]| ensures qs[1..][i] in ps[1..] {
          assert qs[i + 1] in ps && s.Better(qs[0], qs[i + 1]);
          InTail(ps, qs[i + 1]);
        }
        forall i | 0 <= i < |ps[1..]| ensures ps[1..][i] in qs[1..] || OrdersAt(x, ps[1..][i]) == [] {
          assert ps[1..][i] == ps[i + 1] && s.Better(ps[0], ps[i + 1]);
          if ps[i + 1] in qs { InTail(qs, ps[i + 1]); }
        }
        QueueSkips(s, x, ps[1..], qs[1..], limit);
      } else {
        assert ps[0] !in qs by {
          if ps[0] in qs { InTail(qs, ps[0]); InTail(ps, qs[0]); }
        }
        forall i | 0 <= i < |qs| ensures qs[i] in ps[1..] {
          assert qs[i] in ps;
          InTail(ps, qs[i]);
        }
        forall i | 0 <= i < |ps[1..]| ensures ps[1..][i] in qs || OrdersAt(x, ps[1..][i]) == [] {
          assert ps[1..][i] == ps[i + 1];
        }
        QueueSkips(s, x, ps[1..], qs, limit);
        QueueBeyond(s, x, ps, qs, limit);
      }
    }
  }

  lemma {:induction false} QueueBeyond(s: Side, x: OBSide, ps: seq<int>, qs: seq<int>, limit: Price)
    requires Sorted(s, ps) && ps != [] && (qs != [] ==> qs[0] in ps) && OrdersAt(x, ps[0]) == []
    requires QueueOf(s, x, ps[1..], limit) == QueueOf(s, x, qs, limit)
    ensures QueueOf(s, x, ps, limit) == QueueOf(s, x, qs, limit)
  {
    assert [] + QueueOf(s, x, ps[1..], limit) == QueueOf(s, x, ps[1..], limit);
    if qs != [] && qs[0] != ps[0] {
      SortedTail(s, ps);
      InTail(ps, qs[0]);
    }
  }

  /** The book match refines the flat match: same trades, same outcome, and what remains of the queue
      is what rests in the book afterwards. */
  lemma {:induction false} MatchIsQueue(cfg: Config, b: Book, taker: Side, limit: Price, qty: int, cum: int,
                                        fill: FillFn)
    requires Valid(cfg, b) && qty != 0
    ensures var s := taker.Opposite(); var m := MatchFrom(cfg, b, taker, limit, qty, cum, fill);
      MatchQueue(Queue(b, s, limit), qty, cum, fill)
      == QueueMatch(Queue(m.book, s, limit), m.leaves, m.fills, m.aborted)
  {
    hide Valid, MatchQueue, MatchLadder;
    var s := taker.Opposite();
    var ps := Ladder(s, b.Of(s).levels.Keys);
    var m := MatchFrom(cfg, b, taker, limit, qty, cum, fill);
    LadderIsQueue(cfg, b, s, ps, limit, qty, cum, fill);
    var qs := Ladder(s, m.book.Of(s).levels.Keys);
    forall i | 0 <= i < |qs| ensures qs[i] in ps {
      if qs[i] !in ps {
        LadderKeepsLevels(cfg, b, s, ps, limit, qty, cum, fill, qs[i]);
      }
    }
    forall i | 0 <= i < |ps| ensures ps[i] in qs || OrdersAt(m.book.Of(s), ps[i]) == [] {
      assert ps[i] in m.book.Of(s).levels.Keys ==> ps[i] in qs;
    }
    QueueSkips(s, m.book.Of(s), ps, qs, limit);
  }

  lemma {:induction false} LadderKeepsLevels(cfg: Config, b: Book, s: Side, ps: seq<int>, limit: Price, qty: int,
                                             cum: int, fill: FillFn, p: int)
    requires p !in ps
    ensures var b' := MatchLadder(cfg, b, s, ps, limit, qty, cum, fill).book;
      && (p in b'.Of(s).levels <==> p in b.Of(s).levels)
      && (p in b.Of(s).levels ==> b'.Of(s).levels[p] == b.Of(s).levels[p])
    decreases |ps|
  {
    hide MatchLevel;
    if ps != [] && s.Within(limit, ps[0]) {
      var m := MatchLevel(cfg, b, s, ps[0], qty, cum, fill);
      LevelKeeps(cfg, b, s, ps[0], qty, cum, fill);
      if !m.aborted && m.leaves != 0 {
        LadderKeepsLevels(cfg, m.book, s, ps[1..], limit, m.leaves, cum + Traded(m.fills), fill, p);
      }
    }
  }

  lemma {:induction false} LadderKeepsSides(cfg: Config, b: Book, s: Side, ps: seq<int>, limit: Price, qty: int,
                                            cum: int, fill: FillFn)
    ensures var b' := MatchLadder(cfg, b, s, ps, limit, qty, cum, fill).book;
      b'.Of(s.Opposite()) == b.Of(s.Opposite()) && b'.Of(s).mkt == b.Of(s).mkt
    decreases |ps|
  {
    hide MatchLevel;
    if ps != [] && s.Within(limit, ps[0]) {
      var m := MatchLevel(cfg, b, s, ps[0], qty, cum, fill);
      LevelKeeps(cfg, b, s, ps[0], qty, cum, fill);
      if !m.aborted && m.leaves != 0 {
        LadderKeepsSides(cfg, m.book, s, ps[1..], limit, m.leaves, cum + Traded(m.fills), fill);
      }
    }
  }

  /** A match never touches the taker's own side, nor the market level it matches against. */
  lemma {:induction false} MatchKeeps(cfg: Config, b: Book, taker: Side, limit: Price, qty: int, cum: int, fill: FillFn)
    ensures var m := MatchFrom(cfg, b, taker, limit, qty, cum, fill);
      m.book.Of(taker) == b.Of(taker) && m.book.Of(taker.Opposite()).mkt == b.Of(taker.Opposite()).mkt
  {
    var s := taker.Opposite();
    LadderKeepsSides(cfg, b, s, Ladder(s, b.Of(s).levels.Keys), limit, qty, cum, fill);
  }

  // ---- announced volume

  function QtyAt(x: OBSide, p: int): int {
    if p in x.levels then x.levels[p].qty else 0
  }

  /** The announcement compares raw values, and the null price lies below all others: it counts every bid, but no
      offer, as within no limit. */
  predicate Counts(s: Side, limit: Price, p: int) {
    if limit.None? then s == Buy else !s.Better(limit.value, p)
  }

  /** The announcement and the match read the limit alike. */
  predicate ReadAlike(s: Side, limit: Price) {
    limit.Some? || s == Buy
  }

  /** The quantity announced at the prices `ps`. */
  function LadderQty(s: Side, x: OBSide, ps: seq<int>, limit: Price): int {
    if ps == [] || !Counts(s, limit, ps[0]) then 0 else QtyAt(x, ps[0]) + LadderQty(s, x, ps[1..], limit)
  }

  /** The quantity announced as available on a side at a limit or better. */
  ghost function MatchQty(s: Side, x: OBSide, limit: Price): int {
    LadderQty(s, x, Ladder(s, x.levels.Keys), limit)
  }

  /** No level of the side is a mere aggregate. */
  ghost predicate OrderDriven(x: OBSide) {
    forall p <- x.levels :: x.levels[p].orders != []
  }

  lemma {:induction false} SumTag(px: int, os: seq<Order>, q: seq<Resting>)
    ensures SumQueue(Tag(px, os) + q) == SumQty(os) + SumQueue(q)
  {
    if os == [] {
      assert Tag(px, os) + q == q;
    } else {
      assert (Tag(px, os) + q)[1..] == Tag(px, os[1..]) + q;
      SumTag(px, os[1..], q);
    }
  }

  lemma {:induction false} QueueSum(cfg: Config, b: Book, s: Side, ps: seq<int>, limit: Price)
    requires Valid(cfg, b) && OrderDriven(b.Of(s)) && ReadAlike(s, limit)
    ensures SumQueue(QueueOf(s, b.Of(s), ps, limit)) == LadderQty(s, b.Of(s), ps, limit)
  {
    hide Valid, OrderDriven, OrdersAt, QtyAt;
    if ps != [] && s.Within(limit, ps[0]) {
      QueueSum(cfg, b, s, ps[1..], limit);
      SumTag(ps[0], OrdersAt(b.Of(s), ps[0]), QueueOf(s, b.Of(s), ps[1..], limit));
      LevelSum(cfg, b, s, ps[0]);
    }
  }

  /** A level of orders announces what they come to. */
  lemma {:induction false} LevelSum(cfg: Config, b: Book, s: Side, px: int)
    requires Valid(cfg, b) && OrderDriven(b.Of(s))
    ensures SumQty(OrdersAt(b.Of(s), px)) == QtyAt(b.Of(s), px)
  {
    if px in b.Of(s).levels {
      LevelIsOk(cfg, b, s, Some(px));
    }
  }

  lemma {:induction false} TagPositive(px: int, os: seq<Order>, q: seq<Resting>)
    requires (forall i | 0 <= i < |os| :: os[i].qty > 0) && AllPositive(q)
    ensures AllPositive(Tag(px, os) + q)
  {
    if os == [] {
      assert Tag(px, os) + q == q;
    } else {
      assert Tag(px, os) + q == [Resting(px, os[0])] + (Tag(px, os[1..]) + q);
      TagPositive(px, os[1..], q);
    }
  }

  lemma {:induction false} QueuePositive(cfg: Config, b: Book, s: Side, ps: seq<int>, limit: Price)
    requires Valid(cfg, b)
    ensures AllPositive(QueueOf(s, b.Of(s), ps, limit))
  {
    if ps != [] && s.Within(limit, ps[0]) {
      QueuePositive(cfg, b, s, ps[1..], limit);
      if ps[0] in b.Of(s).levels {
        LevelIsOk(cfg, b, s, Some(ps[0]));
        MatchInvariant.LevelPositive(cfg, b, s, Some(ps[0]), b.LevelAt(s, Some(ps[0])).value);
      }
      TagPositive(ps[0], OrdersAt(b.Of(s), ps[0]), QueueOf(s, b.Of(s), ps[1..], limit));
    }
  }

  /** A match that is not aborted trades the lesser of its quantity and what rests within its limit, so it trades
      what is announced there exactly when the announcement counts resting orders only, or both suffice. In any
      case its fills are in price-time priority and nothing is lost. */
  lemma {:induction false} MatchVolume(cfg: Config, b: Book, taker: Side, limit: Price, qty: int, cum: int,
                                       fill: FillFn)
    requires Valid(cfg, b) && qty > 0
    ensures var s := taker.Opposite(); var m, q := MatchFrom(cfg, b, taker, limit, qty, cum, fill), Queue(b, s, limit);
      && m.leaves + Traded(m.fills) == qty
      && InPriority(q, qty, cum, QueueMatch(Queue(m.book, s, limit), m.leaves, m.fills, m.aborted))
      && (!m.aborted ==> Traded(m.fills) == Min(qty, SumQueue(q)))
      && (!m.aborted ==>
           (Traded(m.fills) == Min(qty, MatchQty(s, b.Of(s), limit)) <==>
            MatchQty(s, b.Of(s), limit) == SumQueue(q) || (qty <= SumQueue(q) && qty <= MatchQty(s, b.Of(s), limit))))
  {
    var s := taker.Opposite();
    var q := Queue(b, s, limit);
    MatchIsQueue(cfg, b, taker, limit, qty, cum, fill);
    QueueConserves(q, qty, cum, fill);
    QueueInPriority(q, qty, cum, fill);
    QueuePositive(cfg, b, s, Ladder(s, b.Of(s).levels.Keys), limit);
    hide Valid, InPriority, MatchLadder, MatchQueue;
    if !MatchQueue(q, qty, cum, fill).aborted {
      QueueVolume(q, qty, cum, fill);
    }
  }

  /** Where every level holds orders, a match that is not aborted trades exactly the lesser of its quantity and
      what is announced as available at its limit, but for one case: an unlimited buyer is announced nothing, and
      trades all the same wherever there is anything to trade with. */
  lemma {:induction false} MatchTrades(cfg: Config, b: Book, taker: Side, limit: Price, qty: int, cum: int,
                                       fill: FillFn)
    requires Valid(cfg, b) && OrderDriven(b.Of(taker.Opposite())) && qty > 0
    ensures var s := taker.Opposite(); var m := MatchFrom(cfg, b, taker, limit, qty, cum, fill);
      && m.leaves + Traded(m.fills) == qty
      && InPriority(Queue(b, s, limit), qty, cum, QueueMatch(Queue(m.book, s, limit), m.leaves, m.fills, m.aborted))
      && (!m.aborted ==>
           (Traded(m.fills) == Min(qty, MatchQty(s, b.Of(s), limit)) <==>
             ReadAlike(s, limit) || b.Of(s).levels == map[]))
  {
    var s := taker.Opposite();
    hide Valid, InPriority, MatchLadder, MatchQueue, LadderQty;
    MatchVolume(cfg, b, taker, limit, qty, cum, fill);
    if ReadAlike(s, limit) {
      QueueSum(cfg, b, s, Ladder(s, b.Of(s).levels.Keys), limit);
    } else {
      NothingAnnounced(s, b.Of(s));
      SomethingRests(cfg, b, s);
    }
  }

  lemma {:induction false} NothingAnnounced(s: Side, x: OBSide)
    requires s == Sell
    ensures MatchQty(s, x, None) == 0
  {
  }

  /** An order-driven side with levels has something to trade with. */
  lemma {:induction false} SomethingRests(cfg: Config, b: Book, s: Side)
    requires Valid(cfg, b) && OrderDriven(b.Of(s))
    ensures if b.Of(s).levels == map[] then Queue(b, s, None) == [] else SumQueue(Queue(b, s, None)) > 0
  {
    var ps := Ladder(s, b.Of(s).levels.Keys);
    QueuePositive(cfg, b, s, ps, None);
    hide Valid, Ladder;
    if p :| p in b.Of(s).levels {
      assert p in ps;
      var q := Queue(b, s, None);
      assert OrdersAt(b.Of(s), ps[0]) != [];
      assert q != [];
      SumQueuePositive(q[1..]);
    } else {
      Ladders.LadderEmpty(s);
    }
  }

  // ---- announced limit

  /** The price of the last level that `qty` reaches, where `ps` are the prices of the side. */
  function LadderPx(x: OBSide, ps: seq<int>, qty: int): Price
    decreases |ps|
  {
    if ps == [] then None else
      var left := qty - Min(qty, QtyAt(x, ps[0]));
      if left == 0 || |ps| == 1 then Some(ps[0]) else LadderPx(x, ps[1..], left)
  }

  /** The effective limit for matching up to `qty`. */
  ghost function MatchPx(s: Side, x: OBSide, qty: int): Price {
    LadderPx(x, Ladder(s, x.levels.Keys), qty)
  }

  lemma {:induction false} LadderPxIn(x: OBSide, ps: seq<int>, qty: int)
    requires ps != []
    ensures LadderPx(x, ps, qty).Some? && LadderPx(x, ps, qty).value in ps
    decreases |ps|
  {
    var left := qty - Min(qty, QtyAt(x, ps[0]));
    if left != 0 && |ps| != 1 {
      LadderPxIn(x, ps[1..], left);
    }
  }

  lemma {:induction false} LadderPxAgrees(x: OBSide, y: OBSide, ps: seq<int>, qty: int)
    requires forall p | p in ps :: QtyAt(x, p) == QtyAt(y, p)
    ensures LadderPx(x, ps, qty) == LadderPx(y, ps, qty)
    decreases |ps|
  {
    if ps != [] {
      assert QtyAt(x, ps[0]) == QtyAt(y, ps[0]);
      var left := qty - Min(qty, QtyAt(x, ps[0]));
      if left != 0 && |ps| != 1 {
        LadderPxAgrees(x, y, ps[1..], left);
      }
    }
  }

  /** An order-driven level gives what it has: without an abort the rest of the quantity goes on. */
  lemma {:induction false} LevelLeaves(cfg: Config, b: Book, s: Side, px: int, qty: int, cum: int, fill: FillFn)
    requires Valid(cfg, b) && px in b.Of(s).levels && b.Of(s).levels[px].orders != []
    ensures var m := MatchLevel(cfg, b, s, px, qty, cum, fill);
      !m.aborted ==> m.leaves == qty - Min(qty, QtyAt(b.Of(s), px))
  {
    var l := b.Of(s).levels[px];
    LevelIsOk(cfg, b, s, Some(px));
    MatchInvariant.LevelPositive(cfg, b, s, Some(px), l);
    hide Valid, LevelOk;
    OrdersLeave(l.orders, px, qty, cum, fill);
  }

  lemma {:induction false} OrdersLeave(os: seq<Order>, px: int, qty: int, cum: int, fill: FillFn)
    requires os != [] && MatchInvariant.Positive(os)
    ensures var m := MatchOrders(os, px, qty, cum, fill);
      !m.aborted ==> m.leaves == qty - Min(qty, SumQty(os))
  {
    SumQtyPositive(os[1..]);
    if os[0].qty < qty && !fill(Fill(qty, cum, px, os[0].qty, os[0])) {
      if |os| > 1 {
        OrdersLeave(os[1..], px, qty - os[0].qty, cum + os[0].qty, fill);
      } else {
        assert os[1..] == [];
      }
    }
  }

  /** The announced limit is within reach, and is the announced limit for what the first level leaves. */
  lemma {:induction false} LadderPxNext(cfg: Config, b: Book, s: Side, ps: seq<int>, qty: int, cum: int, fill: FillFn)
    requires Valid(cfg, b) && Sorted(s, ps) && ps != []
    requires forall p | p in ps :: p in b.Of(s).levels && b.Of(s).levels[p].orders != []
    ensures var limit := LadderPx(b.Of(s), ps, qty); var m := MatchLevel(cfg, b, s, ps[0], qty, cum, fill);
      && s.Within(limit, ps[0])
      && Sorted(s, ps[1..])
      && (forall p | p in ps[1..] :: p in m.book.Of(s).levels && m.book.Of(s).levels[p].orders != [])
      && (!m.aborted && m.leaves != 0 && |ps| > 1 ==> limit == LadderPx(m.book.Of(s), ps[1..], m.leaves))
  {
    var limit := LadderPx(b.Of(s), ps, qty);
    LadderPxIn(b.Of(s), ps, qty);
    SortedTail(s, ps);
    if limit.value != ps[0] { InTail(ps, limit.value); }
    LevelLeaves(cfg, b, s, ps[0], qty, cum, fill);
    LevelKeeps(cfg, b, s, ps[0], qty, cum, fill);
    hide Valid, MatchLevel;
    var m := MatchLevel(cfg, b, s, ps[0], qty, cum, fill);
    LadderPxAgrees(b.Of(s), m.book.Of(s), ps[1..], m.leaves);
  }

  /** A match limited by the announced price is the unlimited match. */
  lemma {:induction false} LadderPxLimit(cfg: Config, b: Book, s: Side, ps: seq<int>, qty: int, cum: int, fill: FillFn)
    requires Valid(cfg, b) && Sorted(s, ps)
    requires forall p | p in ps :: p in b.Of(s).levels && b.Of(s).levels[p].orders != []
    ensures MatchLadder(cfg, b, s, ps, LadderPx(b.Of(s), ps, qty), qty, cum, fill)
         == MatchLadder(cfg, b, s, ps, None, qty, cum, fill)
    decreases |ps|
  {
    hide Valid, MatchLadder, MatchLevel, LadderPx, Traded, Then, Sorted;
    var limit := LadderPx(b.Of(s), ps, qty);
    if ps == [] {
      LadderEmpty(cfg, b, s, ps, limit, qty, cum, fill);
    } else {
      var m := MatchLevel(cfg, b, s, ps[0], qty, cum, fill);
      LadderPxNext(cfg, b, s, ps, qty, cum, fill);
      MatchInvariant.MatchLevelValid(cfg, b, s, ps[0], qty, cum, fill);
      LadderUnfold(cfg, b, s, ps, limit, qty, cum, fill);
      LadderUnfold(cfg, b, s, ps, None, qty, cum, fill);
      if !m.aborted && m.leaves != 0 {
        if |ps| == 1 {
          LadderEmpty(cfg, m.book, s, ps[1..], limit, m.leaves, cum + Traded(m.fills), fill);
        } else {
          LadderPxLimit(cfg, m.book, s, ps[1..], m.leaves, cum + Traded(m.fills), fill);
        }
      }
    }
  }

  lemma {:induction false} LadderEmpty(cfg: Config, b: Book, s: Side, ps: seq<int>, limit: Price, qty: int, cum: int,
                                       fill: FillFn)
    requires ps == []
    ensures MatchLadder(cfg, b, s, ps, limit, qty, cum, fill) == MatchLadder(cfg, b, s, ps, None, qty, cum, fill)
  {
  }

  /** Limiting a match by `matchPx` of its quantity changes nothing, whatever the quantity and the
      callback: same fills, same book, same emissions as an unlimited match. */
  lemma {:induction false} MatchPxChangesNothing(cfg: Config, b: Book, taker: Side, qty: int, fill: FillFn)
    requires Valid(cfg, b) && OrderDriven(b.Of(taker.Opposite()))
    ensures var s := taker.Opposite();
      MatchBook(cfg, b, taker, MatchPx(s, b.Of(s), qty), qty, fill) == MatchBook(cfg, b, taker, None, qty, fill)
  {
    var s := taker.Opposite();
    LadderPxLimit(cfg, b, s, Ladder(s, b.Of(s).levels.Keys), qty, 0, fill);
  }

  /** Counting the prices one by one: those at `p` or better. */
  lemma {:induction false} LadderQtyNext(s: Side, x: OBSide, ps: seq<int>, p: int)
    requires Sorted(s, ps) && ps != [] && p in ps
    ensures LadderQty(s, x, ps, Some(p))
         == QtyAt(x, ps[0]) + if p == ps[0] then 0 else LadderQty(s, x, ps[1..], Some(p))
  {
    SortedTail(s, ps);
    if p != ps[0] { InTail(ps, p); }
    if |ps| > 1 { assert ps[1..][0] in ps[1..]; }
  }

  lemma {:induction false} LadderPxLeast(s: Side, x: OBSide, ps: seq<int>, wanted: int)
    requires Sorted(s, ps) && ps != [] && wanted > 0 && forall p | p in ps :: QtyAt(x, p) > 0
    ensures var px := LadderPx(x, ps, wanted);
      && px.Some? && px.value in ps
      && (forall p | p in ps && s.Better(p, px.value) :: LadderQty(s, x, ps, Some(p)) < wanted)
      && (LadderQty(s, x, ps, px) >= wanted || forall p | p in ps :: p == px.value || s.Better(p, px.value))
    decreases |ps|
  {
    hide LadderQty, QtyAt;
    var px, left := LadderPx(x, ps, wanted), wanted - Min(wanted, QtyAt(x, ps[0]));
    assert QtyAt(x, ps[0]) > 0;
    SortedTail(s, ps);
    LadderQtyNext(s, x, ps, ps[0]);
    if left == 0 || |ps| == 1 {
      forall p | p in ps ensures p == ps[0] || s.Better(ps[0], p) {
        if p != ps[0] { InTail(ps, p); }
      }
    } else {
      LadderPxLeast(s, x, ps[1..], left);
      forall p | p in ps ensures p == ps[0] || p in ps[1..] {
        if p != ps[0] { InTail(ps, p); }
      }
      forall p | p in ps && s.Better(p, px.value) ensures LadderQty(s, x, ps, Some(p)) < wanted {
        LadderQtyNext(s, x, ps, p);
      }
      LadderQtyNext(s, x, ps, px.value);
    }
  }

  /** The announced limit is that of a level, if there is any, and no deeper than needed: at no better price would the
      quantity be available, and at this one it is, unless it is the worst there is. */
  lemma {:induction false} MatchPxLeast(s: Side, x: OBSide, wanted: int)
    requires wanted > 0 && forall p <- x.levels :: x.levels[p].qty > 0
    ensures var px := MatchPx(s, x, wanted);
      && (px.None? <==> x.levels == map[])
      && (px.Some? ==>
            && px.value in x.levels
            && (forall p <- x.levels | s.Better(p, px.value) :: MatchQty(s, x, Some(p)) < wanted)
            && (MatchQty(s, x, px) >= wanted || forall p <- x.levels :: p == px.value || s.Better(p, px.value)))
  {
    var ps := Ladder(s, x.levels.Keys);
    if x.levels != map[] {
      var p :| p in x.levels;
      assert p in ps;
      LadderPxLeast(s, x, ps, wanted);
      assert forall p :: p in ps <==> p in x.levels;
    }
  }

  // ---- what a limit changes

  lemma {:induction false} LevelOfNone(cfg: Config, b: Book, s: Side, px: int, qty: int, cum: int, fill: FillFn)
    requires Valid(cfg, b) && OrdersAt(b.Of(s), px) == []
    ensures MatchLevel(cfg, b, s, px, qty, cum, fill) == Match(b, qty, [], false, [], [])
  {
    if px in b.Of(s).levels {
      LevelIsOk(cfg, b, s, Some(px));
      hide Valid;
      assert b.Of(s).levels[px := b.Of(s).levels[px]] == b.Of(s).levels;
      assert Filled(cfg, []) == {} && b.index - {} == b.index;
    }
  }

  lemma {:induction false} TagOfNone(px: int, os: seq<Order>)
    ensures Tag(px, os) == [] <==> os == []
  {
  }

  /** A ladder without orders is climbed in vain. */
  lemma {:induction false} LadderOfNone(cfg: Config, b: Book, s: Side, ps: seq<int>, limit: Price, qty: int, cum: int,
                                        fill: FillFn)
    requires Valid(cfg, b) && QueueOf(s, b.Of(s), ps, limit) == [] && qty != 0
    ensures MatchLadder(cfg, b, s, ps, limit, qty, cum, fill) == Match(b, qty, [], false, [], [])
    decreases |ps|
  {
    hide Valid, MatchLevel;
    if ps != [] && s.Within(limit, ps[0]) {
      TagOfNone(ps[0], OrdersAt(b.Of(s), ps[0]));
      assert [] + QueueOf(s, b.Of(s), ps[1..], limit) == QueueOf(s, b.Of(s), ps[1..], limit);
      LevelOfNone(cfg, b, s, ps[0], qty, cum, fill);
      LadderOfNone(cfg, b, s, ps[1..], limit, qty, cum, fill);
    }
  }

  /** What is within a limit comes first. */
  lemma {:induction false} LimitCuts(s: Side, x: OBSide, ps: seq<int>, limit: Price)
    ensures QueueOf(s, x, ps, limit) <= QueueOf(s, x, ps, None)
  {
    if ps != [] && s.Within(limit, ps[0]) {
      LimitCuts(s, x, ps[1..], limit);
    }
  }

  lemma {:induction false} SameTail(s: Side, x: OBSide, ps: seq<int>, limit: Price)
    requires ps != [] && s.Within(limit, ps[0]) && QueueOf(s, x, ps, limit) == QueueOf(s, x, ps, None)
    ensures QueueOf(s, x, ps[1..], limit) == QueueOf(s, x, ps[1..], None)
  {
    var t := Tag(ps[0], OrdersAt(x, ps[0]));
    assert (t + QueueOf(s, x, ps[1..], limit))[|t|..] == QueueOf(s, x, ps[1..], limit);
    assert (t + QueueOf(s, x, ps[1..], None))[|t|..] == QueueOf(s, x, ps[1..], None);
  }

  /** A match that is through within its limit, or has no orders beyond it, never finds out about the limit. */
  lemma {:induction false} LimitUnseen(cfg: Config, b: Book, s: Side, ps: seq<int>, limit: Price, qty: int, cum: int,
                                       fill: FillFn)
    requires Valid(cfg, b) && qty != 0 && Sorted(s, ps)
    requires var m := MatchLadder(cfg, b, s, ps, limit, qty, cum, fill);
      m.aborted || m.leaves == 0 || QueueOf(s, b.Of(s), ps, limit) == QueueOf(s, b.Of(s), ps, None)
    ensures MatchLadder(cfg, b, s, ps, limit, qty, cum, fill) == MatchLadder(cfg, b, s, ps, None, qty, cum, fill)
    decreases |ps|
  {
    hide *;
    if ps == [] {
      LadderEmpty(cfg, b, s, ps, limit, qty, cum, fill);
    } else if !s.Within(limit, ps[0]) {
      BeyondLimit(cfg, b, s, ps, limit, qty, cum, fill);
      LadderOfNone(cfg, b, s, ps, None, qty, cum, fill);
    } else {
      var m := MatchLevel(cfg, b, s, ps[0], qty, cum, fill);
      NoLimit(s, ps[0]);
      LadderUnfold(cfg, b, s, ps, limit, qty, cum, fill);
      LadderUnfold(cfg, b, s, ps, None, qty, cum, fill);
      if !m.aborted && m.leaves != 0 {
        MatchInvariant.MatchLevelValid(cfg, b, s, ps[0], qty, cum, fill);
        SortedTail(s, ps);
        if QueueOf(s, b.Of(s), ps, limit) == QueueOf(s, b.Of(s), ps, None) {
          SameTail(s, b.Of(s), ps, limit);
          TailAgrees(cfg, b, s, ps, limit, qty, cum, fill);
          TailAgrees(cfg, b, s, ps, None, qty, cum, fill);
        }
        ThenDone(m, MatchLadder(cfg, m.book, s, ps[1..], limit, m.leaves, cum + Traded(m.fills), fill));
        LimitUnseen(cfg, m.book, s, ps[1..], limit, m.leaves, cum + Traded(m.fills), fill);
      }
    }
  }

  lemma {:induction false} NoLimit(s: Side, p: int)
    ensures s.Within(None, p)
  {
  }

  lemma {:induction false} ThenDone(m: Match, t: Match)
    ensures Then(m, t).aborted == t.aborted && Then(m, t).leaves == t.leaves
  {
  }

  lemma {:induction false} BeyondLimit(cfg: Config, b: Book, s: Side, ps: seq<int>, limit: Price, qty: int, cum: int,
                                       fill: FillFn)
    requires ps != [] && !s.Within(limit, ps[0])
    ensures MatchLadder(cfg, b, s, ps, limit, qty, cum, fill) == Match(b, qty, [], false, [], [])
    ensures QueueOf(s, b.Of(s), ps, limit) == []
  {
  }

  /** A level match leaves the queue behind it alone. */
  lemma {:induction false} TailAgrees(cfg: Config, b: Book, s: Side, ps: seq<int>, limit: Price, qty: int, cum: int,
                                      fill: FillFn)
    requires ps != [] && Sorted(s, ps)
    ensures QueueOf(s, MatchLevel(cfg, b, s, ps[0], qty, cum, fill).book.Of(s), ps[1..], limit)
         == QueueOf(s, b.Of(s), ps[1..], limit)
  {
    LevelKeeps(cfg, b, s, ps[0], qty, cum, fill);
    hide MatchLevel;
    forall i | 0 <= i < |ps[1..]| ensures ps[1..][i] != ps[0] {
      assert s.Better(ps[0], ps[i + 1]);
    }
    QueueOfAgrees(s, MatchLevel(cfg, b, s, ps[0], qty, cum, fill).book.Of(s), b.Of(s), ps[1..], limit);
  }

  lemma {:induction false} SumQueueConcat(a: seq<Resting>, b: seq<Resting>)
    ensures SumQueue(a + b) == SumQueue(a) + SumQueue(b)
  {
    if a == [] {
      assert a + b == b;
    } else {
      assert (a + b)[1..] == a[1..] + b;
      SumQueueConcat(a[1..], b);
    }
  }

  lemma {:induction false} LongerSum(a: seq<Resting>, b: seq<Resting>)
    requires a <= b && a != b && AllPositive(b)
    ensures SumQueue(a) < SumQueue(b)
  {
    var c := b[|a|..];
    assert a + c == b;
    SumQueueConcat(a, c);
    SumQueuePositive(c[1..]);
  }

  /** A limit makes no difference to a match if and only if the callback ends the match within the limit, or no order
      rests beyond it, or what rests within it is enough. */
  lemma {:induction false} LimitMatters(cfg: Config, b: Book, taker: Side, limit: Price, qty: int, fill: FillFn)
    requires Valid(cfg, b) && qty > 0
    ensures var s, m := taker.Opposite(), MatchBook(cfg, b, taker, limit, qty, fill);
      m == MatchBook(cfg, b, taker, None, qty, fill) <==>
        m.aborted || Queue(b, s, limit) == Queue(b, s, None) || qty <= SumQueue(Queue(b, s, limit))
  {
    hide Valid, MatchLadder, QueueOf, InPriority, LadderQty, Ladder;
    var s := taker.Opposite();
    var ps := Ladder(s, b.Of(s).levels.Keys);
    var m := MatchBook(cfg, b, taker, limit, qty, fill);
    MatchVolume(cfg, b, taker, limit, qty, 0, fill);
    MatchVolume(cfg, b, taker, None, qty, 0, fill);
    LimitCuts(s, b.Of(s), ps, limit);
    QueuePositive(cfg, b, s, ps, None);
    if m.aborted || m.leaves == 0 || Queue(b, s, limit) == Queue(b, s, None) {
      LimitUnseen(cfg, b, s, ps, limit, qty, 0, fill);
    } else {
      LongerSum(Queue(b, s, limit), Queue(b, s, None));
    }
  }

  /** Limiting a match by `matchPx` of its quantity makes no difference, on sides with aggregate levels too, if and only
      if the orders within that price are enough, or are all there are, or the callback ends the match there. */
  lemma {:induction false} MatchPxMatters(cfg: Config, b: Book, taker: Side, qty: int, fill: FillFn)
    requires Valid(cfg, b) && qty > 0
    ensures var s := taker.Opposite(); var px := MatchPx(s, b.Of(s), qty);
      var m := MatchBook(cfg, b, taker, px, qty, fill);
      m == MatchBook(cfg, b, taker, None, qty, fill) <==>
        m.aborted || Queue(b, s, px) == Queue(b, s, None) || qty <= SumQueue(Queue(b, s, px))
  {
    hide *;
    LimitMatters(cfg, b, taker, MatchPx(taker.Opposite(), b.Of(taker.Opposite()), qty), qty, fill);
  }
}
