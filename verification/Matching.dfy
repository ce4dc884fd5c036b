/** Matching an incoming order against one side of a book: best price first, by rank within a level,
    within a limit price, each trade being offered to a callback that may abort the match. */
module Matching {
  import opened Types
  import opened Levels
  import opened Ladders
  import opened Books

  /** One offered trade: the quantity open and executed before it, the price and quantity of the
      trade, and the resting order as it was. */
  datatype Fill = Fill(leaves: int, cum: int, px: int, qty: int, contra: Order) {
    predicate Partial() {
      contra.qty > leaves
    }
  }

  /** The callback: true aborts the match before the offered trade takes place. */
  type FillFn = Fill -> bool

  // ---- one level

  datatype LevelMatch = LevelMatch(rest: seq<Order>, leaves: int, fills: seq<Fill>, aborted: bool)

  function MatchOrders(os: seq<Order>, px: int, qty: int, cum: int, fill: FillFn): LevelMatch {
    if os == [] then LevelMatch([], qty, [], false) else
      var c := os[0];
      if c.qty <= qty then
        var f := Fill(qty, cum, px, c.qty, c);
        if fill(f) then LevelMatch(os, qty, [], true)
        else if qty - c.qty == 0 then LevelMatch(os[1..], 0, [f], false)
        else
          var m := MatchOrders(os[1..], px, qty - c.qty, cum + c.qty, fill);
          m.(fills := [f] + m.fills)
      else
        var f := Fill(qty, cum, px, qty, c);
        if fill(f) then LevelMatch(os, qty, [], true)
        else LevelMatch([c.(qty := c.qty - qty)] + os[1..], 0, [f], false)
  }

  /** The orders that trades have used up. */
  function Filled(cfg: Config, fills: seq<Fill>): set<OrderKey> {
    set i | 0 <= i < |fills| && !fills[i].Partial() :: cfg.KeyOf(fills[i].contra)
  }

  function MsgOf(side: Side, f: Fill): Msg {
    if f.Partial() then
      ModifyOrder(f.contra.id, side, Some(f.contra.rank), Some(f.px), f.contra.qty - f.qty, f.contra.flags)
    else
      CancelOrder(f.contra.id, side)
  }

  function MsgsOf(side: Side, fills: seq<Fill>): seq<Msg> {
    seq(|fills|, i requires 0 <= i < |fills| => MsgOf(side, fills[i]))
  }

  /** The level at `px` after a match, and its side and index with it. */
  function Matched(cfg: Config, b: Book, s: Side, px: int, m: LevelMatch): Book
    requires px in b.Of(s).levels
  {
    var x, l := b.Of(s), b.Of(s).levels[px];
    var traded := Traded(m.fills);
    var l' := l.(qty := l.qty - traded, nOrders := l.nOrders - (|l.orders| - |m.rest|), orders := m.rest);
    b.With(s, x.Put(Some(px), if l'.qty == 0 then None else Some(l')).(qty := x.qty - traded))
      .(index := b.index - Filled(cfg, m.fills))
  }

  function Traded(fills: seq<Fill>): int {
    if fills == [] then 0 else fills[0].qty + Traded(fills[1..])
  }

  lemma {:induction false} TradedConcat(a: seq<Fill>, b: seq<Fill>)
    ensures Traded(a + b) == Traded(a) + Traded(b)
  {
    if a == [] {
      assert a + b == b;
    } else {
      assert (a + b)[1..] == a[1..] + b;
      TradedConcat(a[1..], b);
    }
  }

  // ---- one side

  datatype Match = Match(book: Book, leaves: int, fills: seq<Fill>, aborted: bool, deltas: seq<Delta>,
                         nvs: seq<NvUpdate>)

  function LevelDeltas(s: Side, px: int, l: Level, m: LevelMatch): seq<Delta> {
    if Traded(m.fills) == 0 then []
    else [Delta(s, Some(px), -Traded(m.fills), -(|l.orders| - |m.rest|), l.flags)]
  }

  function LevelNvs(s: Side, px: int, x: OBSide, m: LevelMatch): seq<NvUpdate> {
    if Traded(m.fills) == 0 then []
    else if x.qty == Traded(m.fills) then [Cleared(s)]
    else [Moved(s, px, -Traded(m.fills))]
  }

  /** Matches within the level at `px`. */
  function MatchLevel(cfg: Config, b: Book, s: Side, px: int, qty: int, cum: int, fill: FillFn): Match {
    if px !in b.Of(s).levels then Match(b, qty, [], false, [], []) else
      var l := b.Of(s).levels[px];
      var m := MatchOrders(l.orders, px, qty, cum, fill);
      Match(Matched(cfg, b, s, px, m), m.leaves, m.fills, m.aborted,
            LevelDeltas(s, px, l, m), LevelNvs(s, px, b.Of(s), m))
  }

  function Then(m: Match, r: Match): Match {
    Match(r.book, r.leaves, m.fills + r.fills, r.aborted, m.deltas + r.deltas, m.nvs + r.nvs)
  }

  /** Visits the levels at the prices `ps`, in that order, until the limit, an abort or the end of the
      incoming quantity. */
  function MatchLadder(cfg: Config, b: Book, s: Side, ps: seq<int>, limit: Price, qty: int, cum: int,
                       fill: FillFn): Match
    decreases |ps|
  {
    if ps == [] || !s.Within(limit, ps[0]) then Match(b, qty, [], false, [], []) else
      var m := MatchLevel(cfg, b, s, ps[0], qty, cum, fill);
      if m.aborted || m.leaves == 0 then m
      else Then(m, MatchLadder(cfg, m.book, s, ps[1..], limit, m.leaves, cum + Traded(m.fills), fill))
  }

  lemma {:induction false} LadderUnfold(cfg: Config, b: Book, s: Side, ps: seq<int>, limit: Price, qty: int, cum: int,
                                        fill: FillFn)
    requires ps != [] && s.Within(limit, ps[0])
    ensures var m, r := MatchLevel(cfg, b, s, ps[0], qty, cum, fill), MatchLadder(cfg, b, s, ps, limit, qty, cum, fill);
      r == if m.aborted || m.leaves == 0 then m
           else Then(m, MatchLadder(cfg, m.book, s, ps[1..], limit, m.leaves, cum + Traded(m.fills), fill))
  {
    hide MatchLevel, Then, Traded;
  }

  /** Matches an incoming order on `taker`'s side, of `qty` at `limit` or better, having already
      executed `cum`. */
  ghost function MatchFrom(cfg: Config, b: Book, taker: Side, limit: Price, qty: int, cum: int, fill: FillFn): Match
  {
    var s := taker.Opposite();
    MatchLadder(cfg, b, s, Ladder(s, b.Of(s).levels.Keys), limit, qty, cum, fill)
  }

  ghost function MatchBook(cfg: Config, b: Book, taker: Side, limit: Price, qty: int, fill: FillFn): Match {
    MatchFrom(cfg, b, taker, limit, qty, 0, fill)
  }

  ghost function MatchEffect(cfg: Config, b: Book, taker: Side, limit: Price, qty: int, fill: FillFn): Effect {
    var m := MatchBook(cfg, b, taker, limit, qty, fill);
    Effect(m.book, MsgsOf(taker.Opposite(), m.fills), m.deltas, m.nvs)
  }
}
