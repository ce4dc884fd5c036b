/** The order book as a value: what every public operation does to the levels of both sides and to the
    venue's order index, and what it emits: broadcast messages, deltas for the consolidated book it
    feeds, and updates of the sides' notional values. */
module Books {
  import opened Types
  import opened Levels
  import opened Ladders

  datatype OBSide = OBSide(qty: int, mkt: Option<Level>, levels: map<int, Level>) {
    function LevelAt(p: Price): Option<Level> {
      match p
      case None => mkt
      case Some(px) => if px in levels then Some(levels[px]) else None
    }

    /** This side with the level at `p` replaced, added or removed. */
    function Put(p: Price, l: Option<Level>): OBSide {
      match p
      case None => this.(mkt := l)
      case Some(px) => this.(levels := if l.Some? then levels[px := l.value] else levels - {px})
    }
  }

  const EMPTY_SIDE := OBSide(0, None, map[])

  datatype Book = Book(bids: OBSide, asks: OBSide, index: map<OrderKey, Location>) {
    function Of(s: Side): OBSide {
      if s == Buy then bids else asks
    }

    function With(s: Side, x: OBSide): Book {
      if s == Buy then this.(bids := x) else this.(asks := x)
    }

    function LevelAt(s: Side, p: Price): Option<Level> {
      Of(s).LevelAt(p)
    }
  }

  const EMPTY_BOOK := Book(EMPTY_SIDE, EMPTY_SIDE, map[])

  // ---- what an operation emits

  /** An aggregate change passed on to the consolidated book. */
  datatype Delta = Delta(side: Side, price: Price, qty: int, nOrders: int, flags: Flags)

  /** A change of a side's notional value: up or down by the value of a quantity at a price, or back to
      zero. */
  datatype NvUpdate = Moved(side: Side, px: int, qty: int) | Withdrawn(side: Side, px: int, qty: int)
    | Cleared(side: Side)

  datatype Effect = Effect(book: Book, msgs: seq<Msg>, deltas: seq<Delta>, nvs: seq<NvUpdate>)

  function NvMove(s: Side, p: Price, qty: int): seq<NvUpdate> {
    if p.Some? then [Moved(s, p.value, qty)] else []
  }

  // ---- looking up orders

  function FindIn(cfg: Config, os: seq<Order>, k: OrderKey): (r: Option<Order>)
    ensures r.Some? ==> r.value in os && cfg.KeyOf(r.value) == k
    ensures r.None? ==> forall i | 0 <= i < |os| :: cfg.KeyOf(os[i]) != k
  {
    if os == [] then None
    else if cfg.KeyOf(os[0]) == k then Some(os[0])
    else FindIn(cfg, os[1..], k)
  }

  function Find(cfg: Config, b: Book, k: OrderKey): Option<Order> {
    if k !in b.index then None else
      match b.index[k]
      case Detached(o) => Some(o)
      case At(s, p) =>
        var l := b.LevelAt(s, p);
        if l.None? then None else FindIn(cfg, l.value.orders, k)
  }

  function KeysOf(cfg: Config, os: seq<Order>): set<OrderKey> {
    set i | 0 <= i < |os| :: cfg.KeyOf(os[i])
  }

  // ---- entering and leaving a level

  /** Places an order of non-zero quantity in the level at its price, and in the index. */
  function Enter(cfg: Config, b: Book, o: Order, rank: Option<nat>): Book {
    var s := b.Of(o.side);
    var l := s.LevelAt(o.price);
    var l' := if l.None? then Level(o.qty, 1, {}, []) else UpdateDelta(l.value, o.qty, 1, {});
    var s' := s.Put(o.price, Some(AddToLevel(cfg.uniform, l', o, rank))).(qty := s.qty + o.qty);
    b.With(o.side, s').(index := b.index[cfg.KeyOf(o) := At(o.side, o.price)])
  }

  /** Takes an order of non-zero quantity out of its level, by rank, and out of the index. A level
      whose quantity has become zero goes, with any orders still in it. */
  function Leave(cfg: Config, b: Book, o: Order): Book {
    var s := b.Of(o.side);
    var l := s.LevelAt(o.price);
    if l.None? then b.(index := b.index - {cfg.KeyOf(o)}) else
      var l' := UpdateDelta(l.value, -o.qty, -1, {});
      var os := Delete(cfg.uniform, l'.orders, o.rank);
      var gone := l'.qty == 0;
      var s' := s.Put(o.price, if gone then None else Some(l'.(orders := os))).(qty := s.qty - o.qty);
      b.With(o.side, s').(index := b.index - {cfg.KeyOf(o)} - if gone then KeysOf(cfg, os) else {})
  }

  function LeaveAny(cfg: Config, b: Book, o: Order): Book {
    if o.qty != 0 then Leave(cfg, b, o) else b.(index := b.index - {cfg.KeyOf(o)})
  }

  function EnterAny(cfg: Config, b: Book, o: Order, rank: Option<nat>): Book {
    if o.qty != 0 then Enter(cfg, b, o, rank) else b
  }

  // ---- operations on orders

  function Add(cfg: Config, b: Book, id: OrderId, side: Side, rank: Option<nat>, price: Price, qty: int,
               flags: Flags): Effect
  {
    if Find(cfg, b, cfg.Key(side, id)).Some? then Modify(cfg, b, id, side, rank, price, qty, flags) else
      var o := Order(id, side, if rank.Some? then rank.value else 0, price, qty, flags);
      var msg := AddOrder(id, side, rank, price, qty, flags);
      if qty == 0 then Effect(b.(index := b.index[cfg.KeyOf(o) := Detached(o)]), [msg], [], [])
      else Effect(Enter(cfg, b, o, rank), [msg], [Delta(side, price, qty, 1, flags)],
                  NvMove(side, price, qty))
  }

  /** The order as a modification leaves it; a null price keeps the price. */
  function Amended(o: Order, price: Price, qty: int, flags: Flags): Order {
    o.(price := if price.Some? then price else o.price, qty := qty, flags := flags)
  }

  function Modify(cfg: Config, b: Book, id: OrderId, side: Side, rank: Option<nat>, price: Price, qty: int,
                  flags: Flags): Effect
  {
    var found := Find(cfg, b, cfg.Key(side, id));
    if found.None? then Effect(b, [], [], []) else
      var o, o' := found.value, Amended(found.value, price, qty, flags);
      Effect(EnterAny(cfg, LeaveAny(cfg, b, o), o', rank),
             [ModifyOrder(id, side, rank, price, qty, flags)],
             Moves(o, o'), NvMoves(o, o'))
  }

  /** What re-entering an order passes on to the consolidated book, and to the notional value. */
  function Moves(o: Order, o': Order): seq<Delta> {
    (if o.qty != 0 then [Delta(o.side, o.price, -o.qty, -1, {})] else []) +
    (if o'.qty != 0 then [Delta(o'.side, o'.price, o'.qty, 1, {})] else [])
  }

  function NvMoves(o: Order, o': Order): seq<NvUpdate> {
    (if o.qty != 0 && o.price.Some? then [Withdrawn(o.side, o.price.value, o.qty)] else []) +
    (if o'.qty != 0 then NvMove(o'.side, o'.price, o'.qty) else [])
  }

  function Reduce(cfg: Config, b: Book, id: OrderId, side: Side, reduceQty: int): Effect {
    var found := Find(cfg, b, cfg.Key(side, id));
    if found.None? then Effect(b, [], [], []) else
      var o := found.value;
      var o' := o.(qty := if o.qty > reduceQty then o.qty - reduceQty else 0);
      Effect(EnterAny(cfg, LeaveAny(cfg, b, o), o', Some(o.rank)),
             [ModifyOrder(id, o.side, None, None, o'.qty, {})],
             Moves(o, o'), NvMoves(o, o'))
  }

  function Cancel(cfg: Config, b: Book, id: OrderId, side: Side): Effect {
    var found := Find(cfg, b, cfg.Key(side, id));
    if found.None? then Effect(b, [], [], []) else
      var o := found.value;
      Effect(LeaveAny(cfg, b, o), [CancelOrder(id, o.side)],
             Moves(o, o.(qty := 0)), NvMoves(o, o.(qty := 0)))
  }

  // ---- operations on levels

  /** An absolute or relative update of the aggregate level at a price, with the change in quantity
      and in the number of orders that it amounts to. */
  function UpdatePx(cfg: Config, b: Book, side: Side, delta: bool, price: Price, qty: int, nOrders: int,
                    flags: Flags): (Book, int, int)
  {
    var s := b.Of(side);
    var l := s.LevelAt(price);
    if l.None? then
      if qty == 0 then (b, 0, 0)
      else (b.With(side, s.Put(price, Some(Level(qty, nOrders, flags, []))).(qty := s.qty + qty)),
            qty, nOrders)
    else
      var l' := if delta then UpdateDelta(l.value, qty, nOrders, flags)
                else UpdateAbs(l.value, qty, nOrders, flags);
      var d := if delta then qty else qty - l.value.qty;
      var gone := l'.qty == 0;
      (b.With(side, s.Put(price, if gone then None else Some(l')).(qty := s.qty + d))
        .(index := if gone then b.index - KeysOf(cfg, l'.orders) else b.index),
       d, if delta then nOrders else nOrders - l.value.nOrders)
  }

  function SetPxLevel(cfg: Config, b: Book, side: Side, delta: bool, price: Price, qty: int, nOrders: int,
                      flags: Flags): Effect
  {
    var (b', d, dn) := UpdatePx(cfg, b, side, delta, price, qty, nOrders, flags);
    Effect(b', [PxLevel(side, delta, price, qty, nOrders, flags)], [Delta(side, price, d, dn, flags)],
           if d != 0 then NvMove(side, price, d) else [])
  }

  // ---- clearing the book

  /** What clearing a side passes on to the consolidated book: its limit levels, lowest price first. */
  ghost function ResetDeltas(s: Side, x: OBSide, ps: seq<int>): seq<Delta>
    requires forall i | 0 <= i < |ps| :: ps[i] in x.levels
  {
    if ps == [] then [] else
      [Delta(s, Some(ps[0]), -x.levels[ps[0]].qty, -x.levels[ps[0]].nOrders, {})] + ResetDeltas(s, x, ps[1..])
  }

  ghost function Reset(b: Book): Effect {
    Effect(Book(EMPTY_SIDE, EMPTY_SIDE, map k | k in b.index && b.index[k].Detached? :: b.index[k]),
           [ResetOB],
           ResetDeltas(Buy, b.bids, Ladder(Sell, b.bids.levels.Keys)) +
           ResetDeltas(Sell, b.asks, Ladder(Sell, b.asks.levels.Keys)),
           [Cleared(Buy), Cleared(Sell)])
  }
}
