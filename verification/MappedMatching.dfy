/** Consolidated matching over the mapped list: the recursive walk, with each book at a leaf matched for real, trades
    what the consolidated book announces. */
module MappedMatching {
  import opened Types
  import opened Books
  import opened Matching
  import opened Consolidation
  import Mapping
  import Priority

  /** The books at the leaves, by ID. */
  type BooksByID = map<int, Input>

  /** Every trade matches the taker on the book of the ID it is given, and touches no other. */
  ghost predicate Trades(trade: Mapping.Trade<BooksByID>, taker: Side, limit: Price, fill: FillFn) {
    forall books: BooksByID, id, qty, cum | id in books ::
      trade(books, id, qty, cum) == LeafMatch(books, id, taker, limit, qty, cum, fill)
  }

  ghost function LeafMatch(books: BooksByID, id: int, taker: Side, limit: Price, qty: int, cum: int, fill: FillFn)
    : Mapping.Outcome<BooksByID>
    requires id in books
  {
    var x := books[id];
    var m := MatchFrom(x.cfg, x.book, taker, limit, qty, cum, fill);
    Mapping.Outcome(books[id := x.(book := m.book)], m.leaves, cum + Traded(m.fills), m.aborted)
  }

  ghost predicate Known(ns: seq<Mapping.Node>, books: BooksByID) {
    forall i | 0 <= i < |ns| :: ns[i].id in books
  }

  ghost predicate DistinctIDs(ns: seq<Mapping.Node>) {
    forall i, j | 0 <= i < j < |ns| :: ns[i].id != ns[j].id
  }

  /** The inputs in the order of the walk. */
  ghost function InOrder(ns: seq<Mapping.Node>, books: BooksByID): seq<Input>
    requires Known(ns, books)
  {
    seq(|ns|, i requires 0 <= i < |ns| => books[ns[i].id])
  }

  /** Visiting the books one after the other is matching on the inputs in turn. */
  lemma {:induction false} VisitIsInputs(ns: seq<Mapping.Node>, i: nat, books: BooksByID, taker: Side, limit: Price,
                                         qty: int, cum: int, fill: FillFn, trade: Mapping.Trade<BooksByID>)
    requires i <= |ns| && Known(ns, books) && DistinctIDs(ns) && Trades(trade, taker, limit, fill)
    ensures var o := Mapping.Visit(ns[i..], books, qty, cum, trade);
      var m := MatchInputs(InOrder(ns, books), i, taker, limit, qty, cum, fill);
      && Known(ns, o.state) && InOrder(ns, o.state) == m.ins
      && o.leaves == m.leaves && o.cum == cum + Traded(m.fills) && o.aborted == m.aborted
    decreases |ns| - i
  {
    hide MatchFrom, MatchInputs, Traded;
    var ins := InOrder(ns, books);
    InputsUnfold(ins, i, taker, limit, qty, cum, fill);
    if i < |ns| {
      var id := ns[i].id;
      var m := MatchFrom(books[id].cfg, books[id].book, taker, limit, qty, cum, fill);
      var books' := books[id := books[id].(book := m.book)];
      assert ns[i..][0] == ns[i] && ns[i..][1..] == ns[i + 1..];
      assert trade(books, id, qty, cum) == LeafMatch(books, id, taker, limit, qty, cum, fill);
      assert InOrder(ns, books') == ins[i := ins[i].(book := m.book)];
      if !m.aborted && m.leaves != 0 {
        VisitIsInputs(ns, i + 1, books', taker, limit, m.leaves, cum + Traded(m.fills), fill, trade);
        TradedConcat(m.fills, MatchInputs(InOrder(ns, books'), i + 1, taker, limit, m.leaves,
                                          cum + Traded(m.fills), fill).fills);
      }
    }
  }

  ghost predicate UniqueIDs(world: set<Mapping.Node>) {
    forall a <- world, b <- world :: a.id == b.id ==> a == b
  }

  lemma {:induction false} LeafIDs(b: Mapping.Node, world: set<Mapping.Node>, height: map<Mapping.Node, nat>)
    requires Mapping.Valid(world) && Mapping.Acyclic(world, height) && b in world && UniqueIDs(world)
    ensures DistinctIDs(Mapping.Leaves(b, world, height))
  {
    Mapping.LeavesAre(b, world, height);
    var ns := Mapping.Leaves(b, world, height);
    forall i, j | 0 <= i < j < |ns| ensures ns[i].id != ns[j].id {
      assert ns[i] in ns && ns[j] in ns && ns[i] != ns[j];
    }
  }

  /** The walk over a mapping keeps the consolidated book consolidated; nothing is lost; and without an abort it trades
      the lesser of the quantity and what rests on the mapped books within the limit, which is what the consolidated
      book announces, but for the unlimited buyer. */
  lemma {:induction false} MappedMatchTrades(b: Mapping.Node, world: set<Mapping.Node>,
                                             height: map<Mapping.Node, nat>, cfg: Config, out: Book, books: BooksByID,
                                             taker: Side, limit: Price, qty: int, fill: FillFn,
                                             trade: Mapping.Trade<BooksByID>)
    requires Mapping.Valid(world) && Mapping.Acyclic(world, height) && b in world && UniqueIDs(world)
    requires Known(Mapping.Leaves(b, world, height), books) && Trades(trade, taker, limit, fill) && qty > 0
    requires var ins := InOrder(Mapping.Leaves(b, world, height), books);
      Consolidated(out, ins) && AllValid(ins, 0) && AllOrderDriven(ins, 0, taker.Opposite())
    ensures var ns, s := Mapping.Leaves(b, world, height), taker.Opposite();
      var ins, o := InOrder(ns, books), Mapping.Visit(ns, books, qty, 0, trade);
      && o.leaves + o.cum == qty
      && Known(ns, o.state)
      && Consolidated(ApplyDeltas(cfg, out, MatchInputs(ins, 0, taker, limit, qty, 0, fill).deltas),
        InOrder(ns, o.state))
      && (!o.aborted ==> o.cum == Priority.Min(qty, InputRests(ins, 0, s, limit)))
      && (!o.aborted ==>
           (o.cum == Priority.Min(qty, Priority.MatchQty(s, out.Of(s), limit))
            <==> Priority.ReadAlike(s, limit) || NoLevels(ins, 0, s)))
  {
    hide Consolidated, MatchInputs, AllValid, AllOrderDriven, NoLevels, InputRests, Priority.MatchQty, Trades;
    var ns := Mapping.Leaves(b, world, height);
    var ins := InOrder(ns, books);
    LeafIDs(b, world, height);
    assert ns[0..] == ns;
    VisitIsInputs(ns, 0, books, taker, limit, qty, 0, fill, trade);
    ConsolidatedMatchVolume(out, ins, taker, limit, qty, fill);
    ConsolidatedMatchTrades(out, ins, taker, limit, qty, fill);
    MatchConsolidated(cfg, out, ins, 0, taker, limit, qty, 0, fill);
  }
}
