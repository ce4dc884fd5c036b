/** Replication by snapshot: the level-two messages of a snapshot rebuild the book they were taken from. */
module Snapshot {
  import opened Types
  import opened Levels
  import opened Ladders
  import opened Books
  import opened Invariant
  import opened Operations
  import opened Replica

  // ---- what a snapshot says

  function OrderMsg(o: Order): Msg {
    AddOrder(o.id, o.side, Some(o.rank), o.price, o.qty, o.flags)
  }

  function OrderMsgs(os: seq<Order>): seq<Msg> {
    if os == [] then [] else OrderMsgs(os[..|os| - 1]) + [OrderMsg(os[|os| - 1])]
  }

  /** The orders of a level by rank, or else its aggregate. */
  function LevelMsgs(s: Side, p: Price, l: Level): seq<Msg> {
    if l.orders != [] then OrderMsgs(l.orders) else [PxLevel(s, false, p, l.qty, l.nOrders, l.flags)]
  }

  function LadderMsgs(s: Side, x: OBSide, ps: seq<int>): seq<Msg> {
    if ps == [] then []
    else (if ps[0] in x.levels then LevelMsgs(s, Some(ps[0]), x.levels[ps[0]]) else []) + LadderMsgs(s, x, ps[1..])
  }

  /** The market level, then the limit levels, best first. */
  ghost function SideMsgs(s: Side, x: OBSide): seq<Msg> {
    (if x.mkt.Some? then LevelMsgs(s, None, x.mkt.value) else []) + LadderMsgs(s, x, Ladder(s, x.levels.Keys))
  }

  ghost function Snapshot(b: Book): seq<Msg> {
    [ResetOB] + SideMsgs(Buy, b.bids) + SideMsgs(Sell, b.asks)
  }

  // ---- rebuilding one level

  function Located(cfg: Config, os: seq<Order>, s: Side, p: Price): map<OrderKey, Location> {
    map k | k in KeysOf(cfg, os) :: At(s, p)
  }

  /** `r` with a level put where there was none. */
  function Place(cfg: Config, r: Book, s: Side, p: Price, l: Level): Book {
    r.With(s, r.Of(s).Put(p, Some(l)).(qty := r.Of(s).qty + l.qty)).(index := r.index + Located(cfg, l.orders, s, p))
  }

  function LevelOf(os: seq<Order>): Level {
    Level(SumQty(os), |os|, {}, os)
  }

  /** An order behind all others goes last. */
  lemma {:induction false} InsertLast(uniform: bool, os: seq<Order>, o: Order)
    requires forall i | 0 <= i < |os| :: os[i].rank < o.rank
    ensures Insert(uniform, os, o) == os + [o]
  {
    if os != [] {
      InsertLast(uniform, os[1..], o);
      assert [os[0]] + (os[1..] + [o]) == os + [o];
    }
  }

  /** `r`, once the orders `os` rest at a place that was empty. */
  function PlaceAll(cfg: Config, r: Book, s: Side, p: Price, os: seq<Order>): Book {
    if os == [] then r else Place(cfg, r, s, p, LevelOf(os))
  }

  lemma {:induction false} NewOrder(cfg: Config, r: Book, o: Order)
    requires cfg.KeyOf(o) !in r.index && o.qty != 0
    ensures Apply(cfg, r, OrderMsg(o)) == Enter(cfg, r, o, Some(o.rank))
  {
  }

  lemma {:induction false} JoinLast(cfg: Config, os: seq<Order>, o: Order)
    requires SumQty(os) >= 0 && o.qty > 0 && forall i | 0 <= i < |os| :: os[i].rank < o.rank
    ensures Joined(cfg, if os == [] then None else Some(LevelOf(os)), o, Some(o.rank)) == LevelOf(os + [o])
  {
    InsertLast(cfg.uniform, os, o);
    SumQtyConcat(os, [o]);
    assert SumQty([o]) == o.qty by { assert [o][1..] == []; }
  }

  lemma {:induction false} LocatedAppend(cfg: Config, m: map<OrderKey, Location>, os: seq<Order>, o: Order, s: Side,
                                         p: Price)
    ensures m + Located(cfg, os + [o], s, p) == (m + Located(cfg, os, s, p))[cfg.KeyOf(o) := At(s, p)]
    ensures m + Located(cfg, [], s, p) == m
  {
    hide KeysOf;
    KeysAppend(cfg, os, o);
    NoKeys(cfg);
    assert Located(cfg, os + [o], s, p) == Located(cfg, os, s, p)[cfg.KeyOf(o) := At(s, p)];
  }

  lemma {:induction false} PlaceLast(cfg: Config, r: Book, b': Book, s: Side, p: Price, os: seq<Order>, o: Order)
    requires r.LevelAt(s, p).None?
    requires var r0 := PlaceAll(cfg, r, s, p, os);
      && Replaced(cfg, r0, b', s, p, Some(LevelOf(os + [o])))
      && b'.index == r0.index[cfg.KeyOf(o) := At(s, p)]
    ensures b' == PlaceAll(cfg, r, s, p, os + [o])
  {
    hide SumQty, Located;
    LocatedAppend(cfg, r.index, os, o, s, p);
    var r1 := PlaceAll(cfg, r, s, p, os + [o]);
    assert r1.index == r.index + Located(cfg, os + [o], s, p);
    assert b'.index == r1.index;
    assert b'.Of(s) == r1.Of(s);
    assert b'.Of(s.Opposite()) == r.Of(s.Opposite()) == r1.Of(s.Opposite());
  }

  lemma {:induction false} AddLast(cfg: Config, r: Book, s: Side, p: Price, os: seq<Order>, o: Order)
    requires r.LevelAt(s, p).None? && SumQty(os) >= 0
    requires o.side == s && o.price == p && o.qty > 0 && forall i | 0 <= i < |os| :: os[i].rank < o.rank
    requires cfg.KeyOf(o) !in r.index && cfg.KeyOf(o) !in KeysOf(cfg, os)
    ensures Apply(cfg, PlaceAll(cfg, r, s, p, os), OrderMsg(o)) == PlaceAll(cfg, r, s, p, os + [o])
  {
    hide Apply, Enter, Joined, SumQty, KeysOf, Replaced;
    var r0 := PlaceAll(cfg, r, s, p, os);
    NewOrder(cfg, r0, o);
    EnterShape(cfg, r0, o, Some(o.rank));
    assert r0.LevelAt(s, p) == if os == [] then None else Some(LevelOf(os));
    JoinLast(cfg, os, o);
    PlaceLast(cfg, r, Enter(cfg, r0, o, Some(o.rank)), s, p, os, o);
  }

  lemma {:induction false} NoKeys(cfg: Config)
    ensures KeysOf(cfg, []) == {}
  {
  }

  lemma {:induction false} KeysAppend(cfg: Config, os: seq<Order>, o: Order)
    ensures KeysOf(cfg, os + [o]) == KeysOf(cfg, os) + {cfg.KeyOf(o)}
  {
    var t := os + [o];
    assert t[|os|] == o;
    forall k | k in KeysOf(cfg, os) ensures k in KeysOf(cfg, t) {
      var i :| 0 <= i < |os| && cfg.KeyOf(os[i]) == k;
      assert t[i] == os[i];
    }
    forall k | k in KeysOf(cfg, t) ensures k in KeysOf(cfg, os) + {cfg.KeyOf(o)} {
      var i :| 0 <= i < |t| && cfg.KeyOf(t[i]) == k;
      if i < |os| { assert t[i] == os[i]; }
    }
  }

  /** The last order of a level, against the others. */
  lemma {:induction false} SplitLast(cfg: Config, b: Book, s: Side, p: Price, init: seq<Order>, o: Order)
    requires RanksIncrease(init + [o]) && DistinctIds(init + [o])
    requires forall i | 0 <= i <= |init| :: OrderOk(cfg, b, s, p, (init + [o])[i])
    ensures o.side == s && o.price == p && o.qty > 0 && SumQty(init) >= 0
    ensures forall i | 0 <= i < |init| :: init[i].rank < o.rank
    ensures forall i | 0 <= i < |init| :: OrderOk(cfg, b, s, p, init[i])
    ensures RanksIncrease(init) && DistinctIds(init)
    ensures cfg.KeyOf(o) !in KeysOf(cfg, init)
  {
    var os := init + [o];
    assert os[|init|] == o && OrderOk(cfg, b, s, p, os[|init|]);
    forall i | 0 <= i < |init|
      ensures OrderOk(cfg, b, s, p, init[i]) && cfg.KeyOf(init[i]) != cfg.KeyOf(o) && init[i].rank < o.rank
    {
      assert init[i] == os[i] && OrderOk(cfg, b, s, p, os[i]) && os[i].id != os[|init|].id;
    }
    forall i, j | 0 <= i < j < |init| ensures init[i].rank < init[j].rank && init[i].id != init[j].id {
      assert init[i] == os[i] && init[j] == os[j];
    }
    SumQtyPositiveOk(cfg, b, s, p, init);
  }

  /** Replaying the orders of a sound level one by one. */
  lemma {:induction false} OrdersRebuild(cfg: Config, b: Book, r: Book, s: Side, p: Price, os: seq<Order>)
    requires RanksIncrease(os) && DistinctIds(os) && forall i | 0 <= i < |os| :: OrderOk(cfg, b, s, p, os[i])
    requires r.LevelAt(s, p).None? && KeysOf(cfg, os) !! r.index.Keys
    ensures ApplyAll(cfg, r, OrderMsgs(os)) == PlaceAll(cfg, r, s, p, os)
    decreases |os|
  {
    if os == [] {
    } else {
      var init, o := os[..|os| - 1], os[|os| - 1];
      assert os == init + [o];
      SplitLast(cfg, b, s, p, init, o);
      KeysAppend(cfg, init, o);
      hide Apply, OrderOk, PlaceAll, KeysOf, RanksIncrease, DistinctIds, SumQty;
      OrdersRebuild(cfg, b, r, s, p, init);
      ApplyConcat(cfg, r, OrderMsgs(init), [OrderMsg(o)]);
      AddLast(cfg, r, s, p, init, o);
      assert [OrderMsg(o)][1..] == [];
    }
  }

  lemma {:induction false} LevelRebuild(cfg: Config, b: Book, r: Book, s: Side, p: Price, l: Level)
    requires LevelOk(cfg, b, s, p, l)
    requires r.LevelAt(s, p).None? && KeysOf(cfg, l.orders) !! r.index.Keys
    ensures ApplyAll(cfg, r, LevelMsgs(s, p, l)) == Place(cfg, r, s, p, l)
  {
    if l.orders != [] {
      OrdersRebuild(cfg, b, r, s, p, l.orders);
      assert LevelOf(l.orders) == l;
    } else {
      var m := PxLevel(s, false, p, l.qty, l.nOrders, l.flags);
      assert [m][1..] == [];
      assert ApplyAll(cfg, r, [m]) == Apply(cfg, r, m);
      assert Located(cfg, l.orders, s, p) == map[];
    }
  }

  // ---- rebuilding the book

  /** `r` holds, of the levels of `b`, those at the places `done`. */
  ghost predicate Part(b: Book, r: Book, done: set<(Side, Price)>) {
    PartLevels(b, r, done) && Totalled(r) && PartIndex(b, r, done)
  }

  ghost predicate PartLevels(b: Book, r: Book, done: set<(Side, Price)>) {
    forall s: Side, p: Price :: r.LevelAt(s, p) == if (s, p) in done then b.LevelAt(s, p) else None
  }

  ghost predicate Totalled(r: Book) {
    forall s: Side :: r.Of(s).qty == Total(r.Of(s))
  }

  ghost predicate PartIndex(b: Book, r: Book, done: set<(Side, Price)>) {
    && (forall k :: k in r.index <==> k in b.index && b.index[k].At? && (b.index[k].side, b.index[k].price) in done)
    && (forall k | k in r.index :: r.index[k] == b.index[k])
  }

  lemma {:induction false} PlacePart(cfg: Config, b: Book, r: Book, s: Side, p: Price, done: set<(Side, Price)>)
    requires Valid(cfg, b) && Part(b, r, done) && (s, p) !in done && b.LevelAt(s, p).Some?
    ensures Part(b, Place(cfg, r, s, p, b.LevelAt(s, p).value), done + {(s, p)})
    ensures KeysOf(cfg, b.LevelAt(s, p).value.orders) !! r.index.Keys
  {
    KeysAtLevel(cfg, b, s, p);
    assert r.LevelAt(s, p) == None;
    hide Valid, PartLevels, Totalled, PartIndex, Place, KeysOf;
    PlaceLevels(cfg, b, r, s, p, done);
    PlaceTotals(cfg, r, s, p, b.LevelAt(s, p).value);
    PlaceIndex(cfg, b, r, s, p, done);
  }

  lemma {:induction false} PlaceLevels(cfg: Config, b: Book, r: Book, s: Side, p: Price, done: set<(Side, Price)>)
    requires PartLevels(b, r, done) && b.LevelAt(s, p).Some?
    ensures PartLevels(b, Place(cfg, r, s, p, b.LevelAt(s, p).value), done + {(s, p)})
  {
    var r' := Place(cfg, r, s, p, b.LevelAt(s, p).value);
    hide Located;
    forall s2: Side, p2: Price
      ensures r'.LevelAt(s2, p2) == if (s2, p2) in done + {(s, p)} then b.LevelAt(s2, p2) else None
    {
      assert r.LevelAt(s2, p2) == if (s2, p2) in done then b.LevelAt(s2, p2) else None;
      if s2 != s { assert s2 == s.Opposite(); }
    }
  }

  lemma {:induction false} PlaceTotals(cfg: Config, r: Book, s: Side, p: Price, l: Level)
    requires Totalled(r) && r.LevelAt(s, p) == None
    ensures Totalled(Place(cfg, r, s, p, l))
  {
    var r' := Place(cfg, r, s, p, l);
    PutTotal(r.Of(s), p, Some(l));
    hide Total, Located;
    forall s2: Side ensures r'.Of(s2).qty == Total(r'.Of(s2)) {
      assert r.Of(s2).qty == Total(r.Of(s2));
      if s2 != s { assert s2 == s.Opposite(); } else { SameTotal(r.Of(s).Put(p, Some(l)), r'.Of(s)); }
    }
  }

  lemma {:induction false} PlaceIndex(cfg: Config, b: Book, r: Book, s: Side, p: Price, done: set<(Side, Price)>)
    requires PartIndex(b, r, done) && b.LevelAt(s, p).Some? && (s, p) !in done
    requires forall k :: k in KeysOf(cfg, b.LevelAt(s, p).value.orders) <==> k in b.index && b.index[k] == At(s, p)
    ensures PartIndex(b, Place(cfg, r, s, p, b.LevelAt(s, p).value), done + {(s, p)})
    ensures KeysOf(cfg, b.LevelAt(s, p).value.orders) !! r.index.Keys
  {
    hide KeysOf;
  }

  lemma {:induction false} SameTotal(x: OBSide, y: OBSide)
    requires x.mkt == y.mkt && x.levels == y.levels
    ensures Total(x) == Total(y)
  {
  }

  function Places(s: Side, x: OBSide, ps: seq<int>): set<(Side, Price)> {
    set i | 0 <= i < |ps| && ps[i] in x.levels :: (s, Some(ps[i]))
  }

  lemma {:induction false} LevelPart(cfg: Config, b: Book, r: Book, s: Side, p: Price, done: set<(Side, Price)>)
    requires Valid(cfg, b) && Part(b, r, done) && (s, p) !in done && b.LevelAt(s, p).Some?
    ensures Part(b, ApplyAll(cfg, r, LevelMsgs(s, p, b.LevelAt(s, p).value)), done + {(s, p)})
  {
    hide Valid, Place, LevelMsgs;
    PlacePart(cfg, b, r, s, p, done);
    LevelIsOk(cfg, b, s, p);
    assert r.LevelAt(s, p) == None;
    LevelRebuild(cfg, b, r, s, p, b.LevelAt(s, p).value);
  }

  lemma {:induction false} PlacesCons(s: Side, x: OBSide, ps: seq<int>)
    requires ps != []
    ensures Places(s, x, ps) == (if ps[0] in x.levels then {(s, Some(ps[0]))} else {}) + Places(s, x, ps[1..])
  {
    forall t | t in Places(s, x, ps[1..]) ensures t in Places(s, x, ps) {
      var i :| 0 <= i < |ps[1..]| && ps[1..][i] in x.levels && t == (s, Some(ps[1..][i]));
      assert ps[i + 1] == ps[1..][i];
    }
    forall t | t in Places(s, x, ps) && t != (s, Some(ps[0])) ensures t in Places(s, x, ps[1..]) {
      var i :| 0 <= i < |ps| && ps[i] in x.levels && t == (s, Some(ps[i]));
      assert ps[i] == ps[1..][i - 1];
    }
  }

  lemma {:induction false} LadderPart(cfg: Config, b: Book, r: Book, s: Side, ps: seq<int>, done: set<(Side, Price)>)
    requires Valid(cfg, b) && Part(b, r, done)
    requires forall i | 0 <= i < |ps| :: (s, Some(ps[i])) !in done
    requires forall i, j | 0 <= i < j < |ps| :: ps[i] != ps[j]
    ensures Part(b, ApplyAll(cfg, r, LadderMsgs(s, b.Of(s), ps)), done + Places(s, b.Of(s), ps))
    decreases |ps|
  {
    hide Valid, Part, Apply;
    var x := b.Of(s);
    if ps == [] {
      assert done + Places(s, x, ps) == done;
    } else {
      PlacesCons(s, x, ps);
      var rest := LadderMsgs(s, x, ps[1..]);
      if ps[0] in x.levels {
        var ms := LevelMsgs(s, Some(ps[0]), x.levels[ps[0]]);
        var r' := ApplyAll(cfg, r, ms);
        LevelPart(cfg, b, r, s, Some(ps[0]), done);
        LadderPart(cfg, b, r', s, ps[1..], done + {(s, Some(ps[0]))});
        ApplyConcat(cfg, r, ms, rest);
        assert done + {(s, Some(ps[0]))} + Places(s, x, ps[1..]) == done + Places(s, x, ps);
      } else {
        LadderPart(cfg, b, r, s, ps[1..], done);
        assert LadderMsgs(s, x, ps) == rest by { assert [] + rest == rest; }
        assert Places(s, x, ps[1..]) == Places(s, x, ps);
        assert Part(b, ApplyAll(cfg, r, rest), done + Places(s, x, ps[1..]));
      }
    }
  }

  /** All the places of one side. */
  ghost predicate Covers(b: Book, s: Side, done: set<(Side, Price)>) {
    forall p: Price :: (s, p) in done <==> b.LevelAt(s, p).Some?
  }

  lemma {:induction false} SidePart(cfg: Config, b: Book, r: Book, s: Side, done: set<(Side, Price)>)
    returns (done': set<(Side, Price)>)
    requires Valid(cfg, b) && Part(b, r, done)
    requires forall p: Price :: (s, p) !in done
    ensures Part(b, ApplyAll(cfg, r, SideMsgs(s, b.Of(s))), done')
    ensures Covers(b, s, done') && forall s2: Side, p: Price | s2 != s :: (s2, p) in done' <==> (s2, p) in done
  {
    hide Valid, Part, Apply, LevelMsgs, LadderMsgs;
    var x := b.Of(s);
    var ps := Ladder(s, x.levels.Keys);
    var ms := if x.mkt.Some? then LevelMsgs(s, None, x.mkt.value) else [];
    var r1 := ApplyAll(cfg, r, ms);
    var done1 := if x.mkt.Some? then done + {(s, None)} else done;
    if x.mkt.Some? {
      LevelPart(cfg, b, r, s, None, done);
    }
    LadderPart(cfg, b, r1, s, ps, done1);
    ApplyConcat(cfg, r, ms, LadderMsgs(s, x, ps));
    done' := done1 + Places(s, x, ps);
    forall p: Price ensures (s, p) in done' <==> b.LevelAt(s, p).Some? {
      if p.Some? && p.value in x.levels {
        assert p.value in ps;
        var i :| 0 <= i < |ps| && ps[i] == p.value;
        assert (s, Some(ps[i])) in Places(s, x, ps);
      }
    }
  }

  lemma {:induction false} PartIsWhole(cfg: Config, b: Book, r: Book, done: set<(Side, Price)>)
    requires Valid(cfg, b) && Part(b, r, done) && Covers(b, Buy, done) && Covers(b, Sell, done)
    ensures r == b
  {
    forall s: Side ensures r.Of(s) == b.Of(s) {
      SideIsWhole(b, r, s, done);
      assert b.Of(s).qty == Total(b.Of(s)) && r.Of(s).qty == Total(r.Of(s));
      SameTotal(b.Of(s), r.Of(s));
    }
    assert r.bids == r.Of(Buy) == b.Of(Buy) && r.asks == r.Of(Sell) == b.Of(Sell);
    forall k ensures k in r.index <==> k in b.index {
      if k in b.index {
        var i := FindFacts(cfg, b, k);
        var o := Find(cfg, b, k).value;
        assert (o.side, o.price) in done;
      }
    }
    assert r.index == b.index;
  }

  lemma {:induction false} SideIsWhole(b: Book, r: Book, s: Side, done: set<(Side, Price)>)
    requires Part(b, r, done) && Covers(b, s, done)
    ensures r.Of(s).mkt == b.Of(s).mkt && r.Of(s).levels == b.Of(s).levels
  {
    forall p: Price ensures r.LevelAt(s, p) == b.LevelAt(s, p) {
      assert (s, p) in done <==> b.LevelAt(s, p).Some?;
    }
    assert r.LevelAt(s, None) == b.LevelAt(s, None);
    forall p: int ensures p in r.Of(s).levels <==> p in b.Of(s).levels
                  ensures p in b.Of(s).levels ==> r.Of(s).levels[p] == b.Of(s).levels[p] {
      assert r.LevelAt(s, Some(p)) == b.LevelAt(s, Some(p));
    }
  }

  lemma {:induction false} EmptyPart(cfg: Config, b: Book)
    ensures Part(b, EMPTY_BOOK, {})
  {
    EmptyValid(cfg);
  }

  /** A snapshot rebuilds its book exactly, from any valid replica: every order with its ID, side, rank,
      price, quantity and flags, every level and every total, with or without uniform ranks. */
  lemma {:induction false} SnapshotRebuilds(cfg: Config, b: Book, r: Book)
    requires Valid(cfg, b) && Valid(cfg, r)
    ensures ApplyAll(cfg, r, Snapshot(b)) == b
  {
    hide Valid, Part, SideMsgs, Covers;
    var bids, asks := SideMsgs(Buy, b.bids), SideMsgs(Sell, b.asks);
    ResetValid(cfg, r);
    EmptyPart(cfg, b);
    assert ([ResetOB] + bids + asks)[1..] == bids + asks;
    assert ApplyAll(cfg, r, Snapshot(b)) == ApplyAll(cfg, EMPTY_BOOK, bids + asks);
    ApplyConcat(cfg, EMPTY_BOOK, bids, asks);
    var done1 := SidePart(cfg, b, EMPTY_BOOK, Buy, {});
    var r1 := ApplyAll(cfg, EMPTY_BOOK, bids);
    var done2 := SidePart(cfg, b, r1, Sell, done1);
    CoversStill(b, done1, done2);
    PartIsWhole(cfg, b, ApplyAll(cfg, r1, asks), done2);
  }

  lemma {:induction false} CoversStill(b: Book, done1: set<(Side, Price)>, done2: set<(Side, Price)>)
    requires Covers(b, Buy, done1) && forall s2: Side, p: Price | s2 != Sell :: (s2, p) in done2 <==> (s2, p) in done1
    ensures Covers(b, Buy, done2)
  {
    forall p: Price ensures (Buy, p) in done2 <==> b.LevelAt(Buy, p).Some? {
      assert (Buy, p) in done2 <==> (Buy, p) in done1;
    }
  }
}
