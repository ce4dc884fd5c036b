/** One side of an order book as an object: its price levels and its total. */
module OBSides {
  import opened Types
  import opened Sequences
  import opened Books
  import opened PxLevels
  import opened Matching
  import opened FixedPoint
  import L = Levels
  import Ladders
  import Operations
  import Priority

  // ---- the value of a side

  function SideOf(qty: int, m: map<Price, L.Level>): OBSide {
    OBSide(qty, if None in m then Some(m[None]) else None, map p | p in m && p.Some? :: p.value := m[p])
  }

  lemma {:induction false} SideLevels(q: int, m: map<Price, L.Level>)
    ensures forall p: int :: p in SideOf(q, m).levels <==> Some(p) in m
    ensures forall p: int | Some(p) in m :: SideOf(q, m).levels[p] == m[Some(p)]
    ensures forall p: Price :: SideOf(q, m).LevelAt(p) == if p in m then Some(m[p]) else None
    ensures SideOf(q, m).qty == q
  {
  }

  class BookSide {
    const side: Side
    /** The decimals of quantities. */
    const ndp: nat
    var qty: int
    var nv: int
    /** The levels by price; the market level is at the null price. */
    var levels: map<Price, PxLevel>
    /** What the levels say. */
    ghost var model: map<Price, L.Level>
    /** The orders that rest here or have done so. */
    ghost var known: set<Resting>
    /** The orders that rest here. */
    ghost var resting: set<Resting>

    constructor (side: Side, ndp: nat)
      ensures this.side == side && this.ndp == ndp && Valid() && Placed()
      ensures qty == 0 && nv == 0 && levels == map[] && model == map[] && known == {} && resting == {}
    {
      this.side, this.ndp, qty, nv := side, ndp, 0, 0;
      levels, model := map[], map[];
      known, resting := {}, {};
    }

    /** Every level is sound, of this side, at its place and as the model has it. */
    ghost predicate Valid()
      reads this`levels, this`model, this`known, levels.Values, known
    {
      && model.Keys == levels.Keys
      && (forall p <- levels.Keys ::
            Says(levels[p], side, p, model[p]) && Within(levels[p], known) && levels[p].Valid())
      && (forall o <- known :: o.data.side == side)
    }

    /** The order is in the level at its price. */
    ghost predicate InPlace(o: Resting)
      reads this`levels, o`data, levels.Values`orders
    {
      o.data.price in levels && o in levels[o.data.price].orders
    }

    ghost predicate Placed()
      reads this`levels, this`resting, levels.Values`orders, resting`data
    {
      forall o <- resting :: InPlace(o)
    }

    /** A level where it belongs. */
    ghost predicate Has(l: PxLevel)
      reads this`levels
    {
      l.price in levels && l == levels[l.price]
    }

    /** Different levels are different objects and share no orders. */
    lemma {:induction false} Apart(l: PxLevel)
      requires Valid() && Has(l)
      ensures forall q | q in levels && q != l.price :: levels[q] != l && Disjoint(l.orders, levels[q].orders)
    {
      forall q, i, j | q in levels && q != l.price && 0 <= i < |l.orders| && 0 <= j < |levels[q].orders|
        ensures l.orders[i] != levels[q].orders[j]
      {
        assert l.Holds(l.orders[i]) && levels[q].Holds(levels[q].orders[j]);
      }
    }

    /** The orders of other levels are none of this one's. */
    lemma {:induction false} Strangers(l: PxLevel)
      requires Valid() && Has(l)
      ensures forall q, j | q in levels && q != l.price && 0 <= j < |levels[q].orders| ::
        levels[q].orders[j] !in l.orders
    {
      Apart(l);
    }

    /** An order is in no level but the one that holds it. */
    lemma {:induction false} Elsewhere(l: PxLevel, o: Resting)
      requires Valid() && (l.Holds(o) || (l.Valid() && o in l.orders))
      ensures l.Holds(o) && o.pxLevel == l && o.data.side == l.side && o.data.price == l.price
      ensures forall q, j | q in levels && levels[q] != l && 0 <= j < |levels[q].orders| :: levels[q].orders[j] != o
    {
      forall q, j | q in levels && levels[q] != l && 0 <= j < |levels[q].orders| ensures levels[q].orders[j] != o {
        assert levels[q].Holds(levels[q].orders[j]);
      }
    }

    lemma {:induction false} Nowhere(o: Resting)
      requires Valid() && o.pxLevel == null
      ensures forall q, j | q in levels && 0 <= j < |levels[q].orders| :: levels[q].orders[j] != o
    {
      forall q, j | q in levels && 0 <= j < |levels[q].orders| ensures levels[q].orders[j] != o {
        assert levels[q].Holds(levels[q].orders[j]);
      }
    }

    /** All is sound but, perhaps, the level `l`. */
    ghost predicate OthersValid(l: PxLevel)
      reads this`levels, this`model, this`known, levels.Values, known
    {
      && model.Keys == levels.Keys && Has(l)
      && (forall p <- levels.Keys | p != l.price ::
            Says(levels[p], side, p, model[p]) && Within(levels[p], known) && levels[p].Valid())
      && (forall o <- known :: o.data.side == side)
    }

    /** All is sound, but the model need not be up to date with the level `l`. */
    ghost predicate ValidBut(l: PxLevel)
      reads this`levels, this`model, this`known, levels.Values, known
    {
      OthersValid(l) && l.side == side && Within(l, known) && l.Valid()
    }

    /** Drops a level, sound or not. */
    method Forget(l: PxLevel)
      requires OthersValid(l)
      modifies this`levels, this`model
      ensures Valid() && levels == old(levels) - {l.price} && model == old(model) - {l.price}
    {
      hide PxLevel.Valid, PxLevel.Value, Says, Within;
      levels := levels - {l.price};
      model := model - {l.price};
    }

    /** Brings the model up to date with a level. */
    ghost method Restate(l: PxLevel)
      requires ValidBut(l)
      modifies this`model
      ensures Valid() && model == old(model)[l.price := l.Value()]
    {
      hide PxLevel.Valid, PxLevel.Value, Says, Within;
      SaysIs(l, side, l.price, l.Value());
      model := model[l.price := l.Value()];
    }

    /** Counts orders in, or out. */
    method Count(l: PxLevel, q: int, n: int)
      requires Valid() && Has(l)
      modifies l`qty, l`nOrders, l`flags, this`model
      ensures Valid() && model == old(model)[l.price := L.UpdateDelta(old(model)[l.price], q, n, {})]
    {
      hide *;
      ByDelta(l, q, n, {});
    }

    lemma {:induction false} Differ(l: PxLevel)
      requires Valid() && Has(l)
      ensures forall q | q in levels && q != l.price :: levels[q] != l
    {
    }

    method NewLevel(l: PxLevel)
      requires Valid() && l.price !in levels && l.side == side && l.Valid() && l.orders == []
      modifies this`levels, this`model
      ensures Valid() && levels == old(levels)[l.price := l] && model == old(model)[l.price := l.Value()]
      ensures old(Placed()) ==> Placed()
    {
      hide PxLevel.Valid, PxLevel.Value, Says, Within;
      SaysIs(l, side, l.price, l.Value());
      WithinIs(l, known);
      levels := levels[l.price := l];
      model := model[l.price := l.Value()];
    }

    /** Puts a known order that points at a level into it. */
    method Join(l: PxLevel, uniform: bool, o: Resting, rank: Option<nat>)
      requires Valid() && Has(l) && l.Holds(o) && o !in l.orders && o in known && L.RanksIncrease(l.queue)
      modifies l`orders, l`queue, o`data, l.orders`data, this`model
      ensures Valid() && Added(l.orders, old(l.orders), o)
      ensures model == old(model)[l.price := L.AddToLevel(uniform, old(model)[l.price], old(o.data), rank)]
      ensures o.data == old(o.data).(rank := o.data.rank)
      ensures forall x <- old(l.orders) :: x.data == old(x.data).(rank := x.data.rank)
    {
      hide L.RanksIncrease, L.AddToLevel, PxLevel.Valid, PxLevel.Value, PxLevel.Holds, Says, Within, Added, Disjoint;
      Differ(l);
      Strangers(l);
      Elsewhere(l, o);
      SaysIs(l, side, l.price, model[l.price]);
      WithinIs(l, known);
      ghost var os := l.orders;
      l.AddOrder(uniform, o, rank);
      AddedWithin(l.orders, os, o, known);
      WithinIs(l, known);
      Restate(l);
    }

    /** Makes an order known. */
    ghost method Meet(o: Resting)
      requires Valid() && o.data.side == side
      modifies this`known
      ensures Valid() && known == old(known) + {o}
    {
      known := known + {o};
    }

    /** Takes an order out of its level. */
    method Take(l: PxLevel, uniform: bool, o: Resting)
      requires Valid() && Has(l) && o in l.orders && L.RanksIncrease(l.queue)
      modifies l`orders, l`queue, l.orders`data, o`pxLevel, this`model
      ensures Valid() && o.pxLevel == null && Removed(l.orders, old(l.orders), o) && o.data == old(o.data)
      ensures model == old(model)[l.price := Less(uniform, old(model)[l.price], old(o.data.rank))]
      ensures forall x <- old(l.orders) :: x.data == old(x.data).(rank := x.data.rank)
    {
      hide Less, L.RanksIncrease, PxLevel.Valid, PxLevel.Holds, Says, Within;
      Elsewhere(l, o);
      TakeOut(l, uniform, o);
      o.pxLevel := null;
    }

    method TakeOut(l: PxLevel, uniform: bool, o: Resting)
      requires Valid() && Has(l) && o in l.orders && L.RanksIncrease(l.queue)
      modifies l`orders, l`queue, l.orders`data, this`model
      ensures Valid() && Removed(l.orders, old(l.orders), o) && o.data == old(o.data)
      ensures model == old(model)[l.price := Less(uniform, old(model)[l.price], old(o.data.rank))]
      ensures forall x <- old(l.orders) :: x.data == old(x.data).(rank := x.data.rank)
    {
      hide L.RanksIncrease, L.Delete, L.Position, PxLevel.Valid, PxLevel.Value, PxLevel.Holds, Says, Within, Disjoint;
      FirstAtRank(l, o);
      Differ(l);
      Strangers(l);
      SaysIs(l, side, l.price, model[l.price]);
      WithinIs(l, known);
      l.DelOrder(uniform, o.data.rank);
      WithinIs(l, known);
      Restate(l);
    }

    /** Drops a level with its orders. */
    method Discard(l: PxLevel, shard: VenueShard)
      requires Valid() && Has(l)
      modifies this`levels, this`model, l, l.orders`pxLevel, shard
      ensures Valid() && levels == old(levels) - {l.price} && model == old(model) - {l.price}
      ensures shard.orders == old(shard.orders) - KeysOf(shard.cfg, old(l.queue))
      ensures forall o <- old(l.orders) :: o.pxLevel == null
    {
      hide PxLevel.Valid, PxLevel.Value, Says, Within, Disjoint;
      Differ(l);
      Strangers(l);
      l.Reset(shard);
      Forget(l);
    }

    /** The level for a new order of quantity `q` at `p`, with the order counted in. */
    method LevelFor(p: Price, q: int) returns (l: PxLevel)
      requires Valid()
      modifies this`levels, this`model, levels.Values
      ensures Valid() && Has(l) && l.price == p && l.side == side
      ensures fresh(levels.Values - old(levels.Values))
      ensures old(Placed()) ==> Placed()
      ensures model == old(model)[p := Counted(old(model), p, q)]
    {
      hide PxLevel.Valid, Says, Within;
      if p in levels {
        l := levels[p];
        SaysIs(l, side, p, model[p]);
        Count(l, q, 1);
      } else {
        l := new PxLevel(side, p, q, 1, {});
        NewLevel(l);
      }
    }

    ghost predicate Ranked()
      reads this`model
    {
      forall p <- model.Keys :: L.RanksIncrease(model[p].orders)
    }

    lemma {:induction false} QueueOf(l: PxLevel)
      requires Valid() && Has(l)
      ensures l.price in model && l.Value() == model[l.price] && l.queue == model[l.price].orders
      ensures l.Valid() && l.side == side
      ensures forall i | 0 <= i < |l.orders| :: l.orders[i] in known && l.orders[i].pxLevel == l
    {
      Held(l);
    }

    lemma {:induction false} Totals(l: PxLevel)
      ensures l.Value().qty == l.qty && l.Value().nOrders == l.nOrders && l.Value().flags == l.flags
    {
    }

    lemma {:induction false} NotIn(l: PxLevel, o: Resting)
      requires Valid() && Has(l) && o.pxLevel == null
      ensures o !in l.orders
    {
      Nowhere(o);
    }

    method AddOrder(uniform: bool, o: Resting, rank: Option<nat>)
      requires Valid() && Placed() && Ranked() && o.pxLevel == null && o.data.side == side
      modifies this, levels.Values, known`data, o
      ensures Valid() && Placed() && fresh(levels.Values - old(levels.Values))
      ensures known == old(known) + {o} && resting == old(resting) + {o}
      ensures qty == old(qty) + o.data.qty && nv == old(nv) + Worth(o.data.price, o.data.qty)
      ensures var p := old(o.data.price);
        model == old(model)[p := L.AddToLevel(uniform, Counted(old(model), p, old(o.data.qty)), old(o.data), rank)]
      ensures o.pxLevel != null && o.data == old(o.data).(rank := o.data.rank)
      ensures forall x <- old(known) :: x.data == old(x.data).(rank := x.data.rank)
      ensures forall x <- old(known) :: x != o && x.pxLevel == null ==> x.data == old(x.data)
    {
      hide L.AddToLevel, Counted, Ranked, Valid, Placed, Mul;
      PlaceOrder(uniform, o, rank);
      nv := nv + Worth(o.data.price, o.data.qty);
      qty := qty + o.data.qty;
    }

    method PlaceOrder(uniform: bool, o: Resting, rank: Option<nat>)
      requires Valid() && Placed() && Ranked() && o.pxLevel == null && o.data.side == side
      modifies this`levels, this`model, this`known, this`resting, levels.Values, known`data, o
      ensures Valid() && Placed() && fresh(levels.Values - old(levels.Values))
      ensures known == old(known) + {o} && resting == old(resting) + {o}
      ensures var p := old(o.data.price);
        model == old(model)[p := L.AddToLevel(uniform, Counted(old(model), p, old(o.data.qty)), old(o.data), rank)]
      ensures o.pxLevel != null && o.data == old(o.data).(rank := o.data.rank)
      ensures forall x <- old(known) :: x.data == old(x.data).(rank := x.data.rank)
      ensures forall x <- old(known) :: x != o && x.pxLevel == null ==> x.data == old(x.data)
    {
      hide *;
      RanksAt(o.data.price, o.data.qty);
      var l := LevelFor(o.data.price, o.data.qty);
      QueueOf(l);
      InLevels(l);
      Enter(l, uniform, o, rank);
    }

    lemma {:induction false} RanksAt(p: Price, q: int)
      requires Ranked()
      ensures L.RanksIncrease(Counted(model, p, q).orders)
    {
      CountedRanks(model, p, q);
    }

    lemma {:induction false} InLevels(l: PxLevel)
      requires Has(l)
      ensures l in levels.Values
    {
    }

    /** What a quantity at a limit price adds to the notional value. */
    function Worth(p: Price, q: int): int {
      if p.Some? then Mul(p.value, q, ndp) else 0
    }

    method Exit(l: PxLevel, uniform: bool, o: Resting)
      requires Valid() && Placed() && Has(l) && o in l.orders && L.RanksIncrease(l.queue)
      modifies l`orders, l`queue, l.orders`data, o`pxLevel, this`model, this`resting
      ensures Valid() && Placed() && o.pxLevel == null && o.data == old(o.data)
      ensures model == old(model)[l.price := Less(uniform, old(model)[l.price], o.data.rank)]
      ensures resting == old(resting) - {o}
      ensures forall x <- old(l.orders) :: x.data == old(x.data).(rank := x.data.rank)
    {
      hide Less, L.RanksIncrease, PxLevel.Valid, PxLevel.Value, Says, Within;
      Take(l, uniform, o);
      resting := resting - {o};
    }

    /** Drops a level that holds no orders. */
    method DiscardEmpty(l: PxLevel, shard: VenueShard)
      requires Valid() && Placed() && Has(l) && l.orders == []
      modifies this`levels, this`model, l, shard
      ensures Valid() && Placed() && model == old(model) - {l.price}
      ensures levels == old(levels) - {l.price} && shard.orders == old(shard.orders)
    {
      hide PxLevel.Valid, PxLevel.Value, Says, Within;
      QueueOf(l);
      NoKeys(shard.cfg, l);
      Discard(l, shard);
    }

    method DelOrder(uniform: bool, o: Resting, shard: VenueShard)
      requires Valid() && Placed() && Ranked() && o in resting
      requires var l := Left(uniform, model, o.data); l.qty == 0 ==> l.orders == []
      modifies this, levels.Values, known`data, o`pxLevel, shard
      ensures Valid() && Placed() && levels.Values <= old(levels.Values) && known == old(known)
        && resting == old(resting) - {o}
      ensures qty == old(qty) - o.data.qty && nv == old(nv) - Worth(o.data.price, o.data.qty)
      ensures var l := Left(uniform, old(model), old(o.data));
        model == if l.qty == 0 then old(model) - {o.data.price} else old(model)[o.data.price := l]
      ensures shard.orders == old(shard.orders)
      ensures o.pxLevel == null && o.data == old(o.data)
      ensures forall x <- old(known) :: x.data == old(x.data).(rank := x.data.rank)
      ensures forall x <- old(known) :: x.pxLevel == null ==> x.data == old(x.data)
    {
      hide Left, Ranked, Valid, Placed, Mul;
      RemoveOrder(uniform, o, shard);
      nv := nv - Worth(o.data.price, o.data.qty);
      qty := qty - o.data.qty;
    }

    method RemoveOrder(uniform: bool, o: Resting, shard: VenueShard)
      requires Valid() && Placed() && Ranked() && o in resting
      requires var l := Left(uniform, model, o.data); l.qty == 0 ==> l.orders == []
      modifies this`levels, this`model, this`resting, levels.Values, known`data, o`pxLevel, shard
      ensures Valid() && Placed() && levels.Values <= old(levels.Values) && resting == old(resting) - {o}
      ensures var l := Left(uniform, old(model), old(o.data));
        model == if l.qty == 0 then old(model) - {o.data.price} else old(model)[o.data.price := l]
      ensures shard.orders == old(shard.orders)
      ensures o.pxLevel == null && o.data == old(o.data)
      ensures forall x <- old(known) :: x.data == old(x.data).(rank := x.data.rank)
      ensures forall x <- old(known) :: x.pxLevel == null ==> x.data == old(x.data)
    {
      hide *;
      AtHome(o);
      var l := levels[o.data.price];
      RankedAt(o.data.price);
      QueueOf(l);
      InLevels(l);
      Withdraw(l, uniform, o);
      QueueOf(l);
      Totals(l);
      if l.qty == 0 {
        Emptied(l);
        DiscardEmpty(l, shard);
      }
    }

    lemma {:induction false} RankedAt(p: Price)
      requires Valid() && Ranked() && p in levels
      ensures p in model && L.RanksIncrease(model[p].orders)
    {
    }

    /** Counts an order out of its level, and takes it out. */
    method Withdraw(l: PxLevel, uniform: bool, o: Resting)
      requires Valid() && Placed() && Has(l) && l.price == o.data.price && o in l.orders
        && L.RanksIncrease(model[l.price].orders)
      modifies l`qty, l`nOrders, l`flags, l`orders, l`queue, l.orders`data, o`pxLevel, this`model, this`resting
      ensures Valid() && Placed() && o.pxLevel == null && o.data == old(o.data)
      ensures model == old(model)[l.price := Left(uniform, old(model), old(o.data))]
      ensures resting == old(resting) - {o}
      ensures forall x <- old(l.orders) :: x.data == old(x.data).(rank := x.data.rank)
    {
      hide Less, L.UpdateDelta, L.RanksIncrease, PxLevel.Valid, PxLevel.Value, Says, Within, Placed;
      QueueOf(l);
      SameQueue(model[l.price], -o.data.qty, -1);
      Count(l, -o.data.qty, -1);
      QueueOf(l);
      Exit(l, uniform, o);
    }

    /** Sets, changes or removes the aggregate level at a price. */
    method PxLevel_(delta: bool, p: Price, q: int, n: int, flags: Flags, shard: VenueShard)
      returns (dQty: int, dOrders: int)
      requires Valid() && Placed()
      modifies this, levels.Values, known`pxLevel, shard
      ensures Valid() && Placed() && fresh(levels.Values - old(levels.Values)) && known == old(known)
      ensures PxChanged(old(model), model, delta, p, q, n, flags, dQty, dOrders)
      ensures qty == old(qty) + dQty && nv == old(nv) + if dQty != 0 then Worth(p, dQty) else 0
      ensures shard.orders == old(shard.orders) - KeysOf(shard.cfg, Gone(old(model), model, p))
      ensures StillResting(old(resting))
      ensures forall x <- old(known) :: x.pxLevel == old(x.pxLevel) || x.pxLevel == null
    {
      hide *;
      if p in levels {
        dQty, dOrders := ChangeLevel(p, delta, q, n, flags, shard);
      } else {
        AllPointed();
        RestAll();
        Absent(shard.cfg, p, delta, q, n, flags);
        if q != 0 {
          dQty, dOrders := q, n;
          var l := new PxLevel(side, p, q, n, flags);
          NewLevel(l);
        } else {
          dQty, dOrders := 0, 0;
        }
      }
      if dQty != 0 {
        qty := qty + dQty;
        nv := nv + Worth(p, dQty);
      }
    }

    lemma {:induction false} Absent(cfg: Config, p: Price, delta: bool, q: int, n: int, flags: Flags)
      requires Valid() && p !in levels
      ensures PxChanged(model, if q == 0 then model else model[p := L.Level(q, n, flags, [])], delta, p, q, n, flags,
                        if q == 0 then 0 else q, if q == 0 then 0 else n)
      ensures forall m' :: KeysOf(cfg, Gone(model, m', p)) == {}
    {
      NoneGone(cfg);
    }

    lemma {:induction false} StillRest(was: set<Resting>)
      requires resting == set o | o in was && o.pxLevel != null
      ensures StillResting(was)
    {
    }

    lemma {:induction false} RestAll()
      requires forall o <- resting :: o.pxLevel != null
      ensures StillResting(resting)
    {
    }

    method ChangeLevel(p: Price, delta: bool, q: int, n: int, flags: Flags, shard: VenueShard)
      returns (dQty: int, dOrders: int)
      requires Valid() && Placed() && p in levels
      modifies this`levels, this`model, this`resting, levels.Values, known`pxLevel, shard
      ensures Valid() && Placed() && levels.Values <= old(levels.Values)
      ensures PxChanged(old(model), model, delta, p, q, n, flags, dQty, dOrders)
      ensures shard.orders == old(shard.orders) - KeysOf(shard.cfg, Gone(old(model), model, p))
      ensures StillResting(old(resting))
      ensures forall x <- known :: x.pxLevel == old(x.pxLevel) || x.pxLevel == null
    {
      hide PxLevel.Valid, PxLevel.Value, Says, Within, Placed, Operations.Updated, KeysOf, StillResting;
      AllPointed();
      RestAll();
      NoneGone(shard.cfg);
      At(p);
      var l := levels[p];
      QueueOf(l);
      dQty, dOrders := Update(l, delta, q, n, flags);
      QueueOf(l);
      Totals(l);
      UpdateQueue(old(model)[p], delta, q, n, flags);
      if l.qty == 0 {
        DiscardAll(l, shard);
      }
    }

    /** The orders that rest are those of before that still point at a level. */
    ghost predicate StillResting(was: set<Resting>)
      reads this`resting, was`pxLevel
    {
      resting == set o | o in was && o.pxLevel != null
    }

    method Update(l: PxLevel, delta: bool, q: int, n: int, flags: Flags) returns (dQty: int, dOrders: int)
      requires Valid() && Placed() && Has(l)
      modifies l`qty, l`nOrders, l`flags, this`model
      ensures Valid() && Placed()
      ensures var was := old(model)[l.price];
        && model == old(model)[l.price := Operations.Updated(was, delta, q, n, flags)]
        && dQty == (if delta then q else q - was.qty) && dOrders == if delta then n else n - was.nOrders
    {
      hide *;
      QueueOf(l);
      Totals(l);
      UpdatedIs(model[l.price], delta, q, n, flags);
      if delta {
        dQty, dOrders := q, n;
        ByDelta(l, q, n, flags);
      } else {
        dQty, dOrders := ByAbs(l, q, n, flags);
      }
    }

    method ByDelta(l: PxLevel, q: int, n: int, flags: Flags)
      requires Valid() && Has(l)
      modifies l`qty, l`nOrders, l`flags, this`model
      ensures Valid() && model == old(model)[l.price := L.UpdateDelta(old(model)[l.price], q, n, flags)]
    {
      hide L.UpdateDelta, PxLevel.Valid, PxLevel.Value, Says, Within;
      Differ(l);
      SaysIs(l, side, l.price, model[l.price]);
      WithinIs(l, known);
      l.UpdateDelta(q, n, flags);
      Restate(l);
    }

    method ByAbs(l: PxLevel, q: int, n: int, flags: Flags) returns (dQty: int, dOrders: int)
      requires Valid() && Has(l)
      modifies l`qty, l`nOrders, l`flags, this`model
      ensures Valid() && model == old(model)[l.price := L.UpdateAbs(old(model)[l.price], q, n, flags)]
      ensures dQty == q - old(l.qty) && dOrders == n - old(l.nOrders)
    {
      hide L.UpdateAbs, PxLevel.Valid, PxLevel.Value, Says, Within;
      Differ(l);
      SaysIs(l, side, l.price, model[l.price]);
      WithinIs(l, known);
      dQty, dOrders := l.UpdateAbs(q, n, flags);
      Restate(l);
    }

    /** Drops a level with its orders. */
    method DiscardAll(l: PxLevel, shard: VenueShard)
      requires Valid() && Placed() && Has(l) && forall o <- resting :: o.pxLevel != null
      modifies this`levels, this`model, this`resting, l, l.orders`pxLevel, shard
      ensures Valid() && Placed() && model == old(model) - {l.price}
      ensures levels == old(levels) - {l.price}
      ensures shard.orders == old(shard.orders) - KeysOf(shard.cfg, old(model)[l.price].orders)
      ensures StillResting(old(resting))
      ensures forall o <- old(l.orders) :: o.pxLevel == null
    {
      hide PxLevel.Valid, PxLevel.Value, Says, Within;
      QueueOf(l);
      ghost var gone := set o | o in l.orders;
      Discard(l, shard);
      resting := resting - gone;
    }

    /** Part of the levels `m` are left, and the orders of the others neither rest nor are indexed. */
    ghost predicate Clearing(shard: VenueShard, m: map<Price, L.Level>, was: map<OrderKey, Resting>)
      reads this`levels, this`model, this`known, this`resting, levels.Values, known, resting, shard
    {
      && Valid() && Placed() && (forall p <- model :: p in m && model[p] == m[p])
      && AllDropped(shard.cfg, was, shard.orders, m, model.Keys)
      && forall o <- known :: o.pxLevel == null || o in resting
    }

    /** Drops the level at `p` with its orders. */
    method Clear(p: Price, shard: VenueShard, ghost m: map<Price, L.Level>, ghost was: map<OrderKey, Resting>)
      requires Clearing(shard, m, was) && p in levels
      modifies this`levels, this`model, this`resting, levels.Values, known`pxLevel, shard
      ensures Clearing(shard, m, was) && model == old(model) - {p} && levels == old(levels) - {p}
    {
      hide PxLevel.Valid, PxLevel.Value, Says, Placed, KeysOf, AllDropped;
      AllPointed();
      At(p);
      QueueOf(levels[p]);
      ghost var index, left := shard.orders, model.Keys;
      DiscardAll(levels[p], shard);
      DroppedToo(shard.cfg, was, index, m, left, p);
    }

    /** Drops all levels and orders: the market level first, then the others from the lowest price on. */
    method Reset(shard: VenueShard, sink: Sink)
      requires Valid() && Placed() && forall o <- known :: o.pxLevel == null || o in resting
      modifies this, levels.Values, known`pxLevel, shard, sink
      ensures Valid() && Placed() && levels == map[] && model == map[] && qty == 0 && nv == 0
      ensures known == old(known) && resting == {}
      ensures sink.msgs == old(sink.msgs)
      ensures sink.deltas == old(sink.deltas)
        + ResetDeltas(side, SideOf(old(qty), old(model)),
          Ladders.Ladder(Sell, SideOf(old(qty), old(model)).levels.Keys))
      ensures AllDropped(shard.cfg, old(shard.orders), shard.orders, old(model), {})
      ensures forall o <- known :: o.pxLevel == null
    {
      hide *;
      ghost var x, was, m := SideOf(qty, model), shard.orders, model;
      NoneDropped(shard.cfg, was, m);
      ClearingIs(shard, m, was);
      var ps := LimitPrices();
      ClearAll(ps, x, shard, sink, m, was);
      qty, nv := 0, 0;
    }

    /** The prices of the limit levels, lowest first. */
    method LimitPrices() returns (ps: seq<int>)
      requires Valid()
      ensures var x := SideOf(qty, model);
        && ps == Ladders.Ladder(Sell, x.levels.Keys) && OnlyThese(levels.Keys - {None}, ps)
        && (forall i, j | 0 <= i < j < |ps| :: ps[i] != ps[j])
        && forall i | 0 <= i < |ps| ::
             Some(ps[i]) in model && ps[i] in x.levels && x.levels[ps[i]] == model[Some(ps[i])]
    {
      hide Ladders.Ladder, SideOf, PxLevel.Valid, Says, Within;
      SideLevels(qty, model);
      var prices := set p | p in levels && p.Some? :: p.value;
      assert prices == SideOf(qty, model).levels.Keys;
      ps := Ladders.InOrder(Sell, prices);
      Limits(levels.Keys, ps);
    }

    method ClearAll(ps: seq<int>, ghost x: OBSide, shard: VenueShard, sink: Sink, ghost m: map<Price, L.Level>,
                    ghost was: map<OrderKey, Resting>)
      requires Clearing(shard, m, was) && OnlyThese(levels.Keys - {None}, ps)
      requires forall i, j | 0 <= i < j < |ps| :: ps[i] != ps[j]
      requires forall i | 0 <= i < |ps| :: Some(ps[i]) in m && ps[i] in x.levels && x.levels[ps[i]] == m[Some(ps[i])]
      modifies this`levels, this`model, this`resting, levels.Values, known`pxLevel, shard, sink
      ensures Valid() && Placed() && levels == map[] && model == map[] && resting == {}
      ensures AllDropped(shard.cfg, was, shard.orders, m, {}) && forall o <- known :: o.pxLevel == null
      ensures sink.msgs == old(sink.msgs) && sink.deltas == old(sink.deltas) + ResetDeltas(side, x, ps)
    {
      hide *;
      if None in levels { Clear(None, shard, m, was); } else { assert levels.Keys - {None} == levels.Keys; }
      ClearAlong(ps, x, shard, sink, m, was);
      AllClear(shard, m, was);
    }

    method ClearAlong(ps: seq<int>, ghost x: OBSide, shard: VenueShard, sink: Sink, ghost m: map<Price, L.Level>,
                      ghost was: map<OrderKey, Resting>)
      requires Clearing(shard, m, was)
      requires OnlyThese(levels.Keys, ps)
      requires forall i, j | 0 <= i < j < |ps| :: ps[i] != ps[j]
      requires forall i | 0 <= i < |ps| :: Some(ps[i]) in m && ps[i] in x.levels && x.levels[ps[i]] == m[Some(ps[i])]
      modifies this`levels, this`model, this`resting, levels.Values, known`pxLevel, shard, sink
      ensures Clearing(shard, m, was) && forall p: Price :: p !in levels
      ensures sink.msgs == old(sink.msgs) && sink.deltas == old(sink.deltas) + ResetDeltas(side, x, ps)
    {
      hide *;
      assert ps[0..] == ps;
      ghost var sent := [];
      var i := 0;
      while i < |ps|
        invariant i <= |ps| && Clearing(shard, m, was) && levels.Values <= old(levels.Values)
        invariant OnlyThese(levels.Keys, ps[i..])
        invariant ResetDeltas(side, x, ps) == sent + ResetDeltas(side, x, ps[i..])
        invariant sink.msgs == old(sink.msgs) && sink.deltas == old(sink.deltas) + sent
      {
        Parts(levels.Keys, ps, i);
        NextSent(side, x, ps, i, sent);
        sent := sent + [Delta(side, Some(ps[i]), -m[Some(ps[i])].qty, -m[Some(ps[i])].nOrders, {})];
        ClearLimit(ps[i], shard, sink, m, was);
        i := i + 1;
      }
      NextReset(side, x, ps, i);
      NoneLeft(levels.Keys, ps[i..]);
    }

    method ClearLimit(px: int, shard: VenueShard, sink: Sink, ghost m: map<Price, L.Level>,
                      ghost was: map<OrderKey, Resting>)
      requires Clearing(shard, m, was) && Some(px) in levels
      modifies this`levels, this`model, this`resting, levels.Values, known`pxLevel, shard, sink
      ensures Clearing(shard, m, was) && levels == old(levels) - {Some(px)} && Some(px) in m
      ensures sink.msgs == old(sink.msgs)
      ensures sink.deltas == old(sink.deltas) + [Delta(side, Some(px), -m[Some(px)].qty, -m[Some(px)].nOrders, {})]
    {
      hide *;
      StillAsWas(px, shard, m, was);
      var l := levels[Some(px)];
      sink.Pass(Delta(side, Some(px), -l.qty, -l.nOrders, {}));
      Clear(Some(px), shard, m, was);
    }

    lemma {:induction false} StillAsWas(p: int, shard: VenueShard, m: map<Price, L.Level>, was: map<OrderKey, Resting>)
      requires Clearing(shard, m, was) && Some(p) in levels
      ensures Some(p) in m && levels[Some(p)].qty == m[Some(p)].qty && levels[Some(p)].nOrders == m[Some(p)].nOrders
    {
      SaysIs(levels[Some(p)], side, Some(p), model[Some(p)]);
    }

    lemma {:induction false} AllClear(shard: VenueShard, m: map<Price, L.Level>, was: map<OrderKey, Resting>)
      requires Clearing(shard, m, was) && forall p: Price :: p !in levels
      ensures Valid() && Placed() && levels == map[] && model == map[] && resting == {}
      ensures AllDropped(shard.cfg, was, shard.orders, m, {}) && forall o <- known :: o.pxLevel == null
    {
      assert model.Keys == {};
      assert forall o <- resting :: InPlace(o);
    }

    lemma {:induction false} ClearingIs(shard: VenueShard, m: map<Price, L.Level>, was: map<OrderKey, Resting>)
      requires Valid() && Placed() && model == m && AllDropped(shard.cfg, was, shard.orders, m, model.Keys)
      requires forall o <- known :: o.pxLevel == null || o in resting
      ensures Clearing(shard, m, was) && levels.Keys == model.Keys
    {
    }

    method TradeAt(l: PxLevel, open: int, executed: int, fill: FillFn, shard: VenueShard, sink: Sink)
      returns (leaves: int, cum: int, aborted: bool)
      requires Valid() && Has(l) && l.price.Some?
      modifies l`qty, l`nOrders, l`orders, l`queue, l.orders, this`model, shard, sink
      ensures Valid()
      ensures model == old(model)[l.price := model[l.price]]
      ensures PxLevel.Matched(old(model)[l.price], model[l.price], l.price.value, open, executed, fill, leaves, cum,
        aborted)
      ensures MatchEmits(shard.cfg, side, old(model)[l.price].orders, l.price.value, open, executed, fill,
                         old(shard.orders), shard.orders, old(sink.msgs), sink.msgs)
      ensures sink.deltas == old(sink.deltas)
      ensures forall x <- old(l.orders) ::
        x.data == old(x.data).(qty := x.data.qty) && x.pxLevel == if x in l.orders then l else null
      ensures forall x <- l.orders :: x in old(l.orders)
    {
      hide PxLevel.Valid, MatchEmits, PxLevel.Value, PxLevel.Matched, PxLevel.Holds, Says, Within, MatchOrders,
        Disjoint;
      Differ(l);
      Strangers(l);
      QueueOf(l);
      leaves, cum, aborted := TradeOrders(l, open, executed, fill, shard, sink);
      WithinIs(l, known);
      Restate(l);
    }

    method TradeOrders(l: PxLevel, open: int, executed: int, fill: FillFn, shard: VenueShard, sink: Sink)
      returns (leaves: int, cum: int, aborted: bool)
      requires l.Valid() && l.side == side && l.price.Some?
      modifies l`qty, l`nOrders, l`orders, l`queue, l.orders, shard, sink
      ensures l.Valid() && sink.deltas == old(sink.deltas)
      ensures PxLevel.Matched(old(l.Value()), l.Value(), l.price.value, open, executed, fill, leaves, cum, aborted)
      ensures MatchEmits(shard.cfg, side, old(l.queue), l.price.value, open, executed, fill,
                         old(shard.orders), shard.orders, old(sink.msgs), sink.msgs)
      ensures forall x <- old(l.orders) ::
        x.data == old(x.data).(qty := x.data.qty) && x.pxLevel == if x in l.orders then l else null
      ensures forall i | 0 <= i < |l.orders| :: l.orders[i] in old(l.orders)
    {
      hide *;
      ghost var os, index, msgs, queue := l.orders, shard.orders, sink.msgs, l.queue;
      leaves, cum, aborted := l.Match(open, executed, fill, shard, sink);
      EmitsIs(shard.cfg, side, queue, l.price.value, open, executed, fill, index, msgs);
      SuffixIn(l.orders, os);
      Held(l);
    }

    /** Trades an incoming quantity against one level. */
    method MatchHere(l: PxLevel, open: int, executed: int, fill: FillFn, shard: VenueShard, sink: Sink)
      returns (leaves: int, cum: int, aborted: bool)
      requires Valid() && Placed() && Has(l) && l.price.Some?
      modifies l`qty, l`nOrders, l`orders, l`queue, l.orders, this`model, this`resting, shard, sink
      ensures Valid() && Placed() && StillResting(old(resting))
      ensures model == old(model)[l.price := model[l.price]]
      ensures PxLevel.Matched(old(model)[l.price], model[l.price], l.price.value, open, executed, fill, leaves, cum,
        aborted)
      ensures MatchEmits(shard.cfg, side, old(model)[l.price].orders, l.price.value, open, executed, fill,
                         old(shard.orders), shard.orders, old(sink.msgs), sink.msgs)
      ensures sink.deltas == old(sink.deltas)
      ensures forall x <- old(l.orders) ::
        x.data == old(x.data).(qty := x.data.qty) && (x.pxLevel == old(x.pxLevel) || x.pxLevel == null)
    {
      hide Valid, PxLevel.Valid, PxLevel.Value, PxLevel.Matched, Says, Within, MatchEmits, StillResting;
      AllPointed();
      Homes(l);
      QueueOf(l);
      Held(l);
      Differ(l);
      ghost var was, os := resting, l.orders;
      leaves, cum, aborted := TradeAt(l, open, executed, fill, shard, sink);
      resting := set o | o in was && o.pxLevel != null;
      forall x | x in resting ensures InPlace(x) {
        if x in os { assert x in l.orders; }
      }
      StillRest(was);
    }

    /** Removes a level that holds no orders. */
    method DropLevel(l: PxLevel)
      requires Valid() && Placed() && Has(l) && l.orders == []
      modifies this`levels, this`model
      ensures Valid() && Placed() && model == old(model) - {l.price} && levels == old(levels) - {l.price}
    {
      hide PxLevel.Valid, PxLevel.Value, Says, Within;
      Homes(l);
      Forget(l);
    }

    /** Accounts for a trade in the totals. */
    method CountTrade(px: int, d: int)
      modifies this`qty, this`nv
      ensures qty == old(qty) + d
      ensures nv == if d == 0 then old(nv) else if qty == 0 then 0 else old(nv) + Mul(px, d, ndp)
    {
      if d != 0 {
        qty := qty + d;
        nv := if qty != 0 then nv + Mul(px, d, ndp) else 0;
      }
    }

    /** Trades an incoming quantity against the level at `px`, which goes if it is used up. */
    method MatchLevel(px: int, open: int, executed: int, fill: FillFn, shard: VenueShard, sink: Sink)
      returns (leaves: int, cum: int, aborted: bool)
      requires Valid() && Placed() && Some(px) in model
      requires UsedUp(model[Some(px)], px, open, executed, fill)
      modifies this, levels.Values, known, shard, sink
      ensures Valid() && Placed() && StillResting(old(resting)) && known == old(known)
        && levels.Values <= old(levels.Values)
      ensures LevelMatched(old(model), model, px, open, executed, fill, leaves, cum, aborted)
      ensures TradeCounted(old(qty), old(nv), qty, nv, px, old(model)[Some(px)], open, executed, fill, ndp)
      ensures MatchEmits(shard.cfg, side, old(model)[Some(px)].orders, px, open, executed, fill,
                         old(shard.orders), shard.orders, old(sink.msgs), sink.msgs)
      ensures MatchPasses(side, px, old(model)[Some(px)], open, executed, fill, old(sink.deltas), sink.deltas)
      ensures forall x <- old(known) ::
        x.data == old(x.data).(qty := x.data.qty) && (x.pxLevel == old(x.pxLevel) || x.pxLevel == null)
    {
      hide *;
      At(Some(px));
      var l := levels[Some(px)];
      QueueOf(l);
      Totals(l);
      var oldQty, oldOrders := l.qty, l.nOrders;
      leaves, cum, aborted := MatchHere(l, open, executed, fill, shard, sink);
      QueueOf(l);
      Totals(l);
      LevelTraded(side, old(model), l.Value(), px, open, executed, fill, leaves, cum, aborted, qty, nv, ndp,
        sink.deltas);
      CountTrade(px, l.qty - oldQty);
      if l.qty != oldQty {
        sink.Pass(Delta(side, Some(px), l.qty - oldQty, l.nOrders - oldOrders, l.flags));
      }
      if l.qty == 0 {
        Emptied(l);
        DropLevel(l);
      }
    }

    /** The prices of the limit levels, best first. */
    method Prices() returns (ps: seq<int>)
      requires Valid()
      ensures ps == Ladders.Ladder(side, SideOf(qty, model).levels.Keys)
      ensures forall i | 0 <= i < |ps| :: Some(ps[i]) in model
      ensures forall i, j | 0 <= i < j < |ps| :: ps[i] != ps[j]
    {
      hide Ladders.Ladder;
      SideLevels(qty, model);
      var prices := set p | p in levels && p.Some? :: p.value;
      assert prices == SideOf(qty, model).levels.Keys;
      ps := Ladders.InOrder(side, prices);
    }

    /** The quantity available at a limit or better. */
    method MatchQty(limit: Price) returns (q: int)
      requires Valid()
      ensures q == Priority.MatchQty(side, SideOf(qty, model), limit)
    {
      hide *;
      var ps := Prices();
      ghost var x := SideOf(qty, model);
      MatchQtyIs(side, x, limit, ps);
      q := 0;
      var i := 0;
      while i < |ps| && Priority.Counts(side, limit, ps[i])
        invariant i <= |ps| && Priority.LadderQty(side, x, ps, limit) == q + Priority.LadderQty(side, x, ps[i..], limit)
      {
        At(Some(ps[i]));
        QtyAtIs(ps[i]);
        NextQty(side, x, ps, i, limit);
        q := q + levels[Some(ps[i])].qty;
        i := i + 1;
      }
      LastQty(side, x, ps, i, limit);
    }

    lemma {:induction false} QtyAtIs(p: int)
      requires Valid() && Some(p) in model
      ensures Priority.QtyAt(SideOf(qty, model), p) == levels[Some(p)].qty
    {
      SideLevels(qty, model);
      SaysIs(levels[Some(p)], side, Some(p), model[Some(p)]);
    }

    /** The effective limit for matching up to `wanted`. */
    method MatchPx(wanted: int) returns (px: Price)
      requires Valid()
      ensures px == Priority.MatchPx(side, SideOf(qty, model), wanted)
    {
      hide Ladders.Ladder, SideOf, Priority.LadderPx, Priority.QtyAt;
      var ps := Prices();
      ghost var x := SideOf(qty, model);
      NoPx(x, ps, wanted);
      px := None;
      var i, left, more := 0, wanted, true;
      while more && i < |ps|
        invariant i <= |ps|
        invariant Priority.LadderPx(x, ps, wanted)
          == if more && i < |ps| then Priority.LadderPx(x, ps[i..], left) else px
        decreases |ps| - i
      {
        QtyAtIs(ps[i]);
        NextPx(x, ps, i, left);
        var lvlQty := levels[Some(ps[i])].qty;
        if left < lvlQty { lvlQty := left; }
        px := Some(ps[i]);
        left := left - lvlQty;
        more := left != 0;
        i := i + 1;
      }
    }

    /** The orders at a level, and only those, have its price. */
    lemma {:induction false} Homes(l: PxLevel)
      requires Valid() && Placed() && Has(l)
      ensures forall o <- resting :: InPlace(o)
      ensures forall o <- resting :: o.data.price == l.price <==> o in l.orders
    {
      forall o | o in resting ensures o.data.price == l.price <==> o in l.orders {
        AtHome(o);
        if o in l.orders { QueueOf(l); Elsewhere(l, o); }
      }
    }

    lemma {:induction false} AllPointed()
      requires Valid() && Placed()
      ensures forall o <- resting :: o.pxLevel != null && o in known
    {
      forall o | o in resting ensures o.pxLevel != null && o in known {
        AtHome(o);
        Elsewhere(levels[o.data.price], o);
      }
    }

    lemma {:induction false} At(p: Price)
      requires Valid() && (p in levels || p in model)
      ensures p in levels && Has(levels[p]) && levels[p].price == p
    {
      SaysIs(levels[p], side, p, model[p]);
    }

    lemma {:induction false} AtHome(o: Resting)
      requires Valid() && Placed() && o in resting
      ensures InPlace(o) && Has(levels[o.data.price]) && levels[o.data.price].price == o.data.price && o in known
    {
      var l := levels[o.data.price];
      SaysIs(l, side, o.data.price, model[o.data.price]);
      WithinIs(l, known);
    }

    /** Enters an order in its level. */
    method Enter(l: PxLevel, uniform: bool, o: Resting, rank: Option<nat>)
      requires Valid() && Placed() && Has(l) && L.RanksIncrease(l.queue)
      requires o.pxLevel == null && o.data.side == side && o.data.price == l.price
      modifies l`orders, l`queue, o, l.orders`data, this`model, this`known, this`resting
      ensures Valid() && Placed() && known == old(known) + {o} && resting == old(resting) + {o}
      ensures model == old(model)[l.price := L.AddToLevel(uniform, old(model)[l.price], old(o.data), rank)]
      ensures o.pxLevel == l && o.data == old(o.data).(rank := o.data.rank)
      ensures forall x <- old(l.orders) :: x.data == old(x.data).(rank := x.data.rank)
    {
      hide Valid, L.AddToLevel, L.RanksIncrease, PxLevel.Valid, PxLevel.Value, Says, Within, Added;
      Homes(l);
      ghost var was, os := resting, l.orders;
      Differ(l);
      EnterAt(l, uniform, o, rank);
      AddedHas(l.orders, os, o);
      forall x | x in was + {o} ensures InPlace(x) {
        if x in os || x == o { assert x in l.orders; }
      }
      resting := resting + {o};
    }

    method EnterAt(l: PxLevel, uniform: bool, o: Resting, rank: Option<nat>)
      requires Valid() && Has(l) && L.RanksIncrease(l.queue)
      requires o.pxLevel == null && o.data.side == side && o.data.price == l.price
      modifies l`orders, l`queue, o, l.orders`data, this`model, this`known
      ensures Valid() && known == old(known) + {o} && Added(l.orders, old(l.orders), o)
      ensures model == old(model)[l.price := L.AddToLevel(uniform, old(model)[l.price], old(o.data), rank)]
      ensures o.pxLevel == l && o.data == old(o.data).(rank := o.data.rank)
      ensures forall x <- old(l.orders) :: x.data == old(x.data).(rank := x.data.rank)
    {
      hide L.AddToLevel, L.RanksIncrease, PxLevel.Valid, PxLevel.Value, Says, Within, Added;
      QueueOf(l);
      NotIn(l, o);
      Nowhere(o);
      o.pxLevel := l;
      Meet(o);
      Join(l, uniform, o, rank);
    }
  }

  lemma {:induction false} AddedHas<T>(t: seq<T>, s: seq<T>, x: T)
    requires Added(t, s, x)
    ensures x in t && forall y <- s :: y in t
  {
  }

  lemma {:induction false} MatchQtyIs(s: Side, x: OBSide, limit: Price, ps: seq<int>)
    requires ps == Ladders.Ladder(s, x.levels.Keys)
    ensures Priority.MatchQty(s, x, limit) == Priority.LadderQty(s, x, ps, limit) && ps[0..] == ps
  {
  }

  lemma {:induction false} NextQty(s: Side, x: OBSide, ps: seq<int>, i: nat, limit: Price)
    requires i < |ps| && Priority.Counts(s, limit, ps[i])
    ensures Priority.LadderQty(s, x, ps[i..], limit)
         == Priority.QtyAt(x, ps[i]) + Priority.LadderQty(s, x, ps[i + 1..], limit)
  {
    assert ps[i..][1..] == ps[i + 1..];
  }

  lemma {:induction false} LastQty(s: Side, x: OBSide, ps: seq<int>, i: nat, limit: Price)
    requires i == |ps| || (i < |ps| && !Priority.Counts(s, limit, ps[i]))
    ensures Priority.LadderQty(s, x, ps[i..], limit) == 0
  {
  }

  lemma {:induction false} NoPx(x: OBSide, ps: seq<int>, left: int)
    ensures ps[0..] == ps && Priority.LadderPx(x, [], left) == None
  {
  }

  lemma {:induction false} NextPx(x: OBSide, ps: seq<int>, i: nat, left: int)
    requires i < |ps|
    ensures var rest := left - Priority.Min(left, Priority.QtyAt(x, ps[i]));
      Priority.LadderPx(x, ps[i..], left) ==
        if rest == 0 || i + 1 == |ps| then Some(ps[i]) else Priority.LadderPx(x, ps[i + 1..], rest)
  {
    assert ps[i..][1..] == ps[i + 1..];
  }

  /** A level that a match leaves without quantity is left without orders. */
  ghost predicate UsedUp(l: L.Level, px: int, open: int, executed: int, fill: FillFn) {
    var m := MatchOrders(l.orders, px, open, executed, fill);
    l.qty == Traded(m.fills) ==> m.rest == []
  }

  /** The levels after a match at `px`, and what is left to trade. */
  ghost predicate LevelMatched(m: map<Price, L.Level>, m': map<Price, L.Level>, px: int, open: int, executed: int,
                               fill: FillFn, leaves: int, cum: int, aborted: bool)
    requires Some(px) in m
  {
    var l := m[Some(px)];
    var r := MatchOrders(l.orders, px, open, executed, fill);
    var l' := L.Level(l.qty - Traded(r.fills), l.nOrders - (|l.orders| - |r.rest|), l.flags, r.rest);
    && m' == (if l'.qty == 0 then m - {Some(px)} else m[Some(px) := l'])
    && leaves == r.leaves && cum == executed + Traded(r.fills) && aborted == r.aborted
  }

  lemma {:induction false} LevelTraded(side: Side, m: map<Price, L.Level>, l: L.Level, px: int, open: int,
                                       executed: int, fill: FillFn, leaves: int, cum: int, aborted: bool, qty: int,
                                       nv: int, ndp: nat, deltas: seq<Delta>)
    requires Some(px) in m && PxLevel.Matched(m[Some(px)], l, px, open, executed, fill, leaves, cum, aborted)
    requires UsedUp(m[Some(px)], px, open, executed, fill)
    ensures LevelMatched(m, if l.qty == 0 then m[Some(px) := l] - {Some(px)} else m[Some(px) := l], px, open,
      executed, fill, leaves, cum, aborted)
    ensures var d := l.qty - m[Some(px)].qty;
      TradeCounted(qty, nv, qty + d, if d == 0 then nv else if qty + d == 0 then 0 else nv + Mul(px, d, ndp), px,
        m[Some(px)],
                   open, executed, fill, ndp)
    ensures MatchPasses(side, px, m[Some(px)], open, executed, fill, deltas,
      if l.qty != m[Some(px)].qty
      then deltas + [Delta(side, Some(px), l.qty - m[Some(px)].qty, l.nOrders - m[Some(px)].nOrders, l.flags)]
      else deltas)
    ensures l.qty == 0 ==> l.orders == []
  {
    hide MatchOrders, Traded, Mul;
    assert m[Some(px) := l] - {Some(px)} == m - {Some(px)};
    assert deltas + [] == deltas;
  }

  /** The totals after a match at `px`. */
  ghost predicate TradeCounted(qty: int, nv: int, qty': int, nv': int, px: int, l: L.Level, open: int, executed: int,
                               fill: FillFn, ndp: nat)
  {
    var t := Traded(MatchOrders(l.orders, px, open, executed, fill).fills);
    && qty' == qty - t
    && nv' == if t == 0 then nv else if qty' == 0 then 0 else nv + Mul(px, -t, ndp)
  }

  ghost predicate MatchPasses(side: Side, px: int, l: L.Level, open: int, executed: int, fill: FillFn,
                              deltas: seq<Delta>, deltas': seq<Delta>)
  {
    deltas' == deltas + LevelDeltas(side, px, l, MatchOrders(l.orders, px, open, executed, fill))
  }

  /** What a match takes out of the index, and what it broadcasts. */
  ghost predicate MatchEmits(cfg: Config, side: Side, os: seq<Order>, px: int, open: int, executed: int, fill: FillFn,
                             index: map<OrderKey, Resting>, index': map<OrderKey, Resting>, msgs: seq<Msg>,
                             msgs': seq<Msg>)
  {
    var m := MatchOrders(os, px, open, executed, fill);
    index' == index - Filled(cfg, m.fills) && msgs' == msgs + MsgsOf(side, m.fills)
  }

  lemma {:induction false} EmitsIs(cfg: Config, side: Side, os: seq<Order>, px: int, open: int, executed: int,
                                   fill: FillFn, index: map<OrderKey, Resting>, msgs: seq<Msg>)
    ensures var m := MatchOrders(os, px, open, executed, fill);
      MatchEmits(cfg, side, os, px, open, executed, fill, index, index - Filled(cfg, m.fills), msgs,
        msgs + MsgsOf(side, m.fills))
  {
  }

  lemma {:induction false} UpdatedIs(l: L.Level, delta: bool, q: int, n: int, flags: Flags)
    ensures Operations.Updated(l, delta, q, n, flags) ==
      if delta then L.UpdateDelta(l, q, n, flags) else L.UpdateAbs(l, q, n, flags)
  {
  }

  lemma {:induction false} UpdateQueue(l: L.Level, delta: bool, q: int, n: int, flags: Flags)
    ensures Operations.Updated(l, delta, q, n, flags).orders == l.orders
  {
  }

  lemma {:induction false} NoneGone(cfg: Config)
    ensures KeysOf(cfg, []) == {}
  {
  }

  /** The levels left are those at the limit prices `ps`. */
  ghost predicate OnlyThese(left: set<Price>, ps: seq<int>) {
    forall p: Price :: p in left <==> p.Some? && p.value in ps
  }

  lemma {:induction false} Limits(left: set<Price>, ps: seq<int>)
    requires forall p: int :: p in ps <==> Some(p) in left
    ensures OnlyThese(left - {None}, ps)
  {
    forall p: Price ensures p in left - {None} <==> p.Some? && p.value in ps {
      match p
      case None =>
      case Some(px) => assert px in ps <==> Some(px) in left;
    }
  }

  lemma {:induction false} Parts(left: set<Price>, ps: seq<int>, i: nat)
    requires i < |ps| && OnlyThese(left, ps[i..]) && forall i, j | 0 <= i < j < |ps| :: ps[i] != ps[j]
    ensures Some(ps[i]) in left && OnlyThese(left - {Some(ps[i])}, ps[i + 1..])
  {
    assert ps[i..] == [ps[i]] + ps[i + 1..];
  }

  lemma {:induction false} NoneLeft(left: set<Price>, ps: seq<int>)
    requires OnlyThese(left, ps) && ps == []
    ensures forall p: Price :: p !in left
  {
  }

  lemma {:induction false} NextReset(s: Side, x: OBSide, ps: seq<int>, i: nat)
    requires i <= |ps| && forall j | 0 <= j < |ps| :: ps[j] in x.levels
    ensures ResetDeltas(s, x, ps[i..]) ==
      if i == |ps| then []
      else [Delta(s, Some(ps[i]), -x.levels[ps[i]].qty, -x.levels[ps[i]].nOrders, {})] + ResetDeltas(s, x, ps[i + 1..])
  {
    assert i < |ps| ==> ps[i..][1..] == ps[i + 1..];
  }

  lemma {:induction false} NextSent(s: Side, x: OBSide, ps: seq<int>, i: nat, sent: seq<Delta>)
    requires i < |ps| && (forall j | 0 <= j < |ps| :: ps[j] in x.levels)
      && ResetDeltas(s, x, ps) == sent + ResetDeltas(s, x, ps[i..])
    ensures var d := Delta(s, Some(ps[i]), -x.levels[ps[i]].qty, -x.levels[ps[i]].nOrders, {});
      ResetDeltas(s, x, ps) == sent + [d] + ResetDeltas(s, x, ps[i + 1..])
  {
    hide ResetDeltas;
    NextReset(s, x, ps, i);
    var d := Delta(s, Some(ps[i]), -x.levels[ps[i]].qty, -x.levels[ps[i]].nOrders, {});
    assert sent + ([d] + ResetDeltas(s, x, ps[i + 1..])) == sent + [d] + ResetDeltas(s, x, ps[i + 1..]);
  }

  /** The orders of the levels that are not left are gone from the index, where nothing else has changed. */
  ghost predicate AllDropped(cfg: Config, was: map<OrderKey, Resting>, index: map<OrderKey, Resting>,
                             m: map<Price, L.Level>, left: set<Price>) {
    && (forall k <- index :: k in was && index[k] == was[k])
    && forall p, i | p in m && p !in left && 0 <= i < |m[p].orders| :: cfg.KeyOf(m[p].orders[i]) !in index
  }

  lemma {:induction false} NoneDropped(cfg: Config, was: map<OrderKey, Resting>, m: map<Price, L.Level>)
    ensures AllDropped(cfg, was, was, m, m.Keys)
  {
  }

  lemma {:induction false} DroppedToo(cfg: Config, was: map<OrderKey, Resting>, index: map<OrderKey, Resting>,
                                      m: map<Price, L.Level>, left: set<Price>, p: Price)
    requires AllDropped(cfg, was, index, m, left) && p in m
    ensures AllDropped(cfg, was, index - KeysOf(cfg, m[p].orders), m, left - {p})
  {
  }

  /** What an aggregate update does to the levels, and what it passes on. */
  ghost predicate PxChanged(m: map<Price, L.Level>, m': map<Price, L.Level>, delta: bool, p: Price, q: int, n: int,
                            flags: Flags, d: int, dn: int)
  {
    if p !in m then
      if q == 0 then m' == m && d == 0 && dn == 0
      else m' == m[p := L.Level(q, n, flags, [])] && d == q && dn == n
    else
      var l := Operations.Updated(m[p], delta, q, n, flags);
      && m' == (if l.qty == 0 then m - {p} else m[p := l])
      && d == (if delta then q else q - m[p].qty) && dn == if delta then n else n - m[p].nOrders
  }

  /** The orders of a level that is no longer there. */
  function Gone(m: map<Price, L.Level>, m': map<Price, L.Level>, p: Price): seq<Order> {
    if p in m && p !in m' then m[p].orders else []
  }

  /** What an order leaves behind of its level. */
  function Left(uniform: bool, m: map<Price, L.Level>, o: Order): L.Level
    requires o.price in m
  {
    Less(uniform, L.UpdateDelta(m[o.price], -o.qty, -1, {}), o.rank)
  }

  lemma {:induction false} SameQueue(l: L.Level, q: int, n: int)
    ensures L.UpdateDelta(l, q, n, {}).orders == l.orders
  {
  }

  lemma {:induction false} Emptied(l: PxLevel)
    requires l.Valid() && l.queue == []
    ensures l.orders == []
  {
  }

  lemma {:induction false} NoKeys(cfg: Config, l: PxLevel)
    requires l.Valid() && l.orders == []
    ensures KeysOf(cfg, l.queue) == {}
  {
  }

  /** The level at `p` with an order of quantity `q` counted in. */
  function Counted(m: map<Price, L.Level>, p: Price, q: int): L.Level {
    if p in m then L.UpdateDelta(m[p], q, 1, {}) else L.Level(q, 1, {}, [])
  }

  lemma {:induction false} CountedRanks(m: map<Price, L.Level>, p: Price, q: int)
    requires p in m ==> L.RanksIncrease(m[p].orders)
    ensures L.RanksIncrease(Counted(m, p, q).orders)
  {
  }

  /** A level without its first order at `rank`. */
  function Less(uniform: bool, l: L.Level, rank: nat): L.Level {
    l.(orders := L.Delete(uniform, l.orders, rank))
  }

  ghost predicate Says(l: PxLevel, side: Side, p: Price, v: L.Level)
    reads l
  {
    l.side == side && l.price == p && l.Value() == v
  }

  lemma {:induction false} SaysIs(l: PxLevel, side: Side, p: Price, v: L.Level)
    ensures Says(l, side, p, v) <==> l.side == side && l.price == p && l.Value() == v
    ensures l.Value().orders == l.queue
  {
  }

  lemma {:induction false} AddedWithin(t: seq<Resting>, s: seq<Resting>, o: Resting, known: set<Resting>)
    requires Added(t, s, o) && o in known && forall i | 0 <= i < |s| :: s[i] in known
    ensures forall i | 0 <= i < |t| :: t[i] in known
  {
  }

  ghost predicate Within(l: PxLevel, known: set<Resting>)
    reads l`orders
  {
    forall i | 0 <= i < |l.orders| :: l.orders[i] in known
  }

  lemma {:induction false} WithinIs(l: PxLevel, known: set<Resting>)
    ensures Within(l, known) <==> forall i | 0 <= i < |l.orders| :: l.orders[i] in known
  {
  }

  lemma {:induction false} Held(l: PxLevel)
    requires l.Valid()
    ensures forall i | 0 <= i < |l.orders| :: l.orders[i].pxLevel == l
  {
    forall i | 0 <= i < |l.orders| ensures l.orders[i].pxLevel == l {
      assert l.Holds(l.orders[i]);
    }
  }

  lemma {:induction false} FirstAtRank(l: PxLevel, o: Resting)
    requires l.Valid() && o in l.orders && L.RanksIncrease(l.queue)
    ensures var k := L.Position(l.queue, o.data.rank);
      k < |l.queue| && l.queue[k].rank == o.data.rank && l.orders[k] == o
  {
    var i :| 0 <= i < |l.orders| && l.orders[i] == o;
    assert l.queue[i] == o.data;
    L.PositionUnique(l.queue, o.data.rank, i);
  }

  /** No element in common. */
  ghost predicate Disjoint<T>(s: seq<T>, t: seq<T>) {
    forall i, j | 0 <= i < |s| && 0 <= j < |t| :: s[i] != t[j]
  }
}
