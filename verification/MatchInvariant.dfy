/** A match keeps the invariant of a book, whatever its quantity and whenever it is aborted. */
module MatchInvariant {
  import opened Types
  import opened Levels
  import opened Ladders
  import opened Books
  import opened Invariant
  import opened Matching

  ghost predicate Positive(os: seq<Order>) {
    forall i | 0 <= i < |os| :: os[i].qty > 0
  }

  /** How many orders a match has used up. */
  function Used(os: seq<Order>, m: LevelMatch): int {
    |os| - |m.rest|
  }

  /** A match uses up a prefix of the orders, one full trade each, and leaves the next order alone or
      partly filled. */
  ghost predicate Prefix(os: seq<Order>, m: LevelMatch) {
    var n := Used(os, m);
    && 0 <= n <= |os|
    && n <= |m.fills| <= n + 1 && (|m.fills| == n + 1 ==> n < |os|)
    && (forall i | 0 <= i < n :: m.fills[i].contra == os[i] && !m.fills[i].Partial() && m.fills[i].qty == os[i].qty)
    && (if |m.fills| == n then m.rest == os[n..]
        else
          var f := m.fills[n];
          && f.contra == os[n] && f.Partial() && f.qty == f.leaves
          && m.rest == [os[n].(qty := os[n].qty - f.qty)] + os[n + 1..]
          && m.leaves == 0)
  }

  /** A full trade of the first order, ahead of a match with the rest. */
  lemma {:induction false} PrefixCons(os: seq<Order>, f: Fill, t: LevelMatch)
    requires os != [] && Prefix(os[1..], t)
    requires f.contra == os[0] && !f.Partial() && f.qty == os[0].qty
    ensures Prefix(os, t.(fills := [f] + t.fills))
  {
    var m := t.(fills := [f] + t.fills);
    var n := Used(os, m);
    forall i | 0 <= i < n
      ensures m.fills[i].contra == os[i] && !m.fills[i].Partial() && m.fills[i].qty == os[i].qty
    {
      if i > 0 { assert m.fills[i] == t.fills[i - 1] && os[i] == os[1..][i - 1]; }
    }
    if |m.fills| == n {
      assert os[1..][n - 1..] == os[n..];
    } else {
      assert m.fills[n] == t.fills[n - 1] && os[1..][n..] == os[n + 1..];
    }
  }

  lemma {:induction false} MatchOrdersPrefix(os: seq<Order>, px: int, qty: int, cum: int, fill: FillFn)
    ensures Prefix(os, MatchOrders(os, px, qty, cum, fill))
  {
    if os != [] && os[0].qty < qty && !fill(Fill(qty, cum, px, os[0].qty, os[0])) {
      MatchOrdersPrefix(os[1..], px, qty - os[0].qty, cum + os[0].qty, fill);
      PrefixCons(os, Fill(qty, cum, px, os[0].qty, os[0]),
                 MatchOrders(os[1..], px, qty - os[0].qty, cum + os[0].qty, fill));
    }
  }

  /** Nothing is lost: what is traded leaves the taker and the level alike. */
  lemma {:induction false} MatchOrdersConserves(os: seq<Order>, px: int, qty: int, cum: int, fill: FillFn)
    ensures var m := MatchOrders(os, px, qty, cum, fill);
      m.leaves + Traded(m.fills) == qty && SumQty(m.rest) + Traded(m.fills) == SumQty(os)
  {
    var m := MatchOrders(os, px, qty, cum, fill);
    if os != [] && os[0].qty < qty && !fill(Fill(qty, cum, px, os[0].qty, os[0])) {
      MatchOrdersConserves(os[1..], px, qty - os[0].qty, cum + os[0].qty, fill);
      var t := MatchOrders(os[1..], px, qty - os[0].qty, cum + os[0].qty, fill);
      assert m.fills[1..] == t.fills;
    } else if |m.fills| == 1 {
      assert m.fills[1..] == [];
      if m.fills[0].Partial() { assert m.rest[1..] == os[1..]; }
    }
  }

  /** The level a match leaves behind. */
  function After(l: Level, m: LevelMatch): Option<Level> {
    var l' := l.(qty := l.qty - Traded(m.fills), nOrders := l.nOrders - Used(l.orders, m), orders := m.rest);
    if l'.qty == 0 then None else Some(l')
  }

  lemma {:induction false} FilledKeys(cfg: Config, os: seq<Order>, m: LevelMatch, k: OrderKey)
    requires Prefix(os, m)
    ensures k in Filled(cfg, m.fills) <==> exists i :: 0 <= i < Used(os, m) && cfg.KeyOf(os[i]) == k
  {
    var n := Used(os, m);
    if k in Filled(cfg, m.fills) {
      var i :| 0 <= i < |m.fills| && !m.fills[i].Partial() && cfg.KeyOf(m.fills[i].contra) == k;
      assert i < n && cfg.KeyOf(os[i]) == k;
    }
    if i :| 0 <= i < n && cfg.KeyOf(os[i]) == k {
      assert !m.fills[i].Partial() && cfg.KeyOf(m.fills[i].contra) == k;
    }
  }

  /** Where each order of the remaining level comes from. */
  lemma {:induction false} RestSource(os: seq<Order>, m: LevelMatch, i: nat)
    requires Prefix(os, m) && Positive(os) && i < |m.rest|
    ensures var j := i + Used(os, m);
      j < |os| && m.rest[i].qty > 0 && m.rest[i] == os[j].(qty := m.rest[i].qty)
  {
    var n := Used(os, m);
    if |m.fills| == n {
      assert m.rest[i] == os[n..][i];
    } else if i > 0 {
      assert m.rest[i] == os[n + 1..][i - 1];
    }
  }

  lemma {:induction false} RestPositive(os: seq<Order>, m: LevelMatch)
    requires Prefix(os, m) && Positive(os)
    ensures SumQty(m.rest) >= |m.rest|
  {
    forall i | 0 <= i < |m.rest| ensures m.rest[i].qty > 0 {
      RestSource(os, m, i);
    }
    SumQtyPositive(m.rest);
  }

  lemma {:induction false} LevelPositive(cfg: Config, b: Book, s: Side, p: Price, l: Level)
    requires LevelOk(cfg, b, s, p, l)
    ensures Positive(l.orders)
  {
    forall i | 0 <= i < |l.orders| ensures l.orders[i].qty > 0 {
      assert OrderOk(cfg, b, s, p, l.orders[i]);
    }
  }

  /** The keys a match removes from the index belong to its level. */
  lemma {:induction false} FilledIndexed(cfg: Config, b: Book, s: Side, p: Price, l: Level, m: LevelMatch)
    requires LevelOk(cfg, b, s, p, l) && Prefix(l.orders, m)
    ensures forall k | k in Filled(cfg, m.fills) :: k in b.index && b.index[k] == At(s, p)
  {
    forall k | k in Filled(cfg, m.fills) ensures k in b.index && b.index[k] == At(s, p) {
      FilledKeys(cfg, l.orders, m, k);
      var i :| 0 <= i < Used(l.orders, m) && cfg.KeyOf(l.orders[i]) == k;
      assert OrderOk(cfg, b, s, p, l.orders[i]);
    }
  }

  lemma {:induction false} MatchedShape(cfg: Config, b: Book, s: Side, px: int, m: LevelMatch)
    requires px in b.Of(s).levels
    requires After(b.Of(s).levels[px], m).None? ==> b.Of(s).levels[px].qty == Traded(m.fills)
    requires forall k | k in Filled(cfg, m.fills) :: k in b.index && b.index[k] == At(s, Some(px))
    ensures Replaced(cfg, b, Matched(cfg, b, s, px, m), s, Some(px), After(b.Of(s).levels[px], m))
  {
  }

  lemma {:induction false} AfterOrders(cfg: Config, b: Book, b': Book, s: Side, p: Price, l: Level, m: LevelMatch)
    requires LevelOk(cfg, b, s, p, l) && Prefix(l.orders, m)
    requires b'.index == b.index - Filled(cfg, m.fills)
    ensures forall i | 0 <= i < |m.rest| :: OrderOk(cfg, b', s, p, m.rest[i])
    ensures DistinctIds(m.rest) && RanksIncrease(m.rest)
  {
    var os, n := l.orders, Used(l.orders, m);
    LevelPositive(cfg, b, s, p, l);
    forall i | 0 <= i < |m.rest| ensures OrderOk(cfg, b', s, p, m.rest[i]) {
      RestSource(os, m, i);
      assert OrderOk(cfg, b, s, p, os[i + n]);
      FilledKeys(cfg, os, m, cfg.KeyOf(m.rest[i]));
      forall j | 0 <= j < n ensures os[j].id != os[i + n].id {}
    }
    forall i, j | 0 <= i < j < |m.rest| ensures m.rest[i].rank < m.rest[j].rank && m.rest[i].id != m.rest[j].id {
      RestSource(os, m, i);
      RestSource(os, m, j);
      assert os[i + n].rank < os[j + n].rank && os[i + n].id != os[j + n].id;
    }
  }

  lemma {:induction false} AfterOk(cfg: Config, b: Book, b': Book, s: Side, p: Price, l: Level, m: LevelMatch)
    requires LevelOk(cfg, b, s, p, l) && Prefix(l.orders, m)
    requires SumQty(m.rest) + Traded(m.fills) == SumQty(l.orders)
    requires b'.index == b.index - Filled(cfg, m.fills)
    ensures var r := After(l, m);
      && (r.Some? ==> LevelOk(cfg, b', s, p, r.value))
      && (r.None? ==> l.orders != [] && m.rest == [])
  {
    if l.orders == [] {
      assert m.fills == [] && m.rest == [];
    } else {
      AfterOrders(cfg, b, b', s, p, l, m);
      LevelPositive(cfg, b, s, p, l);
      RestPositive(l.orders, m);
    }
  }

  /** An order of the level that is still indexed after a match is still in it. */
  lemma {:induction false} StillHeld(cfg: Config, os: seq<Order>, m: LevelMatch, i: nat)
    requires Prefix(os, m) && Positive(os) && i < |os| && cfg.KeyOf(os[i]) !in Filled(cfg, m.fills)
    ensures Holds(cfg, m.rest, cfg.KeyOf(os[i]))
  {
    FilledKeys(cfg, os, m, cfg.KeyOf(os[i]));
    var j := i - Used(os, m);
    RestSource(os, m, j);
    assert cfg.KeyOf(m.rest[j]) == cfg.KeyOf(os[i]);
  }

  lemma {:induction false} MatchedValid(cfg: Config, b: Book, s: Side, px: int, m: LevelMatch)
    requires Valid(cfg, b) && px in b.Of(s).levels
    requires var os := b.Of(s).levels[px].orders;
      Prefix(os, m) && SumQty(m.rest) + Traded(m.fills) == SumQty(os)
    ensures Valid(cfg, Matched(cfg, b, s, px, m))
  {
    hide Valid, LevelOk, Prefix, Filled, Traded, Replaced;
    var p := Some(px);
    LevelIsOk(cfg, b, s, p);
    var l := b.LevelAt(s, p).value;
    var b' := Matched(cfg, b, s, px, m);
    var r := After(l, m);
    FilledIndexed(cfg, b, s, p, l, m);
    AfterOk(cfg, b, b', s, p, l, m);
    MatchedShape(cfg, b, s, px, m);
    LevelPositive(cfg, b, s, p, l);
    LeftIndexed(cfg, b, s, px, m);
    ReplacedValid(cfg, b, b', s, p, r);
  }

  /** What is still indexed in the level after a match is still in it. */
  lemma {:induction false} LeftIndexed(cfg: Config, b: Book, s: Side, px: int, m: LevelMatch)
    requires Valid(cfg, b) && px in b.Of(s).levels
    requires var os := b.Of(s).levels[px].orders; Prefix(os, m) && Positive(os)
    requires After(b.Of(s).levels[px], m).None? ==> m.rest == []
    ensures var b', r := Matched(cfg, b, s, px, m), After(b.Of(s).levels[px], m);
      forall k | k in b'.index && b'.index[k] == At(s, Some(px)) :: r.Some? && Holds(cfg, r.value.orders, k)
  {
    hide Valid, Prefix, Positive, Filled, Traded, Holds;
    var l := b.Of(s).levels[px];
    var b', r := Matched(cfg, b, s, px, m), After(l, m);
    forall k | k in b'.index && b'.index[k] == At(s, Some(px)) ensures r.Some? && Holds(cfg, r.value.orders, k) {
      var i := FindFacts(cfg, b, k);
      StillHeld(cfg, l.orders, m, i);
      HoldsSome(cfg, m.rest, k);
    }
  }

  lemma {:induction false} HoldsSome(cfg: Config, os: seq<Order>, k: OrderKey)
    requires Holds(cfg, os, k)
    ensures os != []
  {
  }

  lemma {:induction false} MatchLevelValid(cfg: Config, b: Book, s: Side, px: int, qty: int, cum: int, fill: FillFn)
    requires Valid(cfg, b)
    ensures Valid(cfg, MatchLevel(cfg, b, s, px, qty, cum, fill).book)
  {
    if px in b.Of(s).levels {
      var os := b.Of(s).levels[px].orders;
      MatchOrdersPrefix(os, px, qty, cum, fill);
      MatchOrdersConserves(os, px, qty, cum, fill);
      MatchedValid(cfg, b, s, px, MatchOrders(os, px, qty, cum, fill));
    }
  }

  lemma {:induction false} LadderDone(cfg: Config, b: Book, s: Side, ps: seq<int>, limit: Price, qty: int, cum: int,
                                      fill: FillFn)
    requires ps == [] || !s.Within(limit, ps[0])
    ensures MatchLadder(cfg, b, s, ps, limit, qty, cum, fill).book == b
  {
  }

  lemma {:induction false} MatchLadderValid(cfg: Config, b: Book, s: Side, ps: seq<int>, limit: Price, qty: int,
                                            cum: int, fill: FillFn)
    requires Valid(cfg, b)
    ensures Valid(cfg, MatchLadder(cfg, b, s, ps, limit, qty, cum, fill).book)
    decreases |ps|
  {
    hide Valid, MatchLevel, MatchLadder, Traded;
    if ps == [] || !s.Within(limit, ps[0]) {
      LadderDone(cfg, b, s, ps, limit, qty, cum, fill);
    } else {
      LadderUnfold(cfg, b, s, ps, limit, qty, cum, fill);
      MatchLevelValid(cfg, b, s, ps[0], qty, cum, fill);
      var m := MatchLevel(cfg, b, s, ps[0], qty, cum, fill);
      if !m.aborted && m.leaves != 0 {
        MatchLadderValid(cfg, m.book, s, ps[1..], limit, m.leaves, cum + Traded(m.fills), fill);
      }
    }
  }

  lemma {:induction false} MatchValid(cfg: Config, b: Book, taker: Side, limit: Price, qty: int, cum: int, fill: FillFn)
    requires Valid(cfg, b)
    ensures Valid(cfg, MatchFrom(cfg, b, taker, limit, qty, cum, fill).book)
  {
    var s := taker.Opposite();
    MatchLadderValid(cfg, b, s, Ladder(s, b.Of(s).levels.Keys), limit, qty, cum, fill);
  }
}
