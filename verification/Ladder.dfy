/** The prices of a book side in matching order. */
module Ladders {
  import opened Types

  // ---- prices in order

  /** The prices of a side, best first. */
  ghost function Ladder(s: Side, ps: set<int>): (r: seq<int>)
    ensures forall p :: p in r <==> p in ps
    ensures forall i | 0 <= i < |r| :: r[i] in ps
    ensures forall i, j | 0 <= i < j < |r| :: s.Better(r[i], r[j])
  {
    if ps == {} then [] else
      BestExists(s, ps);
      var p :| p in ps && forall q <- ps :: q == p || s.Better(p, q);
      [p] + Ladder(s, ps - {p})
  }

  lemma {:induction false} BestExists(s: Side, ps: set<int>)
    requires ps != {}
    ensures exists p :: p in ps && forall q <- ps :: q == p || s.Better(p, q)
  {
    var p := Any(ps);
    if r :| r in ps && s.Better(r, p) {
      var better := set r | r in ps && s.Better(r, p);
      assert r in better && p !in better;
      BestExists(s, better);
      var best :| best in better && forall q <- better :: q == best || s.Better(best, q);
      forall q | q in ps ensures q == best || s.Better(best, q) {
        assert q in better || q == p || s.Better(p, q);
      }
    } else {
      assert forall q <- ps :: q == p || s.Better(p, q);
    }
  }

  ghost function Any<T>(ps: set<T>): (p: T)
    requires ps != {}
    ensures p in ps
  {
    var p :| p in ps; p
  }

  // ---- walking the prices of a tree in order

  method Pick<T>(ps: set<T>) returns (p: T)
    requires ps != {}
    ensures p in ps
  {
    p :| p in ps;
  }

  method Best(s: Side, ps: set<int>) returns (p: int)
    requires ps != {}
    ensures p in ps && forall q <- ps :: q == p || s.Better(p, q)
  {
    p := Pick(ps);
    var rest := ps - {p};
    while rest != {}
      invariant rest <= ps && p in ps
      invariant forall q <- ps :: q in rest || q == p || s.Better(p, q)
      decreases |rest|
    {
      var q := Pick(rest);
      if s.Better(q, p) { p := q; }
      rest := rest - {q};
    }
  }

  lemma {:induction false} BestFirst(s: Side, ps: set<int>, p: int)
    requires p in ps && forall q <- ps :: q == p || s.Better(p, q)
    ensures Ladder(s, ps) == [p] + Ladder(s, ps - {p})
  {
    var first := Ladder(s, ps)[0];
    assert first in ps && (first == p || s.Better(first, p) || s.Better(p, first));
    assert Ladder(s, ps) == [first] + Ladder(s, ps - {first});
  }

  lemma {:induction false} LadderEmpty(s: Side)
    ensures Ladder(s, {}) == []
  {
  }

  /** The order in which the levels of a side are visited. */
  method InOrder(s: Side, ps: set<int>) returns (r: seq<int>)
    ensures r == Ladder(s, ps)
  {
    hide Ladder;
    var todo := ps;
    r := [];
    LadderEmpty(s);
    assert [] + Ladder(s, ps) == Ladder(s, ps);
    while todo != {}
      invariant Ladder(s, ps) == r + Ladder(s, todo)
      decreases |todo|
    {
      var p := Best(s, todo);
      BestFirst(s, todo, p);
      assert r + ([p] + Ladder(s, todo - {p})) == r + [p] + Ladder(s, todo - {p});
      r := r + [p];
      todo := todo - {p};
    }
  }
}
