/** The notional value that a book side carries from update to update. */
module RunningValue {
  import opened Types
  import opened Books
  import opened FixedPoint

  /** A running value, and the number of updates since it was last zeroed. */
  datatype Running = Running(nv: int, updates: nat)

  function Revalued(n: Running, u: NvUpdate, s: Side, ndp: nat): Running {
    if u.side != s then n else
      match u
      case Moved(_, px, qty) => Running(n.nv + Mul(px, qty, ndp), n.updates + 1)
      case Withdrawn(_, px, qty) => Running(n.nv - Mul(px, qty, ndp), n.updates + 1)
      case Cleared(_) => Running(0, 0)
  }

  function RevaluedAll(n: Running, us: seq<NvUpdate>, s: Side, ndp: nat): Running
    decreases |us|
  {
    if us == [] then n else RevaluedAll(Revalued(n, us[0], s, ndp), us[1..], s, ndp)
  }

  lemma {:induction false} RevaluedConcat(n: Running, us: seq<NvUpdate>, vs: seq<NvUpdate>, s: Side, ndp: nat)
    ensures RevaluedAll(n, us + vs, s, ndp) == RevaluedAll(RevaluedAll(n, us, s, ndp), vs, s, ndp)
    decreases |us|
  {
    if us == [] {
      assert us + vs == vs;
    } else {
      assert (us + vs)[1..] == us[1..] + vs;
      RevaluedConcat(Revalued(n, us[0], s, ndp), us[1..], vs, s, ndp);
    }
  }
}
