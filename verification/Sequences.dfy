/** Elements put into sequences and taken out of them. */
module Sequences {

  ghost predicate Distinct<T>(s: seq<T>) {
    forall i, j | 0 <= i < j < |s| :: s[i] != s[j]
  }

  /** `t` holds what `s` holds, and `x`. */
  ghost predicate Added<T>(t: seq<T>, s: seq<T>, x: T) {
    x in t && (forall y <- s :: y in t) && forall i | 0 <= i < |t| :: t[i] in s || t[i] == x
  }

  /** `t` holds what `s` holds, without `x`. */
  ghost predicate Removed<T>(t: seq<T>, s: seq<T>, x: T) {
    x in s && x !in t && (forall y <- s :: y == x || y in t) && forall i | 0 <= i < |t| :: t[i] in s && t[i] != x
  }

  lemma {:induction false} DistinctAt<T>(s: seq<T>, i: nat)
    requires Distinct(s) && i < |s|
    ensures forall j | 0 <= j < |s| && j != i :: s[j] != s[i]
  {
  }

  /** `s` with `x` put in at `k`. */
  function With<T>(s: seq<T>, k: nat, x: T): (t: seq<T>)
    requires k <= |s|
  {
    seq(|s| + 1, i requires 0 <= i <= |s| => if i < k then s[i] else if i == k then x else s[i - 1])
  }

  /** `s` without its k-th element. */
  function Without<T>(s: seq<T>, k: nat): (t: seq<T>)
    requires k < |s|
  {
    seq(|s| - 1, i requires 0 <= i < |s| - 1 => s[if i < k then i else i + 1])
  }

  lemma {:induction false} WithIs<T>(s: seq<T>, k: nat, x: T)
    requires k <= |s|
    ensures With(s, k, x) == s[..k] + [x] + s[k..]
  {
  }

  lemma {:induction false} WithoutIs<T>(s: seq<T>, k: nat)
    requires k < |s|
    ensures Without(s, k) == s[..k] + s[k + 1..]
  {
  }

  lemma {:induction false} DistinctInsert<T>(s: seq<T>, k: nat, x: T)
    requires Distinct(s) && x !in s && k <= |s|
    ensures Distinct(With(s, k, x)) && Added(With(s, k, x), s, x)
  {
    var t := With(s, k, x);
    forall y | y in s ensures y in t {
      var i :| 0 <= i < |s| && s[i] == y;
      assert t[if i < k then i else i + 1] == y;
    }
    assert t[k] == x;
  }

  lemma {:induction false} DistinctRemove<T>(s: seq<T>, k: nat)
    requires Distinct(s) && k < |s|
    ensures Distinct(Without(s, k)) && Removed(Without(s, k), s, s[k])
  {
    var t := Without(s, k);
    forall y | y in s && y != s[k] ensures y in t {
      var i :| 0 <= i < |s| && s[i] == y;
      assert t[if i < k then i else i - 1] == y;
    }
  }
}
