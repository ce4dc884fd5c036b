/** Fixed-point products: a quantity in units of 10^-ndp times a price, in units of the price. */
module FixedPoint {
  function Pow10(n: nat): (r: int)
    ensures r >= 1
  {
    if n == 0 then 1 else 10 * Pow10(n - 1)
  }

  const MAX_PRODUCT := 1_000_000_000_000_000_000
  const NULL_VALUE := -0x8000_0000_0000_0000

  /** Division that truncates toward zero. */
  function Quotient(a: int, d: int): int
    requires d > 0
  {
    if a >= 0 then a / d else -((-a) / d)
  }

  /** The value of a quantity with `ndp` decimals at a price, in the price's units; null on overflow. */
  function Mul(px: int, qty: int, ndp: nat): int {
    var i := Quotient(px * qty, Pow10(ndp));
    if i >= MAX_PRODUCT then NULL_VALUE else i
  }

  lemma {:induction false} QuotientError(a: int, d: int)
    requires d > 0
    ensures -(d - 1) <= a - Quotient(a, d) * d <= d - 1
  {
    if a >= 0 {
      assert a == a / d * d + a % d;
    } else {
      assert -a == (-a) / d * d + (-a) % d;
      assert Quotient(a, d) * d == -((-a) / d * d);
    }
  }

  /** The quotient is the one number of the dividend's sign whose multiple is nearest to it without going beyond. */
  lemma {:induction false} TowardZero(a: int, d: int, q: int)
    requires d > 0
    ensures q == Quotient(a, d) <==>
      if a >= 0 then 0 <= q && q * d <= a < q * d + d else q <= 0 && q * d - d < a <= q * d
  {
    if a >= 0 {
      Floor(a, d, q);
    } else {
      Floor(-a, d, -q);
      assert (-q) * d == -(q * d);
    }
  }

  lemma {:induction false} Floor(a: nat, d: int, q: int)
    requires d > 0
    ensures a / d == q <==> 0 <= q && q * d <= a < q * d + d
  {
    var r := a / d;
    assert a == r * d + a % d;
    if r < q { Multiples(r + 1, q, d); }
    if q < r { Multiples(q + 1, r, d); }
  }

  lemma {:induction false} Multiples(a: int, b: int, d: int)
    requires a <= b && d > 0
    ensures a * d <= b * d && (a - 1) * d == a * d - d
  {
  }

  /** A product is null exactly when it has more units than there are numbers for, and then only upward; otherwise it is
      the exact product, its excess decimals cut off. */
  lemma {:induction false} ProductIs(px: int, qty: int, ndp: nat)
    ensures var a, unit, r := px * qty, Pow10(ndp), Mul(px, qty, ndp);
      if a >= MAX_PRODUCT * unit then r == NULL_VALUE
      else if a >= 0 then 0 <= r && r * unit <= a < r * unit + unit
      else r <= 0 && r * unit - unit < a <= r * unit
  {
    Cut(px * qty, Pow10(ndp), Quotient(px * qty, Pow10(ndp)), MAX_PRODUCT);
  }

  lemma {:induction false} Cut(a: int, d: int, q: int, max: int)
    requires d > 0 && q == Quotient(a, d) && max > 0
    ensures q >= max <==> a >= max * d
    ensures if a >= 0 then 0 <= q && q * d <= a < q * d + d else q <= 0 && q * d - d < a <= q * d
  {
    TowardZero(a, d, q);
    hide Quotient;
    if q >= max { Multiples(max, q, d); } else { Multiples(q + 1, max, d); }
    assert max * d > 0;
  }
}
