/** Fixed-point numbers as text: scanning them, printing them, and that one undoes the other. */
module Decimal {
  import opened Types
  import opened FixedPoint

  /** A number in units of 10^-ndp; no value is the null number. */
  datatype Scanned = Scanned(value: Option<int>, ndp: int)

  const MAX_DIGITS: nat := 18

  predicate IsDigit(c: char) {
    '0' <= c <= '9'
  }

  function DigitValue(c: char): int
    requires IsDigit(c)
  {
    c as int - '0' as int
  }

  predicate AllDigits(s: string) {
    forall i | 0 <= i < |s| :: IsDigit(s[i])
  }

  /** The number a string of digits stands for. */
  function Number(s: string): (n: nat)
    requires AllDigits(s)
  {
    if s == [] then 0 else 10 * Number(s[..|s| - 1]) + DigitValue(s[|s| - 1])
  }

  /** How many zeros, and how many digits, a string begins with. */
  function ZeroRun(s: string): (n: nat)
    ensures n <= |s| && (forall i | 0 <= i < n :: s[i] == '0') && (n < |s| ==> s[n] != '0')
  {
    if s != [] && s[0] == '0' then 1 + ZeroRun(s[1..]) else 0
  }

  function DigitRun(s: string): (n: nat)
    ensures n <= |s| && AllDigits(s[..n]) && (n < |s| ==> !IsDigit(s[n]))
  {
    if s != [] && IsDigit(s[0]) then 1 + DigitRun(s[1..]) else 0
  }

  function Zeros(n: nat): (s: string)
    ensures |s| == n && AllDigits(s)
  {
    seq(n, i => '0')
  }

  /** A fraction cut or filled up to `ndp` digits. */
  function Fitted(f: string, ndp: nat): (r: string)
    requires AllDigits(f)
    ensures |r| == ndp && AllDigits(r)
  {
    if |f| >= ndp then f[..ndp] else f + Zeros(ndp - |f|)
  }

  function Signed(negative: bool, v: int): int {
    if negative then -v else v
  }

  // ---- what a text says

  /** The fraction at the start of `s`: digits behind a point. */
  function FractionOf(s: string): (f: string)
    ensures AllDigits(f)
  {
    if |s| > 1 && s[0] == '.' then s[1..][..DigitRun(s[1..])] else []
  }

  /** What an unsigned text without leading zeros says; without a precision given, it is found from the text. */
  function ScannedUnsigned(t: string, negative: bool, given: Option<nat>): Scanned {
    var w := DigitRun(t);
    if t == [] || t == ['.'] then Scanned(Some(0), 0)
    else if w == 0 && t[0] != '.' then Scanned(None, 0)
    else if w > MAX_DIGITS - (if given.None? then 0 else given.value) then Scanned(None, 0)
    else
      var ndp := if given.Some? then given.value else if w == 0 then |t| - 1 else MAX_DIGITS - w;
      Scanned(Some(Signed(negative, Number(t[..w]) * Pow10(ndp) + Number(Fitted(FractionOf(t[w..]), ndp)))), ndp)
  }

  function ScannedText(s: string, given: Option<nat>): Scanned {
    if s == [] || (given.Some? && given.value > MAX_DIGITS) || s == ['-'] then Scanned(None, 0) else
      var negative := s[0] == '-';
      var u := if negative then s[1..] else s;
      ScannedUnsigned(u[ZeroRun(u)..], negative, given)
  }

  // ---- scanning

  /** Reads the digits a text begins with; `n` is how many. */
  method ScanDigits(s: string) returns (v: int, n: nat)
    ensures n == DigitRun(s) && v == Number(s[..n])
  {
    v, n := 0, 0;
    while n < |s| && IsDigit(s[n])
      invariant n <= |s| && AllDigits(s[..n]) && v == Number(s[..n])
    {
      v := v * 10 + DigitValue(s[n]);
      assert s[..n + 1][..n] == s[..n];
      n := n + 1;
    }
    RunIs(s, n);
  }

  method SkipZeros(s: string) returns (t: string)
    ensures t == s[ZeroRun(s)..]
  {
    t := s;
    while t != [] && t[0] == '0'
      invariant t[ZeroRun(t)..] == s[ZeroRun(s)..]
      decreases |t|
    {
      assert t[1..][ZeroRun(t[1..])..] == t[ZeroRun(t)..];
      t := t[1..];
    }
  }

  /** Reads a fraction of at most `ndp` digits behind a point, in units of 10^-ndp. */
  method ScanFraction(s: string, ndp: nat) returns (v: int)
    requires |s| > 1 && s[0] == '.'
    ensures v == Number(Fitted(FractionOf(s), ndp))
  {
    hide Number, Fitted, DigitRun, Pow10;
    var n := |s| - 1;
    if n > ndp { n := ndp; }
    v, n := ScanDigits(s[1..][..n]);
    FractionCut(s[1..], ndp);
    FillUp(s[1..][..n], ndp);
    if v != 0 && ndp > n { v := v * Pow10(ndp - n); }
  }

  /** Scans a number with `ndp` decimals, or as many as the text leaves room for if `ndp` is negative. */
  method Scan(s: string, ndp: int) returns (r: Scanned)
    ensures r == ScannedText(s, Given(ndp))
  {
    hide ScannedUnsigned, ZeroRun;
    if s == [] || ndp > MAX_DIGITS { return Scanned(None, 0); }
    var t := s;
    var negative := t[0] == '-';
    if negative {
      t := t[1..];
      if t == [] {
        assert s == ['-'];
        return Scanned(None, 0);
      }
    }
    t := SkipZeros(t);
    r := ScanUnsigned(t, negative, ndp);
  }

  function Given(ndp: int): Option<nat> {
    if ndp < 0 then None else Some(ndp)
  }

  method ScanUnsigned(s: string, negative: bool, ndp: int) returns (r: Scanned)
    requires ndp <= MAX_DIGITS
    ensures r == ScannedUnsigned(s, negative, Given(ndp))
  {
    hide Number, Fitted, Pow10, DigitRun, FractionOf;
    if s == [] { return Scanned(Some(0), 0); }
    var t, ndp', iv, fv := s, ndp, 0, 0;
    if t[0] == '.' {
      if |t| == 1 { return Scanned(Some(0), 0); }
      if ndp' < 0 { ndp' := |t| - 1; }
      fv := ScanFraction(t, ndp');
      PointFirst(s);
    } else {
      var n;
      iv, n := ScanDigits(t);
      if n == 0 { return Scanned(None, 0); }
      if n > MAX_DIGITS - (if ndp' < 0 then 0 else ndp') { return Scanned(None, 0); }
      t := t[n..];
      if ndp' < 0 { ndp' := MAX_DIGITS - n; }
      if |t| > 1 && t[0] == '.' {
        fv := ScanFraction(t, ndp');
      } else {
        NoFraction(t, ndp');
      }
    }
    var value := iv * Pow10(ndp') + fv;
    if negative { value := -value; }
    return Scanned(Some(value), ndp');
  }

  lemma {:induction false} PointFirst(s: string)
    requires s != [] && s[0] == '.'
    ensures DigitRun(s) == 0 && Number(s[..0]) == 0 && s[0..] == s
  {
  }

  lemma {:induction false} NoFraction(t: string, ndp: nat)
    requires !(|t| > 1 && t[0] == '.')
    ensures Number(Fitted(FractionOf(t), ndp)) == 0
  {
    NumberZeros(ndp);
  }

  lemma {:induction false} RunIs(s: string, n: nat)
    requires n <= |s| && AllDigits(s[..n]) && (n < |s| ==> !IsDigit(s[n]))
    ensures DigitRun(s) == n
  {
    if n > 0 {
      assert IsDigit(s[..n][0]);
      assert s[1..][..n - 1] == s[..n][1..];
      RunIs(s[1..], n - 1);
    }
  }

  lemma {:induction false} NumberZeros(n: nat)
    ensures Number(Zeros(n)) == 0 && Fitted([], n) == Zeros(n)
  {
    if n > 0 {
      NumberZeros(n - 1);
      assert Zeros(n)[..n - 1] == Zeros(n - 1);
    }
    assert [] + Zeros(n) == Zeros(n);
  }

  lemma {:induction false} NumberSnoc(s: string, c: char)
    requires AllDigits(s) && IsDigit(c)
    ensures Number(s + [c]) == 10 * Number(s) + DigitValue(c)
  {
    assert (s + [c])[..|s|] == s;
  }

  lemma {:induction false} NumberPadded(f: string, n: nat)
    requires AllDigits(f)
    ensures Number(f + Zeros(n)) == Number(f) * Pow10(n)
  {
    hide Number;
    if n == 0 {
      assert f + Zeros(0) == f;
    } else {
      NumberPadded(f, n - 1);
      assert f + Zeros(n) == (f + Zeros(n - 1)) + ['0'];
      NumberSnoc(f + Zeros(n - 1), '0');
      Tenfold(Number(f), Pow10(n - 1));
    }
  }

  lemma {:induction false} Tenfold(a: int, b: int)
    ensures 10 * (a * b) == a * (10 * b)
  {
  }

  lemma {:induction false} FillUp(f: string, ndp: nat)
    requires AllDigits(f) && |f| <= ndp
    ensures Number(Fitted(f, ndp)) == Number(f) * Pow10(ndp - |f|)
    ensures |f| == ndp ==> Number(Fitted(f, ndp)) == Number(f)
  {
    hide Number;
    NumberPadded(f, ndp - |f|);
    assert f + Zeros(0) == f;
    assert Fitted(f, ndp) == f + Zeros(ndp - |f|);
  }

  /** Reading the fraction of a text cut short gives the fraction cut short. */
  lemma {:induction false} FractionCut(s: string, ndp: nat)
    ensures var m := if |s| > ndp then ndp else |s|; var n := DigitRun(s[..m]);
      n <= ndp && AllDigits(s[..n]) && Fitted(s[..DigitRun(s)], ndp) == Fitted(s[..n], ndp) && s[..m][..n] == s[..n]
  {
    var m := if |s| > ndp then ndp else |s|;
    var k := DigitRun(s);
    if k <= m {
      assert s[..m][..k] == s[..k];
      RunIs(s[..m], k);
    } else {
      assert AllDigits(s[..k]);
      assert s[..m][..m] == s[..m] == s[..k][..m];
      RunIs(s[..m], m);
    }
  }

  // ---- printing

  /** `v` in `n` digits. */
  function Digits(v: nat, n: nat): (s: string)
    ensures |s| == n && AllDigits(s)
  {
    if n == 0 then [] else Digits(v / 10, n - 1) + [('0' as int + v % 10) as char]
  }

  /** How many digits it takes to write `v`; at least one. */
  function Length(v: nat): (n: nat)
    ensures n > 0 && v < Pow10(n) && (v > 0 ==> Pow10(n - 1) <= v)
  {
    if v < 10 then LengthStep(v); 1 else LengthStep(v); 1 + Length(v / 10)
  }

  lemma {:induction false} LengthStep(v: nat)
    ensures Pow10(0) == 1 && Pow10(1) == 10
    ensures forall n: nat :: Pow10(n + 1) == 10 * Pow10(n)
    ensures v == v / 10 * 10 + v % 10
  {
    assert Pow10(1) == 10 * Pow10(0);
  }

  /** A string of digits without the zeros at its end, but for the first digit. */
  function Trimmed(s: string): (r: string)
  {
    if |s| > 1 && s[|s| - 1] == '0' then Trimmed(s[..|s| - 1]) else s
  }

  function Whole(v: nat, factor: nat): nat
    requires factor > 0
  {
    v / factor
  }

  function PrintedUnsigned(v: nat, ndp: nat): string {
    var iv, fv := Whole(v, Pow10(ndp)), v % Pow10(ndp);
    Digits(iv, Length(iv)) + if fv == 0 then [] else ['.'] + Trimmed(Digits(fv, ndp))
  }

  function PrintedText(value: Option<int>, ndp: nat): string {
    match value
    case None => []
    case Some(v) => if v < 0 then ['-'] + PrintedUnsigned(-v, ndp) else PrintedUnsigned(v, ndp)
  }

  /** Writes `v` in `n` digits, the last first. */
  method PrintDigits(v: nat, n: nat) returns (s: string)
    requires n > 0
    ensures s == Digits(v, n)
  {
    var v', k := v, n;
    s := [];
    while k > 0
      invariant k <= n && Digits(v', k) + s == Digits(v, n)
    {
      s := [('0' as int + v' % 10) as char] + s;
      v', k := v' / 10, k - 1;
    }
  }

  method PrintFraction(v: nat, n: nat) returns (s: string)
    requires n > 0
    ensures s == Trimmed(Digits(v, n))
  {
    s := PrintDigits(v, n);
    var k := n;
    assert s[..n] == s;
    while k > 1 && s[k - 1] == '0'
      invariant 0 < k <= n == |s| && Trimmed(s[..k]) == Trimmed(s)
    {
      assert s[..k][..k - 1] == s[..k - 1];
      k := k - 1;
    }
    s := s[..k];
  }

  /** Prints a number with `ndp` decimals; nothing for the null number. */
  method Print(value: Option<int>, ndp: nat) returns (s: string)
    ensures s == PrintedText(value, ndp)
  {
    s := [];
    if value.None? { return; }
    var iv := value.value;
    if iv < 0 { s := s + ['-']; iv := -iv; }
    var number := PrintUnsigned(iv, ndp);
    s := s + number;
  }

  method PrintUnsigned(v: nat, ndp: nat) returns (s: string)
    ensures s == PrintedUnsigned(v, ndp)
  {
    hide Digits, Trimmed, Pow10, Length;
    var factor := Pow10(ndp);
    var fv := v % factor;
    var iv := Whole(v, factor);
    s := PrintDigits(iv, Length(iv));
    if fv != 0 {
      HasDecimals(fv, ndp);
      var fraction := PrintFraction(fv, ndp);
      s := s + (['.'] + fraction);
    }
  }

  lemma {:induction false} HasDecimals(fv: nat, ndp: nat)
    requires 0 < fv < Pow10(ndp)
    ensures ndp > 0
  {
  }

  // ---- what is printed is read back

  lemma {:induction false} DigitsNumber(v: nat, n: nat)
    requires v < Pow10(n)
    ensures Number(Digits(v, n)) == v
  {
    if n > 0 {
      DigitsNumber(v / 10, n - 1);
      assert Digits(v, n)[..n - 1] == Digits(v / 10, n - 1);
    }
  }

  /** Filling up puts back the zeros that were dropped. */
  lemma {:induction false} FittedTrimmed(s: string, n: nat)
    requires AllDigits(s) && |s| <= n
    ensures AllDigits(Trimmed(s)) && |Trimmed(s)| <= |s| && Fitted(Trimmed(s), n) == Fitted(s, n)
    ensures s != [] ==> Trimmed(s) != []
  {
    if |s| > 1 && s[|s| - 1] == '0' {
      FittedTrimmed(s[..|s| - 1], n);
      assert Fitted(s[..|s| - 1], n) == Fitted(s, n);
    }
  }

  /** Leading zeros, digits and a fraction are read as what they stand for. */
  lemma {:induction false} Reads(z: nat, w: string, f: string, negative: bool, ndp: nat)
    requires AllDigits(w) && AllDigits(f) && (w == [] || w[0] != '0') && |w| + ndp <= MAX_DIGITS
    ensures var u := Zeros(z) + w + if f == [] then [] else ['.'] + f;
      ScannedUnsigned(u[ZeroRun(u)..], negative, Some(ndp)).value
        == Some(Signed(negative, Number(w) * Pow10(ndp) + Number(Fitted(f, ndp))))
  {
    hide *;
    var tail := if f == [] then [] else ['.'] + f;
    StripLeading(z, w, tail);
    ReadsStripped(w, f, tail, negative, ndp);
    assert Zeros(z) + w + tail == Zeros(z) + w + if f == [] then [] else ['.'] + f;
  }

  lemma {:induction false} StripLeading(z: nat, w: string, tail: string)
    requires w + tail == [] || (w + tail)[0] != '0'
    ensures var u := Zeros(z) + w + tail; u[ZeroRun(u)..] == w + tail
  {
    hide ZeroRun;
    var u := Zeros(z) + w + tail;
    assert u == Zeros(z) + (w + tail);
    ZeroRunIs(w + tail, z);
    assert u[z..] == w + tail;
  }

  lemma {:induction false} ReadsStripped(w: string, f: string, tail: string, negative: bool, ndp: nat)
    requires AllDigits(w) && AllDigits(f) && |w| + ndp <= MAX_DIGITS && tail == if f == [] then [] else ['.'] + f
    ensures ScannedUnsigned(w + tail, negative, Some(ndp)).value
      == Some(Signed(negative, Number(w) * Pow10(ndp) + Number(Fitted(f, ndp))))
  {
    hide ZeroRun, DigitRun, Number, Pow10, Fitted, FractionOf;
    var t := w + tail;
    assert t[..|w|] == w && t[|w|..] == tail;
    RunIs(t, |w|);
    TailReads(f, ndp);
    assert w != [] ==> t[0] == w[0] && IsDigit(w[0]);
    if t == [] { NoDigits(ndp); }
  }

  lemma {:induction false} NoDigits(ndp: nat)
    ensures Number([]) * Pow10(ndp) == 0
  {
  }

  lemma {:induction false} TailReads(f: string, ndp: nat)
    requires AllDigits(f)
    ensures var tail := if f == [] then [] else ['.'] + f;
      FractionOf(tail) == f && (f == [] ==> Number(Fitted(f, ndp)) == 0)
  {
    var tail := if f == [] then [] else ['.'] + f;
    if f == [] {
      NumberZeros(ndp);
    } else {
      assert tail[1..] == f && f[..|f|] == f;
      RunIs(f, |f|);
    }
  }

  lemma {:induction false} ZeroRunIs(t: string, z: nat)
    requires t == [] || t[0] != '0'
    ensures ZeroRun(Zeros(z) + t) == z
  {
    if z > 0 {
      assert (Zeros(z) + t)[1..] == Zeros(z - 1) + t;
      ZeroRunIs(t, z - 1);
    } else {
      assert Zeros(0) + t == t;
    }
  }

  lemma {:induction false} PowersMultiply(a: nat, b: nat)
    ensures Pow10(a + b) == Pow10(a) * Pow10(b)
  {
    if a > 0 {
      PowersMultiply(a - 1, b);
      assert Pow10(a + b) == 10 * Pow10(a - 1 + b);
      assert 10 * (Pow10(a - 1) * Pow10(b)) == Pow10(a) * Pow10(b);
    }
  }

  lemma {:induction false} LengthAtMost(v: nat, n: nat)
    requires 0 < v < Pow10(n)
    ensures Length(v) <= n
  {
    if v >= 10 { LengthAtMost(v / 10, n - 1); }
  }

  /** Fewer than 10^18 units leave room for the whole part beside the decimals. */
  lemma {:induction false} WholeFits(a: nat, ndp: nat)
    requires ndp <= MAX_DIGITS && a < Pow10(MAX_DIGITS)
    ensures a / Pow10(ndp) > 0 ==> Length(a / Pow10(ndp)) + ndp <= MAX_DIGITS
  {
    var d, b := Pow10(ndp), Pow10(MAX_DIGITS - ndp);
    PowersMultiply(MAX_DIGITS - ndp, ndp);
    var q := a / d;
    Below(a, d, b);
    if q > 0 { LengthAtMost(q, MAX_DIGITS - ndp); }
  }

  lemma {:induction false} Below(a: nat, d: nat, b: nat)
    requires d > 0 && a < b * d
    ensures a / d < b
  {
    var q := a / d;
    assert a == q * d + a % d;
    assert q * d == b * d + (q - b) * d;
    assert q >= b ==> (q - b) * d >= 0;
  }

  lemma {:induction false} FirstDigit(v: nat, n: nat)
    requires n > 0 && Pow10(n - 1) <= v < Pow10(n)
    ensures Digits(v, n)[0] != '0'
  {
    LengthStep(v);
    if n > 1 {
      FirstDigit(v / 10, n - 1);
    } else {
      assert Digits(v / 10, 0) == [];
    }
  }

  /** The fraction that is printed, filled up, is the fraction. */
  lemma {:induction false} FractionFits(fv: nat, ndp: nat)
    requires fv < Pow10(ndp)
    ensures fv == 0 ==> Number(Fitted([], ndp)) == 0
    ensures fv > 0 ==> var f := Trimmed(Digits(fv, ndp)); f != [] && AllDigits(f) && Number(Fitted(f, ndp)) == fv
  {
    if fv == 0 {
      NumberZeros(ndp);
    } else {
      DigitsNumber(fv, ndp);
      FittedTrimmed(Digits(fv, ndp), ndp);
      assert Fitted(Digits(fv, ndp), ndp) == Digits(fv, ndp);
    }
  }

  /** An unsigned number as printed reads as what it is. */
  lemma {:induction false} UnsignedRoundTrip(a: nat, negative: bool, ndp: nat)
    requires ndp <= MAX_DIGITS && a < Pow10(MAX_DIGITS)
    ensures var u := PrintedUnsigned(a, ndp);
      u != [] && IsDigit(u[0]) && ScannedUnsigned(u[ZeroRun(u)..], negative, Some(ndp)).value
        == Some(Signed(negative, a))
  {
    hide ScannedUnsigned, ZeroRun, Digits, Trimmed, Number, Fitted, Pow10, Length;
    var factor := Pow10(ndp);
    var iv, fv := a / factor, a % factor;
    assert a == iv * factor + fv;
    WholeFits(a, ndp);
    FractionFits(fv, ndp);
    var digits := Digits(iv, Length(iv));
    var f := if fv == 0 then [] else Trimmed(Digits(fv, ndp));
    var tail := if f == [] then [] else ['.'] + f;
    if iv == 0 {
      ZeroDigit();
      assert PrintedUnsigned(a, ndp) == Zeros(1) + [] + tail;
      Reads(1, [], f, negative, ndp);
    } else {
      FirstDigit(iv, Length(iv));
      DigitsNumber(iv, Length(iv));
      assert PrintedUnsigned(a, ndp) == Zeros(0) + digits + tail;
      Reads(0, digits, f, negative, ndp);
    }
  }

  lemma {:induction false} ZeroDigit()
    ensures Digits(0, Length(0)) == Zeros(1) && Number([]) == 0
  {
    assert Digits(0, 0) == [];
  }

  /** Scanning what was printed gives the number back. */
  lemma {:induction false} RoundTrip(v: int, ndp: nat)
    requires ndp <= MAX_DIGITS && -Pow10(MAX_DIGITS) < v < Pow10(MAX_DIGITS)
    ensures ScannedText(PrintedText(Some(v), ndp), Some(ndp)).value == Some(v)
  {
    hide ScannedUnsigned, ZeroRun, PrintedUnsigned, Pow10;
    var a := if v < 0 then -v else v;
    UnsignedRoundTrip(a, v < 0, ndp);
    var u, s := PrintedUnsigned(a, ndp), PrintedText(Some(v), ndp);
    assert v < 0 ==> s[1..] == u;
  }

  /** With the precision given, whatever is read is less than 10^18 units, or null. */
  lemma {:induction false} ReadInRange(s: string, ndp: nat)
    ensures var r := ScannedText(s, Some(ndp)).value; r.Some? ==> -Pow10(MAX_DIGITS) < r.value < Pow10(MAX_DIGITS)
  {
    hide Pow10, Number, Fitted, FractionOf;
    if s != [] && ndp <= MAX_DIGITS {
      PowersMultiply(0, MAX_DIGITS);
      var u := if s[0] == '-' then s[1..] else s;
      var t := u[ZeroRun(u)..];
      var w := DigitRun(t);
      if w + ndp <= MAX_DIGITS {
        var f := Fitted(FractionOf(t[w..]), ndp);
        NumberBelow(t[..w]);
        NumberBelow(f);
        Positional(Number(t[..w]), Pow10(w), Number(f), Pow10(ndp));
        PowersMultiply(w, ndp);
        PowersMultiply(w + ndp, MAX_DIGITS - w - ndp);
        Grows(Pow10(w + ndp), Pow10(MAX_DIGITS - w - ndp));
      }
    }
  }

  lemma {:induction false} NumberBelow(s: string)
    requires AllDigits(s)
    ensures Number(s) < Pow10(|s|)
  {
    if s != [] { NumberBelow(s[..|s| - 1]); }
  }

  lemma {:induction false} Positional(a: nat, n: nat, b: nat, m: nat)
    requires a < n && b < m
    ensures 0 <= a * m + b < n * m
  {
    Multiples(a + 1, n, m);
    Multiples(0, a, m);
  }

  lemma {:induction false} Grows(a: int, b: int)
    requires a >= 0 && b >= 1
    ensures a * b >= a
  {
    assert a * b == a + a * (b - 1);
    assert a * (b - 1) >= 0;
  }

  // ---- any number is read, cut to its precision

  lemma {:induction false} NumberConcat(a: string, b: string)
    requires AllDigits(a) && AllDigits(b)
    ensures Number(a + b) == Number(a) * Pow10(|b|) + Number(b)
  {
    hide Number;
    if b == [] {
      assert a + b == a;
      NoNumber();
    } else {
      var b', c := b[..|b| - 1], b[|b| - 1];
      assert a + b == (a + b') + [c] && b == b' + [c];
      NumberConcat(a, b');
      NumberSnoc(a + b', c);
      NumberSnoc(b', c);
      Tenfold(Number(a), Pow10(|b'|));
    }
  }

  lemma {:induction false} NoNumber()
    ensures Number([]) == 0 && Pow10(0) == 1
  {
  }

  /** `a` units of the n-th decimal are what `x` units of the m-th come to, cut short. */
  predicate CutTo(a: int, n: nat, x: int, m: nat) {
    a * Pow10(m) <= x * Pow10(n) < a * Pow10(m) + Pow10(m)
  }

  lemma {:induction false} FittedIs(f: string, ndp: nat)
    requires AllDigits(f)
    ensures CutTo(Number(Fitted(f, ndp)), ndp, Number(f), |f|)
  {
    hide Number, Pow10;
    if |f| <= ndp {
      FillUp(f, ndp);
      PowersMultiply(ndp - |f|, |f|);
      Product(Number(f), Pow10(ndp - |f|), Pow10(|f|));
    } else {
      var a, b := f[..ndp], f[ndp..];
      assert f == a + b && Fitted(f, ndp) == a;
      NumberConcat(a, b);
      NumberBelow(b);
      PowersMultiply(|b|, ndp);
      CutShort(Number(a), Number(b), Pow10(|b|), Pow10(ndp));
    }
  }

  lemma {:induction false} Product(x: nat, a: int, b: int)
    requires b > 0
    ensures x * a * b == x * (a * b)
  {
  }

  lemma {:induction false} CutShort(a: nat, b: nat, m: nat, n: nat)
    requires b < m && n > 0
    ensures a * (m * n) <= (a * m + b) * n < a * (m * n) + m * n
  {
    assert (a * m + b) * n == a * m * n + b * n && a * m * n == a * (m * n);
    assert m * n == b * n + (m - b) * n;
    assert (m - b) * n > 0;
  }

  /** What is read of a number, whole part and fraction together, is the number cut to its precision. */
  lemma {:induction false} WholeAndFraction(w: string, f: string, ndp: nat)
    requires AllDigits(w) && AllDigits(f)
    ensures CutTo(Number(w) * Pow10(ndp) + Number(Fitted(f, ndp)), ndp, Number(w + f), |f|)
  {
    hide Number, Pow10, Fitted;
    FittedIs(f, ndp);
    NumberConcat(w, f);
    Shifted(Number(w), Number(Fitted(f, ndp)), Number(f), Pow10(ndp), Pow10(|f|));
  }

  lemma {:induction false} Shifted(w: nat, a: nat, x: nat, n: nat, m: nat)
    requires a * m <= x * n < a * m + m
    ensures (w * n + a) * m <= (w * m + x) * n < (w * n + a) * m + m
  {
    assert (w * n + a) * m == w * n * m + a * m && (w * m + x) * n == w * m * n + x * n && w * n * m == w * m * n;
  }

  /** A number as people write it: a sign if need be, leading zeros, a whole part, a point and decimals. */
  function Written(negative: bool, z: nat, w: string, f: string): string {
    (if negative then ['-'] else []) + (Zeros(z) + w + if f == [] then [] else ['.'] + f)
  }

  /** Whatever its digits, a number that leaves room for the decimals wanted is read cut to those, toward zero, and any
      other is null. */
  lemma {:induction false} ReadsAnyNumber(negative: bool, z: nat, w: string, f: string, ndp: nat)
    requires AllDigits(w) && AllDigits(f) && (w == [] || w[0] != '0') && z + |w| + |f| > 0 && ndp <= MAX_DIGITS
    ensures var r := ScannedText(Written(negative, z, w, f), Some(ndp)).value;
      if |w| + ndp <= MAX_DIGITS then
        exists a: nat :: r == Some(Signed(negative, a)) && CutTo(a, ndp, Number(w + f), |f|)
      else r.None?
  {
    hide ScannedText, ScannedUnsigned, ZeroRun, Number, Pow10, Fitted, CutTo, Written, Zeros, Signed;
    SignRead(negative, z, w, f, ndp);
    if |w| + ndp <= MAX_DIGITS {
      Reads(z, w, f, negative, ndp);
      WholeAndFraction(w, f, ndp);
    } else {
      StripLeading(z, w, if f == [] then [] else ['.'] + f);
      TooLong(w, if f == [] then [] else ['.'] + f, negative, ndp);
    }
  }

  lemma {:induction false} SignRead(negative: bool, z: nat, w: string, f: string, ndp: nat)
    requires AllDigits(w) && AllDigits(f) && z + |w| + |f| > 0 && ndp <= MAX_DIGITS
    ensures var u := Zeros(z) + w + if f == [] then [] else ['.'] + f;
      ScannedText(Written(negative, z, w, f), Some(ndp)) == ScannedUnsigned(u[ZeroRun(u)..], negative, Some(ndp))
  {
    hide ScannedUnsigned, ZeroRun;
    var u := Zeros(z) + w + if f == [] then [] else ['.'] + f;
    var s := Written(negative, z, w, f);
    assert u != [] && u[0] == if z > 0 then '0' else if w != [] then w[0] else '.';
    assert w != [] ==> IsDigit(w[0]);
    assert s == if negative then ['-'] + u else u;
    assert negative ==> s[1..] == u;
  }

  lemma {:induction false} TooLong(w: string, tail: string, negative: bool, ndp: nat)
    requires AllDigits(w) && (tail == [] || tail[0] == '.') && ndp <= MAX_DIGITS < |w| + ndp
    ensures ScannedUnsigned(w + tail, negative, Some(ndp)).value.None?
  {
    var t := w + tail;
    assert t[..|w|] == w && t[|w|..] == tail && t[0] == w[0];
    RunIs(t, |w|);
  }

  /** Numbers are printed without needless digits: no leading zero but for a lone one, no zero at the end of a fraction,
      and no more decimals than the precision. */
  lemma {:induction false} PrintsNoMore(v: nat, ndp: nat)
    ensures var iv, fv := v / Pow10(ndp), v % Pow10(ndp);
      exists w, f :: AllDigits(w) && AllDigits(f) && PrintedUnsigned(v, ndp) == Written(false, 0, w, f)
        && w != [] && (w[0] == '0' ==> |w| == 1) && |f| <= ndp && (f != [] ==> f[|f| - 1] != '0')
  {
    hide Digits, Length, Pow10, Trimmed;
    var iv, fv := Whole(v, Pow10(ndp)), v % Pow10(ndp);
    var w := Digits(iv, Length(iv));
    var f := if fv == 0 then [] else Trimmed(Digits(fv, ndp));
    if iv == 0 { LengthOfZero(); } else { FirstDigit(iv, Length(iv)); }
    if fv > 0 { NoZeroLast(fv, ndp); }
    assert Zeros(0) + w == w;
    assert PrintedUnsigned(v, ndp) == Written(false, 0, w, f);
  }

  lemma {:induction false} LengthOfZero()
    ensures Length(0) == 1
  {
  }

  lemma {:induction false} NoZeroLast(fv: nat, ndp: nat)
    requires 0 < fv < Pow10(ndp)
    ensures var f := Trimmed(Digits(fv, ndp)); AllDigits(f) && 0 < |f| <= ndp && f[|f| - 1] != '0'
  {
    FractionFits(fv, ndp);
    FittedTrimmed(Digits(fv, ndp), ndp);
    TrimmedEnd(Digits(fv, ndp));
    var f := Trimmed(Digits(fv, ndp));
    if f[|f| - 1] == '0' {
      assert f == Zeros(1);
      hide Number, Fitted;
      FillUp(f, ndp);
      NumberZeros(1);
    }
  }

  lemma {:induction false} TrimmedEnd(s: string)
    requires s != []
    ensures var r := Trimmed(s); r != [] && (|r| > 1 ==> r[|r| - 1] != '0')
  {
    if |s| > 1 && s[|s| - 1] == '0' { TrimmedEnd(s[..|s| - 1]); }
  }

  /** Without a precision given, a number is read as if it had been given as many decimals as its whole part leaves room
      for or, without a whole part, as many as it has. */
  lemma {:induction false} PrecisionFound(negative: bool, z: nat, w: string, f: string)
    requires AllDigits(w) && AllDigits(f) && (w == [] || w[0] != '0') && |w| + |f| > 0
    requires |w| <= MAX_DIGITS && (w == [] ==> |f| <= MAX_DIGITS)
    ensures var s, ndp := Written(negative, z, w, f), if w == [] then |f| else MAX_DIGITS - |w|;
      ScannedText(s, None) == ScannedText(s, Some(ndp)) && ScannedText(s, None).ndp == ndp
  {
    hide ScannedText, ScannedUnsigned, Written, ZeroRun;
    var tail := if f == [] then [] else ['.'] + f;
    StripLeading(z, w, tail);
    UnsignedFound(w, f, negative);
    SignRead(negative, z, w, f, if w == [] then |f| else MAX_DIGITS - |w|);
    SignReadFree(negative, z, w, f);
  }

  lemma {:induction false} SignReadFree(negative: bool, z: nat, w: string, f: string)
    requires AllDigits(w) && AllDigits(f) && z + |w| + |f| > 0
    ensures var u := Zeros(z) + w + if f == [] then [] else ['.'] + f;
      ScannedText(Written(negative, z, w, f), None) == ScannedUnsigned(u[ZeroRun(u)..], negative, None)
  {
    hide ScannedUnsigned, ZeroRun;
    var u := Zeros(z) + w + if f == [] then [] else ['.'] + f;
    var s := Written(negative, z, w, f);
    assert u != [] && u[0] == if z > 0 then '0' else if w != [] then w[0] else '.';
    assert w != [] ==> IsDigit(w[0]);
    assert s == if negative then ['-'] + u else u;
    assert negative ==> s[1..] == u;
  }

  lemma {:induction false} UnsignedFound(w: string, f: string, negative: bool)
    requires AllDigits(w) && AllDigits(f) && |w| + |f| > 0 && |w| <= MAX_DIGITS && (w == [] ==> |f| <= MAX_DIGITS)
    ensures var t, ndp := w + (if f == [] then [] else ['.'] + f), if w == [] then |f| else MAX_DIGITS - |w|;
      ScannedUnsigned(t, negative, None) == ScannedUnsigned(t, negative, Some(ndp))
      && ScannedUnsigned(t, negative, None).ndp == ndp
  {
    hide Number, Fitted, Pow10, FractionOf, DigitRun;
    var tail := if f == [] then [] else ['.'] + f;
    var t := w + tail;
    assert t[..|w|] == w && t[|w|..] == tail;
    assert w != [] ==> t[0] == w[0] && IsDigit(w[0]);
    RunIs(t, |w|);
  }

  /** The largest numbers have eighteen digits. */
  lemma {:induction false} EighteenDigits()
    ensures MAX_DIGITS == 18 && Pow10(MAX_DIGITS) == MAX_PRODUCT == 1_000_000_000_000_000_000
  {
    PowersMultiply(9, 9);
    assert Pow10(9) == 1_000_000_000;
  }
}
