/**
 * Exact decimal numbers for the probes that read decimal text (nvidia-smi and
 * the OpenHardwareMonitor query): `Decimal(m, s)` stands for m / 10^s. Python
 * parses these with `float()` and rounds the chosen one with `round(x, 2)`;
 * here comparison is on the exact value and rounding is to the nearest
 * hundredth, ties to even.
 */
module Decimals {
  import opened Wrappers
  import opened Text

  datatype Decimal = Decimal(mantissa: nat, scale: nat)

  function Pow10(n: nat): (p: nat)
    ensures p >= 1
  {
    if n == 0 then 1 else 10 * Pow10(n - 1)
  }

  lemma {:induction false} Pow10Add(a: nat, b: nat)
    ensures Pow10(a + b) == Pow10(a) * Pow10(b)
  {
    if a > 0 {
      Pow10Add(a - 1, b);
    }
  }

  /** The number a decimal stands for. */
  function Value(d: Decimal): real {
    d.mantissa as real / Pow10(d.scale) as real
  }

  /** The plausibility band the two decimal probes apply: 0 < value < 150 (degrees Celsius). */
  predicate InBand(d: Decimal) {
    0.0 < Value(d) < 150.0
  }

  /** Number of characters after the first dot of `t` (0 when there is none). */
  function CharsAfterDot(t: string): (n: nat)
    ensures n <= |t|
  {
    if t == [] then 0 else if t[0] == '.' then |t| - 1 else CharsAfterDot(t[1..])
  }

  /**
   * Python's `float(t)` for a string that consists of ASCII digits and dots and
   * holds at least one digit: the decimal number when there is at most one dot,
   * and `None` (float raises ValueError) when there are two or more.
   */
  function ParseFloatLiteral(t: string): (d: Option<Decimal>)
    requires IsDigits(RemoveDots(t))
    ensures d.None? <==> DotCount(t) >= 2
  {
    if DotCount(t) >= 2 then None
    else Some(Decimal(DigitsValue(RemoveDots(t)), CharsAfterDot(t)))
  }

  lemma AllDigitsConcat(a: string, b: string)
    requires AllDigits(a) && AllDigits(b)
    ensures AllDigits(a + b)
  {
    forall i | 0 <= i < |a + b| ensures IsDigit((a + b)[i]) {
      if i >= |a| { assert (a + b)[i] == b[i - |a|]; }
    }
  }

  lemma ShiftDigit(A: int, P: int, B: int, last: int)
    ensures 10 * (A * P + B) + last == A * (10 * P) + (10 * B + last)
  {
  }

  lemma {:induction false} DigitsValueConcat(a: string, b: string)
    requires AllDigits(a) && AllDigits(b)
    ensures AllDigits(a + b)
    ensures DigitsValue(a + b) == DigitsValue(a) * Pow10(|b|) + DigitsValue(b)
  {
    AllDigitsConcat(a, b);
    if b == [] {
      assert a + b == a;
    } else {
      var b' := b[..|b| - 1];
      assert (a + b)[..|a + b| - 1] == a + b';
      DigitsValueConcat(a, b');
      var last := b[|b| - 1] as int - '0' as int;
      assert (a + b)[|a + b| - 1] == b[|b| - 1];
      assert DigitsValue(a + b) == 10 * DigitsValue(a + b') + last;
      assert DigitsValue(b) == 10 * DigitsValue(b') + last;
      assert Pow10(|b|) == 10 * Pow10(|b'|);
      ShiftDigit(DigitsValue(a), Pow10(|b'|), DigitsValue(b'), last);
    }
  }

  lemma {:induction false} RemoveDotsConcat(x: string, y: string)
    ensures RemoveDots(x + y) == RemoveDots(x) + RemoveDots(y)
    ensures DotCount(x + y) == DotCount(x) + DotCount(y)
  {
    if x == [] {
      assert x + y == y;
    } else {
      assert (x + y)[0] == x[0] && (x + y)[1..] == x[1..] + y;
      RemoveDotsConcat(x[1..], y);
      if x[0] == '.' {
        assert RemoveDots(x + y) == RemoveDots(x[1..] + y);
        assert RemoveDots(x) == RemoveDots(x[1..]);
      } else {
        assert RemoveDots(x + y) == [x[0]] + RemoveDots(x[1..] + y);
        assert RemoveDots(x) == [x[0]] + RemoveDots(x[1..]);
      }
    }
  }

  lemma {:induction false} NoDots(x: string)
    requires AllDigits(x)
    ensures RemoveDots(x) == x && DotCount(x) == 0 && CharsAfterDot(x) == 0
  {
    if x != [] {
      NoDots(x[1..]);
    }
  }

  lemma {:induction false} CharsAfterDotOf(a: string, b: string)
    requires AllDigits(a)
    ensures CharsAfterDot(a + ['.'] + b) == |b|
  {
    if a != [] {
      assert (a + ['.'] + b)[1..] == a[1..] + ['.'] + b;
      CharsAfterDotOf(a[1..], b);
    } else {
      assert (a + ['.'] + b)[0] == '.';
    }
  }

  /**
   * What `float` reads from "<whole>.<fraction>": whole + fraction / 10^|fraction|,
   * exactly. Either part may be empty, but not both.
   */
  lemma ParseFloatLiteralWithDot(whole: string, fraction: string)
    requires AllDigits(whole) && AllDigits(fraction) && |whole| + |fraction| > 0
    ensures IsDigits(RemoveDots(whole + ['.'] + fraction))
    ensures var d := ParseFloatLiteral(whole + ['.'] + fraction);
      && d.Some?
      && Value(d.value) == DigitsValue(whole) as real
                           + DigitsValue(fraction) as real / Pow10(|fraction|) as real
  {
    ParseWithDot(whole, fraction);
    ShiftValue(whole, fraction);
  }

  lemma ParseWithDot(whole: string, fraction: string)
    requires AllDigits(whole) && AllDigits(fraction) && |whole| + |fraction| > 0
    ensures IsDigits(RemoveDots(whole + ['.'] + fraction))
    ensures AllDigits(whole + fraction)
    ensures ParseFloatLiteral(whole + ['.'] + fraction) == Some(Decimal(DigitsValue(whole + fraction), |fraction|))
  {
    OneDot(whole, fraction);
    CharsAfterDotOf(whole, fraction);
    AllDigitsConcat(whole, fraction);
  }

  lemma OneDot(whole: string, fraction: string)
    requires AllDigits(whole) && AllDigits(fraction)
    ensures RemoveDots(whole + ['.'] + fraction) == whole + fraction
    ensures DotCount(whole + ['.'] + fraction) == 1
  {
    assert whole + ['.'] + fraction == whole + (['.'] + fraction);
    RemoveDotsConcat(whole, ['.'] + fraction);
    RemoveDotsConcat(['.'], fraction);
    NoDots(whole);
    NoDots(fraction);
    assert RemoveDots(['.']) == [] && DotCount(['.']) == 1;
  }

  lemma ShiftValue(whole: string, fraction: string)
    requires AllDigits(whole) && AllDigits(fraction)
    ensures AllDigits(whole + fraction)
    ensures Value(Decimal(DigitsValue(whole + fraction), |fraction|))
            == DigitsValue(whole) as real + DigitsValue(fraction) as real / Pow10(|fraction|) as real
  {
    DigitsValueConcat(whole, fraction);
    ShiftQuotient(DigitsValue(whole), DigitsValue(fraction), Pow10(|fraction|));
  }

  lemma ShiftQuotient(w: nat, f: nat, p: nat)
    requires p >= 1
    ensures (w * p + f) as real / p as real == w as real + f as real / p as real
  {
    var pr := p as real;
    var x := (w * p + f) as real / pr;
    var z := w as real + f as real / pr;
    assert (w * p + f) as real == w as real * pr + f as real;
    DivTimes((w * p + f) as real, pr);
    DivTimes(f as real, pr);
    assert z * pr == w as real * pr + (f as real / pr) * pr;
    Cancel(x, z, pr);
  }

  lemma DivTimes(a: real, b: real)
    requires b > 0.0
    ensures (a / b) * b == a
  {
  }

  lemma Cancel(x: real, z: real, b: real)
    requires b > 0.0 && x * b == z * b
    ensures x == z
  {
    assert (x - z) * b == 0.0;
  }

  /** What `float` reads from a digit string with no dot: its integer value. */
  lemma ParseFloatLiteralInteger(whole: string)
    requires IsDigits(whole)
    ensures IsDigits(RemoveDots(whole))
    ensures var d := ParseFloatLiteral(whole);
      d.Some? && Value(d.value) == DigitsValue(whole) as real
  {
    NoDots(whole);
    var d := Decimal(DigitsValue(whole), 0);
    assert ParseFloatLiteral(whole) == Some(d);
    assert Pow10(0) == 1;
    assert Value(d) == DigitsValue(whole) as real / 1.0;
  }

  /**
   * `round(x, 2)` in hundredths: the integer number of hundredths nearest to
   * the decimal, ties to even.
   */
  function Round2(d: Decimal): (r: int)
    ensures -0.5 <= 100.0 * Value(d) - r as real <= 0.5
    ensures d.scale <= 2 ==> 100.0 * Value(d) == r as real
  {
    if d.scale <= 2 then
      ExactHundredths(d);
      d.mantissa * Pow10(2 - d.scale)
    else
      RoundedHundredths(d);
      RoundQuotient(d.mantissa, Pow10(d.scale - 2))
  }

  /** m / p rounded to an integer, ties to even. */
  function RoundQuotient(m: nat, p: nat): int
    requires p >= 1
  {
    var q := m / p;
    var rem := m % p;
    if 2 * rem > p || (2 * rem == p && q % 2 == 1) then q + 1 else q
  }

  /** RoundQuotient(m, p) lies within 1/2 of any y with y * p == m. */
  lemma RoundQuotientNearest(m: nat, p: nat, y: real)
    requires p >= 1 && y * p as real == m as real
    ensures -0.5 <= y - RoundQuotient(m, p) as real <= 0.5
  {
    var q, rem := m / p, m % p;
    Fraction(m, p, y, q, rem);
    RoundChoice(y, p, q, rem);
  }

  lemma ScaleBy(f: real, p: real, k: real)
    requires p > 0.0
    ensures f * p <= k * p <==> f <= k
    ensures f * p < k * p <==> f < k
  {
    if f <= k { assert (k - f) * p >= 0.0; }
    if f < k { assert (k - f) * p > 0.0; }
  }

  /** With at most two fractional digits the hundredths are exact. */
  lemma ExactHundredths(d: Decimal)
    requires d.scale <= 2
    ensures 100.0 * Value(d) == (d.mantissa * Pow10(2 - d.scale)) as real
  {
    var m, s := d.mantissa, d.scale;
    var q := Pow10(2 - s);
    Pow10Add(s, 2 - s);
    var P := Pow10(s) as real;
    assert P * q as real == 100.0;
    var v := Value(d);
    assert v * P == m as real;
    calc {
      100.0 * v;
      v * (P * q as real);
      (v * P) * q as real;
      m as real * q as real;
    }
  }

  /** With more fractional digits the rounded quotient is a nearest hundredth. */
  lemma RoundedHundredths(d: Decimal)
    requires d.scale > 2
    ensures -0.5 <= 100.0 * Value(d) - RoundQuotient(d.mantissa, Pow10(d.scale - 2)) as real <= 0.5
  {
    var m, s := d.mantissa, d.scale;
    var p := Pow10(s - 2);
    assert Pow10(s) == 100 * p by {
      Pow10Add(2, s - 2);
      assert Pow10(2) == 100;
    }
    HundredTimesValue(m, p as real, Pow10(s) as real);
    RoundQuotientNearest(m, p, 100.0 * Value(d));
  }

  lemma RoundChoice(y: real, p: nat, q: int, rem: int)
    requires 0.0 <= y - q as real < 1.0
    requires 2 * rem > p ==> y - q as real > 0.5
    requires 2 * rem == p ==> y - q as real == 0.5
    requires 2 * rem < p ==> y - q as real < 0.5
    ensures var r := if 2 * rem > p || (2 * rem == p && q % 2 == 1) then q + 1 else q;
      -0.5 <= y - r as real <= 0.5
  {
  }

  /** y * p == m with m == q * p + rem puts y - q at rem / p, in [0, 1), on the side of 1/2 that 2 * rem says. */
  lemma Fraction(m: nat, p: nat, y: real, q: int, rem: int)
    requires p >= 1 && y * p as real == m as real && q == m / p && rem == m % p
    ensures 0.0 <= y - q as real < 1.0
    ensures 2 * rem > p ==> y - q as real > 0.5
    ensures 2 * rem == p ==> y - q as real == 0.5
    ensures 2 * rem < p ==> y - q as real < 0.5
  {
    var pr := p as real;
    var f := y - q as real;
    assert m == q * p + rem;
    assert m as real == q as real * pr + rem as real;
    assert f * pr == rem as real by {
      assert f * pr == y * pr - q as real * pr;
    }
    assert 0 <= rem < p;
    FractionSides(f, pr, rem as real);
    assert 2 * rem > p ==> rem as real > 0.5 * pr;
    assert 2 * rem == p ==> rem as real == 0.5 * pr;
    assert 2 * rem < p ==> rem as real < 0.5 * pr;
  }

  /** f * p == r with 0 <= r < p puts f in [0, 1), on the side of 1/2 that r says. */
  lemma FractionSides(f: real, p: real, r: real)
    requires p > 0.0 && f * p == r && 0.0 <= r < p
    ensures 0.0 <= f < 1.0
    ensures r > 0.5 * p ==> f > 0.5
    ensures r == 0.5 * p ==> f == 0.5
    ensures r < 0.5 * p ==> f < 0.5
  {
    UnitInterval(f, p, r);
    if r > 0.5 * p {
      AboveHalf(f, p, r);
    } else if r == 0.5 * p {
      AtHalf(f, p, r);
    } else {
      BelowHalf(f, p, r);
    }
  }

  lemma UnitInterval(f: real, p: real, r: real)
    requires p > 0.0 && f * p == r && 0.0 <= r < p
    ensures 0.0 <= f < 1.0
  {
    ScaleBy(f, p, 0.0);
    ScaleBy(f, p, 1.0);
  }

  lemma AboveHalf(f: real, p: real, r: real)
    requires p > 0.0 && f * p == r && r > 0.5 * p
    ensures f > 0.5
  {
    ScaleBy(f, p, 0.5);
  }

  lemma AtHalf(f: real, p: real, r: real)
    requires p > 0.0 && f * p == r && r == 0.5 * p
    ensures f == 0.5
  {
    ScaleBy(f, p, 0.5);
  }

  lemma BelowHalf(f: real, p: real, r: real)
    requires p > 0.0 && f * p == r && r < 0.5 * p
    ensures f < 0.5
  {
    ScaleBy(f, p, 0.5);
  }

  lemma HundredTimesValue(m: nat, pr: real, P: real)
    requires pr >= 1.0 && P == 100.0 * pr
    ensures (100.0 * (m as real / P)) * pr == m as real
  {
    var v := m as real / P;
    assert v * P == m as real;
    assert (100.0 * v) * pr == v * P;
  }

  /** A decimal inside the band rounds to a hundredth in [0, 15000]; both ends can be reached. */
  lemma Round2InBand(d: Decimal)
    requires InBand(d)
    ensures 0 <= Round2(d) <= 15000
  {
  }

  /** Python's `max` over a non-empty list: the first element of greatest value. */
  function MaxOf(ds: seq<Decimal>): (r: Decimal)
    requires |ds| > 0
    ensures r in ds
    ensures forall k :: 0 <= k < |ds| ==> Value(ds[k]) <= Value(r)
  {
    if |ds| == 1 then ds[0]
    else
      var m := MaxOf(ds[..|ds| - 1]);
      if Value(ds[|ds| - 1]) > Value(m) then ds[|ds| - 1] else m
  }
}
