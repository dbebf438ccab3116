/**
 * Numeric and textual primitives of the JavaScript runtime that the forecast
 * core leans on: `Math.round`, `Number.prototype.toFixed(2)` followed by
 * `parseFloat`, decimal rendering of integers, and the `<` order on strings.
 * Numbers are exact (`int`/`real`); floating point is not modelled.
 */
module Numbers {

  /** `Math.round`: the nearest integer, with halves going toward +infinity. */
  function RoundHalfUp(x: real): (n: int)
    ensures n as real - 0.5 <= x < n as real + 0.5
  {
    (x + 0.5).Floor
  }

  /** `Math.round` is monotone. */
  lemma RoundHalfUpMonotone(x: real, y: real)
    requires x <= y
    ensures RoundHalfUp(x) <= RoundHalfUp(y)
  {
  }

  /**
   * The integer number of hundredths that `x.toFixed(2)` prints: the sign is
   * split off first and the magnitude is rounded half up, so halves go away
   * from zero.
   */
  function Hundredths(x: real): (n: int)
    ensures x >= 0.0 ==> 0 <= n && n as real - 0.5 <= 100.0 * x < n as real + 0.5
    ensures x < 0.0 ==> n <= 0 && n as real - 0.5 < 100.0 * x <= n as real + 0.5
  {
    if x >= 0.0 then RoundHalfUp(100.0 * x) else -RoundHalfUp(-100.0 * x)
  }

  /** `parseFloat(x.toFixed(2))`: `x` rounded to two decimal places. */
  function Round2(x: real): (r: real)
    ensures r * 100.0 == Hundredths(x) as real
  {
    Hundredths(x) as real / 100.0
  }

  /** Rounding to two decimals never reverses the order of two values. */
  lemma Round2Monotone(x: real, y: real)
    requires x <= y
    ensures Round2(x) <= Round2(y)
  {
    if x >= 0.0 {
      RoundHalfUpMonotone(100.0 * x, 100.0 * y);
    } else if y < 0.0 {
      RoundHalfUpMonotone(-100.0 * y, -100.0 * x);
    }
  }

  /** Rounding a value that is already a whole number of hundredths changes nothing. */
  lemma Round2OfHundredths(n: int)
    ensures Round2(n as real / 100.0) == n as real / 100.0
  {
    var x := n as real / 100.0;
    assert 100.0 * x == n as real;
    assert -100.0 * x == (-n) as real;
    assert RoundHalfUp(n as real) == n;
    assert RoundHalfUp((-n) as real) == -n;
    assert Hundredths(x) == n;
  }

  /**
   * `Math.max(lo, Math.min(hi, x))`: `x` forced into `[lo, hi]`; when the
   * interval is empty the outer `max` wins and the result is `lo`.
   */
  function Clamp(x: real, lo: real, hi: real): (r: real)
    ensures lo <= r
    ensures lo <= hi ==> r <= hi
    ensures hi < lo ==> r == lo
    ensures lo <= x <= hi ==> r == x
    ensures x < lo ==> r == lo
    ensures lo <= hi < x ==> r == hi
  {
    var m := if x < hi then x else hi;
    if m > lo then m else lo
  }

  /** A fraction of a non-negative length lies between nothing and the whole length. */
  lemma ScaledWithin(a: real, b: real)
    ensures 0.0 <= a <= 1.0 && b >= 0.0 ==> 0.0 <= a * b <= b
  {
    assert b - a * b == (1.0 - a) * b;
  }

  /** Scaling by a positive factor keeps a strict order. */
  lemma ScaledStrictly(a: real, b: real, w: real)
    ensures a < b && w > 0.0 ==> a * w < b * w
  {
    assert b * w - a * w == (b - a) * w;
  }

  /** Fractions with a common positive denominator, scaled by a positive width, keep their order. */
  lemma FractionsScaledStrictly(a: real, b: real, d: real, w: real)
    requires d > 0.0 && a < b && w > 0.0
    ensures a / d * w < b / d * w
  {
    assert b / d - a / d == (b - a) / d;
    assert (b - a) / d > 0.0;
    ScaledStrictly(a / d, b / d, w);
  }

  /** Multiplying and dividing by the same non-zero real cancel. */
  lemma Cancel(q: real, d: real)
    requires d != 0.0
    ensures (q * d) / d == q && (q / d) * d == q
  {
  }

  /** A part of a positive whole is a fraction in `[0, 1]`. */
  lemma FractionWithinUnit(a: real, b: real)
    requires 0.0 <= a <= b && b > 0.0
    ensures 0.0 <= a / b <= 1.0
  {
    var f := a / b;
    Cancel(a, b);
    assert f * b == a;
  }

  // ---------------------------------------------------------------- decimal text

  predicate IsDigit(c: char)
  {
    '0' <= c <= '9'
  }

  predicate AllDigits(s: string)
  {
    forall i :: 0 <= i < |s| ==> IsDigit(s[i])
  }

  function DigitChar(d: nat): (c: char)
    requires d < 10
    ensures IsDigit(c)
  {
    (48 + d) as char
  }

  function DigitValue(c: char): (d: nat)
    requires IsDigit(c)
    ensures d < 10 && DigitChar(d) == c
  {
    c as int - 48
  }

  function Pow10(k: nat): (p: nat)
    ensures p >= 1
  {
    if k == 0 then 1 else 10 * Pow10(k - 1)
  }

  /** The value of a string of decimal digits (`Number(s)` / `parseInt(s, 10)`). */
  function ParseDecimal(s: string): nat
    requires AllDigits(s)
  {
    if |s| == 0 then 0 else 10 * ParseDecimal(s[..|s| - 1]) + DigitValue(s[|s| - 1])
  }

  /** `String(n)`: the shortest decimal rendering of a natural number. */
  function Decimal(n: nat): (s: string)
    ensures 1 <= |s| && AllDigits(s)
    ensures n < 10 <==> |s| == 1
    ensures 10 <= n < 100 ==> |s| == 2
  {
    if n < 10 then [DigitChar(n)] else Decimal(n / 10) + [DigitChar(n % 10)]
  }

  /** Reading back what `Decimal` wrote gives the number again. */
  lemma {:induction false} DecimalRoundTrip(n: nat)
    ensures ParseDecimal(Decimal(n)) == n
  {
    if n >= 10 {
      var s := Decimal(n);
      assert s[..|s| - 1] == Decimal(n / 10);
      DecimalRoundTrip(n / 10);
    }
  }

  /** The last `width` decimal digits of `n`, left-padded with zeros. */
  function PadDigits(n: nat, width: nat): (s: string)
    ensures |s| == width && AllDigits(s)
  {
    if width == 0 then [] else PadDigits(n / 10, width - 1) + [DigitChar(n % 10)]
  }

  lemma MulAtLeast(m: int, k: int)
    requires m >= 1 && k >= 1
    ensures m * k >= m
  {
    assert m * k == m + m * (k - 1);
  }

  /** Quotient and remainder are determined by any decomposition with a remainder in range. */
  lemma DivModUnique(n: int, m: int, a: int, c: int)
    requires m >= 1 && 0 <= c < m && n == m * a + c
    ensures n / m == a && n % m == c
  {
    var a' := n / m;
    var c' := n % m;
    assert n == m * a' + c';
    var d := a - a';
    assert m * a - m * a' == m * d;
    assert m * d == c' - c;
    if d >= 1 {
      MulAtLeast(m, d);
    } else if d <= -1 {
      MulAtLeast(m, -d);
    }
  }

  lemma DivModStep(n: nat, p: nat)
    requires p >= 1
    ensures ((n / 10) % p) * 10 + n % 10 == n % (10 * p)
  {
    var q := n / 10;
    var r := n % 10;
    var a := q / p;
    var b := q % p;
    assert q == p * a + b;
    assert n == 10 * q + r;
    assert n == (10 * p) * a + (10 * b + r) by {
      assert 10 * q == 10 * (p * a) + 10 * b;
      assert 10 * (p * a) == (10 * p) * a;
    }
    assert 10 * b + r < 10 * p;
    DivModUnique(n, 10 * p, a, 10 * b + r);
  }

  /** Zero-padding is read back as the number modulo the field's capacity. */
  lemma {:induction false} PadDigitsRoundTrip(n: nat, width: nat)
    ensures ParseDecimal(PadDigits(n, width)) == n % Pow10(width)
  {
    if width > 0 {
      var s := PadDigits(n, width);
      assert s[..|s| - 1] == PadDigits(n / 10, width - 1);
      PadDigitsRoundTrip(n / 10, width - 1);
      DivModStep(n, Pow10(width - 1));
    }
  }

  /** A digit string is the zero-padded text, at its own width, of the value it reads as. */
  lemma {:induction false} ParsePadRoundTrip(t: string)
    requires AllDigits(t)
    ensures ParseDecimal(t) < Pow10(|t|)
    ensures PadDigits(ParseDecimal(t), |t|) == t
  {
    if |t| > 0 {
      var init := t[..|t| - 1];
      var last := DigitValue(t[|t| - 1]);
      ParsePadRoundTrip(init);
      var n := ParseDecimal(t);
      DivModUnique(n, 10, ParseDecimal(init), last);
      assert PadDigits(n, |t|) == PadDigits(ParseDecimal(init), |t| - 1) + [DigitChar(last)];
      assert t == init + [t[|t| - 1]];
    }
  }

  /** A number that fits the field is read back unchanged. */
  lemma PaddedRoundTrip(n: nat, width: nat)
    requires n < Pow10(width)
    ensures ParseDecimal(PadDigits(n, width)) == n
  {
    PadDigitsRoundTrip(n, width);
    DivModUnique(n, Pow10(width), 0, n);
  }

  /** A number below 100 is written as two digits and read back unchanged. */
  lemma TwoDigitsRoundTrip(n: nat)
    requires n < 100
    ensures ParseDecimal(PadDigits(n, 2)) == n
  {
    assert Pow10(2) == 100;
    PaddedRoundTrip(n, 2);
  }

  // ------------------------------------------------------------ string order

  /**
   * JavaScript's `a < b` on strings: lexicographic by character, a proper
   * prefix being smaller.
   */
  predicate JsLess(a: string, b: string): (less: bool)
    ensures |a| < |b| && a == b[..|a|] ==> less
    ensures |b| <= |a| && b == a[..|b|] ==> !less
  {
    if |b| == 0 then false
    else if |a| == 0 then true
    else if a[0] != b[0] then a[0] < b[0]
    else JsLess(a[1..], b[1..])
  }

  lemma {:induction false} JsLessIrreflexive(a: string)
    ensures !JsLess(a, a)
  {
    if |a| > 0 {
      JsLessIrreflexive(a[1..]);
    }
  }

  lemma {:induction false} JsLessTransitive(a: string, b: string, c: string)
    requires JsLess(a, b) && JsLess(b, c)
    ensures JsLess(a, c)
  {
    if |a| > 0 && a[0] == b[0] && b[0] == c[0] {
      JsLessTransitive(a[1..], b[1..], c[1..]);
    }
  }

  lemma {:induction false} JsLessTotal(a: string, b: string)
    requires a != b
    ensures JsLess(a, b) || JsLess(b, a)
  {
    if |a| > 0 && |b| > 0 && a[0] == b[0] {
      assert a == [a[0]] + a[1..] && b == [b[0]] + b[1..];
      JsLessTotal(a[1..], b[1..]);
    }
  }
}
