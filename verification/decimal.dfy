/** Decimal digits: Python's `str(n)`, `'{:0Nd}'.format(n)` and `int(text)`. */
module Decimal {
  import opened Wrappers

  predicate IsDigit(c: char)
  {
    '0' <= c <= '9'
  }

  predicate AllDigits(s: string)
  {
    forall i :: 0 <= i < |s| ==> IsDigit(s[i])
  }

  function DigitValue(c: char): nat
    requires IsDigit(c)
  {
    c as int - '0' as int
  }

  function DigitChar(d: nat): (c: char)
    requires d < 10
    ensures IsDigit(c) && DigitValue(c) == d
  {
    ('0' as int + d) as char
  }

  /** The number a string of decimal digits denotes (leading zeros allowed). */
  function Value(s: string): nat
    requires AllDigits(s)
    decreases |s|
  {
    if |s| == 0 then 0
    else 10 * Value(s[..|s| - 1]) + DigitValue(s[|s| - 1])
  }

  function Pow10(k: nat): (r: nat)
    ensures r >= 1
  {
    if k == 0 then 1 else 10 * Pow10(k - 1)
  }

  lemma {:induction false} Pow10Monotonic(j: nat, k: nat)
    requires j <= k
    ensures Pow10(j) <= Pow10(k)
    decreases k
  {
    if j < k {
      Pow10Monotonic(j, k - 1);
    }
  }

  /** Division with remainder is unique. */
  lemma DivModUnique(n: int, d: int, q: int, r: int)
    requires d > 0 && 0 <= r < d && n == d * q + r
    ensures n / d == q && n % d == r
  {
    var q0, r0 := n / d, n % d;
    assert d * q0 + r0 == n;
    assert d * (q - q0) == r0 - r;
    if q > q0 {
      MulAtLeast(d, q - q0);
    } else if q < q0 {
      MulAtLeast(d, q0 - q);
    }
  }

  lemma MulAtLeast(d: int, k: int)
    requires d > 0 && k >= 1
    ensures d * k >= d
  {
  }

  /** Peeling the last decimal digit off a remainder modulo a power of ten. */
  lemma ModPow10Step(n: nat, p: nat)
    requires p >= 1
    ensures 10 * ((n / 10) % p) + n % 10 == n % (10 * p)
  {
    var q, r0 := n / 10, n % 10;
    var a, b := q / p, q % p;
    assert q == p * a + b;
    assert n == 10 * q + r0;
    assert n == (10 * p) * a + (10 * b + r0);
    DivModUnique(n, 10 * p, a, 10 * b + r0);
  }

  /** The last `w` decimal digits of `n`, zero-filled on the left. */
  function FixedWidth(n: nat, w: nat): (r: string)
    ensures |r| == w && AllDigits(r)
    ensures Value(r) == n % Pow10(w)
    decreases w
  {
    if w == 0 then ""
    else
      var r := FixedWidth(n / 10, w - 1) + [DigitChar(n % 10)];
      assert r[..w - 1] == FixedWidth(n / 10, w - 1);
      ModPow10Step(n, Pow10(w - 1));
      r
  }

  /** Writing at width `w` is writing the higher digits at width `w - 1`
      and then the last digit. */
  lemma FixedWidthStep(n: nat, w: nat)
    requires w >= 1
    ensures FixedWidth(n, w) == FixedWidth(n / 10, w - 1) + [DigitChar(n % 10)]
  {
  }

  /** A number with at most `w` digits is written at width `w` without loss. */
  lemma ValueOfFixedWidth(n: nat, w: nat)
    requires n < Pow10(w)
    ensures Value(FixedWidth(n, w)) == n
  {
    DivModUnique(n, Pow10(w), 0, n);
  }

  /** Reading digits back and rewriting them at the same width is the identity. */
  lemma {:induction false} FixedWidthOfValue(s: string)
    requires AllDigits(s)
    ensures FixedWidth(Value(s), |s|) == s
    decreases |s|
  {
    if |s| > 0 {
      var init := s[..|s| - 1];
      var d := DigitValue(s[|s| - 1]);
      FixedWidthOfValue(init);
      DivModUnique(Value(s), 10, Value(init), d);
      FixedWidthStep(Value(s), |s|);
      assert DigitChar(d) == s[|s| - 1];
      assert s == init + [s[|s| - 1]];
    }
  }

  /** How many decimal digits `str(n)` has. */
  function NumDigits(n: nat): (k: nat)
    ensures k >= 1 && n < Pow10(k)
    ensures k > 1 ==> Pow10(k - 1) <= n
  {
    if n < 10 then 1 else 1 + NumDigits(n / 10)
  }

  /** A number of at least `10^k` has more than `k` digits. */
  lemma {:induction false} NumDigitsLowerBound(n: nat, k: nat)
    requires Pow10(k) <= n
    ensures NumDigits(n) > k
    decreases k
  {
    if k > 0 {
      DivModUnique(n, 10, n / 10, n % 10);
      assert Pow10(k - 1) <= n / 10;
      NumDigitsLowerBound(n / 10, k - 1);
    }
  }

  /** A number has more than `k` digits exactly when it is at least `10^k`. */
  lemma DigitBounds(n: nat, k: nat)
    requires k >= 1
    ensures NumDigits(n) > k <==> n >= Pow10(k)
  {
    if n >= Pow10(k) {
      NumDigitsLowerBound(n, k);
    } else if NumDigits(n) > k {
      Pow10Monotonic(k, NumDigits(n) - 1);
    }
  }

  /** Python `str(n)` for a non-negative integer. */
  function ToDecimal(n: nat): (r: string)
    ensures AllDigits(r) && |r| == NumDigits(n)
    ensures Value(r) == n
  {
    DivModUnique(n, Pow10(NumDigits(n)), 0, n);
    FixedWidth(n, NumDigits(n))
  }

  /** `str(n)` is `str(n // 10)` followed by the last digit. */
  lemma ToDecimalStep(n: nat)
    requires n >= 10
    ensures ToDecimal(n) == ToDecimal(n / 10) + [DigitChar(n % 10)]
  {
    var k := NumDigits(n);
    assert k == 1 + NumDigits(n / 10);
    assert FixedWidth(n, k) == FixedWidth(n / 10, k - 1) + [DigitChar(n % 10)];
  }

  /** `str(n)` never starts with a redundant zero. */
  lemma {:induction false} ToDecimalNoLeadingZero(n: nat)
    requires n > 0
    ensures ToDecimal(n)[0] != '0'
    decreases n
  {
    if n >= 10 {
      ToDecimalStep(n);
      ToDecimalNoLeadingZero(n / 10);
    }
  }

  /** `str(n)` is the only digit string without a leading zero denoting `n`. */
  lemma {:induction false} ToDecimalUnique(s: string)
    requires AllDigits(s) && |s| >= 1 && (|s| > 1 ==> s[0] != '0')
    ensures ToDecimal(Value(s)) == s
    decreases |s|
  {
    var n := Value(s);
    if |s| == 1 {
      assert s[..0] == "";
      assert Value(s[..0]) == 0;
      assert n == DigitValue(s[0]);
      DivModUnique(n, 10, 0, n);
      assert FixedWidth(n, 1) == FixedWidth(0, 0) + [DigitChar(n)];
      assert [DigitChar(n)] == s;
    } else {
      var init := s[..|s| - 1];
      assert init[0] == s[0];
      ToDecimalUnique(init);
      ValuePositive(init);
      DivModUnique(n, 10, Value(init), DigitValue(s[|s| - 1]));
      ToDecimalStep(n);
      assert s == init + [s[|s| - 1]];
    }
  }

  /** A digit string that does not start with zero denotes a positive number. */
  lemma {:induction false} ValuePositive(s: string)
    requires AllDigits(s) && |s| >= 1 && s[0] != '0'
    ensures Value(s) >= 1
    decreases |s|
  {
    if |s| > 1 {
      ValuePositive(s[..|s| - 1]);
    }
  }

  /** Python `format(n, '0<w>d')` for a non-negative integer: `str(n)`
      zero-filled on the left to at least `w` characters, never truncated. */
  function Padded(n: nat, w: nat): (r: string)
    ensures AllDigits(r) && Value(r) == n
    ensures |r| >= w && |r| >= NumDigits(n)
    ensures |r| == if w > NumDigits(n) then w else NumDigits(n)
    ensures NumDigits(n) >= w ==> r == ToDecimal(n)
  {
    var width := if w > NumDigits(n) then w else NumDigits(n);
    Pow10Monotonic(NumDigits(n), width);
    DivModUnique(n, Pow10(width), 0, n);
    FixedWidth(n, width)
  }

  /** Python `int(text)` on a sign and ASCII digits; `None` where `int` raises. */
  function ParseInt(s: string): Option<int>
  {
    if |s| >= 2 && (s[0] == '-' || s[0] == '+') && AllDigits(s[1..]) then
      var v: int := Value(s[1..]);
      Some(if s[0] == '-' then -v else v)
    else if |s| >= 1 && AllDigits(s) then
      Some(Value(s))
    else
      None
  }

  /** Python `format(n, '0<w>d')` for any integer: the sign counts towards the
      width and the zeros go between sign and digits. Reading it back with
      `int` gives `n` again. */
  function FormatInt(n: int, w: nat): (r: string)
    ensures ParseInt(r) == Some(n)
    ensures |r| >= w
    ensures n >= 0 ==> AllDigits(r)
    ensures n < 0 ==> |r| >= 2 && r[0] == '-' && AllDigits(r[1..])
    ensures n >= 0 ==> |r| == if w > NumDigits(n) then w else NumDigits(n)
    ensures n < 0 ==> |r| == if w > 1 + NumDigits(-n) then w else 1 + NumDigits(-n)
  {
    if n >= 0 then
      var r := Padded(n, w);
      ParseUnsigned(r);
      r
    else
      var digits := Padded(-n, if w >= 1 then w - 1 else 0);
      ParseNegative(digits);
      "-" + digits
  }

  /** `int` reads a string of digits as the number they denote. */
  lemma ParseUnsigned(s: string)
    requires |s| >= 1 && AllDigits(s)
    ensures ParseInt(s) == Some(Value(s))
  {
    assert IsDigit(s[0]);
  }

  /** `int` reads a minus sign followed by digits as the negated number. */
  lemma ParseNegative(digits: string)
    requires |digits| >= 1 && AllDigits(digits)
    ensures ParseInt("-" + digits) == Some(-(Value(digits) as int))
    ensures ("-" + digits)[1..] == digits
  {
    assert ("-" + digits)[1..] == digits;
  }
}
