/**
 * Decimal numerals: the digit strings of the ISO date and time fields, the
 * signed decimals that Double.parseDouble reads back from the file, and the
 * two-decimal form that String.format("%.2f") writes into it.
 */
module Decimal {
  import opened Wrappers
  import opened Text

  predicate IsDigit(c: char) {
    '0' <= c <= '9'
  }

  predicate AllDigits(s: string) {
    forall k :: 0 <= k < |s| ==> IsDigit(s[k])
  }

  function DigitChar(d: nat): (c: char)
    requires d < 10
    ensures IsDigit(c)
  {
    ('0' as int + d) as char
  }

  function DigitValue(c: char): (d: nat)
    requires IsDigit(c)
    ensures d < 10 && DigitChar(d) == c
  {
    c as int - '0' as int
  }

  function Pow10(n: nat): (p: nat)
    ensures p >= 1
  {
    if n == 0 then 1 else 10 * Pow10(n - 1)
  }

  lemma {:induction false} Pow10Add(a: nat, b: nat)
    ensures Pow10(a) * Pow10(b) == Pow10(a + b)
    decreases a
  {
    if a > 0 {
      Pow10Add(a - 1, b);
      assert Pow10(a) * Pow10(b) == 10 * (Pow10(a - 1) * Pow10(b));
    }
  }

  /** A value below 10^k, shifted left by n - k places, stays below 10^n. */
  lemma {:induction false} ShiftedBelow(v: nat, k: nat, n: nat)
    requires k <= n && v < Pow10(k)
    ensures v * Pow10(n - k) < Pow10(n)
  {
    Pow10Add(k, n - k);
    MulLess(v, Pow10(k), Pow10(n - k));
  }

  lemma {:induction false} MulLess(a: nat, b: nat, c: nat)
    requires a < b && c >= 1
    ensures a * c < b * c
  {
  }

  /** The value of a digit string, most significant digit first. */
  function ParseDigits(s: string): (n: nat)
    requires AllDigits(s)
    ensures n < Pow10(|s|)
    decreases |s|
  {
    if s == [] then 0 else ParseDigits(s[..|s| - 1]) * 10 + DigitValue(s[|s| - 1])
  }

  /** The last `width` decimal digits of n, zero-padded on the left. */
  function FixedDigits(n: nat, width: nat): (s: string)
    ensures |s| == width && AllDigits(s)
  {
    if width == 0 then [] else FixedDigits(n / 10, width - 1) + [DigitChar(n % 10)]
  }

  /** The shortest decimal numeral of n: no leading zero unless n is 0. */
  function NatToString(n: nat): (s: string)
    ensures |s| >= 1 && AllDigits(s)
    ensures |s| > 1 ==> s[0] != '0'
  {
    if n < 10 then [DigitChar(n)] else NatToString(n / 10) + [DigitChar(n % 10)]
  }

  lemma {:induction false} ParseFixedDigits(n: nat, width: nat)
    requires n < Pow10(width)
    ensures ParseDigits(FixedDigits(n, width)) == n
  {
    if width > 0 {
      var s := FixedDigits(n, width);
      assert s[..|s| - 1] == FixedDigits(n / 10, width - 1);
      ParseFixedDigits(n / 10, width - 1);
    }
  }

  /** A digit string of width w is the zero-padded form of its own value. */
  lemma {:induction false} FixedDigitsOfParse(s: string)
    requires AllDigits(s)
    ensures FixedDigits(ParseDigits(s), |s|) == s
    decreases |s|
  {
    if s != [] {
      var init := s[..|s| - 1];
      FixedDigitsOfParse(init);
      var n := ParseDigits(s);
      assert n / 10 == ParseDigits(init) && n % 10 == DigitValue(s[|s| - 1]);
      assert s == init + [s[|s| - 1]];
    }
  }

  lemma {:induction false} ParseNatToString(n: nat)
    ensures ParseDigits(NatToString(n)) == n
  {
    if n >= 10 {
      var s := NatToString(n);
      assert s[..|s| - 1] == NatToString(n / 10);
      ParseNatToString(n / 10);
    }
  }

  /** Digits, optionally one '.', optionally more digits, with at least one digit in all. */
  function ParseUnsigned(s: string): Option<real> {
    var parts := Split(s, '.');
    if |parts| == 1 then
      if s != [] && AllDigits(s) then Some(ParseDigits(s) as real) else None
    else if |parts| == 2 && AllDigits(parts[0]) && AllDigits(parts[1]) && |parts[0]| + |parts[1]| > 0 then
      Some(ParseDigits(parts[0]) as real + ParseDigits(parts[1]) as real / Pow10(|parts[1]|) as real)
    else
      None
  }

  /** An optional sign, then an unsigned decimal. */
  function ParseSigned(t: string): Option<real> {
    if t != [] && (t[0] == '-' || t[0] == '+') then
      match ParseUnsigned(t[1..])
      case None => None
      case Some(v) => Some(if t[0] == '-' then -v else v)
    else
      ParseUnsigned(t)
  }

  /**
   * Double.parseDouble restricted to plain decimals: the argument is trimmed,
   * then read as a signed decimal. The value is exact.
   */
  function ParseAmount(s: string): Option<real> {
    ParseSigned(Trim(s))
  }

  /** Math.abs. */
  function Abs(x: real): (r: real)
    ensures r >= 0.0 && (r == x || r == -x)
  {
    if x < 0.0 then -x else x
  }

  /** RoundingMode.HALF_UP to hundredths of a non-negative magnitude, as a count of cents. */
  function RoundHalfUp(magnitude: real): (cents: nat)
    requires magnitude >= 0.0
    ensures cents as real <= magnitude * 100.0 + 0.5 < cents as real + 1.0
  {
    (magnitude * 100.0 + 0.5).Floor
  }

  /** The value a sign and a count of cents stand for. */
  function CentsValue(negative: bool, cents: nat): real {
    if negative then -(cents as real / 100.0) else cents as real / 100.0
  }

  /** The numeral of a count of cents: at least one whole digit, a point, exactly two decimals. */
  function CentsNumeral(cents: nat): string {
    NatToString(cents / 100) + "." + FixedDigits(cents % 100, 2)
  }

  /**
   * String.format("%.2f") of a double with the given sign bit and magnitude: the
   * sign is printed whenever the sign bit is set (so -0.0 prints as "-0.00").
   */
  function Fixed2(negative: bool, magnitude: real): string
    requires magnitude >= 0.0
  {
    (if negative then "-" else "") + CentsNumeral(RoundHalfUp(magnitude))
  }

  lemma {:induction false} ParseCentsNumeral(cents: nat)
    ensures ParseUnsigned(CentsNumeral(cents)) == Some(cents as real / 100.0)
  {
    var whole, frac := NatToString(cents / 100), FixedDigits(cents % 100, 2);
    SplitCentsNumeral(cents);
    var parts := Split(CentsNumeral(cents), '.');
    assert parts[0] == whole && parts[1] == frac && |whole| > 0;
    ParseNatToString(cents / 100);
    assert Pow10(2) == 100;
    ParseFixedDigits(cents % 100, 2);
    assert ParseUnsigned(CentsNumeral(cents)) == Some((cents / 100) as real + (cents % 100) as real / 100.0);
    CentsSum(cents);
  }

  /** The numeral of a count of cents splits at its point into the whole and the two decimals. */
  lemma {:induction false} SplitCentsNumeral(cents: nat)
    ensures Split(CentsNumeral(cents), '.') == [NatToString(cents / 100), FixedDigits(cents % 100, 2)]
  {
    var whole, frac := NatToString(cents / 100), FixedDigits(cents % 100, 2);
    assert '.' !in whole && '.' !in frac;
    assert CentsNumeral(cents) == whole + ['.'] + frac;
    SplitAtSeparator(whole, frac, '.');
    SplitWithoutSeparator(whole, '.');
    SplitWithoutSeparator(frac, '.');
  }

  lemma {:induction false} CentsSum(cents: nat)
    ensures (cents / 100) as real + (cents % 100) as real / 100.0 == cents as real / 100.0
  {
    assert cents == (cents / 100) * 100 + cents % 100;
  }

  /** A numeral that starts and ends with a digit is unchanged by trimming. */
  lemma {:induction false} CentsNumeralTrimmed(negative: bool, cents: nat)
    ensures Trim((if negative then "-" else "") + CentsNumeral(cents)) == (if negative then "-" else "") + CentsNumeral(cents)
  {
    var body := CentsNumeral(cents);
    var s := (if negative then "-" else "") + body;
    assert body[0] == NatToString(cents / 100)[0];
    assert body[|body| - 1] == FixedDigits(cents % 100, 2)[1];
    assert s[0] == if negative then '-' else body[0];
    assert s[|s| - 1] == body[|body| - 1];
    TrimClean(s);
  }

  /** A signed numeral of cents reads back as the value it stands for. */
  lemma {:induction false} ParseSignedCents(negative: bool, cents: nat)
    ensures ParseSigned((if negative then "-" else "") + CentsNumeral(cents)) == Some(CentsValue(negative, cents))
  {
    if negative {
      NegativeCents(cents);
    } else {
      assert (if negative then "-" else "") + CentsNumeral(cents) == CentsNumeral(cents);
      UnsignedCents(cents);
    }
  }

  /** A numeral of cents behind a minus sign reads back as minus its value. */
  lemma {:induction false} NegativeCents(cents: nat)
    ensures ParseSigned("-" + CentsNumeral(cents)) == Some(CentsValue(true, cents))
  {
    var body := CentsNumeral(cents);
    var s := "-" + body;
    ParseCentsNumeral(cents);
    assert s[0] == '-' && s[1..] == body;
  }

  /** A numeral of cents with no sign starts with a digit and reads back as its value. */
  lemma {:induction false} UnsignedCents(cents: nat)
    ensures ParseSigned(CentsNumeral(cents)) == Some(CentsValue(false, cents))
  {
    var body := CentsNumeral(cents);
    var w := NatToString(cents / 100);
    ParseCentsNumeral(cents);
    assert IsDigit(w[0]) && body[0] == w[0];
    assert body != [] && body[0] != '-' && body[0] != '+';
  }

  /** Reading back a two-decimal amount gives the rounded value, with its sign. */
  lemma ParseFixed2(negative: bool, magnitude: real)
    requires magnitude >= 0.0
    ensures ParseAmount(Fixed2(negative, magnitude)) == Some(CentsValue(negative, RoundHalfUp(magnitude)))
  {
    CentsNumeralTrimmed(negative, RoundHalfUp(magnitude));
    ParseSignedCents(negative, RoundHalfUp(magnitude));
  }

  /** The rounded magnitude is within half a cent of the exact one. */
  lemma RoundingError(magnitude: real)
    requires magnitude >= 0.0
    ensures -0.005 < CentsValue(false, RoundHalfUp(magnitude)) - magnitude <= 0.005
  {
  }
}
