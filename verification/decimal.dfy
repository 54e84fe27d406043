/**
 * Decimal renderings used in the trace: PHP's `(string)` cast of an integer,
 * the element count in `array[n]`, and the `%.4f` seconds of the summary line.
 * Each rendering comes with the parser that undoes it.
 */
module Decimal {
  import opened Wrappers

  predicate IsDigit(c: char) {
    '0' <= c <= '9'
  }

  predicate AllDigits(s: string) {
    forall i :: 0 <= i < |s| ==> IsDigit(s[i])
  }

  function DigitValue(c: char): (d: nat)
    requires IsDigit(c)
    ensures d < 10
  {
    (c as int) - ('0' as int)
  }

  function DigitChar(d: nat): (c: char)
    requires d < 10
    ensures IsDigit(c) && DigitValue(c) == d
  {
    (('0' as int) + d) as char
  }

  /** The decimal digits of `n`, most significant first, without leading zeros. */
  function NatToString(n: nat): (r: string)
    ensures |r| >= 1 && AllDigits(r)
    ensures r[0] == '0' ==> n == 0
    decreases n
  {
    if n < 10 then [DigitChar(n)]
    else NatToString(n / 10) + [DigitChar(n % 10)]
  }

  /** The number a string of decimal digits denotes. */
  function DigitsValue(s: string): nat
    requires AllDigits(s)
  {
    if |s| == 0 then 0
    else 10 * DigitsValue(s[..|s| - 1]) + DigitValue(s[|s| - 1])
  }

  /** Reading the digits of `n` back gives `n`. */
  lemma {:induction false} NatToStringRoundTrip(n: nat)
    ensures DigitsValue(NatToString(n)) == n
  {
    if n >= 10 {
      var s := NatToString(n);
      assert s[..|s| - 1] == NatToString(n / 10);
      NatToStringRoundTrip(n / 10);
    }
  }

  /** PHP's `(string)` of an integer: an optional minus sign, then the digits. */
  function IntToString(i: int): (r: string)
    ensures |r| >= 1
    ensures r[0] == '-' <==> i < 0
    ensures r[0] != '-' ==> IsDigit(r[0])
  {
    if i < 0 then "-" + NatToString(-i) else NatToString(i)
  }

  /** Reads an optionally negative decimal integer; anything else is rejected. */
  function ParseInt(s: string): Option<int>
  {
    if |s| >= 2 && s[0] == '-' && AllDigits(s[1..]) then Some(-(DigitsValue(s[1..]) as int))
    else if |s| >= 1 && AllDigits(s) then Some(DigitsValue(s))
    else None
  }

  /** Every integer's rendering parses back to that integer. */
  lemma IntToStringRoundTrip(i: int)
    ensures ParseInt(IntToString(i)) == Some(i)
  {
    var s := IntToString(i);
    if i < 0 {
      assert s[1..] == NatToString(-i);
      NatToStringRoundTrip(-i);
    } else {
      assert s[0] != '-';
      NatToStringRoundTrip(i);
    }
  }

  /** The four fractional digits of a value below 10000, zero padded. */
  function FourDigits(f: nat): (r: string)
    requires f < 10000
    ensures |r| == 4 && AllDigits(r)
  {
    [DigitChar(f / 1000), DigitChar(f / 100 % 10), DigitChar(f / 10 % 10), DigitChar(f % 10)]
  }

  /**
   * `sprintf("%.4f", x)` under PHP's default C locale, whose decimal point is
   * `.`, for a non-negative duration already rounded to `units`
   * ten-thousandths of a second.
   */
  function Fixed4(units: nat): (r: string)
    ensures |r| >= 6 && r[|r| - 5] == '.'
  {
    NatToString(units / 10000) + "." + FourDigits(units % 10000)
  }

  /** Reads `digits.dddd` back into ten-thousandths. */
  function ParseFixed4(s: string): Option<nat>
  {
    if |s| >= 6 && s[|s| - 5] == '.' && AllDigits(s[..|s| - 5]) && AllDigits(s[|s| - 4..]) then
      Some(DigitsValue(s[..|s| - 5]) * 10000 + DigitsValue(s[|s| - 4..]))
    else None
  }

  lemma FourDigitsValue(f: nat)
    requires f < 10000
    ensures DigitsValue(FourDigits(f)) == f
  {
    var s := FourDigits(f);
    assert f / 1000 == f / 100 / 10 && f / 100 == f / 10 / 10;
    assert s[..1][..0] == [] && s[..2][..1] == s[..1] && s[..3][..2] == s[..2] && s[..4][..3] == s[..3];
    assert DigitsValue(s[..1]) == f / 1000;
    assert DigitsValue(s[..2]) == 10 * (f / 1000) + f / 100 % 10 == f / 100;
    assert DigitsValue(s[..3]) == 10 * (f / 100) + f / 10 % 10 == f / 10;
    assert DigitsValue(s[..4]) == 10 * (f / 10) + f % 10 == f;
    assert s[..4] == s;
  }

  /** The seconds of the summary line read back to the same duration. */
  lemma Fixed4RoundTrip(units: nat)
    ensures ParseFixed4(Fixed4(units)) == Some(units)
  {
    var s := Fixed4(units);
    var w := NatToString(units / 10000);
    assert s[..|s| - 5] == w;
    assert s[|s| - 4..] == FourDigits(units % 10000);
    NatToStringRoundTrip(units / 10000);
    FourDigitsValue(units % 10000);
  }
}
