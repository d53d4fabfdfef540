/**
  Decimal rendering of integers, as JavaScript's `String(n)` / template interpolation writes
  an integral number of small magnitude: an optional `-` followed by digits without leading
  zeros. `DecimalValue` reads such text back and is the partner of the renderers.
 */
module Decimal {

  predicate IsDigit(c: char)
  {
    '0' <= c <= '9'
  }

  predicate AllDigits(s: string)
  {
    forall i :: 0 <= i < |s| ==> IsDigit(s[i])
  }

  function DigitChar(d: nat): (c: char)
    requires d < 10
    ensures IsDigit(c) && c as int - '0' as int == d
  {
    ('0' as int + d) as char
  }

  /** The value of a string of decimal digits (the empty string reads as 0). */
  function DecimalValue(s: string): nat
    requires AllDigits(s)
  {
    if s == [] then 0 else DecimalValue(s[..|s| - 1]) * 10 + (s[|s| - 1] as int - '0' as int)
  }

  /** The canonical decimal text of a natural number. */
  function NatToDecimal(n: nat): (s: string)
    ensures 1 <= |s|
    ensures AllDigits(s)
    ensures |s| > 1 ==> s[0] != '0'
  {
    if n < 10 then [DigitChar(n)] else NatToDecimal(n / 10) + [DigitChar(n % 10)]
  }

  /** Reading the rendered digits gives the number back. */
  lemma {:induction false} NatRoundTrip(n: nat)
    ensures DecimalValue(NatToDecimal(n)) == n
  {
    if n >= 10 {
      var s := NatToDecimal(n);
      assert s[..|s| - 1] == NatToDecimal(n / 10);
      NatRoundTrip(n / 10);
    }
  }

  /** Distinct numbers render as distinct text. */
  lemma NatToDecimalInjective(m: nat, n: nat)
    requires NatToDecimal(m) == NatToDecimal(n)
    ensures m == n
  {
    NatRoundTrip(m);
    NatRoundTrip(n);
  }

  /** The decimal text of an integer: a `-` sign before the digits of its magnitude when negative. */
  function IntToDecimal(i: int): (s: string)
    ensures 1 <= |s|
    ensures i < 0 <==> s[0] == '-'
    ensures i >= 0 ==> s == NatToDecimal(i)
    ensures i < 0 ==> s[1..] == NatToDecimal(-i)
  {
    if i < 0 then "-" + NatToDecimal(-i) else NatToDecimal(i)
  }

  /** Reads back what `IntToDecimal` writes. */
  function ParseInt(s: string): (r: int)
    requires 1 <= |s|
    requires (s[0] == '-' && AllDigits(s[1..])) || AllDigits(s)
  {
    if s[0] == '-' then -(DecimalValue(s[1..]) as int) else DecimalValue(s)
  }

  lemma IntRoundTrip(i: int)
    ensures ParseInt(IntToDecimal(i)) == i
  {
    if i < 0 {
      NatRoundTrip(-i);
    } else {
      NatRoundTrip(i);
    }
  }

  /** `text` is the canonical decimal text of `i` followed by `suffix`, so `i` can be read back from it. */
  predicate ShowsCount(text: string, suffix: string, i: int)
  {
    && |text| > |suffix|
    && text[|text| - |suffix|..] == suffix
    && var digits := text[..|text| - |suffix|];
       && ((digits[0] == '-' && AllDigits(digits[1..])) || AllDigits(digits))
       && digits == IntToDecimal(i)
       && ParseInt(digits) == i
  }

  /** A number interpolated before a fixed text, as `n + " unit"` and `${n}unit` write it. */
  function WithSuffix(i: int, suffix: string): (text: string)
    ensures ShowsCount(text, suffix, i)
    ensures text[0] == '-' || IsDigit(text[0])
  {
    var digits := IntToDecimal(i);
    IntRoundTrip(i);
    assert (digits + suffix)[..|digits|] == digits;
    assert (digits + suffix)[|digits|..] == suffix;
    digits + suffix
  }
}
