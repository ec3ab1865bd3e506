/**
 Decimal text of a non-negative integer, as JavaScript writes a millisecond
 timestamp when it is concatenated with a string (`Date.now() + ".png"`), and
 the reading of a leading run of digits back into a number.
 */
module Decimal {

  predicate IsDigit(c: char)
  {
    '0' <= c <= '9'
  }

  predicate AllDigits(s: string)
  {
    forall i :: 0 <= i < |s| ==> IsDigit(s[i])
  }

  function DigitChar(d: nat): (c: char)
    requires d < 10
    ensures IsDigit(c)
    ensures c as int - '0' as int == d
  {
    ('0' as int + d) as char
  }

  /** The canonical decimal text of `n`: digits only, and no leading zero. */
  function NatToDecimal(n: nat): (r: string)
    ensures |r| > 0
    ensures AllDigits(r)
    ensures r[0] == '0' ==> n == 0
  {
    if n < 10 then [DigitChar(n)] else NatToDecimal(n / 10) + [DigitChar(n % 10)]
  }

  /** The number a string of digits denotes. */
  function DigitsValue(s: string): nat
    requires AllDigits(s)
  {
    if |s| == 0 then 0
    else DigitsValue(s[..|s| - 1]) * 10 + (s[|s| - 1] as int - '0' as int)
  }

  /** Reading the decimal text of `n` gives back `n`. */
  lemma {:induction false} DecimalRoundTrip(n: nat)
    ensures DigitsValue(NatToDecimal(n)) == n
  {
    if n >= 10 {
      var r := NatToDecimal(n);
      assert r[..|r| - 1] == NatToDecimal(n / 10);
      DecimalRoundTrip(n / 10);
    }
  }

  /** Different numbers have different decimal texts. */
  lemma NatToDecimalInjective(a: nat, b: nat)
    ensures NatToDecimal(a) == NatToDecimal(b) <==> a == b
  {
    if NatToDecimal(a) == NatToDecimal(b) {
      DecimalRoundTrip(a);
      DecimalRoundTrip(b);
    }
  }

  /** The longest prefix of `s` made of digits only. */
  function LeadingDigits(s: string): (r: string)
    ensures r <= s
    ensures AllDigits(r)
    ensures |r| < |s| ==> !IsDigit(s[|r|])
  {
    if |s| > 0 && IsDigit(s[0]) then [s[0]] + LeadingDigits(s[1..]) else []
  }

  /** The leading digit run of `d + e` is `d` when `e` does not start with a digit. */
  lemma {:induction false} LeadingDigitsOfConcat(d: string, e: string)
    requires AllDigits(d)
    requires e == [] || !IsDigit(e[0])
    ensures LeadingDigits(d + e) == d
  {
    if |d| > 0 {
      assert (d + e)[1..] == d[1..] + e;
      LeadingDigitsOfConcat(d[1..], e);
    } else {
      assert d + e == e;
    }
  }

  /** The number a name starts with (0 when it starts with no digit). */
  function LeadingNumber(s: string): nat
  {
    DigitsValue(LeadingDigits(s))
  }

  /** The decimal text of `n` followed by text that starts with no digit reads back as `n`. */
  lemma LeadingNumberOfDecimal(n: nat, e: string)
    requires e == [] || !IsDigit(e[0])
    ensures LeadingNumber(NatToDecimal(n) + e) == n
  {
    LeadingDigitsOfConcat(NatToDecimal(n), e);
    DecimalRoundTrip(n);
  }
}
