/**
 * Decimal rendering of integers, as Python's `f"{n}"` formats the prices and
 * counts that appear in log lines and SMS texts, with its inverse.
 */
module Decimal {

  predicate IsDigit(c: char)
  {
    '0' <= c <= '9'
  }

  predicate AllDigits(s: string)
  {
    forall k :: 0 <= k < |s| ==> IsDigit(s[k])
  }

  function DigitChar(d: nat): (c: char)
    requires d < 10
    ensures IsDigit(c) && (c as int) - ('0' as int) == d
  {
    ('0' as int + d) as char
  }

  function DigitValue(c: char): nat
    requires IsDigit(c)
  {
    (c as int) - ('0' as int)
  }

  /** The decimal digits of `n`, most significant first, without leading zeros. */
  function NatToDecimal(n: nat): (s: string)
    ensures |s| > 0 && AllDigits(s)
    ensures s[0] == '0' <==> n == 0
    ensures n == 0 ==> s == "0"
    decreases n
  {
    if n < 10 then [DigitChar(n)] else NatToDecimal(n / 10) + [DigitChar(n % 10)]
  }

  /** Python's `str(i)`: a minus sign before the digits of a negative number. */
  function IntToDecimal(i: int): (s: string)
    ensures |s| > 0
    ensures i >= 0 ==> AllDigits(s)
    ensures i < 0 ==> s[0] == '-' && AllDigits(s[1..])
    decreases if i < 0 then 1 else 0
  {
    if i < 0 then "-" + IntToDecimal(-i) else NatToDecimal(i)
  }

  /** The number a string of digits denotes. */
  function DecimalValue(s: string): nat
    requires AllDigits(s)
    decreases |s|
  {
    if s == [] then 0 else DecimalValue(s[..|s| - 1]) * 10 + DigitValue(s[|s| - 1])
  }

  lemma {:induction false} NatToDecimalRoundTrip(n: nat)
    ensures DecimalValue(NatToDecimal(n)) == n
    decreases n
  {
    var s := NatToDecimal(n);
    if n >= 10 {
      NatToDecimalRoundTrip(n / 10);
      assert s[..|s| - 1] == NatToDecimal(n / 10);
    }
  }

  /** A rendered number starts with a minus sign exactly when it is negative. */
  lemma SignOf(i: int)
    ensures (IntToDecimal(i)[0] == '-') <==> i < 0
    ensures i < 0 ==> IntToDecimal(i)[1..] == NatToDecimal(-i)
    ensures i >= 0 ==> IntToDecimal(i) == NatToDecimal(i)
  {
    if i < 0 {
      assert IntToDecimal(-i) == NatToDecimal(-i);
    } else {
      assert IsDigit(IntToDecimal(i)[0]);
    }
  }

  /** Rendering is injective: distinct numbers print differently. */
  lemma IntToDecimalInjective(i: int, j: int)
    requires IntToDecimal(i) == IntToDecimal(j)
    ensures i == j
  {
    SignOf(i);
    SignOf(j);
    if i < 0 {
      assert NatToDecimal(-i) == NatToDecimal(-j);
      NatToDecimalRoundTrip(-i);
      NatToDecimalRoundTrip(-j);
    } else {
      assert NatToDecimal(i) == NatToDecimal(j);
      NatToDecimalRoundTrip(i);
      NatToDecimalRoundTrip(j);
    }
  }

  /** A rendered price reads back as its value: the digits alone, or after the minus sign. */
  lemma PriceRoundTrip(i: int)
    ensures i >= 0 ==> DecimalValue(IntToDecimal(i)) == i
    ensures i < 0 ==> DecimalValue(IntToDecimal(i)[1..]) == -i
  {
    SignOf(i);
    if i < 0 {
      NatToDecimalRoundTrip(-i);
    } else {
      NatToDecimalRoundTrip(i);
    }
  }

  /** The longest prefix of `s` made of digits. */
  function LeadingDigits(s: string): (r: string)
    ensures r <= s && AllDigits(r)
    ensures |r| < |s| ==> !IsDigit(s[|r|])
    decreases |s|
  {
    if s != [] && IsDigit(s[0]) then [s[0]] + LeadingDigits(s[1..]) else []
  }

  /** A digit string followed by a non-digit is read back exactly. */
  lemma {:induction false} LeadingDigitsOfDecimal(d: string, rest: string)
    requires AllDigits(d)
    requires rest == [] || !IsDigit(rest[0])
    ensures LeadingDigits(d + rest) == d
    decreases |d|
  {
    if d != [] {
      assert (d + rest)[1..] == d[1..] + rest;
      LeadingDigitsOfDecimal(d[1..], rest);
    } else {
      assert d + rest == rest;
    }
  }

  /** The count at the head of a message is recovered by reading its leading digits. */
  lemma LeadingCount(n: nat, rest: string)
    requires rest == [] || !IsDigit(rest[0])
    ensures DecimalValue(LeadingDigits(NatToDecimal(n) + rest)) == n
  {
    LeadingDigitsOfDecimal(NatToDecimal(n), rest);
    NatToDecimalRoundTrip(n);
  }
}
