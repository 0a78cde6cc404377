/**
 * Decimal text for integers, as JavaScript renders and reads numbers:
 * `String(n)` for an integer `n` and `Number(s)` for a string of decimal
 * digits. The session store keeps the token expiry as such a string and
 * map layers are named by the decimal id of their activity.
 */
module Decimal {
  import opened Wrappers

  predicate IsDigit(c: char) {
    '0' <= c <= '9'
  }

  predicate AllDigits(s: string) {
    forall i :: 0 <= i < |s| ==> IsDigit(s[i])
  }

  function DigitChar(d: nat): (c: char)
    requires d < 10
    ensures IsDigit(c) && DigitValue(c) == d
  {
    (48 + d) as char
  }

  function DigitValue(c: char): nat
    requires IsDigit(c)
  {
    c as int - '0' as int
  }

  /** `String(n)` for a non-negative integer: its digits, most significant first, no leading zero. */
  function NatToString(n: nat): (s: string)
    ensures |s| > 0 && AllDigits(s)
    ensures |s| > 1 ==> s[0] != '0'
  {
    if n < 10 then [DigitChar(n)] else NatToString(n / 10) + [DigitChar(n % 10)]
  }

  /** `String(i)` for any integer: a minus sign before the digits of a negative value. */
  function IntToString(i: int): (s: string)
    ensures |s| > 0
    ensures i < 0 <==> s[0] == '-'
    ensures i >= 0 ==> AllDigits(s) && (|s| > 1 ==> s[0] != '0')
    ensures i < 0 ==> |s| > 1 && AllDigits(s[1..]) && (|s| > 2 ==> s[1] != '0')
  {
    if i < 0 then "-" + NatToString(-i) else NatToString(i)
  }

  /** The value of a string of decimal digits (leading zeros allowed, as `Number` allows them). */
  function ParseDigits(s: string): nat
    requires AllDigits(s)
  {
    if s == [] then 0 else ParseDigits(s[..|s| - 1]) * 10 + DigitValue(s[|s| - 1])
  }

  /**
   * `Number(s)` restricted to optionally signed decimal integers; `None`
   * stands for `NaN`. As in JavaScript, the empty string reads as 0.
   */
  function ParseNumber(s: string): (r: Option<int>)
    ensures r.Some? && r.value < 0 ==> |s| > 1 && s[0] == '-'
    ensures AllDigits(s) ==> r.Some? && r.value >= 0
    ensures s == "" ==> r == Some(0)
    ensures r.None? ==> s != "" && !AllDigits(s)
  {
    if s == [] then Some(0)
    else if s[0] == '-' then
      if |s| > 1 && AllDigits(s[1..]) then Some(0 - ParseDigits(s[1..]) as int) else None
    else if AllDigits(s) then Some(ParseDigits(s) as int)
    else None
  }

  lemma {:induction false} ParseDigitsOfNatToString(n: nat)
    ensures ParseDigits(NatToString(n)) == n
  {
    var s := NatToString(n);
    if n >= 10 {
      var prefix := NatToString(n / 10);
      assert s[..|s| - 1] == prefix;
      ParseDigitsOfNatToString(n / 10);
    }
  }

  /** Reading back what `String` wrote gives the same number. */
  lemma ParseNumberOfIntToString(i: int)
    ensures ParseNumber(IntToString(i)) == Some(i)
  {
    if i < 0 {
      var s := IntToString(i);
      assert s[1..] == NatToString(-i);
      ParseDigitsOfNatToString(-i);
    } else {
      ParseDigitsOfNatToString(i);
    }
  }

  /** Every integer reads back from its rendering. */
  lemma ParseNumberOfEveryIntToString()
    ensures forall i :: ParseNumber(IntToString(i)) == Some(i)
  {
    forall i ensures ParseNumber(IntToString(i)) == Some(i) {
      ParseNumberOfIntToString(i);
    }
  }

  /** Distinct integers have distinct decimal renderings. */
  lemma IntToStringInjective(a: int, b: int)
    requires IntToString(a) == IntToString(b)
    ensures a == b
  {
    ParseNumberOfIntToString(a);
    ParseNumberOfIntToString(b);
  }
}
