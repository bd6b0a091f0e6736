/**
 * Decimal text of numbers, as Python's str() writes an int or a float with
 * at most two decimals, and the readers that take such text back.
 */
module Decimal {
  import opened Wrappers

  predicate IsDigit(c: char) { '0' <= c <= '9' }

  function DigitValue(c: char): nat
    requires IsDigit(c)
  {
    c as int - '0' as int
  }

  function DigitChar(d: nat): (c: char)
    requires d < 10
    ensures IsDigit(c) && DigitValue(c) == d
  {
    (d + '0' as int) as char
  }

  predicate AllDigits(s: string) { forall i :: 0 <= i < |s| ==> IsDigit(s[i]) }

  /** The value of a string of decimal digits, most significant digit first. */
  function DigitsValue(s: string): nat
    requires AllDigits(s)
    decreases |s|
  {
    if s == [] then 0 else 10 * DigitsValue(s[..|s| - 1]) + DigitValue(s[|s| - 1])
  }

  /** str(n) for a non-negative int; NatToStringDigits says what the text is. */
  function NatToString(n: nat): (s: string)
    ensures |s| >= 1
    decreases n
  {
    if n < 10 then [DigitChar(n)] else NatToString(n / 10) + [DigitChar(n % 10)]
  }

  /**
   * The text str(n) is a non-empty run of digits, with no leading zero, and
   * the digits read back as n. Stated apart from NatToString so that the
   * callers which only build text do not carry these facts.
   */
  lemma {:induction false} NatToStringDigits(n: nat)
    ensures AllDigits(NatToString(n))
    ensures NatToString(n)[0] == '0' ==> NatToString(n) == "0"
    ensures DigitsValue(NatToString(n)) == n
    decreases n
  {
    if n >= 10 {
      NatToStringDigits(n / 10);
      var front := NatToString(n / 10);
      assert NatToString(n)[..|front|] == front;
    }
  }

  /** str(i) for any int: a minus sign exactly for negative values. */
  function IntToString(i: int): (s: string)
    ensures |s| >= 1 && (s[0] == '-' <==> i < 0)
  {
    NatToStringDigits(if i < 0 then -i else i);
    if i < 0 then "-" + NatToString(-i) else NatToString(i)
  }

  /** The number of decimal digits at the head of s. */
  function LeadingDigits(s: string): (k: nat)
    ensures k <= |s| && AllDigits(s[..k])
    ensures k < |s| ==> !IsDigit(s[k])
  {
    if s == [] || !IsDigit(s[0]) then 0
    else
      var k := 1 + LeadingDigits(s[1..]);
      assert forall i :: 1 <= i < k ==> s[..k][i] == s[1..][..k - 1][i - 1];
      k
  }

  /** Reads the number written at the head of s; None when s does not start with a digit. */
  function ReadNat(s: string): Option<(nat, string)>
  {
    var k := LeadingDigits(s);
    if k == 0 then None else Some((DigitsValue(s[..k]), s[k..]))
  }

  /** Reads an optionally negative number at the head of s. */
  function ReadInt(s: string): Option<(int, string)>
  {
    if |s| >= 1 && s[0] == '-' then
      match ReadNat(s[1..])
      case None => None
      case Some((n, rest)) => Some((-(n as int), rest))
    else
      match ReadNat(s)
      case None => None
      case Some((n, rest)) => Some((n, rest))
  }

  lemma {:induction false} LeadingDigitsOfNumber(d: string, rest: string)
    requires |d| >= 1 && AllDigits(d)
    requires rest == [] || !IsDigit(rest[0])
    ensures LeadingDigits(d + rest) == |d|
  {
    var s := d + rest;
    assert forall i :: 0 <= i < |d| ==> s[i] == d[i];
    assert |d| < |s| ==> s[|d|] == rest[0];
    assert forall k :: |d| < k <= |s| ==> s[..k][|d|] == s[|d|];
  }

  /** What str() writes for a non-negative int, ReadNat reads back, when no digit follows it. */
  lemma ReadNatRoundTrip(n: nat, rest: string)
    requires rest == [] || !IsDigit(rest[0])
    ensures ReadNat(NatToString(n) + rest) == Some((n, rest))
  {
    var d := NatToString(n);
    NatToStringDigits(n);
    LeadingDigitsOfNumber(d, rest);
    assert (d + rest)[..|d|] == d;
    assert (d + rest)[|d|..] == rest;
  }

  /** The same for any int written by str(). */
  lemma ReadIntRoundTrip(i: int, rest: string)
    requires rest == [] || !IsDigit(rest[0])
    ensures ReadInt(IntToString(i) + rest) == Some((i, rest))
  {
    var s := IntToString(i) + rest;
    if i < 0 {
      ReadNegativeRoundTrip(-i, rest);
    } else {
      var digits := NatToString(i);
      assert s == digits + rest && s[0] == digits[0];
      ReadNatRoundTrip(i, rest);
    }
  }

  lemma {:induction false} ReadNegativeRoundTrip(n: nat, rest: string)
    requires n > 0
    requires rest == [] || !IsDigit(rest[0])
    ensures ReadInt("-" + NatToString(n) + rest) == Some((-(n as int), rest))
  {
    var tail := NatToString(n) + rest;
    assert "-" + NatToString(n) + rest == "-" + tail;
    assert ("-" + tail)[1..] == tail;
    ReadNatRoundTrip(n, rest);
  }

  /**
   * str() of the float round(x, 2) for a value of h hundredths: the shortest
   * decimal that names it, which keeps one fractional digit for whole values
   * ("3.0") and drops a trailing zero otherwise ("1.5", "0.05").
   */
  function FormatHundredths(h: nat): (s: string)
    ensures |s| >= 3 && (s[|s| - 2] == '.' || s[|s| - 3] == '.')
    ensures s[|s| - 1] == '0' ==> s[|s| - 2] == '.'
  {
    var whole := h / 100;
    var frac := h % 100;
    NatToString(whole) + "."
      + (if frac == 0 then "0"
         else if frac % 10 == 0 then [DigitChar(frac / 10)]
         else [DigitChar(frac / 10), DigitChar(frac % 10)])
  }

  /** Reads text written by FormatHundredths back as a count of hundredths. */
  function ReadHundredths(s: string): Option<nat>
  {
    match ReadNat(s)
    case None => None
    case Some((whole, rest)) =>
      if |rest| == 2 && rest[0] == '.' && IsDigit(rest[1]) then
        Some(100 * whole + 10 * DigitValue(rest[1]))
      else if |rest| == 3 && rest[0] == '.' && IsDigit(rest[1]) && IsDigit(rest[2]) then
        Some(100 * whole + 10 * DigitValue(rest[1]) + DigitValue(rest[2]))
      else None
  }

  lemma HundredthsRoundTrip(h: nat)
    ensures ReadHundredths(FormatHundredths(h)) == Some(h)
  {
    var whole, frac := h / 100, h % 100;
    var tail := FormatHundredths(h)[|NatToString(whole)|..];
    assert FormatHundredths(h) == NatToString(whole) + tail;
    ReadNatRoundTrip(whole, tail);
  }
}
