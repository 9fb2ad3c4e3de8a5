/**
 * Decimal text of integers, as produced by PHP string interpolation and by
 * JavaScript template literals, and the leading-integer scan that both PHP's
 * `(int)` cast and JavaScript's `parseInt` perform on a string.
 */
module Decimal {
  import opened Wrappers

  predicate IsDigit(c: char) {
    '0' <= c <= '9'
  }

  predicate AllDigits(s: string) {
    forall i :: 0 <= i < |s| ==> IsDigit(s[i])
  }

  function DigitChar(d: nat): (c: char)
    requires d < 10
    ensures IsDigit(c) && DigitValue(c) == d
  {
    (('0' as int) + d) as char
  }

  function DigitValue(c: char): nat
    requires IsDigit(c)
  {
    (c as int) - ('0' as int)
  }

  /** The decimal digits of `n`, most significant first, without leading zeros. */
  function NatToDecimal(n: nat): (s: string)
    ensures |s| >= 1 && AllDigits(s)
    ensures s[0] == '0' ==> n == 0
    decreases n
  {
    if n < 10 then [DigitChar(n)] else NatToDecimal(n / 10) + [DigitChar(n % 10)]
  }

  /** Text of a signed integer: a minus sign before the digits of a negative one. */
  function IntToDecimal(i: int): (s: string)
    ensures |s| >= 1
    ensures i >= 0 ==> AllDigits(s)
    ensures i < 0 ==> s[0] == '-' && AllDigits(s[1..])
  {
    if i < 0 then "-" + NatToDecimal(-i) else NatToDecimal(i)
  }

  /** The number a string of digits denotes. */
  function DigitsValue(s: string): nat
    requires AllDigits(s)
  {
    if s == [] then 0 else 10 * DigitsValue(s[..|s| - 1]) + DigitValue(s[|s| - 1])
  }

  /** Length of the longest prefix of `s` made of digits. */
  function DigitRunLength(s: string): (n: nat)
    ensures n <= |s| && AllDigits(s[..n])
    ensures n < |s| ==> !IsDigit(s[n])
  {
    if s == [] || !IsDigit(s[0]) then 0
    else
      var m := DigitRunLength(s[1..]);
      assert s[..m + 1] == [s[0]] + s[1..][..m];
      m + 1
  }

  /** The white space that PHP skips before a numeric string. */
  predicate IsSpace(c: char) {
    c == ' ' || c == '\t' || c == '\n' || c == '\r' || c == '\U{B}' || c == '\U{C}'
  }

  function SkipSpace(s: string): (t: string)
    ensures |t| <= |s| && t == s[|s| - |t|..]
    ensures |t| > 0 ==> !IsSpace(t[0])
  {
    if s != [] && IsSpace(s[0]) then SkipSpace(s[1..]) else s
  }

  /**
   * The integer at the start of `s`: optional white space, an optional sign,
   * then at least one digit. None when there is no digit to read.
   */
  function LeadingInt(s: string): (r: Option<int>)
    ensures r.None? <==> DigitRunLength(UnsignedPart(SkipSpace(s))) == 0
  {
    var rest := UnsignedPart(SkipSpace(s));
    var n := DigitRunLength(rest);
    if n == 0 then None
    else
      var magnitude: int := DigitsValue(rest[..n]);
      Some(if NegativeSign(SkipSpace(s)) then -magnitude else magnitude)
  }

  predicate NegativeSign(t: string) {
    |t| > 0 && t[0] == '-'
  }

  function UnsignedPart(t: string): (u: string)
    ensures |u| <= |t|
  {
    if |t| > 0 && (t[0] == '-' || t[0] == '+') then t[1..] else t
  }

  lemma {:induction false} DigitsValueOfDecimal(n: nat)
    ensures DigitsValue(NatToDecimal(n)) == n
    decreases n
  {
    var s := NatToDecimal(n);
    if n < 10 {
      assert s[..|s| - 1] == [];
    } else {
      DigitsValueOfDecimal(n / 10);
      assert s[..|s| - 1] == NatToDecimal(n / 10);
    }
  }

  lemma {:induction false} DigitRunOfAllDigits(s: string)
    requires AllDigits(s)
    ensures DigitRunLength(s) == |s|
  {
    if s != [] {
      DigitRunOfAllDigits(s[1..]);
    }
  }

  /** Reading back the decimal text of a natural number gives that number. */
  lemma DecimalRoundTrip(n: nat)
    ensures LeadingInt(NatToDecimal(n)) == Some(n)
  {
    var s := NatToDecimal(n);
    assert SkipSpace(s) == s;
    assert UnsignedPart(s) == s;
    DigitRunOfAllDigits(s);
    assert s[..|s|] == s;
    DigitsValueOfDecimal(n);
  }

  /** Reading back the decimal text of any integer, negative ones included, gives that integer. */
  lemma IntDecimalRoundTrip(i: int)
    ensures LeadingInt(IntToDecimal(i)) == Some(i)
  {
    if i >= 0 {
      DecimalRoundTrip(i);
    } else {
      var d := NatToDecimal(-i);
      var s := IntToDecimal(i);
      assert s == "-" + d;
      assert SkipSpace(s) == s;
      assert UnsignedPart(s) == d;
      DigitRunOfAllDigits(d);
      assert d[..|d|] == d;
      DigitsValueOfDecimal(-i);
    }
  }

  /** Distinct numbers have distinct decimal texts. */
  lemma DecimalInjective(m: nat, n: nat)
    requires NatToDecimal(m) == NatToDecimal(n)
    ensures m == n
  {
    DigitsValueOfDecimal(m);
    DigitsValueOfDecimal(n);
  }
}
