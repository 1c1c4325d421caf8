/**
 * Decimal and hexadecimal numerals over `string`. Shared by the token
 * encoding (numerals terminated by '.') and by the model of JavaScript's
 * `parseInt` applied to route parameters.
 */
module Decimal {

  predicate IsDigit(c: char) { '0' <= c <= '9' }

  predicate AllDigits(s: string) { forall i :: 0 <= i < |s| ==> IsDigit(s[i]) }

  function DigitValue(c: char): (d: nat)
    requires IsDigit(c)
    ensures d < 10
  {
    (c as int) - ('0' as int)
  }

  function DigitChar(d: nat): (c: char)
    requires d < 10
    ensures IsDigit(c) && DigitValue(c) == d
  {
    (('0' as int) + d) as char
  }

  /** Value of a digit string read most-significant digit first. */
  function Value(s: string): nat
    requires AllDigits(s)
  {
    if s == [] then 0 else Value(s[..|s| - 1]) * 10 + DigitValue(s[|s| - 1])
  }

  /** The canonical decimal numeral of `n` (no sign, no leading zeros). */
  function Numeral(n: nat): (s: string)
    ensures |s| > 0 && AllDigits(s)
    decreases n
  {
    if n < 10 then [DigitChar(n)] else Numeral(n / 10) + [DigitChar(n % 10)]
  }

  /** Reading a numeral back gives the number it was written from. */
  lemma {:induction false} ValueOfNumeral(n: nat)
    ensures Value(Numeral(n)) == n
    decreases n
  {
    if n >= 10 {
      var s := Numeral(n);
      assert s[..|s| - 1] == Numeral(n / 10);
      ValueOfNumeral(n / 10);
    }
  }

  /** Hexadecimal digits as `parseInt` accepts them after a `0x` prefix. */
  predicate IsHexDigit(c: char) { IsDigit(c) || 'a' <= c <= 'f' || 'A' <= c <= 'F' }

  function HexDigitValue(c: char): (d: nat)
    requires IsHexDigit(c)
    ensures d < 16
  {
    if IsDigit(c) then DigitValue(c)
    else if 'a' <= c <= 'f' then (c as int) - ('a' as int) + 10
    else (c as int) - ('A' as int) + 10
  }

  predicate AllHexDigits(s: string) { forall i :: 0 <= i < |s| ==> IsHexDigit(s[i]) }

  function HexValue(s: string): nat
    requires AllHexDigits(s)
  {
    if s == [] then 0 else HexValue(s[..|s| - 1]) * 16 + HexDigitValue(s[|s| - 1])
  }

  /** Length of the longest prefix of `s` made of decimal digits. */
  function DigitPrefixLength(s: string): (k: nat)
    ensures k <= |s| && AllDigits(s[..k])
    ensures k < |s| ==> !IsDigit(s[k])
  {
    if s == [] || !IsDigit(s[0]) then 0
    else
      var k := 1 + DigitPrefixLength(s[1..]);
      assert s[..k] == [s[0]] + s[1..][..k - 1];
      k
  }

  /** Length of the longest prefix of `s` made of hexadecimal digits. */
  function HexPrefixLength(s: string): (k: nat)
    ensures k <= |s| && AllHexDigits(s[..k])
    ensures k < |s| ==> !IsHexDigit(s[k])
  {
    if s == [] || !IsHexDigit(s[0]) then 0
    else
      var k := 1 + HexPrefixLength(s[1..]);
      assert s[..k] == [s[0]] + s[1..][..k - 1];
      k
  }

  /** A string made only of digits is its own longest digit prefix. */
  lemma {:induction false} DigitPrefixOfDigits(s: string)
    requires AllDigits(s)
    ensures DigitPrefixLength(s) == |s|
  {
    if s != [] {
      DigitPrefixOfDigits(s[1..]);
    }
  }
}
