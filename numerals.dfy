/**
 * Decimal and hexadecimal text of unsigned integers, as written by the C runtime's
 * `_ultot_s`/`_ui64tot_s` (radix 10) and by the `%u` and `%02X` printf conversions.
 */
module Numerals {

  /** Digit character for 0..9. */
  function DigitChar(d: nat): (c: char)
    requires d < 10
    ensures '0' <= c <= '9'
  {
    ('0' as int + d) as char
  }

  /** Decimal text of n, most significant digit first, no leading zeros ("0" for zero). */
  function DecimalDigits(n: nat): (s: string)
    ensures 1 <= |s|
    ensures forall i :: 0 <= i < |s| ==> '0' <= s[i] <= '9'
  {
    if n < 10 then [DigitChar(n)] else DecimalDigits(n / 10) + [DigitChar(n % 10)]
  }

  /** The number a string of decimal digits denotes. */
  function DecimalValue(s: string): nat
    requires forall i :: 0 <= i < |s| ==> '0' <= s[i] <= '9'
  {
    if s == [] then 0 else 10 * DecimalValue(s[..|s| - 1]) + (s[|s| - 1] as int - '0' as int)
  }

  /** Reading the decimal text back gives the number written. */
  lemma {:induction false} DecimalRoundTrip(n: nat)
    ensures DecimalValue(DecimalDigits(n)) == n
  {
    if n >= 10 {
      var s := DecimalDigits(n);
      assert s[..|s| - 1] == DecimalDigits(n / 10);
      DecimalRoundTrip(n / 10);
    }
  }

  /** n has at most k decimal digits when n < 10^k (k >= 1: zero is written "0"). */
  lemma {:induction false} DecimalLength(n: nat, k: nat)
    requires 1 <= k && n < Pow10(k)
    ensures |DecimalDigits(n)| <= k
  {
    if n >= 10 {
      assert k >= 2;
      DecimalLength(n / 10, k - 1);
    }
  }

  function Pow10(k: nat): (p: nat)
    ensures p >= 1
  {
    if k == 0 then 1 else 10 * Pow10(k - 1)
  }

  /** Upper-case hexadecimal digit, as `%X` prints it. */
  function HexChar(d: nat): (c: char)
    requires d < 16
  {
    if d < 10 then ('0' as int + d) as char else ('A' as int + d - 10) as char
  }

  /** Value of an upper-case hexadecimal digit; none for any other character. */
  function HexCharValue(c: char): int
  {
    if '0' <= c <= '9' then c as int - '0' as int
    else if 'A' <= c <= 'F' then c as int - 'A' as int + 10
    else -1
  }

  /** `%02X` of a byte: exactly two upper-case hexadecimal digits. */
  function Hex2(b: nat): (s: string)
    requires b < 256
    ensures |s| == 2
  {
    [HexChar(b / 16), HexChar(b % 16)]
  }

  /** The two digits read back as the byte they print. */
  lemma Hex2RoundTrip(b: nat)
    requires b < 256
    ensures HexCharValue(Hex2(b)[0]) * 16 + HexCharValue(Hex2(b)[1]) == b
    ensures forall i :: 0 <= i < 2 ==> ('0' <= Hex2(b)[i] <= '9' || 'A' <= Hex2(b)[i] <= 'F')
  {
  }
}
