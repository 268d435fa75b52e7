/**
 * Number formats used by the decoder: base-16 digit strings (the part of a
 * token that `strtol(..., 16)` consumes), powers, and the bitwise AND that
 * the status cascade applies to the parsed status word.
 */
module Numeric {

  function Pow(base: nat, exp: nat): (p: nat)
    ensures base > 0 ==> p > 0
  {
    if exp == 0 then 1 else base * Pow(base, exp - 1)
  }

  predicate IsHexDigit(c: char)
  {
    '0' <= c <= '9' || 'a' <= c <= 'f' || 'A' <= c <= 'F'
  }

  predicate AllHex(s: string)
  {
    forall i :: 0 <= i < |s| ==> IsHexDigit(s[i])
  }

  /** The value of one hexadecimal digit; upper and lower case letters agree. */
  function DigitValue(c: char): (d: nat)
    requires IsHexDigit(c)
    ensures d < 16
  {
    if c <= '9' then c as int - '0' as int
    else if c <= 'F' then c as int - 'A' as int + 10
    else c as int - 'a' as int + 10
  }

  /** The digit character for a value below 16 (upper case, as the instrument sends it). */
  function DigitChar(d: nat): (c: char)
    requires d < 16
    ensures IsHexDigit(c) && DigitValue(c) == d
  {
    if d < 10 then ('0' as int + d) as char else ('A' as int + d - 10) as char
  }

  /** The number a string of hexadecimal digits denotes, most significant digit first. */
  function HexValue(s: string): (v: nat)
    requires AllHex(s)
    ensures v < Pow(16, |s|)
  {
    if s == [] then 0
    else
      var high := HexValue(s[..|s| - 1]);
      assert high * 16 <= (Pow(16, |s| - 1) - 1) * 16;
      high * 16 + DigitValue(s[|s| - 1])
  }

  /**
   * The longest prefix of `s` made of hexadecimal digits: the characters
   * `strtol` with base 16 consumes when the text starts with a digit.
   */
  function HexPrefix(s: string): (p: string)
    ensures p <= s && AllHex(p)
    ensures |p| < |s| ==> !IsHexDigit(s[|p|])
  {
    if s != [] && IsHexDigit(s[0]) then [s[0]] + HexPrefix(s[1..]) else []
  }

  lemma {:induction false} PowMonotone(base: nat, i: nat, j: nat)
    requires base > 0 && i <= j
    ensures Pow(base, i) <= Pow(base, j)
    decreases j
  {
    if i < j {
      PowMonotone(base, i, j - 1);
    }
  }

  /**
   * The number `strtol(text, &end, 16)` returns for text that starts with a
   * digit or ends before one: the value of its leading hexadecimal digits,
   * or 0 when there are none.
   */
  function ParseHex(text: string): (v: nat)
    ensures v < Pow(16, |text|)
  {
    var digits := HexPrefix(text);
    PowMonotone(16, |digits|, |text|);
    HexValue(digits)
  }

  /** Text made only of digits is consumed whole. */
  lemma {:induction false} HexPrefixOfDigits(s: string)
    requires AllHex(s)
    ensures HexPrefix(s) == s
  {
    if s != [] {
      HexPrefixOfDigits(s[1..]);
      assert [s[0]] + s[1..] == s;
    }
  }

  /** Parsing stops at the first character that is not a digit. */
  lemma {:induction false} HexPrefixStops(digits: string, rest: string)
    requires AllHex(digits) && (rest != [] ==> !IsHexDigit(rest[0]))
    ensures HexPrefix(digits + rest) == digits
  {
    if digits == [] {
      assert digits + rest == rest;
    } else {
      assert (digits + rest)[1..] == digits[1..] + rest;
      HexPrefixStops(digits[1..], rest);
      assert [digits[0]] + digits[1..] == digits;
    }
  }

  /** `width` hexadecimal digits spelling `n`: the inverse of HexValue. */
  function HexDigits(n: nat, width: nat): (s: string)
    requires n < Pow(16, width)
    ensures |s| == width && AllHex(s)
    ensures HexValue(s) == n
  {
    if width == 0 then []
    else
      var high := HexDigits(n / 16, width - 1);
      var s := high + [DigitChar(n % 16)];
      assert s[..|s| - 1] == high;
      s
  }

  /** Bitwise AND of two non-negative integers, bit by bit from the least significant one. */
  function BitAnd(x: nat, y: nat): nat
  {
    if x == 0 || y == 0 then 0
    else 2 * BitAnd(x / 2, y / 2) + (if x % 2 == 1 && y % 2 == 1 then 1 else 0)
  }

  /** Bit `k` of `x` is set (bit 0 is the least significant one). */
  predicate BitSet(x: nat, k: nat)
  {
    if k == 0 then x % 2 == 1 else BitSet(x / 2, k - 1)
  }

  /** Masking with a single bit keeps exactly that bit of `x`. */
  lemma {:induction false} BitAndSingleBit(x: nat, k: nat)
    ensures BitAnd(x, Pow(2, k)) == if BitSet(x, k) then Pow(2, k) else 0
  {
    if x == 0 {
      if k > 0 {
        BitAndSingleBit(0, k - 1);
      }
    } else if k == 0 {
      assert BitAnd(x / 2, 0) == 0;
    } else {
      var p := Pow(2, k - 1);
      assert Pow(2, k) == 2 * p;
      assert (2 * p) / 2 == p && (2 * p) % 2 == 0;
      BitAndSingleBit(x / 2, k - 1);
    }
  }

}
