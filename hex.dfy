/** Python's `hex()` on integers: lowercase hexadecimal digits without
    leading zeros, prefixed with "0x", and with "-0x" for negative numbers. */
module HexText {

  datatype Option<T> = None | Some(value: T)

  /** True of the characters `hex()` writes as digits. */
  predicate IsHexDigit(c: char)
  {
    '0' <= c <= '9' || 'a' <= c <= 'f'
  }

  /** The digit for a value below 16. */
  function Digit(d: nat): (c: char)
    requires d < 16
    ensures IsHexDigit(c)
  {
    if d < 10 then (48 + d) as char else (87 + d) as char
  }

  /** The value of a digit character; anything else reads as 0. */
  function DigitValue(c: char): (d: nat)
    ensures d < 16
  {
    if '0' <= c <= '9' then (c as int - 48) as nat
    else if 'a' <= c <= 'f' then (c as int - 87) as nat
    else 0
  }

  /** The digits of n, most significant first, without leading zeros. */
  function HexDigits(n: nat): (s: string)
    ensures |s| >= 1
    ensures forall i :: 0 <= i < |s| ==> IsHexDigit(s[i])
    ensures s[0] == '0' ==> n == 0
  {
    if n < 16 then [Digit(n)] else HexDigits(n / 16) + [Digit(n % 16)]
  }

  /** Appending a digit to a non-zero number appends its digit character. */
  lemma HexDigitsAppend(n: nat, d: nat)
    requires n >= 1 && d < 16
    ensures HexDigits(16 * n + d) == HexDigits(n) + [Digit(d)]
  {
  }

  /** The number a string of digits denotes, read most significant first. */
  function DigitsValue(s: string): nat
  {
    if s == [] then 0 else 16 * DigitsValue(s[..|s| - 1]) + DigitValue(s[|s| - 1])
  }

  /** `hex(i)`. */
  function Hex(i: int): (s: string)
  {
    if i < 0 then "-0x" + HexDigits(-i) else "0x" + HexDigits(i)
  }

  /** Reads back a string in the form `hex()` writes; None for any other. */
  function HexValue(s: string): Option<int>
  {
    if |s| > 3 && s[..3] == "-0x" && forall i :: 3 <= i < |s| ==> IsHexDigit(s[i]) then
      Some(0 - DigitsValue(s[3..]) as int)
    else if |s| > 2 && s[..2] == "0x" && forall i :: 2 <= i < |s| ==> IsHexDigit(s[i]) then
      Some(DigitsValue(s[2..]))
    else
      None
  }

  /** Each digit reads back as the value it was written for. */
  lemma DigitRoundTrip(d: nat)
    requires d < 16
    ensures DigitValue(Digit(d)) == d
  {
  }

  /** The digits of n read back as n. */
  lemma {:induction false} HexDigitsRoundTrip(n: nat)
    ensures DigitsValue(HexDigits(n)) == n
  {
    var s := HexDigits(n);
    if n < 16 {
      DigitRoundTrip(n);
      assert s[..|s| - 1] == [];
    } else {
      HexDigitsRoundTrip(n / 16);
      DigitRoundTrip(n % 16);
      assert s[..|s| - 1] == HexDigits(n / 16);
    }
  }

  /** `hex()` loses nothing: every integer reads back from its rendering. */
  lemma HexRoundTrip(i: int)
    ensures HexValue(Hex(i)) == Some(i)
  {
    var s := Hex(i);
    if i < 0 {
      HexDigitsRoundTrip(-i);
      assert s[..3] == "-0x" && s[3..] == HexDigits(-i);
    } else {
      HexDigitsRoundTrip(i);
      assert s[..2] == "0x" && s[2..] == HexDigits(i);
      assert s[..3] != "-0x" by { assert s[0] == '0'; }
    }
  }

  /** `hex(0x100)` is "0x100". */
  lemma HexOfOneWeight()
    ensures Hex(0x100) == "0x100"
  {
    HexDigitsAppend(0x1, 0);
    HexDigitsAppend(0x10, 0);
  }

  /** `hex(0x30101)` is "0x30101". */
  lemma HexOfTwoWeights()
    ensures Hex(0x30101) == "0x30101"
  {
    HexDigitsAppend(0x3, 0);
    HexDigitsAppend(0x30, 1);
    HexDigitsAppend(0x301, 0);
    HexDigitsAppend(0x3010, 1);
  }

  /** `hex(0xa050202)` is "0xa050202". */
  lemma HexOfThreeWeights()
    ensures Hex(0xa050202) == "0xa050202"
  {
    HexDigitsAppend(0xa, 0);
    HexDigitsAppend(0xa0, 5);
    HexDigitsAppend(0xa05, 0);
    HexDigitsAppend(0xa050, 2);
    HexDigitsAppend(0xa0502, 0);
    HexDigitsAppend(0xa05020, 2);
  }

  /** Different integers render as different strings. */
  lemma HexInjective(i: int, j: int)
    requires Hex(i) == Hex(j)
    ensures i == j
  {
    HexRoundTrip(i);
    HexRoundTrip(j);
  }
}
