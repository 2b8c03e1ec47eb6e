/**
 * Base-16 reading of a catalog version string, as `parseInt(version, 16)` does
 * for a string made only of hexadecimal digits, and its inverse.
 */
module Hex {

  predicate IsHexDigit(c: char)
  {
    '0' <= c <= '9' || 'a' <= c <= 'f' || 'A' <= c <= 'F'
  }

  predicate AllHexDigits(s: string)
  {
    forall i :: 0 <= i < |s| ==> IsHexDigit(s[i])
  }

  /** A string `parseInt(s, 16)` reads in full: non-empty, hex digits only. */
  predicate IsHexString(s: string)
  {
    |s| > 0 && AllHexDigits(s)
  }

  /** The value of one digit; upper and lower case letters are equal. */
  function DigitValue(c: char): (d: nat)
    requires IsHexDigit(c)
    ensures d < 16
    ensures c == '0' <==> d == 0
  {
    if '0' <= c <= '9' then c as int - '0' as int
    else if 'a' <= c <= 'f' then c as int - 'a' as int + 10
    else c as int - 'A' as int + 10
  }

  /** The lower-case digit for a value below 16. */
  function DigitChar(d: nat): (c: char)
    requires d < 16
    ensures IsHexDigit(c) && DigitValue(c) == d
  {
    if d < 10 then ('0' as int + d) as char else ('a' as int + d - 10) as char
  }

  function Pow16(k: nat): (p: nat)
    ensures p >= 1
  {
    if k == 0 then 1 else 16 * Pow16(k - 1)
  }

  /** The base-16 value of `s`, most significant digit first. */
  function HexValue(s: string): (n: nat)
    requires AllHexDigits(s)
    ensures n < Pow16(|s|)
  {
    if |s| == 0 then 0
    else
      var m := HexValue(s[..|s| - 1]);
      var d := DigitValue(s[|s| - 1]);
      assert m * 16 <= (Pow16(|s| - 1) - 1) * 16;
      m * 16 + d
  }

  /** The shortest lower-case hex spelling of `n`. */
  function ToHex(n: nat): (s: string)
    ensures IsHexString(s)
    ensures |s| > 1 ==> s[0] != '0'
  {
    if n < 16 then [DigitChar(n)] else ToHex(n / 16) + [DigitChar(n % 16)]
  }

  /** Reading back a spelled-out version gives the version. */
  lemma {:induction false} HexValueToHex(n: nat)
    ensures HexValue(ToHex(n)) == n
  {
    var s := ToHex(n);
    if n < 16 {
      assert s[..0] == [];
    } else {
      assert s[..|s| - 1] == ToHex(n / 16);
      HexValueToHex(n / 16);
    }
  }

  /** Leading zeros do not change the value: "0002" reads as 2, like "2". */
  lemma {:induction false} HexValueLeadingZero(s: string)
    requires AllHexDigits(s)
    ensures AllHexDigits("0" + s) && HexValue("0" + s) == HexValue(s)
  {
    var t := "0" + s;
    assert forall i :: 0 <= i < |t| ==> IsHexDigit(t[i]) by {
      forall i | 0 <= i < |t| ensures IsHexDigit(t[i]) {
        if i > 0 { assert t[i] == s[i - 1]; }
      }
    }
    if |s| == 0 {
      assert t[..0] == [];
    } else {
      assert t[..|t| - 1] == "0" + s[..|s| - 1];
      HexValueLeadingZero(s[..|s| - 1]);
    }
  }
}
