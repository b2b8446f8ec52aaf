/**
 * String helpers used to build the hash preimages: the `0x` prefix test,
 * AssemblyScript's `substr`, `padStart` with '0', and `padHex`.
 */
module Hex {

  /** The characters `Bytes.toHex` and `BigInt.toHexString` emit after `0x`. */
  const HexDigitChars: string := "0123456789abcdef"

  predicate IsHexDigits(s: string)
  {
    forall i :: 0 <= i < |s| ==> s[i] in HexDigitChars
  }

  /** A run of `n` '0' characters: the fill that `padStart(length, '0')` inserts. */
  function Zeros(n: nat): (r: string)
    ensures |r| == n
    ensures forall i :: 0 <= i < n ==> r[i] == '0'
  {
    if n == 0 then "" else Zeros(n - 1) + "0"
  }

  /** `s.startsWith('0x')`. */
  predicate HasHexPrefix(s: string)
  {
    |s| >= 2 && s[..2] == "0x"
  }

  /** The string with one leading `0x` removed, if it has one. */
  function StripHexPrefix(s: string): (r: string)
    ensures HasHexPrefix(s) ==> s == "0x" + r
    ensures !HasHexPrefix(s) ==> r == s
  {
    if HasHexPrefix(s) then s[2..] else s
  }

  /**
   * AssemblyScript `s.substr(start)` for a non-negative start: the suffix
   * beginning at `start`, or the empty string when `start` is past the end.
   */
  function Substr(s: string, start: nat): (r: string)
    ensures start <= |s| ==> s == s[..start] + r
    ensures start > |s| ==> r == ""
  {
    if start <= |s| then s[start..] else ""
  }

  /**
   * `s.padStart(length, '0')`: a target length at or below the current
   * length (negative included) returns `s` itself.
   */
  function PadStart(s: string, length: int): (r: string)
    ensures length <= |s| ==> r == s
    ensures |s| < length ==> |r| == length && r[length - |s|..] == s
  {
    if length <= |s| then s else Zeros(length - |s|) + s
  }

  /** `padHex(hex, length)`: drop one leading `0x`, then left-pad with '0' to `length`. */
  function PadHex(hex: string, length: int): (r: string)
    ensures |r| >= length && |r| >= |StripHexPrefix(hex)|
  {
    PadStart(StripHexPrefix(hex), length)
  }

  /**
   * What `padHex` returns: the digits (the input less one leading `0x`)
   * survive as a suffix, only '0's are added in front, the length is the
   * larger of the target and the digits' length, and an input already at or
   * over the target is returned as it is, never cut off.
   */
  lemma PadHexShape(hex: string, length: int)
    ensures var s, r := StripHexPrefix(hex), PadHex(hex, length);
      && |r| == (if length <= |s| then |s| else length)
      && |s| <= |r| && r[|r| - |s|..] == s
      && (forall i :: 0 <= i < |r| - |s| ==> r[i] == '0')
      && (length <= |s| ==> r == s)
  {
  }

  /**
   * On bare hex digits that fit, `padHex` is exactly the zero fill followed by
   * the digits, with or without a `0x` in front of them: a digit string
   * never begins with `0x`, because 'x' is not a digit.
   */
  lemma PadHexDigits(d: string, length: nat)
    requires IsHexDigits(d) && |d| <= length
    ensures PadHex(d, length) == Zeros(length - |d|) + d
    ensures PadHex("0x" + d, length) == Zeros(length - |d|) + d
  {
    if |d| >= 2 {
      assert d[1] in HexDigitChars;
      assert d[..2][1] == d[1];
    }
    assert !HasHexPrefix(d);
    assert ("0x" + d)[..2] == "0x";
    assert ("0x" + d)[2..] == d;
  }
}
