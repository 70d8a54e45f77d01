/** The JavaScript string operations the relayer applies to hex strings. */
module Hex {
  import opened Wrappers

  predicate IsHexDigit(c: char) {
    '0' <= c <= '9' || 'a' <= c <= 'f' || 'A' <= c <= 'F'
  }

  predicate AllHex(s: string) {
    forall i :: 0 <= i < |s| ==> IsHexDigit(s[i])
  }

  /** toLowerCase on ASCII; characters outside A-Z are kept. */
  function LowerChar(c: char): char {
    if 'A' <= c <= 'Z' then ((c as int) + 32) as char else c
  }

  function Lower(s: string): (r: string)
    ensures |r| == |s|
    ensures forall i :: 0 <= i < |s| ==> r[i] == LowerChar(s[i])
  {
    seq(|s|, i requires 0 <= i < |s| => LowerChar(s[i]))
  }

  /** String.prototype.slice for non-negative bounds: both ends are clamped to the length. */
  function Slice(s: string, from: nat, to: nat): (r: string)
    requires from <= to
    ensures |r| == Min(to, |s|) - Min(from, |s|)
    ensures forall i :: 0 <= i < |r| ==> r[i] == s[from + i]
  {
    s[Min(from, |s|)..Min(to, |s|)]
  }

  function SliceFrom(s: string, from: nat): string { s[Min(from, |s|)..] }

  predicate Has0x(s: string) { |s| >= 2 && s[0] == '0' && s[1] == 'x' }

  function Strip0x(s: string): string { if Has0x(s) then s[2..] else s }

  /** The form in which two byte strings are compared: no prefix, lower case. */
  function Norm(s: string): string { Lower(Strip0x(s)) }

  /** "0x" followed by whole bytes of hex: how on-chain `bytes` values are decoded. */
  predicate IsHexBytes(s: string) {
    Has0x(s) && |s| % 2 == 0 && AllHex(s[2..])
  }

  function DigitVal(c: char): (v: nat)
    requires IsHexDigit(c)
    ensures v < 16
  {
    if '0' <= c <= '9' then (c as int) - 48
    else if 'a' <= c <= 'f' then (c as int) - 87
    else (c as int) - 55
  }

  /** parseInt(s, 16) / BigInt("0x" + s) on a string of hex digits, most significant first. */
  function HexVal(s: string): nat
    requires AllHex(s)
  {
    if s == "" then 0 else HexVal(s[..|s| - 1]) * 16 + DigitVal(s[|s| - 1])
  }

  function Zeros(n: nat): (r: string)
    ensures |r| == n
    ensures forall i :: 0 <= i < n ==> r[i] == '0'
  {
    seq(n, _ => '0')
  }

  /** The value of a hex string depends only on its lower-case form. */
  lemma {:induction false} HexValLower(a: string, b: string)
    requires AllHex(a) && AllHex(b) && Lower(a) == Lower(b)
    ensures HexVal(a) == HexVal(b)
  {
    if a != "" {
      var n := |a| - 1;
      assert |a| == |Lower(a)| == |b|;
      assert Lower(a)[n] == Lower(b)[n];
      assert DigitVal(a[n]) == DigitVal(b[n]);
      assert Lower(a[..n]) == Lower(a)[..n] == Lower(b)[..n] == Lower(b[..n]);
      HexValLower(a[..n], b[..n]);
    }
  }

  /** The capitals become their small letters and every other character is kept. */
  lemma LettersAreLowered(i: nat, c: char)
    requires i < 26
    ensures LowerChar("ABCDEFGHIJKLMNOPQRSTUVWXYZ"[i]) == "abcdefghijklmnopqrstuvwxyz"[i]
    ensures c !in "ABCDEFGHIJKLMNOPQRSTUVWXYZ" ==> LowerChar(c) == c
  {
    if 'A' <= c <= 'Z' {
      assert c == "ABCDEFGHIJKLMNOPQRSTUVWXYZ"[(c as int) - 65];
    }
  }

  /** A leading 0x is dropped once. */
  lemma PrefixIsDropped(s: string)
    ensures Strip0x("0x" + s) == s && (!("0x" <= s) ==> Strip0x(s) == s)
  {
  }

  /** The digits count from 0 to 15, a letter the same in either case. */
  lemma DigitsCount(i: nat)
    requires i < 16
    ensures IsHexDigit("0123456789abcdef"[i]) && DigitVal("0123456789abcdef"[i]) == i
    ensures IsHexDigit("0123456789ABCDEF"[i]) && DigitVal("0123456789ABCDEF"[i]) == i
  {
  }
}
