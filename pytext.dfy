/**
 * The few Python `str` operations the modelled code relies on: ASCII case
 * mapping (`str.lower`, `str.upper` on the characters this model deals with),
 * `str.lstrip` of one character, `str.endswith`, `in` on strings, the
 * whitespace class of `str.isspace` and of `\s` in `re`, the narrower one
 * `int()` skips, and hexadecimal digits and numbers.
 */
module PyText {
  import opened Wrappers

  function LowerChar(c: char): char {
    if 'A' <= c <= 'Z' then (c as int + 32) as char else c
  }

  function UpperChar(c: char): char {
    if 'a' <= c <= 'z' then (c as int - 32) as char else c
  }

  /** Case-insensitive equality of two characters, as `re.IGNORECASE` applies it to ASCII. */
  predicate CiEq(a: char, b: char) {
    LowerChar(a) == LowerChar(b)
  }

  function Lower(s: string): string {
    seq(|s|, i requires 0 <= i < |s| => LowerChar(s[i]))
  }

  function Upper(s: string): string {
    seq(|s|, i requires 0 <= i < |s| => UpperChar(s[i]))
  }

  /** `s.lstrip(c)` for a single character `c`. */
  function LStrip(s: string, c: char): string
    decreases |s|
  {
    if |s| > 0 && s[0] == c then LStrip(s[1..], c) else s
  }

  /** The characters for which Python's `str.isspace()` holds, which is also the `\s` of a `str` pattern. */
  predicate IsPySpace(c: char) {
    c == ' ' || ('\t' <= c <= '\r') || ('\U{1c}' <= c <= '\U{1f}')
    || c == '\U{85}' || c == '\U{a0}' || c == '\U{1680}' || ('\U{2000}' <= c <= '\U{200a}')
    || c == '\U{2028}' || c == '\U{2029}' || c == '\U{202f}' || c == '\U{205f}' || c == '\U{3000}'
  }

  /**
   * The whitespace `int()` skips around a literal: the ASCII space and
   * `\t` to `\r`, and the non-ASCII whitespace, which `int()` first turns
   * into spaces. The ASCII separators `\x1c` to `\x1f` count for
   * `str.isspace()` but are not skipped.
   */
  predicate IsIntSpace(c: char) {
    IsPySpace(c) && !('\U{1c}' <= c <= '\U{1f}')
  }

  predicate IsHexDigit(c: char) {
    '0' <= c <= '9' || 'a' <= c <= 'f' || 'A' <= c <= 'F'
  }

  predicate IsLowerHexDigit(c: char) {
    '0' <= c <= '9' || 'a' <= c <= 'f'
  }

  predicate AllHex(s: string) {
    forall i :: 0 <= i < |s| ==> IsHexDigit(s[i])
  }

  function DigitValue(c: char): (v: nat)
    requires IsHexDigit(c)
    ensures v < 16
  {
    if '0' <= c <= '9' then c as int - '0' as int
    else if 'a' <= c <= 'f' then c as int - 'a' as int + 10
    else c as int - 'A' as int + 10
  }

  /** The number a string of hexadecimal digits denotes, most significant digit first. */
  function HexValue(s: string): nat
    requires AllHex(s)
    decreases |s|
  {
    if s == [] then 0 else 16 * HexValue(s[..|s| - 1]) + DigitValue(s[|s| - 1])
  }

  /** `s.strip()` with the whitespace of `int()`. */
  function StripIntSpace(s: string): string
    decreases |s|
  {
    if |s| > 0 && IsIntSpace(s[0]) then StripIntSpace(s[1..])
    else if |s| > 0 && IsIntSpace(s[|s| - 1]) then StripIntSpace(s[..|s| - 1])
    else s
  }

  /**
   * `int(s, 16)` for literals without the `0x` prefix and `_` separators:
   * whitespace on either side, an optional sign, then one or more
   * hexadecimal digits. `None` stands for the `ValueError`.
   */
  function IntBase16(s: string): Option<int> {
    var t := StripIntSpace(s);
    if |t| > 1 && (t[0] == '+' || t[0] == '-') && AllHex(t[1..]) then
      Some(if t[0] == '-' then -(HexValue(t[1..]) as int) else HexValue(t[1..]))
    else if |t| > 0 && AllHex(t) then Some(HexValue(t))
    else None
  }

  /** The digit Python's `x` format writes: `0`-`9`, then lower-case `a`-`f`. */
  function HexChar(v: nat): (c: char)
    requires v < 16
    ensures IsLowerHexDigit(c)
  {
    if v < 10 then ('0' as int + v) as char else ('a' as int + v - 10) as char
  }

  lemma DigitRoundTrip(v: nat)
    requires v < 16
    ensures DigitValue(HexChar(v)) == v
  {
  }

  lemma CharRoundTrip(c: char)
    requires IsHexDigit(c)
    ensures HexChar(DigitValue(c)) == LowerChar(c)
  {
  }

  predicate StartsWith(s: string, prefix: string) {
    |prefix| <= |s| && s[..|prefix|] == prefix
  }

  /** `s.endswith(suffix)`, case-sensitive. */
  predicate EndsWith(s: string, suffix: string) {
    |suffix| <= |s| && s[|s| - |suffix|..] == suffix
  }

  /** Python's `t in s` for strings: `t` occurs somewhere in `s`. */
  predicate Contains(s: string, t: string)
    decreases |s|
  {
    StartsWith(s, t) || (|s| > 0 && Contains(s[1..], t))
  }
}
