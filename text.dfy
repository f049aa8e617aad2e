/** Character classes and string searches of the .NET base library that the
    modelled code relies on. */
module Text {

  /** char.IsWhiteSpace: the Unicode separators (space, line, paragraph)
      plus U+0009..U+000D and U+0085. */
  predicate IsWhiteSpace(c: char) {
    c == ' ' || ('\t' <= c <= '\r') || c == '\U{85}' || c == '\U{A0}' || c == '\U{1680}'
    || ('\U{2000}' <= c <= '\U{200A}') || c == '\U{2028}' || c == '\U{2029}'
    || c == '\U{202F}' || c == '\U{205F}' || c == '\U{3000}'
  }

  /** char.IsDigit, restricted to the ASCII decimal digits. */
  predicate IsDigit(c: char) {
    '0' <= c <= '9'
  }

  /** char.IsLetter, restricted to the ASCII and Latin-1 letters. */
  predicate IsLetter(c: char) {
    ('A' <= c <= 'Z') || ('a' <= c <= 'z') || c == '\U{AA}' || c == '\U{B5}' || c == '\U{BA}'
    || ('\U{C0}' <= c <= '\U{FF}' && c != '\U{D7}' && c != '\U{F7}')
  }

  lemma NulIsNothing()
    ensures !IsWhiteSpace('\0') && !IsDigit('\0') && !IsLetter('\0')
  {
  }

  /** string.IndexOf(char): the first position of c, or -1. */
  function IndexOf(s: string, c: char): (r: int)
    ensures r == -1 <==> c !in s
    ensures r != -1 ==> 0 <= r < |s| && s[r] == c && c !in s[..r]
  {
    if s == [] then -1
    else if s[0] == c then 0
    else
      var k := IndexOf(s[1..], c);
      assert s[1..][..if k < 0 then 0 else k] == s[1..1 + if k < 0 then 0 else k];
      if k < 0 then -1 else k + 1
  }

  /** The first occurrence is the one with no c before it. */
  lemma IndexOfAt(s: string, c: char, k: int)
    requires 0 <= k < |s| && s[k] == c && c !in s[..k]
    ensures IndexOf(s, c) == k
  {
    assert forall j :: 0 <= j < k ==> s[j] == s[..k][j];
    assert s[k] in s;
    var r := IndexOf(s, c);
    assert forall j :: 0 <= j < r ==> s[j] == s[..r][j];
  }

  /** string.Contains / IndexOf(string) >= 0 with ordinal comparison. */
  predicate Contains(s: string, pat: string)
    decreases |s|
  {
    |s| >= |pat| && (s[..|pat|] == pat || (|s| > 0 && Contains(s[1..], pat)))
  }

  /** StringBuilder.Replace(pat, rep): every occurrence, scanned left to right,
      without overlaps and without rescanning the replacement text. */
  function ReplaceAll(s: string, pat: string, rep: string): string
    requires |pat| > 0
    decreases |s|
  {
    if |s| < |pat| then s
    else if s[..|pat|] == pat then rep + ReplaceAll(s[|pat|..], pat, rep)
    else [s[0]] + ReplaceAll(s[1..], pat, rep)
  }

  lemma {:induction false} ReplaceAllAbsent(s: string, pat: string, rep: string)
    requires |pat| > 0 && !Contains(s, pat)
    ensures ReplaceAll(s, pat, rep) == s
    decreases |s|
  {
    if |s| >= |pat| {
      ReplaceAllAbsent(s[1..], pat, rep);
    }
  }

  /** A single hexadecimal digit, either case. */
  predicate IsHexDigit(c: char) {
    ('0' <= c <= '9') || ('a' <= c <= 'f') || ('A' <= c <= 'F')
  }

  function HexValue(c: char): (v: nat)
    requires IsHexDigit(c)
    ensures v < 16
  {
    if '0' <= c <= '9' then c as nat - '0' as nat
    else if 'a' <= c <= 'f' then c as nat - 'a' as nat + 10
    else c as nat - 'A' as nat + 10
  }

  predicate IsHex4(s: string) {
    |s| == 4 && IsHexDigit(s[0]) && IsHexDigit(s[1]) && IsHexDigit(s[2]) && IsHexDigit(s[3])
  }

  /** uint.Parse(s, NumberStyles.HexNumber) of four hex digits. */
  function Hex4Value(s: string): (v: nat)
    requires IsHex4(s)
    ensures v < 0x10000
  {
    ((HexValue(s[0]) * 16 + HexValue(s[1])) * 16 + HexValue(s[2])) * 16 + HexValue(s[3])
  }

  /** An upper-case hexadecimal digit, as the "X" format writes it. */
  function UpperHexDigit(d: nat): (c: char)
    requires d < 16
    ensures IsHexDigit(c) && HexValue(c) == d
  {
    if d < 10 then ('0' as nat + d) as char else ('A' as nat + d - 10) as char
  }

  /** ToString("X4") of a UTF-16 code unit. */
  function FormatHex4(v: nat): (s: string)
    requires v < 0x10000
    ensures IsHex4(s) && Hex4Value(s) == v
  {
    var v1 := v / 16;
    var v2 := v1 / 16;
    var v3 := v2 / 16;
    var r := [UpperHexDigit(v3), UpperHexDigit(v2 % 16), UpperHexDigit(v1 % 16), UpperHexDigit(v % 16)];
    assert HexValue(r[0]) == v3 && HexValue(r[1]) == v2 % 16;
    assert HexValue(r[2]) == v1 % 16 && HexValue(r[3]) == v % 16;
    assert v3 * 16 + v2 % 16 == v2;
    assert v2 * 16 + v1 % 16 == v1;
    assert v1 * 16 + v % 16 == v;
    r
  }

  /** An ASCII-only reading of StringComparison.OrdinalIgnoreCase. */
  function AsciiUpper(c: char): char {
    if 'a' <= c <= 'z' then (c as int - 32) as char else c
  }

  predicate EqualsIgnoreCase(a: string, b: string) {
    |a| == |b| && forall i :: 0 <= i < |a| ==> AsciiUpper(a[i]) == AsciiUpper(b[i])
  }
}
