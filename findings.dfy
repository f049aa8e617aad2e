/** Two places where Iridium-Core/Json/JsonTokenizer.cs does not do what it
    evidently means to, modelled as written next to the corrected
    definitions the rest of the model uses (JsonLexer.ScanKeyword and
    JsonLexer.Unescape). */
module Findings {
  import opened Results
  import opened Text
  import opened JsonTokens
  import opened JsonLexer
  import opened JsonLexerFacts
  import Json2

  // ---------------------------------------------------------------------
  // ReadKeyword tests the first letter where it means the one just read.

  /** ReadKeyword as written: c is the character the keyword started with,
      and it is c, not the character just appended, that the guard tests.
      The loop has no other exit, so the result is None when fuel runs out
      before the word becomes a keyword. */
  function KeywordAsWritten(c: char, keyword: string, p: seq<char>, fuel: nat): Option<Result<(JsonToken, seq<char>)>>
    decreases fuel
  {
    if keyword in Keywords then Some(Ok((JsonToken(Keywords[keyword], None), p)))
    else if fuel == 0 then None
    else
      var (c1, p1) := Read(p);
      if !IsLetter(c) then Some(Err(Exception("")))
      else KeywordAsWritten(c, keyword + [c1], p1, fuel - 1)
  }

  /** No keyword starts with w. */
  predicate Hopeless(w: string) {
    forall k :: k in Keywords ==> !(|w| <= |k| && k[..|w|] == w)
  }

  /** Once the word is no prefix of a keyword, the as-written loop never
      ends: every fuel runs out. */
  lemma {:induction false} NeverEnds(c: char, keyword: string, p: seq<char>, fuel: nat)
    requires IsLetter(c) && Hopeless(keyword)
    ensures KeywordAsWritten(c, keyword, p, fuel) == None
    decreases fuel
  {
    if fuel > 0 {
      var (c1, p1) := Read(p);
      var w := keyword + [c1];
      assert w[..|keyword|] == keyword;
      forall k | k in Keywords && |w| <= |k|
        ensures k[..|w|] != w
      {
        assert k[..|w|][..|keyword|] == k[..|keyword|];
      }
      NeverEnds(c, w, p1, fuel - 1);
    }
  }

  /** `nul]`: as written, the tokenizer spins forever on the characters
      after "n" (it appends ']' and then '\0' without end); the corrected
      scan throws at ']'. */
  lemma NulNeverEnds(fuel: nat)
    ensures KeywordAsWritten('n', "n", "ul]", fuel) == None
    ensures ScanKeyword("n", "ul]") == Err(Exception(""))
  {
    assert "n" !in Keywords && "nu" !in Keywords && "nul" !in Keywords;
    assert Read("ul]") == ('u', "l]") && Read("l]") == ('l', "]") && Read("]") == (']', []);
    assert "n" + ['u'] == "nu" && "nu" + ['l'] == "nul" && "nul" + [']'] == "nul]";
    forall k | k in Keywords && 4 <= |k|
      ensures k[..4] != "nul]"
    {
      assert k[..4][3] == k[3] != ']';
    }
    assert Hopeless("nul]");
    if fuel >= 3 {
      assert KeywordAsWritten('n', "n", "ul]", fuel) == KeywordAsWritten('n', "nu", "l]", fuel - 1);
      assert KeywordAsWritten('n', "nu", "l]", fuel - 1) == KeywordAsWritten('n', "nul", "]", fuel - 2);
      assert KeywordAsWritten('n', "nul", "]", fuel - 2) == KeywordAsWritten('n', "nul]", [], fuel - 3);
      NeverEnds('n', "nul]", [], fuel - 3);
    }
    assert !IsLetter(']');
  }

  // ---------------------------------------------------------------------
  // The unescaping of a string with a backslash, as a chain of replaces.

  /** Regex.Replace of `\\[uU][a-fA-F0-9]{4}` by the code unit it names,
      scanning left to right without overlaps. A surrogate pair becomes the
      character it encodes; a lone surrogate, which a Dafny string cannot
      hold, is left as written. */
  function RegexUnicode(s: string): string
    decreases |s|
  {
    if s == [] then []
    else if UnicodeEscapeAt(s) then
      var u, t := Hex4Value(s[2..6]), s[6..];
      if IsHighSurrogate(u) && UnicodeEscapeAt(t) && IsLowSurrogate(Hex4Value(t[2..6])) then
        [CombineSurrogates(u, Hex4Value(t[2..6])) as char] + RegexUnicode(t[6..])
      else if !IsSurrogate(u) then [u as char] + RegexUnicode(t)
      else s[..6] + RegexUnicode(t)
    else [s[0]] + RegexUnicode(s[1..])
  }

  /** ReadStringToken's decoding as written: \n, \r, \t and \" are replaced
      across the whole text first, then the \u escapes (only when a
      lower-case \u occurs), then \\ and \/. */
  function UnescapeAsWritten(s: string): string {
    var s1 := ReplaceAll(s, "\\n", "\n");
    var s2 := ReplaceAll(s1, "\\r", "\r");
    var s3 := ReplaceAll(s2, "\\t", "\t");
    var s4 := ReplaceAll(s3, "\\\"", "\"");
    var s5 := if Contains(s4, "\\u") then RegexUnicode(s4) else s4;
    var s6 := ReplaceAll(s5, "\\\\", "\\");
    ReplaceAll(s6, "\\/", "/")
  }

  /** The string token as written: the text is decoded when it had a
      backslash. */
  function StringTokenAsWritten(raw: string): (t: JsonToken)
    ensures t.kind == String && ('\\' !in raw ==> t == StringToken(raw))
  {
    JsonToken(String, Some(if '\\' in raw then UnescapeAsWritten(raw) else raw))
  }

  /** The raw text `\\n` (an escaped backslash, then n): as written it
      decodes to a backslash and a line feed, because the \n replace runs
      before the \\ one and matches the second backslash; the corrected
      decoder gives a backslash and n. This is the text the Json.Value
      serializer writes for the string backslash-n, so that string does
      not survive a round trip through the tokenizer as written. */
  lemma EscapedBackslashN()
    ensures Json2.Escape(['\\', 'n']) == ['\\', '\\', 'n']
    ensures UnescapeAsWritten(['\\', '\\', 'n']) == ['\\', '\n']
    ensures Unescape(['\\', '\\', 'n']) == ['\\', 'n']
  {
    var s: string := ['\\', '\\', 'n'];
    assert Json2.EscapeChar('\\') == ['\\', '\\'] && Json2.EscapeChar('n') == ['n'];
    assert Json2.Escape(['n']) == ['n'] + Json2.Escape([]);
    assert Json2.Escape(['\\', 'n']) == ['\\', '\\'] + Json2.Escape(['n']);
    // the \n replace: the first two characters are not \n, the last two are
    assert s[..2] != "\\n" && s[1..][..2] == "\\n" && s[1..][2..] == [];
    assert ReplaceAll(s[1..], "\\n", "\n") == "\n" + ReplaceAll([], "\\n", "\n");
    var s1: string := ['\\', '\n'];
    assert ReplaceAll(s, "\\n", "\n") == s1;
    // nothing else matches
    assert s1[..2][1] == '\n';
    assert !Contains(s1, "\\r") && !Contains(s1, "\\t") && !Contains(s1, "\\\"");
    ReplaceAllAbsent(s1, "\\r", "\r");
    ReplaceAllAbsent(s1, "\\t", "\t");
    ReplaceAllAbsent(s1, "\\\"", "\"");
    assert !Contains(s1, "\\u") && !Contains(s1, "\\\\") && !Contains(s1, "\\/");
    ReplaceAllAbsent(s1, "\\\\", "\\");
    ReplaceAllAbsent(s1, "\\/", "/");
    // the corrected decoder reads the escaped backslash first
    assert SimpleEscape('\\') == Some('\\') && s[2..] == ['n'] && ['n'][1..] == [];
    assert Unescape(['n']) == ['n'] + Unescape([]);
  }

  /** A pattern that starts with a backslash does not occur in text
      without one. */
  lemma {:induction false} NoBackslashNoMatch(t: string, pat: string)
    requires |pat| > 0 && pat[0] == '\\' && '\\' !in t
    ensures !Contains(t, pat)
    decreases |t|
  {
    if |t| >= |pat| && |t| > 0 {
      assert t[..|pat|][0] == t[0] && t[0] in t;
      assert t == [t[0]] + t[1..];
      NoBackslashNoMatch(t[1..], pat);
    }
  }

  /** Text whose only backslash is its first character holds no two-
      character pattern `\x` for an x other than its second character. */
  lemma LeadingBackslashOnly(s: string, pat: string)
    requires |pat| == 2 && pat[0] == '\\' && |s| >= 2 && s[1] != pat[1] && '\\' !in s[1..]
    ensures !Contains(s, pat)
  {
    assert s[..2][1] == s[1];
    NoBackslashNoMatch(s[1..], pat);
  }

  /** Text whose one backslash starts a `\U`: every replace of the chain
      misses, and the \u pass is skipped. */
  lemma UpperEscapeUntouched(s: string)
    requires |s| >= 2 && s[0] == '\\' && s[1] == 'U' && '\\' !in s[1..]
    ensures UnescapeAsWritten(s) == s
  {
    LeadingBackslashOnly(s, "\\n");
    LeadingBackslashOnly(s, "\\r");
    LeadingBackslashOnly(s, "\\t");
    LeadingBackslashOnly(s, "\\\"");
    LeadingBackslashOnly(s, "\\u");
    LeadingBackslashOnly(s, "\\\\");
    LeadingBackslashOnly(s, "\\/");
    ReplaceAllAbsent(s, "\\n", "\n");
    ReplaceAllAbsent(s, "\\r", "\r");
    ReplaceAllAbsent(s, "\\t", "\t");
    ReplaceAllAbsent(s, "\\\"", "\"");
    ReplaceAllAbsent(s, "\\\\", "\\");
    ReplaceAllAbsent(s, "\\/", "/");
  }

  /** The raw text `\U00AA`: as written the \u pass is gated on a
      lower-case `\u` occurring, so an escape spelt with an upper-case U
      alone is never decoded, although the pattern accepts both cases;
      the corrected decoder gives the character U+00AA. */
  lemma UpperUnicodeSkipped()
    ensures UnescapeAsWritten(['\\', 'U', '0', '0', 'A', 'A']) == ['\\', 'U', '0', '0', 'A', 'A']
    ensures Unescape(['\\', 'U', '0', '0', 'A', 'A']) == [0xAA as char]
  {
    var s: string := ['\\', 'U', '0', '0', 'A', 'A'];
    var h: string := ['0', '0', 'A', 'A'];
    assert s[1..] == ['U'] + h && s == ['\\', 'U'] + h + [];
    UpperEscapeUntouched(s);
    assert Hex4Value(h) == 0xAA;
    UnicodeEitherCase('U', h, []);
  }
}
