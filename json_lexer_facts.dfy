/** What the tokenizer promises, proved of the lexing functions. */
module JsonLexerFacts {
  import opened Results
  import opened Text
  import opened JsonTokens
  import opened JsonLexer

  /** Past the end of the input every read gives '\0' and the token is EOF. */
  lemma EndOfInput()
    ensures Read([]) == ('\0', [])
    ensures Lex([]) == Ok((JsonToken(EOF, None), []))
  {
  }

  /** Leading whitespace is skipped. */
  lemma {:induction false} SkipsWhitespace(ws: seq<char>, p: seq<char>)
    requires forall i :: 0 <= i < |ws| ==> IsWhiteSpace(ws[i])
    ensures Lex(ws + p) == Lex(p)
    decreases |ws|
  {
    if ws == [] {
      assert ws + p == p;
    } else {
      assert Read(ws + p) == (ws[0], ws[1..] + p) by {
        assert (ws + p)[0] == ws[0] && (ws + p)[1..] == ws[1..] + p;
      }
      assert Lex(ws + p) == Lex(ws[1..] + p);
      SkipsWhitespace(ws[1..], p);
    }
  }

  /** Each structural character is a token with no text; any character outside
      the recognised classes (a '-' among them) ends the input with EOF. */
  lemma FirstCharacter(c: char, p: seq<char>)
    ensures Structural(c).Some? ==> Lex([c] + p) == Ok((JsonToken(Structural(c).value, None), p))
    ensures !IsWhiteSpace(c) && Structural(c).None? && c != '"' && !IsDigit(c) && !IsLetter(c) ==>
      Lex([c] + p) == Ok((JsonToken(EOF, None), p))
    ensures Lex(['-'] + p) == Ok((JsonToken(EOF, None), p))
  {
    if Structural(c).Some? {
      assert !IsWhiteSpace(c);
      LexStarts(c, p);
    } else if !IsWhiteSpace(c) && c != '"' && !IsDigit(c) && !IsLetter(c) {
      LexStarts(c, p);
    }
    assert Structural('-').None? && !IsLetter('-');
    LexStarts('-', p);
  }

  /** A token that starts with a non-blank character is the one LexToken
      reads from it. */
  lemma LexStarts(c: char, p: seq<char>)
    requires !IsWhiteSpace(c)
    ensures Lex([c] + p) == LexToken(c, p)
  {
    assert Read([c] + p) == (c, p);
  }

  predicate AtMostOneDot(s: string) {
    forall i, j :: 0 <= i < j < |s| && s[i] == '.' ==> s[j] != '.'
  }

  /** The number of characters ReadNumber consumes after the text so far. */
  function NumberLength(text: string, hasDot: bool, p: seq<char>): int {
    |ScanNumber(text, hasDot, p).0| - |text|
  }

  predicate DigitsOrDots(s: string) {
    forall i :: 0 <= i < |s| ==> IsDigit(s[i]) || s[i] == '.'
  }

  lemma DigitsOrDotsCons(c: char, s: string)
    requires IsDigit(c) || c == '.'
    requires DigitsOrDots(s)
    ensures DigitsOrDots([c] + s)
  {
    forall i | 0 < i < |s| + 1 ensures ([c] + s)[i] == s[i - 1] {
    }
  }

  /** A character appended to text with at most one dot keeps at most one
      dot unless both are dots. */
  lemma DotStep(text: string, c: char)
    requires AtMostOneDot(text) && (c == '.' ==> '.' !in text)
    ensures AtMostOneDot(text + [c]) && ('.' in text + [c] <==> '.' in text || c == '.')
  {
    var t := text + [c];
    forall i, j | 0 <= i < j < |t| && t[i] == '.' ensures t[j] != '.' {
      if j == |text| {
        assert t[i] == text[i];
      } else {
        assert t[i] == text[i] && t[j] == text[j];
      }
    }
    assert t[|text|] == c;
    assert forall i :: 0 <= i < |text| ==> t[i] == text[i];
  }

  /** The first n + 1 characters of [c] + p, appended to text. */
  lemma ConsPrefix(text: string, c: char, p: seq<char>, n: nat)
    requires n <= |p|
    ensures ([c] + p)[..n + 1] == [c] + p[..n]
    ensures text + ([c] + p)[..n + 1] == (text + [c]) + p[..n]
  {
  }

  /** ReadNumber extends its text with the characters it reads, each a digit
      or the first '.'. */
  lemma {:induction false} NumberScanText(text: string, hasDot: bool, p: seq<char>)
    requires hasDot == ('.' in text) && AtMostOneDot(text)
    ensures var n := NumberLength(text, hasDot, p);
      && 0 <= n <= |p| && ScanNumber(text, hasDot, p).0 == text + p[..n]
      && DigitsOrDots(p[..n])
      && AtMostOneDot(ScanNumber(text, hasDot, p).0)
      && ScanNumber(text, hasDot, p).1 == ('.' in ScanNumber(text, hasDot, p).0)
    decreases |p|
  {
    var c, p1 := Read(p).0, Read(p).1;
    if (c == '.' && !hasDot) || IsDigit(c) {
      assert p == [c] + p1;
      var d := hasDot || c == '.';
      assert ScanNumber(text, hasDot, p) == ScanNumber(text + [c], d, p1);
      DotStep(text, c);
      NumberScanText(text + [c], d, p1);
      var n := NumberLength(text + [c], d, p1);
      assert NumberLength(text, hasDot, p) == n + 1;
      ConsPrefix(text, c, p1, n);
      DigitsOrDotsCons(c, p1[..n]);
    } else {
      assert ScanNumber(text, hasDot, p).0 == text;
      assert p[..0] == [];
    }
  }

  /** ReadNumber stops on the first character that cannot continue the number
      and pushes exactly that character back. */
  lemma {:induction false} NumberScanStop(text: string, hasDot: bool, p: seq<char>)
    requires hasDot == ('.' in text) && AtMostOneDot(text)
    ensures var n := NumberLength(text, hasDot, p);
      0 <= n <= |p| &&
      var stop, after := Read(p[n..]).0, Read(p[n..]).1;
      && !IsDigit(stop) && !(stop == '.' && !ScanNumber(text, hasDot, p).1)
      && ScanNumber(text, hasDot, p).2 == Push(stop, after)
    decreases |p|
  {
    NumberScanText(text, hasDot, p);
    var c, p1 := Read(p).0, Read(p).1;
    if (c == '.' && !hasDot) || IsDigit(c) {
      assert p == [c] + p1;
      var d := hasDot || c == '.';
      assert ScanNumber(text, hasDot, p) == ScanNumber(text + [c], d, p1);
      assert AtMostOneDot(text + [c]);
      NumberScanStop(text + [c], d, p1);
      var n := NumberLength(text + [c], d, p1);
      assert p[n + 1..] == p1[n..];
    } else {
      assert p[0..] == p;
    }
  }

  /** A number token starts on a digit; its kind is Float exactly when its
      text holds a dot. */
  lemma NumberToken(c: char, p: seq<char>)
    requires IsDigit(c)
    ensures Lex([c] + p).Ok?
    ensures var t := Lex([c] + p).value.0;
      t.text.Some? && |t.text.value| > 0 && t.text.value[0] == c && AtMostOneDot(t.text.value)
      && (t.kind == Float <==> '.' in t.text.value) && (t.kind == Integer <==> '.' !in t.text.value)
  {
    LexStarts(c, p);
    var r := ScanNumber([c], false, p);
    assert Structural(c).None? && c != '"';
    assert LexToken(c, p) == Ok((JsonToken(if r.1 then Float else Integer, Some(r.0)), r.2));
    assert AtMostOneDot([c]) && '.' !in [c];
    NumberScanText([c], false, p);
  }

  predicate AllLetters(s: string) {
    forall i :: 0 <= i < |s| ==> IsLetter(s[i])
  }

  lemma KeywordFacts(w: string, x: string)
    requires w in Keywords
    ensures AllLetters(w)
    ensures w + x in Keywords ==> x == []
  {
    if x != [] {
      if |w| == 4 {
        assert w == "null" || w == "true";
        assert (w + x)[3] == w[3] != 's';
      }
      assert w + x !in Keywords;
    }
  }

  /** When the word and the next n characters spell a keyword, ReadKeyword
      returns it and leaves the rest unread. */
  lemma {:induction false} KeywordScanFound(word: string, p: seq<char>, n: nat)
    requires n <= |p| && word + p[..n] in Keywords
    ensures ScanKeyword(word, p) == Ok((JsonToken(Keywords[word + p[..n]], None), p[n..]))
    decreases n
  {
    if n == 0 {
      assert word + p[..0] == word && p[0..] == p;
    } else {
      if word in Keywords {
        KeywordFacts(word, p[..n]);
        assert false;
      }
      var k := word + p[..n];
      KeywordFacts(k, []);
      assert k[|word|] == p[0] && IsLetter(p[0]);
      assert Read(p) == (p[0], p[1..]);
      assert (word + [p[0]]) + p[1..][..n - 1] == k by {
        assert p[..n] == [p[0]] + p[1..][..n - 1];
      }
      KeywordScanFound(word + [p[0]], p[1..], n - 1);
      assert p[1..][n - 1..] == p[n..];
    }
  }

  /** ReadKeyword returns only a keyword spelled by the word and the
      characters after it. */
  lemma {:induction false} KeywordScanOk(word: string, p: seq<char>) returns (n: nat)
    requires ScanKeyword(word, p).Ok?
    ensures n <= |p| && word + p[..n] in Keywords
    decreases |p|
  {
    if word in Keywords {
      n := 0;
      assert word + p[..0] == word;
    } else {
      var c, p1 := Read(p).0, Read(p).1;
      assert IsLetter(c) && p == [c] + p1;
      assert ScanKeyword(word, p) == ScanKeyword(word + [c], p1);
      var m := KeywordScanOk(word + [c], p1);
      n := m + 1;
      ConsPrefix(word, c, p1, m);
    }
  }

  /** ReadKeyword succeeds exactly when the word and the characters after it
      spell a keyword, and then returns that keyword. */
  lemma KeywordScan(word: string, p: seq<char>)
    ensures ScanKeyword(word, p).Ok? <==> exists n :: 0 <= n <= |p| && word + p[..n] in Keywords
    ensures forall n :: 0 <= n <= |p| && word + p[..n] in Keywords ==>
      ScanKeyword(word, p) == Ok((JsonToken(Keywords[word + p[..n]], None), p[n..]))
  {
    if ScanKeyword(word, p).Ok? {
      var n := KeywordScanOk(word, p);
    }
    forall n | 0 <= n <= |p| && word + p[..n] in Keywords
      ensures ScanKeyword(word, p) == Ok((JsonToken(Keywords[word + p[..n]], None), p[n..]))
    {
      KeywordScanFound(word, p, n);
    }
  }

  /** The number of backslashes that end s. */
  function TrailingBackslashes(s: string): nat
    decreases |s|
  {
    if s == [] || s[|s| - 1] != '\\' then 0 else 1 + TrailingBackslashes(s[..|s| - 1])
  }

  /** An escape is pending after s when s ends in an odd run of backslashes. */
  predicate EscapeOpen(s: string) {
    TrailingBackslashes(s) % 2 == 1
  }

  /** A valid string body: no '\0', every quote escaped, no escape left open. */
  predicate QuotesEscaped(s: string) {
    forall i :: 0 <= i < |s| && s[i] == '"' ==> EscapeOpen(s[..i])
  }

  predicate ClosedBody(raw: string) {
    '\0' !in raw && QuotesEscaped(raw) && !EscapeOpen(raw)
  }

  lemma EscapeStep(s: string, c: char)
    ensures EscapeOpen(s + [c]) == (c == '\\' && !EscapeOpen(s))
  {
    assert (s + [c])[..|s|] == s;
  }

  lemma QuotesStep(s: string, c: char)
    requires QuotesEscaped(s)
    ensures QuotesEscaped(s + [c]) <==> (c == '"' ==> EscapeOpen(s))
  {
    assert (s + [c])[..|s|] == s;
    forall i | 0 <= i < |s| ensures (s + [c])[..i] == s[..i] && (s + [c])[i] == s[i] {
    }
  }

  /** A string token ends at the first quote that no escape covers; its raw
      text is everything before that quote. */
  lemma {:induction false} RawScanSound(p: seq<char>, inEscape: bool, acc: string)
    requires inEscape == EscapeOpen(acc) && QuotesEscaped(acc) && '\0' !in acc
    requires ScanRaw(p, inEscape, acc).Ok?
    ensures RawScanned(p, acc, ScanRaw(p, inEscape, acc).value.0, ScanRaw(p, inEscape, acc).value.1)
    decreases |p|
  {
    RawStep(p, inEscape, acc);
    var c, p1 := p[0], p[1..];
    if !inEscape && c == '"' {
      assert acc[..|acc|] == acc && acc[|acc|..] == [];
      assert p == [c] + p1;
    } else {
      var acc1 := acc + [c];
      EscapeStep(acc, c);
      QuotesStep(acc, c);
      RawScanSound(p1, EscapeOpen(acc1), acc1);
      RawScannedCons(c, p1, acc, ScanRaw(p1, EscapeOpen(acc1), acc1).value.0, ScanRaw(p1, EscapeOpen(acc1), acc1).value.1);
    }
  }

  /** The raw text extends acc, is followed in p by a quote and then rest,
      and is a closed string body. */
  predicate RawScanned(p: seq<char>, acc: string, raw: string, rest: seq<char>) {
    |acc| <= |raw| && raw[..|acc|] == acc && p == raw[|acc|..] + ['"'] + rest && ClosedBody(raw)
  }

  lemma RawScannedCons(c: char, p1: seq<char>, acc: string, raw: string, rest: seq<char>)
    requires RawScanned(p1, acc + [c], raw, rest)
    ensures RawScanned([c] + p1, acc, raw, rest)
  {
    PrefixSplit(raw, acc, c);
  }

  /** One step of ReadStringToken's loop on a successful scan. */
  lemma RawStep(p: seq<char>, inEscape: bool, acc: string)
    requires ScanRaw(p, inEscape, acc).Ok?
    ensures p != [] && p[0] != '\0'
    ensures !inEscape && p[0] == '"' ==> ScanRaw(p, inEscape, acc) == Ok((acc, p[1..]))
    ensures inEscape || p[0] != '"' ==>
      ScanRaw(p, inEscape, acc) == ScanRaw(p[1..], !inEscape && p[0] == '\\', acc + [p[0]])
  {
  }

  lemma PrefixSplit(raw: string, acc: string, c: char)
    requires |acc| + 1 <= |raw| && raw[..|acc| + 1] == acc + [c]
    ensures raw[..|acc|] == acc && raw[|acc|..] == [c] + raw[|acc| + 1..]
  {
    assert raw[..|acc| + 1][..|acc|] == raw[..|acc|];
  }

  lemma {:induction false} RawScanComplete(mid: string, rest: seq<char>, acc: string)
    requires ClosedBody(acc + mid)
    ensures ScanRaw(mid + ['"'] + rest, EscapeOpen(acc), acc) == Ok((acc + mid, rest))
    decreases |mid|
  {
    var p := mid + ['"'] + rest;
    if mid == [] {
      assert acc + mid == acc && p == ['"'] + rest;
      assert Read(p) == ('"', rest);
    } else {
      var c := mid[0];
      assert p == [c] + (mid[1..] + ['"'] + rest);
      assert Read(p) == (c, mid[1..] + ['"'] + rest);
      assert (acc + [c]) + mid[1..] == acc + mid;
      assert (acc + mid)[|acc|] == c;
      EscapeStep(acc, c);
      if c == '"' {
        assert (acc + mid)[..|acc|] == acc;
      }
      RawScanComplete(mid[1..], rest, acc + [c]);
    }
  }

  /** Together: a string token's raw text is exactly the well-formed body
      before its closing quote. */
  lemma RawScan(p: seq<char>, raw: string, rest: seq<char>)
    ensures ScanRaw(p, false, []) == Ok((raw, rest)) <==> (p == raw + ['"'] + rest && ClosedBody(raw))
  {
    assert [] + raw == raw;
    if ScanRaw(p, false, []) == Ok((raw, rest)) {
      RawScanSound(p, false, []);
      assert raw[0..] == raw;
    }
    if p == raw + ['"'] + rest && ClosedBody(raw) {
      RawScanComplete(raw, rest, []);
    }
  }

  /** Text without a backslash is returned verbatim. */
  lemma {:induction false} UnescapeVerbatim(s: string)
    requires '\\' !in s
    ensures Unescape(s) == s
    decreases |s|
  {
    if s != [] {
      assert s[0] != '\\';
      UnescapeVerbatim(s[1..]);
    }
  }

  /** A \u or \U escape of a code unit that is no surrogate decodes to
      that character wherever it occurs, whichever case the U has. */
  lemma UnicodeEitherCase(c: char, h: string, rest: string)
    requires (c == 'u' || c == 'U') && IsHex4(h) && !IsSurrogate(Hex4Value(h))
    ensures Unescape(['\\', c] + h + rest) == [Hex4Value(h) as char] + Unescape(rest)
  {
    var s := ['\\', c] + h + rest;
    assert s[0] == '\\' && s[1] == c && s[2..6] == h && s[6..] == rest;
    assert SimpleEscape(c).None? && UnicodeEscapeAt(s);
  }

  /** The escapes of the parser test decode to newline, tab, backslash and
      U+00AA. */
  lemma TestEscapes()
    ensures Unescape("\\n") == "\n"
    ensures Unescape("\\t") == "\t"
    ensures Unescape("\\\\") == "\\"
    ensures Unescape("\\u00aa") == "\U{AA}"
  {
    assert "\\n"[2..] == [];
    assert "\\t"[2..] == [];
    assert "\\\\"[2..] == [];
    var s := "\\u00aa";
    assert s[2..6] == "00aa" && IsHex4(s[2..6]);
    assert Hex4Value("00aa") == 0xAA;
    assert s[6..] == [];
  }
}
