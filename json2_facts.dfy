/** What the Json.Value serializer guarantees: its string escapes are undone
    by the tokenizer's string reading, so a serialized string comes back from
    JsonParser as the same string. */
module Json2Facts {
  import opened Results
  import opened Text
  import opened HostTypes
  import opened JsonTokens
  import opened JsonValues
  import opened JsonLexer
  import opened JsonLexerFacts
  import JsonParser
  import DynamicJson
  import opened Json2

  /** The code units are those of UTF-16: a character below U+10000 is its
      own unit, which is never a surrogate; above, a high and a low
      surrogate that combine back into it. */
  lemma Utf16Units(c: char)
    ensures |Utf16(c)| == 1 ==> Utf16(c)[0] == c as int && !IsSurrogate(Utf16(c)[0])
    ensures |Utf16(c)| == 2 ==>
      IsHighSurrogate(Utf16(c)[0]) && IsLowSurrogate(Utf16(c)[1])
      && CombineSurrogates(Utf16(c)[0], Utf16(c)[1]) == c as int
  {
    var v := c as int;
    if v >= 0x10000 {
      var d := v - 0x10000;
      assert d == (d / 0x400) * 0x400 + d % 0x400;
      assert d / 0x400 < 0x400;
    }
  }

  /** The escape of one character reads back as that character, whatever
      follows it. */
  lemma UnescapeEscapeChar(c: char, rest: string)
    ensures Unescape(EscapeChar(c) + rest) == [c] + Unescape(rest)
  {
    if c == '\t' {
      UnescapeTwoChar('t', rest);
    } else if c == '\r' {
      UnescapeTwoChar('r', rest);
    } else if c == '\n' {
      UnescapeTwoChar('n', rest);
    } else if c == '"' || c == '\\' {
      UnescapeTwoChar(c, rest);
    } else if ' ' <= c && (c as int) < 128 {
      UnescapePlain(c, rest);
    } else {
      Utf16Units(c);
      var u := Utf16(c);
      if |u| == 1 {
        UnescapeUnit(u[0], rest);
      } else {
        UnescapePair(u[0], u[1], rest);
      }
    }
  }

  lemma UnescapeTwoChar(c: char, rest: string)
    requires SimpleEscape(c).Some?
    ensures Unescape(['\\', c] + rest) == [SimpleEscape(c).value] + Unescape(rest)
  {
    var s := ['\\', c] + rest;
    assert s[0] == '\\' && s[1] == c && s[2..] == rest;
  }

  lemma UnescapePlain(c: char, rest: string)
    requires c != '\\'
    ensures Unescape([c] + rest) == [c] + Unescape(rest)
  {
    var s := [c] + rest;
    assert s[0] == c && s[1..] == rest;
  }

  /** A \u escape of a code unit that is no surrogate. */
  lemma UnescapeUnit(u: nat, rest: string)
    requires u < 0x10000 && !IsSurrogate(u)
    ensures Unescape(UnicodeEscape(u) + rest) == [u as char] + Unescape(rest)
  {
    var h := UnicodeEscape(u);
    var s := h + rest;
    assert s[0] == '\\' && s[1] == 'u' && s[2..6] == h[2..] && s[6..] == rest;
    assert SimpleEscape(s[1]).None? && UnicodeEscapeAt(s);
  }

  /** Two \u escapes of a high and a low surrogate. */
  lemma UnescapePair(hi: nat, lo: nat, rest: string)
    requires IsHighSurrogate(hi) && IsLowSurrogate(lo)
    ensures Unescape(UnicodeEscape(hi) + UnicodeEscape(lo) + rest) == [CombineSurrogates(hi, lo) as char] + Unescape(rest)
  {
    var h, l := UnicodeEscape(hi), UnicodeEscape(lo);
    var s := h + l + rest;
    var t := s[6..];
    assert s[0] == '\\' && s[1] == 'u' && s[2..6] == h[2..] && t == l + rest;
    assert t[0] == '\\' && t[1] == 'u' && t[2..6] == l[2..] && t[6..] == rest;
    assert SimpleEscape(s[1]).None? && UnicodeEscapeAt(s) && UnicodeEscapeAt(t);
  }

  /** Round trip: the text the serializer writes for a string decodes to
      that string. */
  lemma {:induction false} EscapeRoundTrip(s: string)
    ensures Unescape(Escape(s)) == s
  {
    if s != [] {
      UnescapeEscapeChar(s[0], Escape(s[1..]));
      EscapeRoundTrip(s[1..]);
    }
  }

  lemma AppendPlain(acc: string, c: char)
    requires ClosedBody(acc) && c != '\0' && c != '"' && c != '\\'
    ensures ClosedBody(acc + [c])
  {
    EscapeStep(acc, c);
    QuotesStep(acc, c);
  }

  lemma AppendEscaped(acc: string, c: char)
    requires ClosedBody(acc) && c != '\0'
    ensures ClosedBody(acc + ['\\', c])
  {
    var a := acc + ['\\'];
    EscapeStep(acc, '\\');
    QuotesStep(acc, '\\');
    EscapeStep(a, c);
    QuotesStep(a, c);
    assert a + [c] == acc + ['\\', c];
  }

  lemma AppendUnicodeEscape(acc: string, u: nat)
    requires ClosedBody(acc) && u < 0x10000
    ensures ClosedBody(acc + UnicodeEscape(u))
  {
    var e := UnicodeEscape(u);
    AppendEscaped(acc, 'u');
    var a := acc + ['\\', 'u'];
    AppendPlain(a, e[2]);
    AppendPlain(a + [e[2]], e[3]);
    AppendPlain(a + [e[2]] + [e[3]], e[4]);
    AppendPlain(a + [e[2]] + [e[3]] + [e[4]], e[5]);
    assert a + [e[2]] + [e[3]] + [e[4]] + [e[5]] == acc + e;
  }

  lemma AppendUnicodePair(acc: string, hi: nat, lo: nat)
    requires ClosedBody(acc) && hi < 0x10000 && lo < 0x10000
    ensures ClosedBody(acc + (UnicodeEscape(hi) + UnicodeEscape(lo)))
  {
    AppendUnicodeEscape(acc, hi);
    AppendUnicodeEscape(acc + UnicodeEscape(hi), lo);
    Associative(acc, UnicodeEscape(hi), UnicodeEscape(lo));
  }

  lemma AppendEscapeChar(acc: string, c: char)
    requires ClosedBody(acc)
    ensures ClosedBody(acc + EscapeChar(c))
  {
    if c == '\t' {
      AppendEscaped(acc, 't');
    } else if c == '\r' {
      AppendEscaped(acc, 'r');
    } else if c == '\n' {
      AppendEscaped(acc, 'n');
    } else if c == '"' || c == '\\' {
      AppendEscaped(acc, c);
    } else if ' ' <= c && (c as int) < 128 {
      AppendPlain(acc, c);
    } else {
      var u := Utf16(c);
      if |u| == 1 {
        AppendUnicodeEscape(acc, u[0]);
      } else {
        AppendUnicodePair(acc, u[0], u[1]);
      }
    }
  }

  /** The escaped text is a closed string body: no '\0', every quote
      escaped, no escape left open. */
  lemma {:induction false} ClosedEscape(acc: string, s: string)
    requires ClosedBody(acc)
    ensures ClosedBody(acc + Escape(s))
    decreases |s|
  {
    if s == [] {
      assert acc + Escape(s) == acc;
    } else {
      var x, y := EscapeChar(s[0]), Escape(s[1..]);
      AppendEscapeChar(acc, s[0]);
      ClosedEscape(acc + x, s[1..]);
      assert Escape(s) == x + y;
      Associative(acc, x, y);
    }
  }

  /** End to end: the tokenizer reads a serialized string back as one string
      token holding exactly that string, and stops right after its closing
      quote. */
  lemma SerializedStringLexes(s: string, rest: seq<char>)
    ensures Lex(Quoted(s) + rest) == Ok((JsonToken(String, Some(s)), rest))
  {
    var e := Escape(s);
    var p := e + ['"'] + rest;
    assert Quoted(s) + rest == ['"'] + p;
    LexStarts('"', p);
    ClosedEscape([], s);
    assert [] + e == e;
    RawScan(p, e, rest);
    EscapeRoundTrip(s);
    if '\\' !in e {
      UnescapeVerbatim(e);
    }
    assert StringToken(e) == JsonToken(String, Some(s));
  }

  /** JsonParser.Parse of a serialized string value gives that string. */
  lemma SerializedStringParses(s: string)
    ensures Serialized(SimpleValue(Some(StringValue(s)))) == Ok(Quoted(s))
    ensures JsonParser.Parse(Quoted(s)) == Ok(DynamicJson.FromValue(Prim(StringValue(s))))
  {
    SerializedStringLexes(s, []);
    assert Quoted(s) + [] == Quoted(s);
    EndOfInput();
    var st := JsonParser.State(JsonToken(String, Some(s)), []);
    var st1 := JsonParser.State(JsonToken(EOF, None), []);
    assert JsonParser.Start(Quoted(s)) == Ok(st);
    assert JsonParser.Advance(st) == Ok(st1);
    JsonParser.StringStep(map[], st);
    JsonParser.ParseStep(Quoted(s), st, DynamicJson.FromValue(Prim(StringValue(s))), st1);
  }

  /** A serialized NullValue parses as null. */
  lemma SerializedNullParses()
    ensures Serialized(NullValue) == Ok("null")
    ensures JsonParser.Parse("null") == Ok(DynamicJson.FromValue(Payload.Null))
  {
    NullLexes();
    var st := JsonParser.State(JsonToken(TokenType.Null, None), []);
    var st1 := JsonParser.State(JsonToken(EOF, None), []);
    EndOfInput();
    assert JsonParser.Advance(st) == Ok(st1);
    JsonParser.NullStep(map[], st);
    JsonParser.ParseStep("null", st, DynamicJson.FromValue(Payload.Null), st1);
  }

  /** "null" is one Null token. */
  lemma NullLexes()
    ensures JsonParser.Start("null") == Ok(JsonParser.State(JsonToken(TokenType.Null, None), []))
  {
    assert "null" == ['n'] + "ull";
    LexStarts('n', "ull");
    assert IsLetter('n') && Structural('n').None? && !IsDigit('n');
    assert "n" + "ull"[..3] == "null" && "ull"[3..] == [];
    KeywordScanFound("n", "ull", 3);
  }
}
