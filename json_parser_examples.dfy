/** The newer parser on the inputs of its test fixture. */
module JsonParserExamples {
  import opened Results
  import opened Text
  import opened JsonTokens
  import JsonLexer
  import opened HostTypes
  import opened JsonValues
  import opened DynamicJson
  import opened JsonParser

  const End := JsonToken(EOF, None)

  /** "[]" is an empty array. */
  lemma EmptyArrayText()
    ensures Parse("[]") == Ok(EmptyArray())
  {
    var st := State(JsonToken(ArrayStart, None), "]");
    var st1 := State(JsonToken(ArrayEnd, None), []);
    StructuralToken('[', "]", ArrayStart);
    StructuralToken(']', [], ArrayEnd);
    EndToken();
    EmptyArrayStep(st, st1, State(End, []));
    ParseStep("[]", st, EmptyArray(), State(End, []));
  }

  /** "{}" is an empty object. */
  lemma EmptyObjectText()
    ensures Parse("{}") == Ok(EmptyObject())
  {
    var st := State(JsonToken(ObjectStart, None), "}");
    var st1 := State(JsonToken(ObjectEnd, None), []);
    StructuralToken('{', "}", ObjectStart);
    StructuralToken('}', [], ObjectEnd);
    EndToken();
    assert ParsedMembers(map[], None, Dict([]), st1) == Ok((Dict([]), st1));
    ObjectStep(st, st1, Dict([]), st1, State(End, []));
    ParseStep("{}", st, EmptyObject(), State(End, []));
  }

  /** An empty input has no value. */
  lemma EmptyText()
    ensures Parse("") == Err(Exception("Unexpected token EOF"))
  {
    EndToken();
    var st := State(End, []);
    assert ParsedValue(map[], None, st) == Err(Exception("Unexpected token " + TypeName(EOF)));
    assert "Unexpected token " + TypeName(EOF) == "Unexpected token EOF";
  }

  /** A comma before the closing brace is accepted: {"x":1,} has x = 1, an
      int. */
  lemma TrailingComma()
    ensures Parse("{\"x\":1,}") == Ok(FromValue(Dict([Entry("x", One())])))
  {
    var s1 := State(JsonToken(ObjectStart, None), "\"x\":1,}");
    StructuralToken('{', "\"x\":1,}", ObjectStart);
    TrailingCommaObject(s1);
    ParseStep("{\"x\":1,}", s1, FromValue(Dict([Entry("x", One())])), State(End, ""));
  }

  function One(): Json {
    FromValue(Prim(NumberValue(Int32Value(1))))
  }

  /** An untyped empty array: '[' and then ']'. */
  lemma EmptyArrayStep(st: State, st1: State, st2: State)
    requires WellFormed(st.cur) && st.cur.kind == ArrayStart
    requires Advance(st) == Ok(st1) && st1.cur.kind == ArrayEnd && Advance(st1) == Ok(st2)
    ensures ParsedValue(map[], None, st) == Ok((EmptyArray(), st2))
  {
    assert ParsedElements(map[], [], st1) == Ok(([], st1));
    assert ParsedArray(map[], None, st) == CloseArray(None, Ok(([], st1)));
  }

  /** An untyped object: '{', the members into a dictionary, '}'. */
  lemma ObjectStep(st: State, st1: State, d: Payload<Json>, st2: State, st3: State)
    requires WellFormed(st.cur) && st.cur.kind == ObjectStart
    requires Advance(st) == Ok(st1)
    requires WellFormed(st1.cur) && ParsedMembers(map[], None, Dict([]), st1) == Ok((d, st2))
    requires st2.cur.kind == ObjectEnd && Advance(st2) == Ok(st3)
    ensures ParsedValue(map[], None, st) == Ok((FromValue(d), st3))
  {
  }

  /** The members loop: one member, a comma, then the closing brace. */
  lemma MembersStep(acc: Payload<Json>, st: State, d: Payload<Json>, st1: State, st2: State)
    requires WellFormed(st.cur) && acc.Dict? && st.cur.kind != ObjectEnd
    requires ParsedMember(map[], None, acc, st) == Ok((d, st1))
    requires st1.cur.kind == Comma && Advance(st1) == Ok(st2) && st2.cur.kind == ObjectEnd
    ensures ParsedMembers(map[], None, acc, st) == Ok((d, st2))
  {
  }

  /** One untyped member: a name, a colon and a value put under the name. */
  lemma MemberStep(es: seq<Entry<Json>>, st: State, st1: State, st2: State, v: Json, st3: State)
    requires WellFormed(st.cur) && st.cur.kind == String
    requires Advance(st) == Ok(st1) && st1.cur.kind == Colon && Advance(st1) == Ok(st2)
    requires WellFormed(st2.cur) && ParsedValue(map[], None, st2) == Ok((v, st3))
    ensures ParsedMember(map[], None, Dict(es), st) == Ok((Dict(Put(es, st.cur.text.value, v)), st3))
  {
  }

  lemma TrailingCommaObject(st: State)
    requires st == State(JsonToken(ObjectStart, None), "\"x\":1,}")
    ensures ParsedValue(map[], None, st) == Ok((FromValue(Dict([Entry("x", One())])), State(End, "")))
  {
    var st1 := State(JsonToken(String, Some("x")), ":1,}");
    var st2 := State(JsonToken(ObjectEnd, None), "");
    assert st.rest == ['"', 'x', '"'] + ":1,}";
    QuotedChar('x', ":1,}");
    EndToken();
    TrailingCommaMembers();
    ObjectStep(st, st1, Dict([Entry("x", One())]), st2, State(End, ""));
  }

  lemma TrailingCommaMembers()
    ensures ParsedMembers(map[], None, Dict([]), State(JsonToken(String, Some("x")), ":1,}"))
      == Ok((Dict([Entry("x", One())]), State(JsonToken(ObjectEnd, None), "")))
  {
    var st1 := State(JsonToken(String, Some("x")), ":1,}");
    var st2 := State(JsonToken(ObjectEnd, None), "");
    TrailingCommaMember();
    StructuralToken('}', "", ObjectEnd);
    MembersStep(Dict([]), st1, Dict([Entry("x", One())]), State(JsonToken(Comma, None), "}"), st2);
  }

  lemma TrailingCommaMember()
    ensures ParsedMember(map[], None, Dict([]), State(JsonToken(String, Some("x")), ":1,}"))
      == Ok((Dict([Entry("x", One())]), State(JsonToken(Comma, None), "}")))
  {
    var st := State(JsonToken(String, Some("x")), ":1,}");
    var st1 := State(JsonToken(Colon, None), "1,}");
    var st2 := State(JsonToken(Integer, Some("1")), ",}");
    var st3 := State(JsonToken(Comma, None), "}");
    StructuralToken(':', "1,}", Colon);
    DigitToken('1', ',', "}");
    StructuralToken(',', "}", Comma);
    IntegerOne(st2);
    MemberStep([], st, st1, st2, One(), st3);
  }

  /** An untyped Integer token "1" is the Int32 1. */
  lemma IntegerOne(st: State)
    requires st.cur == JsonToken(Integer, Some("1")) && Advance(st).Ok?
    ensures ParsedValue(map[], None, st) == Ok((One(), Advance(st).value))
  {
    assert DecimalValue("1") == 1;
    assert Int64Parse("1") == Ok(1);
    assert ParsedValue(map[], None, st) == ParsedNumber(Int64, st);
  }

  /** The first token after a structural character is that character's
      token. */
  lemma StructuralToken(c: char, p: string, k: TokenType)
    requires JsonLexer.Structural(c) == Some(k)
    ensures Start([c] + p) == Ok(State(JsonToken(k, None), p))
  {
    assert JsonLexer.Read([c] + p) == (c, p);
  }

  lemma EndToken()
    ensures Start([]) == Ok(State(End, []))
  {
    assert JsonLexer.Lex([]) == Ok((End, []));
  }

  /** A quoted character that needs no escape is a string token. */
  lemma QuotedChar(x: char, p: string)
    requires x != '"' && x != '\\' && x != '\0'
    ensures Start(['"', x, '"'] + p) == Ok(State(JsonToken(String, Some([x])), p))
  {
    var q, q1, q2 := ['"', x, '"'] + p, [x, '"'] + p, ['"'] + p;
    assert q[0] == '"' && q[1..] == q1;
    assert q1[0] == x && q1[1..] == q2;
    assert q2[0] == '"' && q2[1..] == p;
    assert JsonLexer.ScanRaw(q2, false, [x]) == Ok(([x], p));
    assert [] + [x] == [x];
    assert JsonLexer.ScanRaw(q1, false, []) == Ok(([x], p));
    assert JsonLexer.Lex(q) == JsonLexer.LexString(q1);
  }

  /** A digit followed by a character that cannot continue a number is a
      one-digit Integer token. */
  lemma DigitToken(d: char, c: char, p: string)
    requires IsDigit(d) && !IsDigit(c) && c != '.' && c != '\0'
    ensures Start([d, c] + p) == Ok(State(JsonToken(Integer, Some([d])), [c] + p))
  {
    var q, q1 := [d, c] + p, [c] + p;
    assert q[0] == d && q[1..] == q1;
    assert q1[0] == c && q1[1..] == p;
    assert JsonLexer.ScanNumber([d], false, q1) == ([d], false, q1);
    assert JsonLexer.Structural(d).None? && d != '"' && !IsWhiteSpace(d);
  }
}
