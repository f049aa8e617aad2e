/** The recursive-descent parser of the newer revision, over the tokenizer:
    first as functions of the current token and the characters still to be
    read, then as the parser class that holds the current token. */
module JsonParser {
  import opened Results
  import opened JsonTokens
  import JsonLexer
  import opened HostTypes
  import opened JsonValues
  import opened DynamicJson
  import Tokenizer

  /** The parser's position: CurrentToken and the input after it. */
  datatype State = State(cur: JsonToken, rest: seq<char>)

  /** Shrinks with every token consumed, and cannot grow. */
  function Measure(st: State): nat {
    2 * |st.rest| + (if st.cur.kind == EOF then 0 else 1)
  }

  /** The state after the first token of `input`. */
  function Start(input: seq<char>): (r: Result<State>)
    ensures r.Ok? ==> WellFormed(r.value.cur) && Measure(r.value) <= 2 * |input|
  {
    var t :- JsonLexer.Lex(input);
    Ok(State(t.0, t.1))
  }

  /** NextToken(): CurrentToken becomes the next token. */
  function Advance(st: State): (r: Result<State>)
    ensures r.Ok? ==> WellFormed(r.value.cur)
    ensures r.Ok? ==> Measure(r.value) + (if st.cur.kind == EOF then 0 else 1) <= Measure(st)
  {
    Start(st.rest)
  }

  /** The tokens that can start a value when no type is asked for. */
  predicate StartsValue(k: TokenType) {
    k == ObjectStart || k == ArrayStart || k == True || k == False
    || k == Integer || k == Float || k == String
  }

  /** The type ParseValue() picks from the token when none is asked for:
      bool, long, double or string, and none for an object or array. */
  function UntypedTarget(k: TokenType): Option<HostType> {
    if k == True || k == False then Some(TBool)
    else if k == Integer then Some(TNumeric(Int64))
    else if k == Float then Some(TNumeric(Double))
    else if k == String then Some(TString)
    else None
  }

  /** What an object being parsed has accumulated: a dictionary, or an
      instance of the requested type. */
  predicate Accumulates<N>(ty: Option<HostType>, acc: Payload<N>) {
    if ty.None? then acc.Dict? else acc.Instance? && acc.instanceType == ty.value
  }

  function Initial<N>(ty: Option<HostType>): (r: Payload<N>)
    ensures Accumulates(ty, r)
  {
    if ty.None? then Dict([]) else Instance(ty.value, [])
  }

  /** The children of a parsed array, converted to the element type of an
      array type. */
  function ArrayPayload<N>(elem: Option<HostType>, items: seq<N>): Payload<N> {
    if elem.None? then Arr(items)
    else HostArray(elem.value, seq(|items|, i requires 0 <= i < |items| => As(items[i], elem.value)))
  }

  /** ParseValue(type). */
  function ParsedValue(table: TypeTable, ty: Option<HostType>, st: State): (r: Result<(Json, State)>)
    requires WellFormed(st.cur)
    ensures r.Ok? ==> WellFormed(r.value.1.cur) && Measure(r.value.1) <= Measure(st)
    decreases Measure(st), 1
  {
    var k := st.cur.kind;
    if ty.None? && k == TokenType.Null then
      var st1 :- Advance(st);
      Ok((FromValue(Payload.Null), st1))
    else if ty.None? && !StartsValue(k) then
      Err(Exception("Unexpected token " + TypeName(k)))
    else
      var t := if ty.Some? then ty else UntypedTarget(k);
      var isArray := ty.None? && k == ArrayStart;
      if isArray || (t.Some? && IsListType(t.value)) then ParsedArray(table, t, st)
      else if t.None? then ParsedObject(table, None, st)
      else if t.value == TString then ParsedString(st)
      else if t.value == TBool then
        var st1 :- Advance(st);
        Ok((FromValue(Prim(BoolValue(k == True))), st1))
      else if t.value.TNumeric? then ParsedNumber(t.value.numeric, st)
      else ParsedObject(table, t, st)
  }

  /** ParseObject(objectType): '{', the members, '}'. */
  function ParsedObject(table: TypeTable, ty: Option<HostType>, st: State): (r: Result<(Json, State)>)
    requires WellFormed(st.cur)
    ensures r.Ok? ==> WellFormed(r.value.1.cur) && Measure(r.value.1) < Measure(st)
    decreases Measure(st), 0
  {
    if st.cur.kind != ObjectStart then Err(Exception("Expected {"))
    else
      var st1 :- Advance(st);
      CloseObject(ParsedMembers(table, ty, Initial(ty), st1))
  }

  /** After ParseObject's loop: the closing '}'. */
  function CloseObject(m: Result<(Payload<Json>, State)>): (r: Result<(Json, State)>)
    requires m.Ok? ==> WellFormed(m.value.1.cur)
    ensures r.Ok? ==> m.Ok? && WellFormed(r.value.1.cur) && Measure(r.value.1) < Measure(m.value.1)
    ensures r.Ok? ==> r.value.0 == FromValue(m.value.0)
  {
    var m :- m;
    if m.1.cur.kind != ObjectEnd then Err(Exception("Expected }"))
    else
      var st :- Advance(m.1);
      Ok((FromValue(m.0), st))
  }

  /** ParseObject's loop, from the token after '{' or after a comma: stops
      before a '}' or after a member not followed by a comma. */
  function ParsedMembers(table: TypeTable, ty: Option<HostType>, acc: Payload<Json>, st: State): (r: Result<(Payload<Json>, State)>)
    requires WellFormed(st.cur) && Accumulates(ty, acc)
    ensures r.Ok? ==> WellFormed(r.value.1.cur) && Measure(r.value.1) <= Measure(st) && Accumulates(ty, r.value.0)
    decreases Measure(st), 3
  {
    if st.cur.kind == ObjectEnd then Ok((acc, st))
    else
      var m :- ParsedMember(table, ty, acc, st);
      if m.1.cur.kind != Comma then Ok(m)
      else
        var st1 :- Advance(m.1);
        ParsedMembers(table, ty, m.0, st1)
  }

  /** One pass of ParseObject's loop body up to the comma test: a name, a
      colon and a value. A typed object sets the first member whose name
      matches ignoring case; a key with no such member is parsed as an
      object and dropped. */
  function ParsedMember(table: TypeTable, ty: Option<HostType>, acc: Payload<Json>, st: State): (r: Result<(Payload<Json>, State)>)
    requires WellFormed(st.cur) && Accumulates(ty, acc)
    ensures r.Ok? ==> WellFormed(r.value.1.cur) && Measure(r.value.1) < Measure(st) && Accumulates(ty, r.value.0)
    decreases Measure(st), 2
  {
    if st.cur.kind != String then Err(Exception("Expected property name"))
    else
      var propName := st.cur.text.value;
      var st1 :- Advance(st);
      if st1.cur.kind != Colon then Err(Exception("Expected colon"))
      else
        var st2 :- Advance(st1);
        var field := if ty.Some? then FirstIgnoreCase(MembersOf(table, ty.value), propName) else None;
        var vt := if ty.None? then None else if field.Some? then Some(field.value.memberType) else Some(TObject);
        var p :- ParsedValue(table, vt, st2);
        var acc1 :=
          if ty.None? then Dict(Put(acc.entries, propName, p.0))
          else if field.Some? then Instance(acc.instanceType, Put(acc.fields, field.value.name, As(p.0, field.value.memberType)))
          else acc;
        Ok((acc1, p.1))
  }

  /** ParseArray(type): '[', the elements, ']'; the elements of an array
      type are converted to its element type. */
  function ParsedArray(table: TypeTable, t: Option<HostType>, st: State): (r: Result<(Json, State)>)
    requires WellFormed(st.cur)
    ensures r.Ok? ==> WellFormed(r.value.1.cur) && Measure(r.value.1) < Measure(st)
    decreases Measure(st), 0
  {
    var elem := if t.Some? && t.value.TArray? then Some(t.value.elem) else None;
    if st.cur.kind != ArrayStart then Err(Exception("Expected ["))
    else
      var st1 :- Advance(st);
      CloseArray(elem, ParsedElements(table, [], st1))
  }

  /** After ParseArray's loop: the closing ']'. */
  function CloseArray(elem: Option<HostType>, e: Result<(seq<Json>, State)>): (r: Result<(Json, State)>)
    requires e.Ok? ==> WellFormed(e.value.1.cur)
    ensures r.Ok? ==> e.Ok? && WellFormed(r.value.1.cur) && Measure(r.value.1) < Measure(e.value.1)
    ensures r.Ok? ==> r.value.0 == FromValue(ArrayPayload(elem, e.value.0))
  {
    var e :- e;
    if e.1.cur.kind != ArrayEnd then Err(Exception("Expected ]"))
    else
      var st :- Advance(e.1);
      Ok((FromValue(ArrayPayload(elem, e.0)), st))
  }

  /** ParseArray's loop: untyped values separated by commas, stopping before
      a ']' or after a value not followed by a comma. */
  function ParsedElements(table: TypeTable, items: seq<Json>, st: State): (r: Result<(seq<Json>, State)>)
    requires WellFormed(st.cur)
    ensures r.Ok? ==> WellFormed(r.value.1.cur) && Measure(r.value.1) <= Measure(st)
    decreases Measure(st), 2
  {
    if st.cur.kind == ArrayEnd then Ok((items, st))
    else
      var p :- ParsedValue(table, None, st);
      if p.1.cur.kind != Comma then Ok((items + [p.0], p.1))
      else
        var st2 :- Advance(p.1);
        ParsedElements(table, items + [p.0], st2)
  }

  /** ParseNumber(type): an Integer token is read as a long and becomes an
      int when strictly between Int32.MinValue and Int32.MaxValue; a Float
      token is read as a double; then the value is changed to the asked
      type. */
  function ParsedNumber(nt: NumericType, st: State): (r: Result<(Json, State)>)
    requires WellFormed(st.cur)
    ensures r.Ok? ==> WellFormed(r.value.1.cur) && Measure(r.value.1) < Measure(st)
    ensures r.Ok? ==> r.value.0.value.Prim? && r.value.0.value.scalar.NumberValue?
  {
    var k := st.cur.kind;
    if k != Float && k != Integer then Err(Exception("Number expected"))
    else if k == Integer then
      var n :- Int64Parse(st.cur.text.value);
      var num := if Int32MinValue < n < Int32MaxValue then Int32Value(n) else Int64Value(n);
      var t := if Int32MinValue < n < Int32MaxValue then Int32 else nt;
      var st1 :- Advance(st);
      var c :- ChangeType(num, t);
      Ok((FromValue(Prim(NumberValue(c))), st1))
    else
      var st1 :- Advance(st);
      var c :- ChangeType(DoubleValue(st.cur.text.value), nt);
      Ok((FromValue(Prim(NumberValue(c))), st1))
  }

  /** ParseString(). */
  function ParsedString(st: State): (r: Result<(Json, State)>)
    requires WellFormed(st.cur)
    ensures r.Ok? ==> WellFormed(r.value.1.cur) && Measure(r.value.1) < Measure(st)
    ensures r.Ok? <==> st.cur.kind == String && Advance(st).Ok?
    ensures r.Ok? ==> r.value.0 == FromValue(Prim(StringValue(st.cur.text.value)))
  {
    if st.cur.kind != String then Err(Exception("Expected string"))
    else
      var st1 :- Advance(st);
      Ok((FromValue(Prim(StringValue(st.cur.text.value))), st1))
  }

  /** JsonParser.Parse(json): the first value of the input. What follows it
      is not looked at beyond the one token read after it. */
  function Parse(json: string): Result<Json> {
    var st :- Start(json);
    var p :- ParsedValue(map[], None, st);
    Ok(p.0)
  }

  /** JsonParser.Parse<T>(json): an object mapped onto an instance of T. */
  function ParseAs(table: TypeTable, t: HostType, json: string): Result<Conversion<Json>> {
    var st :- Start(json);
    var p :- ParsedObject(table, Some(t), st);
    Ok(As(p.0, t))
  }

  /** Parse reads the first token and then one untyped value. */
  lemma ParseStep(json: string, st: State, v: Json, st1: State)
    requires Start(json) == Ok(st)
    requires ParsedValue(map[], None, st) == Ok((v, st1))
    ensures Parse(json) == Ok(v)
  {
  }

  /** An untyped string token is a string node. */
  lemma StringStep(table: TypeTable, st: State)
    requires WellFormed(st.cur) && st.cur.kind == String && Advance(st).Ok?
    ensures ParsedValue(table, None, st) == Ok((FromValue(Prim(StringValue(st.cur.text.value))), Advance(st).value))
  {
  }

  /** An untyped null token is a null node. */
  lemma NullStep(table: TypeTable, st: State)
    requires WellFormed(st.cur) && st.cur.kind == TokenType.Null && Advance(st).Ok?
    ensures ParsedValue(table, None, st) == Ok((FromValue(Payload.Null), Advance(st).value))
  {
  }

  /** A method's outcome agrees with a parsing function's: the same error,
      or the same value and the same position after it. */
  ghost predicate Agrees<T>(r: Result<T>, spec: Result<(T, State)>, now: State) {
    match spec
    case Ok(p) => r == Ok(p.0) && now == p.1
    case Err(e) => r == Err(e)
  }

  /** One parser over one input. `table` stands for the reflection the
      typed mode performs on the requested type. */
  class Parser {
    const tokenizer: Tokenizer.JsonTokenizer
    const table: TypeTable
    var currentToken: JsonToken

    ghost predicate Valid()
      reads this, tokenizer, tokenizer.feeder
    {
      tokenizer.feeder.Valid() && WellFormed(currentToken)
    }

    ghost function Position(): State
      reads this, tokenizer, tokenizer.feeder
      requires Valid()
    {
      State(currentToken, tokenizer.feeder.Pending())
    }

    constructor (json: string, table: TypeTable)
      ensures Valid() && fresh(tokenizer) && fresh(tokenizer.feeder)
      ensures tokenizer.feeder.Pending() == json && this.table == table
    {
      tokenizer := new Tokenizer.JsonTokenizer(json);
      this.table := table;
      currentToken := JsonToken(EOF, None);
    }

    method NextToken() returns (r: Result<()>)
      requires Valid()
      modifies this, tokenizer.feeder
      ensures Valid()
      ensures match Advance(old(Position())) case Ok(st) => r.Ok? && Position() == st case Err(e) => r == Err(e)
    {
      var t := tokenizer.NextToken();
      if t.Err? {
        return Err(t.error);
      }
      currentToken := t.value;
      return Ok(());
    }

    method ParseValue(ty: Option<HostType>) returns (r: Result<Json>)
      requires Valid()
      modifies this, tokenizer.feeder
      ensures Valid()
      ensures Agrees(r, ParsedValue(table, ty, old(Position())), Position())
      decreases Measure(Position()), 1
    {
      var k := currentToken.kind;
      if ty.None? && k == TokenType.Null {
        var u :- NextToken();
        return Ok(FromValue(Payload.Null));
      }
      if ty.None? && !StartsValue(k) {
        return Err(Exception("Unexpected token " + TypeName(k)));
      }
      var t := if ty.Some? then ty else UntypedTarget(k);
      var isArray := ty.None? && k == ArrayStart;
      if isArray || (t.Some? && IsListType(t.value)) {
        r := ParseArray(t);
      } else if t.None? {
        r := ParseObject(None);
      } else if t.value == TString {
        r := ParseString();
      } else if t.value == TBool {
        var value := k == True;
        var u :- NextToken();
        r := Ok(FromValue(Prim(BoolValue(value))));
      } else if t.value.TNumeric? {
        r := ParseNumber(t.value.numeric);
      } else {
        r := ParseObject(t);
      }
    }

    method ParseObject(ty: Option<HostType>) returns (r: Result<Json>)
      requires Valid()
      modifies this, tokenizer.feeder
      ensures Valid()
      ensures Agrees(r, ParsedObject(table, ty, old(Position())), Position())
      decreases Measure(Position()), 0
    {
      if currentToken.kind != ObjectStart {
        return Err(Exception("Expected {"));
      }
      var obj := Initial(ty);
      var fieldsInType := if ty.Some? then MembersOf(table, ty.value) else [];
      var u :- NextToken();
      obj :- ParseMembers(ty, fieldsInType, obj);
      if currentToken.kind != ObjectEnd {
        return Err(Exception("Expected }"));
      }
      u :- NextToken();
      return Ok(FromValue(obj));
    }

    /** ParseObject's loop: members separated by commas, stopping before a
        '}' or after a member not followed by a comma. */
    method ParseMembers(ty: Option<HostType>, fieldsInType: seq<Member>, obj: Payload<Json>) returns (r: Result<Payload<Json>>)
      requires Valid() && Accumulates(ty, obj)
      requires fieldsInType == if ty.Some? then MembersOf(table, ty.value) else []
      modifies this, tokenizer.feeder
      ensures Valid()
      ensures Agrees(r, ParsedMembers(table, ty, obj, old(Position())), Position())
      decreases Measure(Position()), 3
    {
      var acc := obj;
      ghost var answer := ParsedMembers(table, ty, acc, Position());
      while true
        invariant Valid() && Accumulates(ty, acc)
        invariant Measure(Position()) <= Measure(old(Position()))
        invariant ParsedMembers(table, ty, acc, Position()) == answer
        decreases Measure(Position())
      {
        if currentToken.kind == ObjectEnd {
          break;
        }
        acc :- ParseMember(ty, fieldsInType, acc);
        if currentToken.kind != Comma {
          break;
        }
        var u :- NextToken();
      }
      return Ok(acc);
    }

    /** One pass of ParseObject's loop body up to the comma test. */
    method ParseMember(ty: Option<HostType>, fieldsInType: seq<Member>, obj: Payload<Json>) returns (r: Result<Payload<Json>>)
      requires Valid() && Accumulates(ty, obj)
      requires fieldsInType == if ty.Some? then MembersOf(table, ty.value) else []
      modifies this, tokenizer.feeder
      ensures Valid()
      ensures Agrees(r, ParsedMember(table, ty, obj, old(Position())), Position())
      decreases Measure(Position()), 2
    {
      if currentToken.kind != String {
        return Err(Exception("Expected property name"));
      }
      var propName := currentToken.text.value;
      var u :- NextToken();
      if currentToken.kind != Colon {
        return Err(Exception("Expected colon"));
      }
      u :- NextToken();
      if ty.Some? {
        var field := FirstIgnoreCase(fieldsInType, propName);
        if field.Some? {
          var v :- ParseValue(Some(field.value.memberType));
          return Ok(Instance(obj.instanceType, Put(obj.fields, field.value.name, As(v, field.value.memberType))));
        } else {
          var ignored :- ParseValue(Some(TObject));
          return Ok(obj);
        }
      } else {
        var v :- ParseValue(None);
        return Ok(Dict(Put(obj.entries, propName, v)));
      }
    }

    method ParseArray(t: Option<HostType>) returns (r: Result<Json>)
      requires Valid()
      modifies this, tokenizer.feeder
      ensures Valid()
      ensures Agrees(r, ParsedArray(table, t, old(Position())), Position())
      decreases Measure(Position()), 0
    {
      var elementType := if t.Some? && t.value.TArray? then Some(t.value.elem) else None;
      if currentToken.kind != ArrayStart {
        return Err(Exception("Expected ["));
      }
      var u :- NextToken();
      var list :- ParseElements();
      if currentToken.kind != ArrayEnd {
        return Err(Exception("Expected ]"));
      }
      u :- NextToken();
      var arr := CreateArray(list);
      return Ok(FromValue(ArrayPayload(elementType, arr[..])));
    }

    /** ParseArray's loop: untyped values separated by commas, stopping
        before a ']' or after a value not followed by a comma. */
    method ParseElements() returns (r: Result<seq<Json>>)
      requires Valid()
      modifies this, tokenizer.feeder
      ensures Valid()
      ensures Agrees(r, ParsedElements(table, [], old(Position())), Position())
      decreases Measure(Position()), 2
    {
      var list: seq<Json> := [];
      ghost var answer := ParsedElements(table, list, Position());
      while true
        invariant Valid()
        invariant Measure(Position()) <= Measure(old(Position()))
        invariant ParsedElements(table, list, Position()) == answer
        decreases Measure(Position())
      {
        if currentToken.kind == ArrayEnd {
          break;
        }
        var v :- ParseValue(None);
        list := list + [v];
        if currentToken.kind != Comma {
          break;
        }
        var u :- NextToken();
      }
      return Ok(list);
    }

    method ParseNumber(nt: NumericType) returns (r: Result<Json>)
      requires Valid()
      modifies this, tokenizer.feeder
      ensures Valid()
      ensures Agrees(r, ParsedNumber(nt, old(Position())), Position())
    {
      var k := currentToken.kind;
      if k != Float && k != Integer {
        return Err(Exception("Number expected"));
      }
      var n: Number;
      var ty := nt;
      if k == Integer {
        var i :- Int64Parse(currentToken.text.value);
        n := Int64Value(i);
        if Int32MinValue < i < Int32MaxValue {
          n := Int32Value(i);
          ty := Int32;
        }
      } else {
        n := DoubleValue(currentToken.text.value);
      }
      var u :- NextToken();
      var c :- ChangeType(n, ty);
      return Ok(FromValue(Prim(NumberValue(c))));
    }

    method ParseString() returns (r: Result<Json>)
      requires Valid()
      modifies this, tokenizer.feeder
      ensures Valid()
      ensures Agrees(r, ParsedString(old(Position())), Position())
    {
      if currentToken.kind != String {
        return Err(Exception("Expected string"));
      }
      var s := currentToken.text.value;
      var u :- NextToken();
      return Ok(FromValue(Prim(StringValue(s))));
    }
  }

  /** Array.CreateInstance of the list's length, then SetValue of each
      element in turn. */
  method CreateArray(list: seq<Json>) returns (arr: array<Json>)
    ensures fresh(arr) && arr[..] == list
  {
    arr := new Json[|list|](_ => Undefined());
    for i := 0 to arr.Length
      invariant arr[..i] == list[..i]
    {
      arr[i] := list[i];
    }
  }

  /** new JsonParser(json)._Parse(). */
  method ParseJson(json: string) returns (r: Result<Json>)
    ensures r == Parse(json)
  {
    var parser := new Parser(json, map[]);
    var u :- parser.NextToken();
    r := parser.ParseValue(None);
  }

  /** new JsonParser(json)._Parse<T>(). */
  method ParseJsonAs(table: TypeTable, t: HostType, json: string) returns (r: Result<Conversion<Json>>)
    ensures r == ParseAs(table, t, json)
  {
    var parser := new Parser(json, table);
    var u :- parser.NextToken();
    var o :- parser.ParseObject(Some(t));
    return Ok(As(o, t));
  }
}
