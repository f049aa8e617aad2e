/** The recursive-descent parser of the older revision (Iridium-Core), over
    the same tokenizer and the same parser states as the newer one. It
    builds the immutable JsonObject, keeps integers 64-bit, looks a typed
    member up by its exact name (a property before a field), and reports an
    unexpected token by the token's type name. */
module LegacyParser {
  import opened Results
  import opened JsonTokens
  import opened HostTypes
  import opened JsonValues
  import opened ImmutableJson
  import Tokenizer
  import opened JsonParser

  /** "Unexpected token " + CurrentToken: JsonToken is a struct without a
      ToString of its own, so the text is its type's full name. */
  const UnexpectedTokenMessage := "Unexpected token Iridium.Core.JsonToken"

  /** ParseValue(type). */
  function LegacyValue(table: TypeTable, ty: Option<HostType>, st: State): (r: Result<(Node, State)>)
    requires WellFormed(st.cur)
    ensures r.Ok? ==> WellFormed(r.value.1.cur) && Measure(r.value.1) <= Measure(st)
    decreases Measure(st), 1
  {
    var k := st.cur.kind;
    if ty.None? && k == TokenType.Null then
      var st1 :- Advance(st);
      Ok((Of(Payload.Null), st1))
    else if ty.None? && !StartsValue(k) then
      Err(Exception(UnexpectedTokenMessage))
    else
      var t := if ty.Some? then ty else UntypedTarget(k);
      var isArray := ty.None? && k == ArrayStart;
      if isArray || (t.Some? && IsListType(t.value)) then LegacyArray(table, t, st)
      else if t.None? then LegacyObject(table, None, st)
      else if t.value == TString then LegacyString(st)
      else if t.value == TBool then
        var st1 :- Advance(st);
        Ok((Of(Prim(BoolValue(k == True))), st1))
      else if t.value.TNumeric? then LegacyNumber(t.value.numeric, st)
      else LegacyObject(table, t, st)
  }

  /** ParseObject(objectType): '{', the members, '}'. */
  function LegacyObject(table: TypeTable, ty: Option<HostType>, st: State): (r: Result<(Node, State)>)
    requires WellFormed(st.cur)
    ensures r.Ok? ==> WellFormed(r.value.1.cur) && Measure(r.value.1) < Measure(st)
    decreases Measure(st), 0
  {
    if st.cur.kind != ObjectStart then Err(Exception("Expected {"))
    else
      var st1 :- Advance(st);
      CloseLegacyObject(LegacyMembers(table, ty, Initial(ty), st1))
  }

  /** After ParseObject's loop: the closing '}'. */
  function CloseLegacyObject(m: Result<(Payload<Node>, State)>): (r: Result<(Node, State)>)
    requires m.Ok? ==> WellFormed(m.value.1.cur)
    ensures r.Ok? ==> m.Ok? && WellFormed(r.value.1.cur) && Measure(r.value.1) < Measure(m.value.1)
    ensures r.Ok? ==> r.value.0 == Of(m.value.0)
  {
    var m :- m;
    if m.1.cur.kind != ObjectEnd then Err(Exception("Expected }"))
    else
      var st :- Advance(m.1);
      Ok((Of(m.0), st))
  }

  /** ParseObject's loop, from the token after '{' or after a comma. */
  function LegacyMembers(table: TypeTable, ty: Option<HostType>, acc: Payload<Node>, st: State): (r: Result<(Payload<Node>, State)>)
    requires WellFormed(st.cur) && Accumulates(ty, acc)
    ensures r.Ok? ==> WellFormed(r.value.1.cur) && Measure(r.value.1) <= Measure(st) && Accumulates(ty, r.value.0)
    decreases Measure(st), 3
  {
    if st.cur.kind == ObjectEnd then Ok((acc, st))
    else
      var m :- LegacyMember(table, ty, acc, st);
      if m.1.cur.kind != Comma then Ok(m)
      else
        var st1 :- Advance(m.1);
        LegacyMembers(table, ty, m.0, st1)
  }

  /** One pass of ParseObject's loop body up to the comma test. A typed
      object sets the property of that exact name, or else the field of
      that name; any other key is parsed as an object and dropped. */
  function LegacyMember(table: TypeTable, ty: Option<HostType>, acc: Payload<Node>, st: State): (r: Result<(Payload<Node>, State)>)
    requires WellFormed(st.cur) && Accumulates(ty, acc)
    ensures r.Ok? ==> WellFormed(r.value.1.cur) && Measure(r.value.1) < Measure(st) && Accumulates(ty, r.value.0)
    decreases Measure(st), 2
  {
    if st.cur.kind != String then Err(Exception("Expected property name"))
    else
      var propName := st.cur.text.value;
      var st1 :- Advance(st);
      if st1.cur.kind != Colon then Err(Exception("Expected colon"))
      else
        var st2 :- Advance(st1);
        var member := if ty.Some? then PropertyOrField(MembersOf(table, ty.value), propName) else None;
        var vt := if ty.None? then None else if member.Some? then Some(member.value.memberType) else Some(TObject);
        var p :- LegacyValue(table, vt, st2);
        var acc1 :=
          if ty.None? then Dict(Put(acc.entries, propName, p.0))
          else if member.Some? then Instance(acc.instanceType, Put(acc.fields, member.value.name, As(p.0, member.value.memberType)))
          else acc;
        Ok((acc1, p.1))
  }

  /** ParseArray(type): '[', the elements, ']'. */
  function LegacyArray(table: TypeTable, t: Option<HostType>, st: State): (r: Result<(Node, State)>)
    requires WellFormed(st.cur)
    ensures r.Ok? ==> WellFormed(r.value.1.cur) && Measure(r.value.1) < Measure(st)
    decreases Measure(st), 0
  {
    var elem := if t.Some? && t.value.TArray? then Some(t.value.elem) else None;
    if st.cur.kind != ArrayStart then Err(Exception("Expected ["))
    else
      var st1 :- Advance(st);
      CloseLegacyArray(elem, LegacyElements(table, [], st1))
  }

  /** After ParseArray's loop: the closing ']'. */
  function CloseLegacyArray(elem: Option<HostType>, e: Result<(seq<Node>, State)>): (r: Result<(Node, State)>)
    requires e.Ok? ==> WellFormed(e.value.1.cur)
    ensures r.Ok? ==> e.Ok? && WellFormed(r.value.1.cur) && Measure(r.value.1) < Measure(e.value.1)
    ensures r.Ok? ==> r.value.0 == Of(ArrayPayload(elem, e.value.0))
  {
    var e :- e;
    if e.1.cur.kind != ArrayEnd then Err(Exception("Expected ]"))
    else
      var st :- Advance(e.1);
      Ok((Of(ArrayPayload(elem, e.0)), st))
  }

  /** ParseArray's loop: untyped values separated by commas. */
  function LegacyElements(table: TypeTable, items: seq<Node>, st: State): (r: Result<(seq<Node>, State)>)
    requires WellFormed(st.cur)
    ensures r.Ok? ==> WellFormed(r.value.1.cur) && Measure(r.value.1) <= Measure(st)
    decreases Measure(st), 2
  {
    if st.cur.kind == ArrayEnd then Ok((items, st))
    else
      var p :- LegacyValue(table, None, st);
      if p.1.cur.kind != Comma then Ok((items + [p.0], p.1))
      else
        var st2 :- Advance(p.1);
        LegacyElements(table, items + [p.0], st2)
  }

  /** ParseNumber(type): an Integer token is read as a long, a Float token
      as a double, and the value is changed to the asked type. */
  function LegacyNumber(nt: NumericType, st: State): (r: Result<(Node, State)>)
    requires WellFormed(st.cur)
    ensures r.Ok? ==> WellFormed(r.value.1.cur) && Measure(r.value.1) < Measure(st)
    ensures r.Ok? ==> r.value.0.value.Prim? && r.value.0.value.scalar.NumberValue?
  {
    var k := st.cur.kind;
    if k != Float && k != Integer then Err(Exception("Number expected"))
    else
      var n :- if k == Integer then (var i :- Int64Parse(st.cur.text.value); Ok(Int64Value(i)))
               else Ok(DoubleValue(st.cur.text.value));
      var st1 :- Advance(st);
      var c :- ChangeType(n, nt);
      Ok((Of(Prim(NumberValue(c))), st1))
  }

  /** ParseString(). */
  function LegacyString(st: State): (r: Result<(Node, State)>)
    requires WellFormed(st.cur)
    ensures r.Ok? ==> WellFormed(r.value.1.cur) && Measure(r.value.1) < Measure(st)
    ensures r.Ok? <==> st.cur.kind == String && Advance(st).Ok?
    ensures r.Ok? ==> r.value.0 == Of(Prim(StringValue(st.cur.text.value)))
  {
    if st.cur.kind != String then Err(Exception("Expected string"))
    else
      var st1 :- Advance(st);
      Ok((Of(Prim(StringValue(st.cur.text.value))), st1))
  }

  /** JsonParser.Parse(json). */
  function LegacyParse(json: string): Result<Node> {
    var st :- Start(json);
    var p :- LegacyValue(map[], None, st);
    Ok(p.0)
  }

  /** JsonParser.Parse<T>(json). */
  function LegacyParseAs(table: TypeTable, t: HostType, json: string): Result<Conversion<Node>> {
    var st :- Start(json);
    var p :- LegacyObject(table, Some(t), st);
    Ok(As(p.0, t))
  }

  /** One older parser over one input. */
  class Parser {
    const tokenizer: Tokenizer.JsonTokenizer
    const table: TypeTable
    var currentToken: JsonToken

    ghost predicate Valid()
      reads this, tokenizer, tokenizer.feeder
    {
      tokenizer.feeder.Valid() && WellFormed(currentToken)
    }

    ghost function Position(): State
      reads this, tokenizer, tokenizer.feeder
      requires Valid()
    {
      State(currentToken, tokenizer.feeder.Pending())
    }

    constructor (json: string, table: TypeTable)
      ensures Valid() && fresh(tokenizer) && fresh(tokenizer.feeder)
      ensures tokenizer.feeder.Pending() == json && this.table == table
    {
      tokenizer := new Tokenizer.JsonTokenizer(json);
      this.table := table;
      currentToken := JsonToken(EOF, None);
    }

    method NextToken() returns (r: Result<()>)
      requires Valid()
      modifies this, tokenizer.feeder
      ensures Valid()
      ensures match Advance(old(Position())) case Ok(st) => r.Ok? && Position() == st case Err(e) => r == Err(e)
    {
      var t := tokenizer.NextToken();
      if t.Err? {
        return Err(t.error);
      }
      currentToken := t.value;
      return Ok(());
    }

    method ParseValue(ty: Option<HostType>) returns (r: Result<Node>)
      requires Valid()
      modifies this, tokenizer.feeder
      ensures Valid()
      ensures Agrees(r, LegacyValue(table, ty, old(Position())), Position())
      decreases Measure(Position()), 1
    {
      var k := currentToken.kind;
      if ty.None? && k == TokenType.Null {
        var u :- NextToken();
        return Ok(Of(Payload.Null));
      }
      if ty.None? && !StartsValue(k) {
        return Err(Exception(UnexpectedTokenMessage));
      }
      var t := if ty.Some? then ty else UntypedTarget(k);
      var isArray := ty.None? && k == ArrayStart;
      if isArray || (t.Some? && IsListType(t.value)) {
        r := ParseArray(t);
      } else if t.None? {
        r := ParseObject(None);
      } else if t.value == TString {
        r := ParseString();
      } else if t.value == TBool {
        var value := k == True;
        var u :- NextToken();
        r := Ok(Of(Prim(BoolValue(value))));
      } else if t.value.TNumeric? {
        r := ParseNumber(t.value.numeric);
      } else {
        r := ParseObject(t);
      }
    }

    method ParseObject(ty: Option<HostType>) returns (r: Result<Node>)
      requires Valid()
      modifies this, tokenizer.feeder
      ensures Valid()
      ensures Agrees(r, LegacyObject(table, ty, old(Position())), Position())
      decreases Measure(Position()), 0
    {
      if currentToken.kind != ObjectStart {
        return Err(Exception("Expected {"));
      }
      var obj := Initial(ty);
      var u :- NextToken();
      obj :- ParseMembers(ty, obj);
      if currentToken.kind != ObjectEnd {
        return Err(Exception("Expected }"));
      }
      u :- NextToken();
      return Ok(Of(obj));
    }

    /** ParseObject's loop: members separated by commas, stopping before a
        '}' or after a member not followed by a comma. */
    method ParseMembers(ty: Option<HostType>, obj: Payload<Node>) returns (r: Result<Payload<Node>>)
      requires Valid() && Accumulates(ty, obj)
      modifies this, tokenizer.feeder
      ensures Valid()
      ensures Agrees(r, LegacyMembers(table, ty, obj, old(Position())), Position())
      decreases Measure(Position()), 3
    {
      var acc := obj;
      ghost var answer := LegacyMembers(table, ty, acc, Position());
      while true
        invariant Valid() && Accumulates(ty, acc)
        invariant Measure(Position()) <= Measure(old(Position()))
        invariant LegacyMembers(table, ty, acc, Position()) == answer
        decreases Measure(Position())
      {
        if currentToken.kind == ObjectEnd {
          break;
        }
        acc :- ParseMember(ty, acc);
        if currentToken.kind != Comma {
          break;
        }
        var u :- NextToken();
      }
      return Ok(acc);
    }

    /** One pass of ParseObject's loop body up to the comma test. */
    method ParseMember(ty: Option<HostType>, obj: Payload<Node>) returns (r: Result<Payload<Node>>)
      requires Valid() && Accumulates(ty, obj)
      modifies this, tokenizer.feeder
      ensures Valid()
      ensures Agrees(r, LegacyMember(table, ty, obj, old(Position())), Position())
      decreases Measure(Position()), 2
    {
      if currentToken.kind != String {
        return Err(Exception("Expected property name"));
      }
      var propName := currentToken.text.value;
      var u :- NextToken();
      if currentToken.kind != Colon {
        return Err(Exception("Expected colon"));
      }
      u :- NextToken();
      if ty.Some? {
        var member := PropertyOrField(MembersOf(table, ty.value), propName);
        if member.Some? {
          var v :- ParseValue(Some(member.value.memberType));
          return Ok(Instance(obj.instanceType, Put(obj.fields, member.value.name, As(v, member.value.memberType))));
        } else {
          var ignored :- ParseValue(Some(TObject));
          return Ok(obj);
        }
      } else {
        var v :- ParseValue(None);
        return Ok(Dict(Put(obj.entries, propName, v)));
      }
    }

    method ParseArray(t: Option<HostType>) returns (r: Result<Node>)
      requires Valid()
      modifies this, tokenizer.feeder
      ensures Valid()
      ensures Agrees(r, LegacyArray(table, t, old(Position())), Position())
      decreases Measure(Position()), 0
    {
      var elementType := if t.Some? && t.value.TArray? then Some(t.value.elem) else None;
      if currentToken.kind != ArrayStart {
        return Err(Exception("Expected ["));
      }
      var u :- NextToken();
      var list :- ParseElements();
      if currentToken.kind != ArrayEnd {
        return Err(Exception("Expected ]"));
      }
      u :- NextToken();
      var arr := CreateNodeArray(list);
      return Ok(Of(ArrayPayload(elementType, arr[..])));
    }

    /** ParseArray's loop: untyped values separated by commas, stopping
        before a ']' or after a value not followed by a comma. */
    method ParseElements() returns (r: Result<seq<Node>>)
      requires Valid()
      modifies this, tokenizer.feeder
      ensures Valid()
      ensures Agrees(r, LegacyElements(table, [], old(Position())), Position())
      decreases Measure(Position()), 2
    {
      var list: seq<Node> := [];
      ghost var answer := LegacyElements(table, list, Position());
      while true
        invariant Valid()
        invariant Measure(Position()) <= Measure(old(Position()))
        invariant LegacyElements(table, list, Position()) == answer
        decreases Measure(Position())
      {
        if currentToken.kind == ArrayEnd {
          break;
        }
        var v :- ParseValue(None);
        list := list + [v];
        if currentToken.kind != Comma {
          break;
        }
        var u :- NextToken();
      }
      return Ok(list);
    }

    method ParseNumber(nt: NumericType) returns (r: Result<Node>)
      requires Valid()
      modifies this, tokenizer.feeder
      ensures Valid()
      ensures Agrees(r, LegacyNumber(nt, old(Position())), Position())
    {
      var k := currentToken.kind;
      if k != Float && k != Integer {
        return Err(Exception("Number expected"));
      }
      var n: Number;
      if k == Integer {
        var i :- Int64Parse(currentToken.text.value);
        n := Int64Value(i);
      } else {
        n := DoubleValue(currentToken.text.value);
      }
      var u :- NextToken();
      var c :- ChangeType(n, nt);
      return Ok(Of(Prim(NumberValue(c))));
    }

    method ParseString() returns (r: Result<Node>)
      requires Valid()
      modifies this, tokenizer.feeder
      ensures Valid()
      ensures Agrees(r, LegacyString(old(Position())), Position())
    {
      if currentToken.kind != String {
        return Err(Exception("Expected string"));
      }
      var s := currentToken.text.value;
      var u :- NextToken();
      return Ok(Of(Prim(StringValue(s))));
    }
  }

  /** Array.CreateInstance of the list's length, then SetValue of each
      element in turn. */
  method CreateNodeArray(list: seq<Node>) returns (arr: array<Node>)
    ensures fresh(arr) && arr[..] == list
  {
    arr := new Node[|list|](_ => Empty);
    for i := 0 to arr.Length
      invariant arr[..i] == list[..i]
    {
      arr[i] := list[i];
    }
  }

  /** new JsonParser(json)._Parse(). */
  method ParseJson(json: string) returns (r: Result<Node>)
    ensures r == LegacyParse(json)
  {
    var parser := new Parser(json, map[]);
    var u :- parser.NextToken();
    r := parser.ParseValue(None);
  }

  /** new JsonParser(json)._Parse<T>(). */
  method ParseJsonAs(table: TypeTable, t: HostType, json: string) returns (r: Result<Conversion<Node>>)
    ensures r == LegacyParseAs(table, t, json)
  {
    var parser := new Parser(json, table);
    var u :- parser.NextToken();
    var o :- parser.ParseObject(Some(t));
    return Ok(As(o, t));
  }

  /** Parse<T>(json, prototype): the prototype is not looked at. */
  method ParseJsonLike<T>(table: TypeTable, t: HostType, json: string, prototype: T) returns (r: Result<Conversion<Node>>)
    ensures r == LegacyParseAs(table, t, json)
  {
    r := ParseJsonAs(table, t, json);
  }
}
