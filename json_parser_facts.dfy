/** What the newer parser guarantees about the trees it builds. */
module JsonParserFacts {
  import opened Results
  import opened JsonTokens
  import opened HostTypes
  import opened JsonValues
  import opened DynamicJson
  import opened JsonParser

  predicate UntypedEntries(es: seq<Entry<Json>>) {
    UniqueKeys(es) && forall e :: e in es ==> Untyped(e.value)
  }

  lemma PutUntyped(es: seq<Entry<Json>>, key: string, v: Json)
    requires UntypedEntries(es) && Untyped(v)
    ensures UntypedEntries(Put(es, key, v))
  {
    PutUnique(es, key, v);
    PutEntries(es, key, v);
  }

  /** Parsing without a type builds an untyped tree: dictionaries without
      repeated keys, arrays, nulls and scalars, and never an undefined node. */
  lemma {:induction false} ValueIsUntyped(table: TypeTable, st: State)
    requires WellFormed(st.cur)
    ensures ParsedValue(table, None, st).Ok? ==> Untyped(ParsedValue(table, None, st).value.0)
    decreases Measure(st), 1
  {
    var k := st.cur.kind;
    if k == ObjectStart {
      ObjectIsUntyped(table, st);
    } else if k == ArrayStart {
      ArrayIsUntyped(table, st);
    }
  }

  lemma {:induction false} ObjectIsUntyped(table: TypeTable, st: State)
    requires WellFormed(st.cur)
    ensures ParsedObject(table, None, st).Ok? ==> Untyped(ParsedObject(table, None, st).value.0)
    decreases Measure(st), 0
  {
    if st.cur.kind == ObjectStart && Advance(st).Ok? {
      var st1 := Advance(st).value;
      MembersAreUntyped(table, Dict([]), st1);
    }
  }

  lemma {:induction false} MembersAreUntyped(table: TypeTable, acc: Payload<Json>, st: State)
    requires WellFormed(st.cur) && acc.Dict? && UntypedEntries(acc.entries)
    ensures var r := ParsedMembers(table, None, acc, st);
      r.Ok? ==> r.value.0.Dict? && UntypedEntries(r.value.0.entries)
    decreases Measure(st), 3
  {
    if st.cur.kind != ObjectEnd {
      MemberIsUntyped(table, acc, st);
      var m := ParsedMember(table, None, acc, st);
      if m.Ok? && m.value.1.cur.kind == Comma && Advance(m.value.1).Ok? {
        MembersAreUntyped(table, m.value.0, Advance(m.value.1).value);
      }
    }
  }

  lemma {:induction false} MemberIsUntyped(table: TypeTable, acc: Payload<Json>, st: State)
    requires WellFormed(st.cur) && acc.Dict? && UntypedEntries(acc.entries)
    ensures var r := ParsedMember(table, None, acc, st);
      r.Ok? ==> r.value.0.Dict? && UntypedEntries(r.value.0.entries)
    decreases Measure(st), 2
  {
    if st.cur.kind == String && Advance(st).Ok? {
      var st1 := Advance(st).value;
      if st1.cur.kind == Colon && Advance(st1).Ok? {
        var st2 := Advance(st1).value;
        ValueIsUntyped(table, st2);
        var p := ParsedValue(table, None, st2);
        if p.Ok? {
          PutUntyped(acc.entries, st.cur.text.value, p.value.0);
        }
      }
    }
  }

  lemma {:induction false} ArrayIsUntyped(table: TypeTable, st: State)
    requires WellFormed(st.cur)
    ensures ParsedArray(table, None, st).Ok? ==> Untyped(ParsedArray(table, None, st).value.0)
    decreases Measure(st), 0
  {
    if st.cur.kind == ArrayStart && Advance(st).Ok? {
      var st1 := Advance(st).value;
      ElementsAreUntyped(table, [], st1);
    }
  }

  lemma {:induction false} ElementsAreUntyped(table: TypeTable, items: seq<Json>, st: State)
    requires WellFormed(st.cur) && forall x :: x in items ==> Untyped(x)
    ensures var r := ParsedElements(table, items, st);
      r.Ok? ==> forall x :: x in r.value.0 ==> Untyped(x)
    decreases Measure(st), 2
  {
    if st.cur.kind != ArrayEnd {
      ValueIsUntyped(table, st);
      var p := ParsedValue(table, None, st);
      if p.Ok? {
        var items1 := items + [p.value.0];
        assert forall x :: x in items1 ==> Untyped(x);
        if p.value.1.cur.kind == Comma && Advance(p.value.1).Ok? {
          ElementsAreUntyped(table, items1, Advance(p.value.1).value);
        }
      }
    }
  }

  /** Every member a typed object sets is a member of its type, converted to
      that member's declared type. */
  predicate FieldsFit(ms: seq<Member>, fields: seq<Entry<Conversion<Json>>>) {
    forall e :: e in fields ==> exists m :: m in ms && m.name == e.key && e.value.target == m.memberType
  }

  lemma {:induction false} TypedMembersFit(table: TypeTable, t: HostType, acc: Payload<Json>, st: State)
    requires WellFormed(st.cur) && acc.Instance? && acc.instanceType == t
    requires FieldsFit(MembersOf(table, t), acc.fields) && UniqueKeys(acc.fields)
    ensures var r := ParsedMembers(table, Some(t), acc, st);
      r.Ok? ==> r.value.0.Instance? && FieldsFit(MembersOf(table, t), r.value.0.fields) && UniqueKeys(r.value.0.fields)
    decreases Measure(st)
  {
    if st.cur.kind != ObjectEnd {
      TypedMemberFits(table, t, acc, st);
      var m := ParsedMember(table, Some(t), acc, st);
      if m.Ok? && m.value.1.cur.kind == Comma && Advance(m.value.1).Ok? {
        TypedMembersFit(table, t, m.value.0, Advance(m.value.1).value);
      }
    }
  }

  lemma TypedMemberFits(table: TypeTable, t: HostType, acc: Payload<Json>, st: State)
    requires WellFormed(st.cur) && acc.Instance? && acc.instanceType == t
    requires FieldsFit(MembersOf(table, t), acc.fields) && UniqueKeys(acc.fields)
    ensures var r := ParsedMember(table, Some(t), acc, st);
      r.Ok? ==> r.value.0.Instance? && FieldsFit(MembersOf(table, t), r.value.0.fields) && UniqueKeys(r.value.0.fields)
  {
    var r := ParsedMember(table, Some(t), acc, st);
    if r.Ok? && st.cur.kind == String {
      var st1 := Advance(st).value;
      var st2 := Advance(st1).value;
      var field := FirstIgnoreCase(MembersOf(table, t), st.cur.text.value);
      if field.Some? {
        var p := ParsedValue(table, Some(field.value.memberType), st2).value;
        var conv := As(p.0, field.value.memberType);
        PutEntries(acc.fields, field.value.name, conv);
        PutUnique(acc.fields, field.value.name, conv);
      }
    }
  }

  /** Parse<T> yields an instance of T whose set members are members of T,
      each set once, with the value converted to the member's type. */
  lemma ParseAsFits(table: TypeTable, t: HostType, json: string)
    requires ParseAs(table, t, json).Ok?
    ensures var c := ParseAs(table, t, json).value;
      c.target == t && c.source.value.Instance? && c.source.value.instanceType == t
      && FieldsFit(MembersOf(table, t), c.source.value.fields) && UniqueKeys(c.source.value.fields)
  {
    var st := Start(json).value;
    var st1 := Advance(st).value;
    TypedMembersFit(table, t, Instance(t, []), st1);
  }

  /** A typed member's value is read from its token: a string member needs
      a string token, a numeric member an integer or float token, and an
      object member a '{'; a bool member takes any token and is true exactly
      on `true`. */
  lemma MemberValueTokens(table: TypeTable, st: State, nt: NumericType)
    requires WellFormed(st.cur)
    ensures st.cur.kind != String ==> ParsedValue(table, Some(TString), st) == Err(Exception("Expected string"))
    ensures st.cur.kind != Integer && st.cur.kind != Float ==>
      ParsedValue(table, Some(TNumeric(nt)), st) == Err(Exception("Number expected"))
    ensures st.cur.kind != ObjectStart ==> ParsedValue(table, Some(TObject), st) == Err(Exception("Expected {"))
    ensures ParsedValue(table, Some(TBool), st).Ok? <==> Advance(st).Ok?
    ensures ParsedValue(table, Some(TBool), st).Ok? ==>
      ParsedValue(table, Some(TBool), st).value == (FromValue(Prim(BoolValue(st.cur.kind == True))), Advance(st).value)
  {
  }

  /** One pass of the loop on a typed object: a name, a colon and a value.
      The first member of T whose name matches ignoring case is set to the
      value converted to its type and every other member is kept; a name no
      member matches leaves the instance as it was. */
  lemma TypedMemberSets(table: TypeTable, t: HostType, acc: Payload<Json>, st: State)
    requires WellFormed(st.cur) && acc.Instance? && acc.instanceType == t
    requires ParsedMember(table, Some(t), acc, st).Ok?
    ensures st.cur.kind == String && Advance(st).Ok? && Advance(st).value.cur.kind == Colon && Advance(Advance(st).value).Ok?
    ensures var field := FirstIgnoreCase(MembersOf(table, t), st.cur.text.value);
      var p := ParsedValue(table, Some(if field.Some? then field.value.memberType else TObject), Advance(Advance(st).value).value);
      var r := ParsedMember(table, Some(t), acc, st).value;
      p.Ok? && r.1 == p.value.1 && r.0.Instance? && r.0.instanceType == t
      && (field.Some? ==> Lookup(r.0.fields, field.value.name) == Some(As(p.value.0, field.value.memberType)))
      && (field.Some? ==> forall k :: k != field.value.name ==> Lookup(r.0.fields, k) == Lookup(acc.fields, k))
      && (field.None? ==> r.0 == acc)
  {
  }

  /** A name no member of T matches is still parsed, as an object: any
      other value fails with "Expected {". */
  lemma UnmatchedNameNeedsObject(table: TypeTable, t: HostType, acc: Payload<Json>, st: State, st1: State, st2: State)
    requires WellFormed(st.cur) && acc.Instance? && acc.instanceType == t
    requires st.cur.kind == String && FirstIgnoreCase(MembersOf(table, t), st.cur.text.value).None?
    requires Advance(st) == Ok(st1) && st1.cur.kind == Colon && Advance(st1) == Ok(st2)
    requires st2.cur.kind != ObjectStart
    ensures ParsedMember(table, Some(t), acc, st) == Err(Exception("Expected {"))
  {
    MemberValueTokens(table, st2, Int32);
  }

  /** The property names the loop reads, in order. */
  ghost function MemberNames(table: TypeTable, ty: Option<HostType>, acc: Payload<Json>, st: State): seq<string>
    requires WellFormed(st.cur) && Accumulates(ty, acc)
    decreases Measure(st)
  {
    if st.cur.kind != String then []
    else
      match ParsedMember(table, ty, acc, st)
      case Err(_) => [st.cur.text.value]
      case Ok(m) =>
        [st.cur.text.value] + (if m.1.cur.kind == Comma && Advance(m.1).Ok? then MemberNames(table, ty, m.0, Advance(m.1).value) else [])
  }

  /** The members of T the names pick out, ignoring case; a name that none
      matches picks none. */
  function MatchedMembers(ms: seq<Member>, names: seq<string>): (r: seq<string>)
    ensures forall k :: k in r <==> exists i :: 0 <= i < |names| && FirstIgnoreCase(ms, names[i]).Some? && FirstIgnoreCase(ms, names[i]).value.name == k
    decreases |names|
  {
    if names == [] then []
    else
      var f := FirstIgnoreCase(ms, names[0]);
      var r := MatchedMembers(ms, names[1..]);
      assert forall i :: 1 <= i < |names| ==> names[i] == names[1..][i - 1];
      if f.Some? then [f.value.name] + r else r
  }

  /** The members of a typed object after one pass: the ones before, and
      the one the name matched if any. */
  lemma TypedMemberKeys(table: TypeTable, t: HostType, acc: Payload<Json>, st: State)
    requires WellFormed(st.cur) && acc.Instance? && acc.instanceType == t
    requires ParsedMember(table, Some(t), acc, st).Ok?
    ensures st.cur.kind == String
    ensures var r := ParsedMember(table, Some(t), acc, st).value;
      forall k :: k in KeysOf(r.0.fields) <==> k in KeysOf(acc.fields) || k in MatchedMembers(MembersOf(table, t), [st.cur.text.value])
  {
    TypedMemberSets(table, t, acc, st);
    var r := ParsedMember(table, Some(t), acc, st).value;
    var f := FirstIgnoreCase(MembersOf(table, t), st.cur.text.value);
    forall k ensures k in KeysOf(r.0.fields) <==> k in KeysOf(acc.fields) || (f.Some? && k == f.value.name) {
      if f.Some? && k != f.value.name {
        assert Lookup(r.0.fields, k) == Lookup(acc.fields, k);
      }
    }
  }

  /** MatchedMembers of a concatenation. */
  lemma {:induction false} MatchedAppend(ms: seq<Member>, a: seq<string>, b: seq<string>)
    ensures forall k :: k in MatchedMembers(ms, a + b) <==> k in MatchedMembers(ms, a) || k in MatchedMembers(ms, b)
    decreases |a|
  {
    if a != [] {
      var f := FirstIgnoreCase(ms, a[0]);
      var head := if f.Some? then [f.value.name] else [];
      assert (a + b)[0] == a[0] && (a + b)[1..] == a[1..] + b;
      assert MatchedMembers(ms, a + b) == head + MatchedMembers(ms, a[1..] + b);
      assert MatchedMembers(ms, a) == head + MatchedMembers(ms, a[1..]);
      MatchedAppend(ms, a[1..], b);
    } else {
      assert a + b == b;
    }
  }

  /** The members a typed object ends with are those it began with and
      those some property name matched, and no others. */
  lemma {:induction false} TypedMembersSet(table: TypeTable, t: HostType, acc: Payload<Json>, st: State)
    requires WellFormed(st.cur) && acc.Instance? && acc.instanceType == t
    requires ParsedMembers(table, Some(t), acc, st).Ok?
    ensures forall k :: k in KeysOf(ParsedMembers(table, Some(t), acc, st).value.0.fields) <==>
      k in KeysOf(acc.fields) || k in MatchedMembers(MembersOf(table, t), MemberNames(table, Some(t), acc, st))
    decreases Measure(st)
  {
    if st.cur.kind != ObjectEnd {
      TypedMemberKeys(table, t, acc, st);
      var m := ParsedMember(table, Some(t), acc, st).value;
      var rest := if m.1.cur.kind == Comma && Advance(m.1).Ok? then MemberNames(table, Some(t), m.0, Advance(m.1).value) else [];
      assert MemberNames(table, Some(t), acc, st) == [st.cur.text.value] + rest;
      MatchedAppend(MembersOf(table, t), [st.cur.text.value], rest);
      if m.1.cur.kind == Comma {
        TypedMembersSet(table, t, m.0, Advance(m.1).value);
      }
    }
  }

  /** The property names of the object Parse<T> reads. */
  ghost function ObjectNames(table: TypeTable, t: HostType, json: string): seq<string> {
    match Start(json)
    case Err(_) => []
    case Ok(st) =>
      match Advance(st)
      case Err(_) => []
      case Ok(st1) => MemberNames(table, Some(t), Instance(t, []), st1)
  }

  /** Parse<T> sets exactly the members of T that some property name of the
      object matches, ignoring case. */
  lemma ParseAsSets(table: TypeTable, t: HostType, json: string)
    requires ParseAs(table, t, json).Ok?
    ensures forall k :: k in KeysOf(ParseAs(table, t, json).value.source.value.fields) <==>
      k in MatchedMembers(MembersOf(table, t), ObjectNames(table, t, json))
  {
    var st := Start(json).value;
    var st1 := Advance(st).value;
    TypedMembersSet(table, t, Instance(t, []), st1);
  }

  /** Parse(json) without a type yields an untyped tree. */
  lemma ParseIsUntyped(json: string)
    requires Parse(json).Ok?
    ensures Untyped(Parse(json).value)
  {
    ValueIsUntyped(map[], Start(json).value);
  }

  /** A comma right before '}' is accepted: after a member and a comma the
      loop tests for the closing brace again. */
  lemma TrailingCommaBeforeBrace(table: TypeTable, ty: Option<HostType>, acc: Payload<Json>, st: State, st1: State, st2: State, acc1: Payload<Json>)
    requires WellFormed(st.cur) && Accumulates(ty, acc) && st.cur.kind != ObjectEnd
    requires ParsedMember(table, ty, acc, st) == Ok((acc1, st1))
    requires st1.cur.kind == Comma && Advance(st1) == Ok(st2) && st2.cur.kind == ObjectEnd
    ensures ParsedMembers(table, ty, acc, st) == Ok((acc1, st2))
    ensures CloseObject(ParsedMembers(table, ty, acc, st)) == CloseObject(Ok((acc1, st2)))
  {
  }

  /** The same for a comma right before ']'. */
  lemma TrailingCommaBeforeBracket(table: TypeTable, items: seq<Json>, st: State, st1: State, st2: State, v: Json)
    requires WellFormed(st.cur) && st.cur.kind != ArrayEnd
    requires ParsedValue(table, None, st) == Ok((v, st1))
    requires st1.cur.kind == Comma && Advance(st1) == Ok(st2) && st2.cur.kind == ArrayEnd
    ensures ParsedElements(table, items, st) == Ok((items + [v], st2))
  {
  }

  /** The structural errors and their messages. */
  lemma StructureErrors(table: TypeTable, ty: Option<HostType>, acc: Payload<Json>, st: State)
    requires WellFormed(st.cur) && Accumulates(ty, acc)
    ensures st.cur.kind != ObjectStart ==> ParsedObject(table, ty, st) == Err(Exception("Expected {"))
    ensures st.cur.kind != ObjectEnd && st.cur.kind != String ==>
      ParsedMembers(table, ty, acc, st) == Err(Exception("Expected property name"))
    ensures st.cur.kind == String && Advance(st).Ok? && Advance(st).value.cur.kind != Colon ==>
      ParsedMember(table, ty, acc, st) == Err(Exception("Expected colon"))
    ensures st.cur.kind != ArrayStart ==> ParsedArray(table, ty, st) == Err(Exception("Expected ["))
  {
  }

  /** A member loop that ends without '}' or ']' reports which one it wanted. */
  lemma CloseErrors(elem: Option<HostType>, m: Payload<Json>, items: seq<Json>, st: State)
    requires WellFormed(st.cur)
    ensures st.cur.kind != ObjectEnd ==> CloseObject(Ok((m, st))) == Err(Exception("Expected }"))
    ensures st.cur.kind != ArrayEnd ==> CloseArray(elem, Ok((items, st))) == Err(Exception("Expected ]"))
  {
  }

  /** In untyped mode a repeated key overwrites the value read before:
      the dictionary holds the last one. */
  lemma LastKeyWins(table: TypeTable, acc: Payload<Json>, st: State)
    requires WellFormed(st.cur) && acc.Dict? && st.cur.kind == String
    ensures var r := ParsedMember(table, None, acc, st);
      r.Ok? ==>
        exists v :: r.value.0 == Dict(Put(acc.entries, st.cur.text.value, v))
          && Lookup(r.value.0.entries, st.cur.text.value) == Some(v)
  {
    var r := ParsedMember(table, None, acc, st);
    if r.Ok? {
      var st2 := Advance(Advance(st).value).value;
      var v := ParsedValue(table, None, st2).value.0;
      assert r.value.0 == Dict(Put(acc.entries, st.cur.text.value, v));
    }
  }

  /** Untyped dispatch: null gives a null node that is not undefined; a
      token that cannot start a value is an error naming it. */
  lemma UntypedDispatch(table: TypeTable, st: State)
    requires WellFormed(st.cur)
    ensures st.cur.kind == TokenType.Null && Advance(st).Ok? ==>
      ParsedValue(table, None, st) == Ok((FromValue(Payload.Null), Advance(st).value))
      && IsNull(FromValue(Payload.Null)) && !IsUndefined(FromValue(Payload.Null))
    ensures st.cur.kind != TokenType.Null && !StartsValue(st.cur.kind) ==>
      ParsedValue(table, None, st) == Err(Exception("Unexpected token " + TypeName(st.cur.kind)))
  {
  }
}
