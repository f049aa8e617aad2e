/** What the older parser guarantees, and where it parts from the newer
    one. */
module LegacyParserFacts {
  import opened Results
  import opened JsonTokens
  import opened HostTypes
  import opened JsonValues
  import ImmutableJson
  import DynamicJson
  import opened JsonParser
  import opened LegacyParser

  /** Every member a typed object sets is found under its exact name, a
      property before a field, and its value is converted to that member's
      declared type. */
  predicate ExactFieldsFit(ms: seq<Member>, fields: seq<Entry<Conversion<ImmutableJson.Node>>>) {
    forall e :: e in fields ==>
      PropertyOrField(ms, e.key).Some? && e.value.target == PropertyOrField(ms, e.key).value.memberType
  }

  lemma {:induction false} LegacyMembersFit(table: TypeTable, t: HostType, acc: Payload<ImmutableJson.Node>, st: State)
    requires WellFormed(st.cur) && acc.Instance? && acc.instanceType == t
    requires ExactFieldsFit(MembersOf(table, t), acc.fields) && UniqueKeys(acc.fields)
    ensures var r := LegacyMembers(table, Some(t), acc, st);
      r.Ok? ==> r.value.0.Instance? && ExactFieldsFit(MembersOf(table, t), r.value.0.fields) && UniqueKeys(r.value.0.fields)
    decreases Measure(st)
  {
    if st.cur.kind != ObjectEnd {
      LegacyMemberFits(table, t, acc, st);
      var m := LegacyMember(table, Some(t), acc, st);
      if m.Ok? && m.value.1.cur.kind == Comma && Advance(m.value.1).Ok? {
        LegacyMembersFit(table, t, m.value.0, Advance(m.value.1).value);
      }
    }
  }

  lemma LegacyMemberFits(table: TypeTable, t: HostType, acc: Payload<ImmutableJson.Node>, st: State)
    requires WellFormed(st.cur) && acc.Instance? && acc.instanceType == t
    requires ExactFieldsFit(MembersOf(table, t), acc.fields) && UniqueKeys(acc.fields)
    ensures var r := LegacyMember(table, Some(t), acc, st);
      r.Ok? ==> r.value.0.Instance? && ExactFieldsFit(MembersOf(table, t), r.value.0.fields) && UniqueKeys(r.value.0.fields)
  {
    var r := LegacyMember(table, Some(t), acc, st);
    if r.Ok? && st.cur.kind == String {
      var st1 := Advance(st).value;
      var st2 := Advance(st1).value;
      var ms := MembersOf(table, t);
      var member := PropertyOrField(ms, st.cur.text.value);
      if member.Some? {
        var p := LegacyValue(table, Some(member.value.memberType), st2).value;
        var conv := As(p.0, member.value.memberType);
        assert member.value.name == st.cur.text.value;
        PutEntries(acc.fields, member.value.name, conv);
        PutUnique(acc.fields, member.value.name, conv);
      }
    }
  }

  /** Parse<T> yields an instance of T, each member set once, under its
      exact name, with the value converted to the type of the property of
      that name if there is one and of the field otherwise. */
  lemma LegacyParseAsFits(table: TypeTable, t: HostType, json: string)
    requires LegacyParseAs(table, t, json).Ok?
    ensures var c := LegacyParseAs(table, t, json).value;
      c.target == t && c.source.value.Instance? && c.source.value.instanceType == t
      && ExactFieldsFit(MembersOf(table, t), c.source.value.fields) && UniqueKeys(c.source.value.fields)
  {
    var st := Start(json).value;
    var st1 := Advance(st).value;
    LegacyMembersFit(table, t, Instance(t, []), st1);
  }

  /** A typed member's value is read from its token as in the newer
      revision: a string member needs a string token, a numeric member an
      integer or float token, an object member a '{'; a bool member is true
      exactly on `true`. */
  lemma LegacyValueTokens(table: TypeTable, st: State, nt: NumericType)
    requires WellFormed(st.cur)
    ensures st.cur.kind != String ==> LegacyValue(table, Some(TString), st) == Err(Exception("Expected string"))
    ensures st.cur.kind != Integer && st.cur.kind != Float ==>
      LegacyValue(table, Some(TNumeric(nt)), st) == Err(Exception("Number expected"))
    ensures st.cur.kind != ObjectStart ==> LegacyValue(table, Some(TObject), st) == Err(Exception("Expected {"))
    ensures LegacyValue(table, Some(TBool), st).Ok? <==> Advance(st).Ok?
    ensures LegacyValue(table, Some(TBool), st).Ok? ==>
      LegacyValue(table, Some(TBool), st).value == (ImmutableJson.Of(Prim(BoolValue(st.cur.kind == True))), Advance(st).value)
  {
  }

  /** One pass of the loop on a typed object: the property of exactly that
      name, or else the field, is set to the value converted to its type and
      every other member is kept; a name no member has leaves the instance
      as it was. */
  lemma LegacyMemberSets(table: TypeTable, t: HostType, acc: Payload<ImmutableJson.Node>, st: State)
    requires WellFormed(st.cur) && acc.Instance? && acc.instanceType == t
    requires LegacyMember(table, Some(t), acc, st).Ok?
    ensures st.cur.kind == String && Advance(st).Ok? && Advance(st).value.cur.kind == Colon && Advance(Advance(st).value).Ok?
    ensures var member := PropertyOrField(MembersOf(table, t), st.cur.text.value);
      var p := LegacyValue(table, Some(if member.Some? then member.value.memberType else TObject), Advance(Advance(st).value).value);
      var r := LegacyMember(table, Some(t), acc, st).value;
      p.Ok? && r.1 == p.value.1 && r.0.Instance? && r.0.instanceType == t
      && (member.Some? ==> Lookup(r.0.fields, st.cur.text.value) == Some(As(p.value.0, member.value.memberType)))
      && (member.Some? ==> forall k :: k != st.cur.text.value ==> Lookup(r.0.fields, k) == Lookup(acc.fields, k))
      && (member.None? ==> r.0 == acc)
  {
  }

  /** A name no member of T has is still parsed, as an object: any other
      value fails with "Expected {". */
  lemma LegacyUnmatchedNeedsObject(table: TypeTable, t: HostType, acc: Payload<ImmutableJson.Node>, st: State, st1: State, st2: State)
    requires WellFormed(st.cur) && acc.Instance? && acc.instanceType == t
    requires st.cur.kind == String && PropertyOrField(MembersOf(table, t), st.cur.text.value).None?
    requires Advance(st) == Ok(st1) && st1.cur.kind == Colon && Advance(st1) == Ok(st2)
    requires st2.cur.kind != ObjectStart
    ensures LegacyMember(table, Some(t), acc, st) == Err(Exception("Expected {"))
  {
    LegacyValueTokens(table, st2, Int32);
  }

  /** The property names the loop reads, in order. */
  ghost function LegacyMemberNames(table: TypeTable, ty: Option<HostType>, acc: Payload<ImmutableJson.Node>, st: State): seq<string>
    requires WellFormed(st.cur) && Accumulates(ty, acc)
    decreases Measure(st)
  {
    if st.cur.kind != String then []
    else
      match LegacyMember(table, ty, acc, st)
      case Err(_) => [st.cur.text.value]
      case Ok(m) =>
        [st.cur.text.value] + (if m.1.cur.kind == Comma && Advance(m.1).Ok? then LegacyMemberNames(table, ty, m.0, Advance(m.1).value) else [])
  }

  /** The names that are the exact name of some member. */
  function ExactMatches(ms: seq<Member>, names: seq<string>): (r: seq<string>)
    ensures forall k :: k in r <==> k in names && exists m :: m in ms && m.name == k
    decreases |names|
  {
    if names == [] then []
    else
      var r := ExactMatches(ms, names[1..]);
      assert forall k :: k in names <==> k == names[0] || k in names[1..];
      if PropertyOrField(ms, names[0]).Some? then [names[0]] + r else r
  }

  lemma {:induction false} ExactAppend(ms: seq<Member>, a: seq<string>, b: seq<string>)
    ensures forall k :: k in ExactMatches(ms, a + b) <==> k in ExactMatches(ms, a) || k in ExactMatches(ms, b)
  {
    forall k ensures k in a + b <==> k in a || k in b {
    }
  }

  /** The members of a typed object after one pass: the ones before, and
      the name read if a member has it. */
  lemma LegacyMemberKeys(table: TypeTable, t: HostType, acc: Payload<ImmutableJson.Node>, st: State)
    requires WellFormed(st.cur) && acc.Instance? && acc.instanceType == t
    requires LegacyMember(table, Some(t), acc, st).Ok?
    ensures st.cur.kind == String
    ensures var r := LegacyMember(table, Some(t), acc, st).value;
      forall k :: k in KeysOf(r.0.fields) <==> k in KeysOf(acc.fields) || k in ExactMatches(MembersOf(table, t), [st.cur.text.value])
  {
    LegacyMemberSets(table, t, acc, st);
    var r := LegacyMember(table, Some(t), acc, st).value;
    var name := st.cur.text.value;
    var found := PropertyOrField(MembersOf(table, t), name).Some?;
    forall k ensures k in KeysOf(r.0.fields) <==> k in KeysOf(acc.fields) || (found && k == name) {
      if found && k != name {
        assert Lookup(r.0.fields, k) == Lookup(acc.fields, k);
      }
    }
  }

  /** The members a typed object ends with are those it began with and
      the property names read that some member has exactly, and no
      others. */
  lemma {:induction false} LegacyMembersSet(table: TypeTable, t: HostType, acc: Payload<ImmutableJson.Node>, st: State)
    requires WellFormed(st.cur) && acc.Instance? && acc.instanceType == t
    requires LegacyMembers(table, Some(t), acc, st).Ok?
    ensures forall k :: k in KeysOf(LegacyMembers(table, Some(t), acc, st).value.0.fields) <==>
      k in KeysOf(acc.fields) || k in ExactMatches(MembersOf(table, t), LegacyMemberNames(table, Some(t), acc, st))
    decreases Measure(st)
  {
    if st.cur.kind != ObjectEnd {
      LegacyMemberKeys(table, t, acc, st);
      var m := LegacyMember(table, Some(t), acc, st).value;
      var rest := if m.1.cur.kind == Comma && Advance(m.1).Ok? then LegacyMemberNames(table, Some(t), m.0, Advance(m.1).value) else [];
      assert LegacyMemberNames(table, Some(t), acc, st) == [st.cur.text.value] + rest;
      ExactAppend(MembersOf(table, t), [st.cur.text.value], rest);
      if m.1.cur.kind == Comma {
        LegacyMembersSet(table, t, m.0, Advance(m.1).value);
      }
    }
  }

  /** The property names of the object Parse<T> reads. */
  ghost function LegacyObjectNames(table: TypeTable, t: HostType, json: string): seq<string> {
    match Start(json)
    case Err(_) => []
    case Ok(st) =>
      match Advance(st)
      case Err(_) => []
      case Ok(st1) => LegacyMemberNames(table, Some(t), Instance(t, []), st1)
  }

  /** Parse<T> sets exactly the members of T whose exact name occurs as a
      property name of the object. */
  lemma LegacyParseAsSets(table: TypeTable, t: HostType, json: string)
    requires LegacyParseAs(table, t, json).Ok?
    ensures forall k :: k in KeysOf(LegacyParseAs(table, t, json).value.source.value.fields) <==>
      k in ExactMatches(MembersOf(table, t), LegacyObjectNames(table, t, json))
  {
    var st := Start(json).value;
    var st1 := Advance(st).value;
    LegacyMembersSet(table, t, Instance(t, []), st1);
  }

  /** A null token gives `new JsonObject()`: null, and not Empty. */
  lemma LegacyNull(table: TypeTable, st: State)
    requires WellFormed(st.cur) && st.cur.kind == TokenType.Null
    ensures var r := LegacyValue(table, None, st);
      (r.Ok? <==> Advance(st).Ok?)
      && (r.Ok? ==> ImmutableJson.IsNull(r.value.0) && !ImmutableJson.IsEmpty(r.value.0) && r.value.1 == Advance(st).value)
  {
  }

  /** An untyped integer: the older parser keeps the long; the newer makes
      it an int only strictly between Int32.MinValue and Int32.MaxValue. */
  lemma IntegerWidths(st: State, n: int)
    requires WellFormed(st.cur) && st.cur.kind == Integer
    requires Int64Parse(st.cur.text.value) == Ok(n) && Advance(st).Ok?
    ensures LegacyValue(map[], None, st)
      == Ok((ImmutableJson.Of(Prim(NumberValue(Int64Value(n)))), Advance(st).value))
    ensures ParsedValue(map[], None, st)
      == Ok((DynamicJson.FromValue(Prim(NumberValue(if Int32MinValue < n < Int32MaxValue then Int32Value(n) else Int64Value(n)))), Advance(st).value))
  {
    assert UntypedTarget(Integer) == Some(TNumeric(Int64));
    assert ChangeType(Int64Value(n), Int64) == Ok(Int64Value(n));
    assert ChangeType(Int32Value(n), Int32) == Ok(Int32Value(n));
  }

  /** A comma right before '}' is accepted: a member followed by a comma and
      the closing brace ends the loop. */
  lemma LegacyTrailingComma(table: TypeTable, ty: Option<HostType>, acc: Payload<ImmutableJson.Node>, st: State, st1: State, st2: State, acc1: Payload<ImmutableJson.Node>)
    requires WellFormed(st.cur) && Accumulates(ty, acc) && st.cur.kind != ObjectEnd
    requires LegacyMember(table, ty, acc, st) == Ok((acc1, st1))
    requires st1.cur.kind == Comma && Advance(st1) == Ok(st2) && st2.cur.kind == ObjectEnd
    ensures LegacyMembers(table, ty, acc, st) == Ok((acc1, st2))
  {
  }

  /** The same for a comma right before ']'. */
  lemma LegacyTrailingArrayComma(table: TypeTable, items: seq<ImmutableJson.Node>, st: State, st1: State, st2: State, v: ImmutableJson.Node)
    requires WellFormed(st.cur) && st.cur.kind != ArrayEnd
    requires LegacyValue(table, None, st) == Ok((v, st1))
    requires st1.cur.kind == Comma && Advance(st1) == Ok(st2) && st2.cur.kind == ArrayEnd
    ensures LegacyElements(table, items, st) == Ok((items + [v], st2))
  {
  }
}
