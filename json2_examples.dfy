/** The Json.Value test in JsonSeralizerTestFixture, and small examples of
    the copy of Json.Value that the same file carries. */
module Json2Examples {
  import opened Results
  import opened HostTypes
  import opened JsonValues
  import opened Json2

  const One: Value := SimpleValue(Some(NumberValue(Int32Value(1))))

  /** The fields of the test's object, in the order they are added. */
  const DummyFields: seq<Entry<Value>> :=
    [Entry("x", NullValue), Entry("y_int", One), Entry("y_short", One),
     Entry("y_bool", SimpleValue(Some(BoolValue(false)))), Entry("z", NullValue),
     Entry("q", NullValue), Entry("array", ArrayValue([ObjectValue([])]))]

  /** Adding the k-th field of the test's object after the ones before it. */
  method AddField(o: Object, k: int, x: HostObject)
    requires 0 <= k < |DummyFields| && o.Valid() && o.fields == DummyFields[..k]
    requires CreateValue(x) == DummyFields[k].value
    modifies o
    ensures o.Valid() && o.fields == DummyFields[..k + 1]
  {
    var f := DummyFields;
    NewKey(k);
    var ok := o.Add(Some(f[k].key), x);
    assert f[..k] + [f[k]] == f[..k + 1];
  }

  lemma NewKey(k: int)
    requires 0 <= k < |DummyFields|
    ensures DummyFields[k].key !in KeysOf(DummyFields[..k])
  {
    var f := DummyFields;
    DummyUnique();
    KeysOfMembers(f[..k]);
    forall i | 0 <= i < k ensures KeysOf(f[..k])[i] != f[k].key {
      assert f[..k][i] == f[i];
    }
  }

  /** The test's field names are distinct. */
  lemma DummyUnique()
    ensures UniqueKeys(DummyFields)
  {
  }

  /** The adds of the test's object initializer, in order. */
  method BuildDummy() returns (o: Object)
    ensures fresh(o) && o.Valid() && o.fields == DummyFields
  {
    o := new Object();
    var ok := o.AddField(None);
    ok := o.AddField(Some(NewField(Some("x"), NullReference)));
    assert o.fields == DummyFields[..1];
    AddField(o, 1, Boxed(NumberValue(Int32Value(1))));
    AddField(o, 2, Boxed(NumberValue(Int32Value(1))));
    AddField(o, 3, Boxed(BoolValue(false)));
    AddField(o, 4, OtherObject);
    AddField(o, 5, OtherObject);
    ok := o.AddField(None);
    var inner := new Object();
    var a := new Array();
    a.Add(JsonValue(inner.AsValue()));
    assert a.AsValue() == ArrayValue([ObjectValue([])]);
    AddField(o, 6, JsonValue(a.AsValue()));
    assert DummyFields[..7] == DummyFields;
  }

  /** Dummy.DummyMethod: the object built with a null entry, a field "x"
      around null, numbers, a bool, an anonymous object, an int[] and an
      array holding an empty object; "x" is null and not empty. */
  method DummyMethod() returns (j: Value, j2: Value)
    ensures IsNull(Get(j, "x")) && !IsEmpty(Get(j, "x"))
    ensures j.ObjectValue? && KeysOf(j.fields) == ["x", "y_int", "y_short", "y_bool", "z", "q", "array"]
    ensures Get(j, "z") == NullValue && Get(j, "q") == NullValue
    ensures Get(j, "array") == ArrayValue([ObjectValue([])])
    ensures j2 == ArrayValue([SimpleValue(Some(StringValue("x")))])
  {
    var o := BuildDummy();
    j := o.AsValue();
    DummyLookups();
    var a2 := new Array();
    a2.Add(Boxed(StringValue("x")));
    j2 := a2.AsValue();
  }

  lemma DummyLookups()
    ensures KeysOf(DummyFields) == ["x", "y_int", "y_short", "y_bool", "z", "q", "array"]
    ensures var v := ObjectValue(DummyFields);
      Get(v, "x") == NullValue && Get(v, "z") == NullValue && Get(v, "q") == NullValue
      && Get(v, "array") == ArrayValue([ObjectValue([])])
  {
    var f := DummyFields;
    KeysOfMembers(f);
    DummyUnique();
    KeyAt(f, 0);
    KeyAt(f, 4);
    KeyAt(f, 5);
    KeyAt(f, 6);
    LookupByPosition(f, 0);
    LookupByPosition(f, 4);
    LookupByPosition(f, 5);
    LookupByPosition(f, 6);
  }

  /** The copy's Array: items written in order between brackets, comma
      separated, and NoValue past the last index. */
  lemma CopyArray()
    ensures var v := ArrayValue([SimpleValue(Some(StringValue("a"))), NullValue]);
      Serialized(v) == Ok("[\"a\",null]") && At(v, 1) == NullValue && At(v, 2) == NoValue
  {
    var a := SimpleValue(Some(StringValue("a")));
    var items := [a, NullValue];
    assert Escape("a") == EscapeChar('a') + Escape([]) == "a";
    assert Quoted("a") == "\"a\"";
    assert Serialized(a) == Ok("\"a\"");
    assert items[1..] == [NullValue] && [NullValue][1..] == [];
    assert SerializedItems([], false) == Ok("");
    var s1, s2 := "\"a\"", ",null";
    assert "," + "null" + "" == s2;
    assert SerializedItems([NullValue], false) == Ok(s2);
    assert items[0] == a;
    assert "" + s1 + s2 == s1 + s2;
    assert SerializedItems(items, true) == Ok(s1 + s2);
    assert Serialized(ArrayValue(items)) == Ok("[" + (s1 + s2) + "]");
    assert "[" + (s1 + s2) + "]" == "[\"a\",null]";
  }

  /** The copy's Object: a null name and a null field are skipped, a field
      is written as `"key":value`, and a missing key reads as NoValue. */
  method CopyObject() returns (v: Value, text: Result<string>)
    ensures v == ObjectValue([Entry("k", NullValue)])
    ensures text == Ok("{\"k\":null}")
    ensures Get(v, "other") == NoValue
  {
    var o := new Object();
    var ok := o.Add(None, Boxed(StringValue("skipped")));
    ok := o.AddField(None);
    ok := o.Add(Some("k"), NullReference);
    v := o.AsValue();
    text := Serialize(v);
    assert v.fields[1..] == [];
    assert SerializedFields([], false) == Ok("");
    assert FieldHeader("k") == "\"k\":";
    assert v.fields[0] == Entry("k", NullValue);
    var body := "\"k\":null";
    assert "" + FieldHeader("k") + "null" + "" == body;
    assert SerializedFields(v.fields, true) == Ok(body);
    assert Serialized(v) == Ok("{" + body + "}");
    assert "{" + body + "}" == "{\"k\":null}";
  }
}
