/** The experimental Json.Value family of Iridium.Core: a closed set of cases
    (NoValue, NullValue, SimpleValue, Array, Object) with a compact
    serializer. Arrays and objects are filled by Add; the serializer writes
    to a character writer in loops. */
module Json2 {
  import opened Results
  import opened Text
  import opened HostTypes
  import opened JsonValues

  /** NoValue, a SimpleValue around a boxed object (None for null, which is
      what NullValue holds), an Array of items, and an Object of named fields
      in insertion order. */
  datatype Value =
    | NoValue
    | SimpleValue(scalar: Option<Scalar>)
    | ArrayValue(items: seq<Value>)
    | ObjectValue(fields: seq<Entry<Value>>)

  /** `new NullValue()`: a SimpleValue around null. */
  const NullValue: Value := SimpleValue(None)

  predicate IsObject(v: Value) { v.ObjectValue? }
  predicate IsArray(v: Value) { v.ArrayValue? }
  predicate IsEmpty(v: Value) { v.NoValue? }
  predicate IsNull(v: Value) { v.SimpleValue? && v.scalar.None? }
  predicate IsValue(v: Value) { !IsObject(v) && !IsArray(v) && !IsEmpty(v) }
  predicate IsNullOrEmpty(v: Value) { IsNull(v) || IsEmpty(v) }

  /** Each case answers the four flags in its own way: NoValue is empty and
      not null, a NullValue is null and not empty, and only SimpleValues are
      values. */
  lemma Kinds(v: Value)
    ensures IsEmpty(v) ==> !IsNull(v) && !IsObject(v) && !IsArray(v) && !IsValue(v) && IsNullOrEmpty(v)
    ensures IsNull(v) ==> !IsEmpty(v) && IsValue(v) && v == NullValue
    ensures IsValue(v) <==> v.SimpleValue?
    ensures IsNullOrEmpty(v) <==> v == NoValue || v == NullValue
    ensures !(IsObject(v) && IsArray(v))
  {
  }

  /** What CreateValue is given: null, a Value already, a boxed number,
      string or bool, or any other object. */
  datatype HostObject = NullReference | JsonValue(value: Value) | Boxed(scalar: Scalar) | OtherObject

  /** Value.CreateValue: null and any object that is not a number, string,
      bool or Value give a NullValue; a Value is returned as it is; a
      number, string or bool is wrapped. */
  function CreateValue(o: HostObject): (r: Value)
    ensures o.JsonValue? ==> r == o.value
    ensures !o.JsonValue? ==> IsValue(r) && (IsNull(r) <==> !o.Boxed?)
    ensures o.Boxed? ==> r.scalar == Some(o.scalar)
  {
    match o
    case NullReference => NullValue
    case JsonValue(v) => v
    case Boxed(s) => SimpleValue(Some(s))
    case OtherObject => NullValue
  }

  /** The string indexer: an Object's field, NoValue for a missing key and
      on every other case. */
  function Get(v: Value, key: string): (r: Value)
    ensures v.ObjectValue? && key in KeysOf(v.fields) ==> Some(r) == Lookup(v.fields, key)
    ensures !(v.ObjectValue? && key in KeysOf(v.fields)) ==> r == NoValue
  {
    if v.ObjectValue? then
      match Lookup(v.fields, key)
      case Some(x) => x
      case None => NoValue
    else NoValue
  }

  /** The int indexer: an Array's item when the index is in range, NoValue
      otherwise and on every other case. */
  function At(v: Value, i: int): (r: Value)
    ensures v.ArrayValue? && 0 <= i < |v.items| ==> r == v.items[i] && r in v.items
    ensures !(v.ArrayValue? && 0 <= i < |v.items|) ==> r == NoValue
  {
    if v.ArrayValue? && 0 <= i < |v.items| then v.items[i] else NoValue
  }

  /** The keys of an Object as the string SimpleValues it enumerates. */
  function KeyValues(es: seq<Entry<Value>>): (r: seq<Value>)
    ensures |r| == |es|
    ensures forall i :: 0 <= i < |es| ==> r[i] == SimpleValue(Some(StringValue(es[i].key)))
  {
    if es == [] then [] else [SimpleValue(Some(StringValue(es[0].key)))] + KeyValues(es[1..])
  }

  /** GetEnumerator: an Array yields its items, an Object its keys; the
      other cases yield nothing. */
  function Enumerate(v: Value): seq<Value> {
    match v
    case ArrayValue(items) => items
    case ObjectValue(fields) => KeyValues(fields)
    case _ => []
  }

  /** Enumeration and the indexers agree: an Array's i-th item is this[i],
      and past either end this[i] is NoValue; the i-th key enumerated from an
      Object leads back to its i-th field. */
  lemma EnumerateMatchesIndexers(v: Value)
    ensures v.ArrayValue? ==>
      (forall i :: 0 <= i < |Enumerate(v)| ==> At(v, i) == Enumerate(v)[i])
      && At(v, -1) == NoValue && At(v, |Enumerate(v)|) == NoValue
    ensures v.ObjectValue? && UniqueKeys(v.fields) ==>
      |Enumerate(v)| == |v.fields|
      && (forall i :: 0 <= i < |v.fields| ==> Get(v, Enumerate(v)[i].scalar.value.s) == v.fields[i].value)
    ensures !v.ArrayValue? && !v.ObjectValue? ==> Enumerate(v) == [] && forall k :: Get(v, k) == NoValue
  {
    if v.ObjectValue? && UniqueKeys(v.fields) {
      forall i | 0 <= i < |v.fields|
        ensures Get(v, Enumerate(v)[i].scalar.value.s) == v.fields[i].value
      {
        KeyAt(v.fields, i);
        LookupByPosition(v.fields, i);
      }
    }
  }

  /** What As(Type) returns when it is not null: the conversion of a
      SimpleValue's object to the type, or a list created for an IList<T>
      type and filled with each item's As(T). */
  datatype Hosted =
    | Converted(conversion: Conversion<Value>)
    | List(listType: HostType, elements: seq<Option<Hosted>>)

  /** As(Type): null for NoValue and Object; a SimpleValue converts its
      object; an Array builds a list when the type implements IList<T>,
      which for an array type T[] fails in Activator.CreateInstance, and is
      null otherwise. */
  function AsType(v: Value, t: HostType): (r: Result<Option<Hosted>>)
    ensures (v.NoValue? || v.ObjectValue?) ==> r == Ok(None)
    ensures v.SimpleValue? ==> r == Ok(Some(Converted(As(v, t))))
    ensures v.ArrayValue? && r.Ok? && r.value.Some? ==> t.TList? && r.value.value.List? && |r.value.value.elements| == |v.items|
    decreases v, 1
  {
    match v
    case NoValue => Ok(None)
    case ObjectValue(_) => Ok(None)
    case SimpleValue(_) => Ok(Some(Converted(As(v, t))))
    case ArrayValue(items) =>
      if t.TList? then
        var es :- AsEach(items, t.elem);
        Ok(Some(List(t, es)))
      else if t.TArray? then Err(MissingMethodException)
      else Ok(None)
  }

  function AsEach(items: seq<Value>, t: HostType): (r: Result<seq<Option<Hosted>>>)
    ensures r.Ok? ==> |r.value| == |items|
    decreases items, 0
  {
    if items == [] then Ok([])
    else
      var first :- AsType(items[0], t);
      var more :- AsEach(items[1..], t);
      Ok([first] + more)
  }

  /** What As<T>() returns: default(T) where As(typeof(T)) is null, the cast
      of its result otherwise. */
  datatype Typed = DefaultOf(t: HostType) | Cast(hosted: Hosted, t: HostType)

  function AsTyped(v: Value, t: HostType): (r: Result<Typed>)
    ensures r.Ok? && r.value.DefaultOf? <==> AsType(v, t) == Ok(None)
    ensures r.Ok? && r.value.DefaultOf? ==> r.value.t == t
    ensures r.Err? <==> AsType(v, t).Err?
  {
    var h :- AsType(v, t);
    if h.None? then Ok(DefaultOf(t)) else Ok(Cast(h.value, t))
  }

  /** AsArray<T>(): nothing for the base cases; an Array yields As<T>() of
      each item, in order. */
  function AsArray(v: Value, t: HostType): (r: seq<Result<Typed>>)
    ensures v.ArrayValue? ==> |r| == |v.items| && forall i :: 0 <= i < |r| ==> r[i] == AsTyped(v.items[i], t)
    ensures !v.ArrayValue? ==> r == []
  {
    if v.ArrayValue? then seq(|v.items|, i requires 0 <= i < |v.items| => AsTyped(v.items[i], t)) else []
  }

  /** A NoValue or an Object reads as default(T) for every type. */
  lemma AsDefault(v: Value, t: HostType)
    requires v.NoValue? || v.ObjectValue?
    ensures AsTyped(v, t) == Ok(DefaultOf(t)) && AsArray(v, t) == []
  {
  }

  /** A Field: a name and the value created from an object. */
  datatype Field = Field(name: Option<string>, value: Value)

  function NewField(name: Option<string>, o: HostObject): (r: Field)
    ensures r.name == name && r.value == CreateValue(o)
  {
    Field(name, CreateValue(o))
  }

  /** A Json.Array while it is being filled. */
  class Array {
    var items: seq<Value>

    constructor()
      ensures items == []
    {
      items := [];
    }

    function AsValue(): Value
      reads this
    {
      ArrayValue(items)
    }

    /** Add(object): appends CreateValue of it. */
    method Add(o: HostObject)
      modifies this
      ensures items == old(items) + [CreateValue(o)]
    {
      items := items + [CreateValue(o)];
    }
  }

  /** A Json.Object while it is being filled; its dictionary never holds a
      key twice. */
  class Object {
    var fields: seq<Entry<Value>>

    ghost predicate Valid()
      reads this
    {
      UniqueKeys(fields)
    }

    constructor()
      ensures Valid() && fields == []
    {
      fields := [];
    }

    function AsValue(): Value
      reads this
    {
      ObjectValue(fields)
    }

    /** Add(Field): a null field or a field without a name is skipped; a
        name already present throws ArgumentException from Dictionary.Add;
        any other field is appended. */
    method AddField(field: Option<Field>) returns (r: Result<()>)
      requires Valid()
      modifies this
      ensures Valid()
      ensures (field.None? || field.value.name.None?) ==> r == Ok(()) && fields == old(fields)
      ensures field.Some? && field.value.name.Some? && field.value.name.value in KeysOf(old(fields)) ==>
        r == Err(ArgumentException) && fields == old(fields)
      ensures field.Some? && field.value.name.Some? && field.value.name.value !in KeysOf(old(fields)) ==>
        r == Ok(()) && fields == old(fields) + [Entry(field.value.name.value, field.value.value)]
    {
      if field.None? || field.value.name.None? {
        return Ok(());
      }
      var name := field.value.name.value;
      if name in KeysOf(fields) {
        return Err(ArgumentException);
      }
      KeysOfMembers(fields);
      fields := fields + [Entry(name, field.value.value)];
      r := Ok(());
    }

    /** Add(name, object): a null name is skipped; otherwise the Field of
        that name and object is added. */
    method Add(name: Option<string>, o: HostObject) returns (r: Result<()>)
      requires Valid()
      modifies this
      ensures Valid()
      ensures name.None? ==> r == Ok(()) && fields == old(fields)
      ensures name.Some? && name.value in KeysOf(old(fields)) ==> r == Err(ArgumentException) && fields == old(fields)
      ensures name.Some? && name.value !in KeysOf(old(fields)) ==>
        r == Ok(()) && fields == old(fields) + [Entry(name.value, CreateValue(o))]
    {
      if name.None? {
        return Ok(());
      }
      r := AddField(Some(NewField(name, o)));
    }
  }

  /** A UTF-16 code unit written as `\u` and four upper-case hex digits. */
  function UnicodeEscape(u: nat): (r: string)
    requires u < 0x10000
    ensures |r| == 6 && r[0] == '\\' && r[1] == 'u' && IsHex4(r[2..]) && Hex4Value(r[2..]) == u
  {
    var h := FormatHex4(u);
    assert (['\\', 'u'] + h)[2..] == h;
    ['\\', 'u'] + h
  }

  /** The UTF-16 code units of a character: itself below U+10000, a
      surrogate pair above. */
  function Utf16(c: char): (r: seq<nat>)
    ensures 1 <= |r| <= 2 && forall i :: 0 <= i < |r| ==> r[i] < 0x10000
  {
    var v := c as int;
    if v < 0x10000 then [v] else [0xD800 + (v - 0x10000) / 0x400, 0xDC00 + (v - 0x10000) % 0x400]
  }

  /** How one character of a string is written: tab, carriage return and
      line feed as two-character escapes, a quote or backslash behind a
      backslash, ' ' up to U+007F as itself, and anything else as `\uXXXX`
      per UTF-16 code unit (the source's loop visits a character above
      U+FFFF as its two surrogates). */
  function EscapeChar(c: char): string {
    if c == '\t' then "\\t"
    else if c == '\r' then "\\r"
    else if c == '\n' then "\\n"
    else if c == '"' || c == '\\' then ['\\', c]
    else if ' ' <= c && (c as int) < 128 then [c]
    else
      var u := Utf16(c);
      if |u| == 1 then UnicodeEscape(u[0]) else UnicodeEscape(u[0]) + UnicodeEscape(u[1])
  }

  function Escape(s: string): string {
    if s == [] then [] else EscapeChar(s[0]) + Escape(s[1..])
  }

  /** A string SimpleValue as written: the escaped text between quotes. */
  function Quoted(s: string): string {
    ['"'] + Escape(s) + ['"']
  }

  /** Serialize: NoValue throws NotSupportedException; null is `null`; a
      string is quoted and escaped; any other boxed object writes nothing;
      an Array is its items between brackets and an Object its `"key":value`
      pairs between braces, comma-separated in order, the keys unescaped.
      The first exception thrown anywhere inside is the outcome. */
  function Serialized(v: Value): Result<string>
    decreases v, 1
  {
    match v
    case NoValue => Err(NotSupportedException)
    case SimpleValue(None) => Ok("null")
    case SimpleValue(Some(StringValue(s))) => Ok(Quoted(s))
    case SimpleValue(Some(_)) => Ok("")
    case ArrayValue(items) =>
      var body :- SerializedItems(items, true);
      Ok("[" + body + "]")
    case ObjectValue(fields) =>
      var body :- SerializedFields(fields, true);
      Ok("{" + body + "}")
  }

  function SerializedItems(items: seq<Value>, first: bool): Result<string>
    decreases items, 0
  {
    if items == [] then Ok("")
    else
      var item :- Serialized(items[0]);
      var more :- SerializedItems(items[1..], false);
      Ok((if first then "" else ",") + item + more)
  }

  function SerializedFields(fields: seq<Entry<Value>>, first: bool): Result<string>
    decreases fields, 0
  {
    if fields == [] then Ok("")
    else
      var item :- Serialized(fields[0].value);
      var more :- SerializedFields(fields[1..], false);
      Ok((if first then "" else ",") + FieldHeader(fields[0].key) + item + more)
  }

  /** `"key":` with the key as it is. */
  function FieldHeader(key: string): string {
    ['"'] + key + ['"', ':']
  }

  /** The text once more is written to a writer holding out, when there is
      no exception. */
  function Appended(out: string, more: Result<string>): Result<string> {
    if more.Ok? then Ok(out + more.value) else more
  }

  /** One item of an Array being written, when it writes without an
      exception; and the exception it throws otherwise. */
  lemma ItemStep(out: string, items: seq<Value>, i: int, first: bool)
    requires 0 <= i < |items|
    ensures Serialized(items[i]).Ok? ==>
      Appended(out, SerializedItems(items[i..], first))
      == Appended(out + (if first then "" else ",") + Serialized(items[i]).value, SerializedItems(items[i + 1..], false))
    ensures Serialized(items[i]).Err? ==> SerializedItems(items[i..], first) == Err(Serialized(items[i]).error)
  {
    assert items[i..][0] == items[i] && items[i..][1..] == items[i + 1..];
    var more := SerializedItems(items[i + 1..], false);
    if Serialized(items[i]).Ok? && more.Ok? {
      var sep, item := if first then "" else ",", Serialized(items[i]).value;
      assert out + (sep + item + more.value) == out + sep + item + more.value;
    }
  }

  lemma FieldStep(out: string, fields: seq<Entry<Value>>, i: int, first: bool)
    requires 0 <= i < |fields|
    ensures Serialized(fields[i].value).Ok? ==>
      Appended(out, SerializedFields(fields[i..], first))
      == Appended(out + (if first then "" else ",") + FieldHeader(fields[i].key) + Serialized(fields[i].value).value,
                  SerializedFields(fields[i + 1..], false))
    ensures Serialized(fields[i].value).Err? ==> SerializedFields(fields[i..], first) == Err(Serialized(fields[i].value).error)
  {
    assert fields[i..][0] == fields[i] && fields[i..][1..] == fields[i + 1..];
    var more := SerializedFields(fields[i + 1..], false);
    if Serialized(fields[i].value).Ok? && more.Ok? {
      var sep, head, item := if first then "" else ",", FieldHeader(fields[i].key), Serialized(fields[i].value).value;
      assert out + (sep + head + item + more.value) == out + sep + head + item + more.value;
    }
  }

  lemma EscapeAt(s: string, i: int)
    requires 0 <= i < |s|
    ensures Escape(s[i..]) == EscapeChar(s[i]) + Escape(s[i + 1..])
  {
    assert s[i..][0] == s[i] && s[i..][1..] == s[i + 1..];
  }

  /** The StreamWriter the serializer writes to, as the characters written
      so far. */
  class Writer {
    var output: string

    constructor()
      ensures output == []
    {
      output := [];
    }

    method Write(s: string)
      modifies this
      ensures output == old(output) + s
    {
      output := output + s;
    }
  }

  /** The switch on one character of a string. */
  method WriteChar(w: Writer, c: char)
    modifies w
    ensures w.output == old(w.output) + EscapeChar(c)
  {
    if c == '\t' {
      w.Write("\\t");
    } else if c == '\r' {
      w.Write("\\r");
    } else if c == '\n' {
      w.Write("\\n");
    } else if c == '"' || c == '\\' {
      w.Write(['\\', c]);
    } else if ' ' <= c && (c as int) < 128 {
      w.Write([c]);
    } else {
      var units := Utf16(c);
      w.Write(UnicodeEscape(units[0]));
      if |units| == 2 {
        w.Write(UnicodeEscape(units[1]));
      }
    }
  }

  /** The loop over the characters of a string. */
  method WriteEscaped(w: Writer, s: string)
    modifies w
    ensures w.output == old(w.output) + Escape(s)
  {
    for i := 0 to |s|
      invariant w.output + Escape(s[i..]) == old(w.output) + Escape(s)
    {
      ghost var before := w.output;
      EscapeAt(s, i);
      WriteChar(w, s[i]);
      Associative(before, EscapeChar(s[i]), Escape(s[i + 1..]));
    }
    assert s[|s|..] == [];
  }

  /** SimpleValue.Serialize of a string. */
  method WriteQuoted(w: Writer, s: string)
    modifies w
    ensures w.output == old(w.output) + Quoted(s)
  {
    ghost var out := w.output;
    w.Write(['"']);
    WriteEscaped(w, s);
    w.Write(['"']);
    Associate(out, ['"'], Escape(s), ['"']);
  }

  lemma Associate(a: string, b: string, c: string, d: string)
    ensures a + b + c + d == a + (b + c + d)
  {
  }

  lemma Associative(a: string, b: string, c: string)
    ensures a + b + c == a + (b + c)
  {
  }

  /** Serialize(StreamWriter): writes what Serialized(v) is, or stops with
      its exception. */
  method SerializeTo(v: Value, w: Writer) returns (r: Result<()>)
    modifies w
    ensures r.Ok? <==> Serialized(v).Ok?
    ensures r.Ok? ==> w.output == old(w.output) + Serialized(v).value
    ensures r.Err? ==> r.error == Serialized(v).error
    decreases v
  {
    match v
    case NoValue =>
      r := Err(NotSupportedException);
    case SimpleValue(None) =>
      w.Write("null");
      r := Ok(());
    case SimpleValue(Some(StringValue(s))) =>
      WriteQuoted(w, s);
      r := Ok(());
    case SimpleValue(Some(_)) =>
      r := Ok(());
    case ArrayValue(items) =>
      w.Write("[");
      ghost var start := w.output;
      var first := true;
      var i := 0;
      while i < |items|
        invariant 0 <= i <= |items| && first == (i == 0)
        invariant Appended(w.output, SerializedItems(items[i..], first)) == Appended(start, SerializedItems(items, true))
      {
        ghost var before := w.output;
        ghost var sep := if first then "" else ",";
        ItemStep(before, items, i, first);
        if first {
          first := false;
        } else {
          w.Write(",");
        }
        assert w.output == before + sep;
        var ri := SerializeTo(items[i], w);
        if ri.Err? {
          return Err(ri.error);
        }
        assert w.output == before + sep + Serialized(items[i]).value;
        i := i + 1;
      }
      assert items[|items|..] == [];
      ghost var body := SerializedItems(items, true).value;
      assert w.output == start + body;
      w.Write("]");
      assert w.output == old(w.output) + ("[" + body + "]");
      r := Ok(());
    case ObjectValue(fields) =>
      w.Write("{");
      ghost var start := w.output;
      var first := true;
      var i := 0;
      while i < |fields|
        invariant 0 <= i <= |fields| && first == (i == 0)
        invariant Appended(w.output, SerializedFields(fields[i..], first)) == Appended(start, SerializedFields(fields, true))
      {
        ghost var before := w.output;
        ghost var sep := if first then "" else ",";
        FieldStep(before, fields, i, first);
        if first {
          first := false;
        } else {
          w.Write(",");
        }
        assert w.output == before + sep;
        w.Write(FieldHeader(fields[i].key));
        assert fields[i] in fields;
        var ri := SerializeTo(fields[i].value, w);
        if ri.Err? {
          return Err(ri.error);
        }
        assert w.output == before + sep + FieldHeader(fields[i].key) + Serialized(fields[i].value).value;
        i := i + 1;
      }
      assert fields[|fields|..] == [];
      ghost var body := SerializedFields(fields, true).value;
      assert w.output == start + body;
      w.Write("}");
      assert w.output == old(w.output) + ("{" + body + "}");
      r := Ok(());
  }

  /** Serialize(): the text written into a fresh writer. */
  method Serialize(v: Value) returns (r: Result<string>)
    ensures r == Serialized(v)
  {
    var w := new Writer();
    var ok := SerializeTo(v, w);
    if ok.Err? {
      return Err(ok.error);
    }
    assert [] + Serialized(v).value == Serialized(v).value;
    r := Ok(w.output);
  }
}
