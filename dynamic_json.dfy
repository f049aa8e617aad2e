/** The mutable JsonObject of the newer revision: a node whose value is null,
    a dictionary, an array or a boxed value, with an "undefined" flag for
    lookups that found nothing, and whose string indexer walks and creates
    dotted and bracketed paths such as "a.b[2].c". */
module DynamicJson {
  import opened Results
  import opened Text
  import opened HostTypes
  import opened JsonValues

  /** The state of one JsonObject: its value and its undefined flag. */
  datatype Json = Json(value: Payload<Json>, isUndefined: bool)

  /** Every node the class can build, at every depth: an undefined node
      holds no value, and no dictionary repeats a key. */
  predicate Valid(o: Json)
    decreases o, 1
  {
    (o.isUndefined ==> o.value.Null?) && ValidPayload(o.value)
  }

  /** The children of a value are all valid, and a dictionary or an
      instance repeats no key. */
  predicate ValidPayload(p: Payload<Json>)
    decreases p, 0
  {
    match p
    case Dict(es) => UniqueKeys(es) && forall e :: e in es ==> Valid(e.value)
    case Arr(items) => forall x :: x in items ==> Valid(x)
    case HostArray(_, cs) => forall c :: c in cs ==> Valid(c.source)
    case Instance(_, fs) => UniqueKeys(fs) && forall f :: f in fs ==> Valid(f.value.source)
    case _ => true
  }

  predicate IsObject(o: Json) { o.value.Dict? }
  predicate IsArray(o: Json) { o.value.Arr? }
  predicate IsUndefined(o: Json) { o.isUndefined }
  predicate IsValue(o: Json) { !IsObject(o) && !IsArray(o) && !IsUndefined(o) }
  predicate IsNull(o: Json) { o.value.Null? && !IsUndefined(o) }
  predicate IsNullOrEmpty(o: Json) { o.value.Null? }

  /** A tree built from JSON text alone: no undefined node, no host value,
      and no dictionary with a repeated key. */
  predicate Untyped(o: Json)
    decreases o
  {
    !o.isUndefined &&
    match o.value
    case Null => true
    case Prim(_) => true
    case Dict(es) => UniqueKeys(es) && forall e :: e in es ==> Untyped(e.value)
    case Arr(items) => forall x :: x in items ==> Untyped(x)
    case _ => false
  }

  /** The Value property: the boxed value of a value node, null otherwise. */
  function Value(o: Json): (r: Payload<Json>)
    ensures !r.Dict? && !r.Arr?
    ensures IsValue(o) ==> r == o.value
    ensures !IsValue(o) ==> r == Null
  {
    if IsValue(o) then o.value else Null
  }

  function Undefined(): (r: Json)
    ensures Valid(r) && IsUndefined(r) && IsNullOrEmpty(r) && !IsNull(r)
  {
    Json(Null, true)
  }

  function EmptyObject(): (r: Json)
    ensures Valid(r) && IsObject(r) && r.value.entries == []
  {
    Json(Dict([]), false)
  }

  function EmptyArray(): (r: Json)
    ensures Valid(r) && IsArray(r) && r.value.items == []
  {
    Json(Arr([]), false)
  }

  function FromValue(p: Payload<Json>): (r: Json)
    ensures !IsUndefined(r) && r.value == p
    ensures Valid(r) <==> ValidPayload(p)
  {
    Json(p, false)
  }

  /** The four kinds are exclusive and cover every valid node; null is a
      value, and IsNullOrEmpty is "null or undefined". */
  lemma ExactlyOneKind(o: Json)
    requires Valid(o)
    ensures IsObject(o) || IsArray(o) || IsValue(o) || IsUndefined(o)
    ensures !(IsObject(o) && IsArray(o)) && !(IsObject(o) && IsUndefined(o)) && !(IsArray(o) && IsUndefined(o))
    ensures IsValue(o) ==> !IsObject(o) && !IsArray(o) && !IsUndefined(o)
    ensures IsNull(o) ==> IsValue(o)
    ensures IsNullOrEmpty(o) <==> IsNull(o) || IsUndefined(o)
  {
  }

  /** AsArray(): the children of an array node, null for any other node. */
  function AsArray(o: Json): (r: Option<seq<Json>>)
    ensures r.Some? <==> IsArray(o)
    ensures r.Some? ==> r.value == o.value.items
  {
    if IsArray(o) then Some(o.value.items) else None
  }

  /** AsArray<T>(): every child converted to T, or an empty array when the
      node is not an array. */
  function AsArrayOf(o: Json, t: HostType): (r: seq<Conversion<Json>>)
    ensures !IsArray(o) ==> r == []
    ensures IsArray(o) ==> |r| == |o.value.items|
    ensures IsArray(o) ==> forall i :: 0 <= i < |r| ==> r[i] == As(o.value.items[i], t)
  {
    if !IsArray(o) then [] else seq(|o.value.items|, i requires 0 <= i < |o.value.items| => As(o.value.items[i], t))
  }

  /** The Keys property: the dictionary's keys, or none. */
  function Keys(o: Json): (r: seq<string>)
    ensures !IsObject(o) ==> r == []
  {
    if IsObject(o) then KeysOf(o.value.entries) else []
  }

  predicate HasField(o: Json, field: string) {
    IsObject(o) && Lookup(o.value.entries, field).Some?
  }

  /** HasField agrees with Keys. */
  lemma HasFieldIsKey(o: Json, field: string)
    ensures HasField(o, field) <==> field in Keys(o)
  {
  }

  /** The int indexer: Undefined past the end or on a node that is not an
      array; a negative index into an array throws. */
  function At(o: Json, index: int): (r: Result<Json>)
    ensures r.Err? <==> IsArray(o) && index < 0
    ensures r.Err? ==> r.error == IndexOutOfRangeException
    ensures r.Ok? && IsArray(o) && 0 <= index < |o.value.items| ==> r.value == o.value.items[index]
    ensures r.Ok? && !(IsArray(o) && 0 <= index < |o.value.items|) ==> r.value == Undefined()
  {
    if !IsArray(o) || index >= |o.value.items| then Ok(Undefined())
    else if index < 0 then Err(IndexOutOfRangeException)
    else Ok(o.value.items[index])
  }

  /** GetEnumerator: a dictionary's values, an array's children, nothing for
      an undefined node, and the node itself for a value. */
  function Enumerate(o: Json): seq<Json> {
    if IsObject(o) then ValuesOf(o.value.entries)
    else if IsArray(o) then o.value.items
    else if IsUndefined(o) then []
    else [o]
  }

  /** Enumerating a dictionary visits, in order, the child each key names. */
  lemma EnumerateFollowsKeys(o: Json)
    requires Valid(o) && IsObject(o)
    ensures |Enumerate(o)| == |Keys(o)|
    ensures forall i :: 0 <= i < |Keys(o)| ==> Child(o, Keys(o)[i]) == Enumerate(o)[i]
  {
    forall i | 0 <= i < |Keys(o)| ensures Child(o, Keys(o)[i]) == Enumerate(o)[i] {
      LookupByPosition(o.value.entries, i);
    }
  }

  /** Enumerating anything but a container yields the node itself, or
      nothing when it is undefined. */
  lemma EnumerateLeaf(o: Json)
    requires !IsObject(o) && !IsArray(o)
    ensures Enumerate(o) == if IsUndefined(o) then [] else [o]
  {
  }

  // ---- Paths ------------------------------------------------------------

  /** How ValueForExpression splits a key: at the first '.' or '[' that is
      not at position 0 (whichever comes first), at a leading '[', or not at
      all. */
  datatype Split = Descend(first: string, rest: string) | Bracket | Plain

  function SplitKey(key: string): (r: Split)
    ensures r.Descend? ==> |r.rest| < |key| && '.' !in r.first && '[' !in r.first
    ensures r.Bracket? ==> |key| > 0 && key[0] == '['
  {
    var dot := IndexOf(key, '.');
    var bracket := IndexOf(key, '[');
    if dot > 0 && (bracket < 0 || dot < bracket) then
      assert '[' !in key[..dot] by { PrefixAvoids(key, '[', bracket, dot); }
      Descend(key[..dot], key[dot + 1..])
    else if bracket > 0 && (dot < 0 || bracket < dot) then
      assert '.' !in key[..bracket] by { PrefixAvoids(key, '.', dot, bracket); }
      Descend(key[..bracket], key[bracket..])
    else if bracket == 0 then Bracket
    else Plain
  }

  /** A prefix that ends before the first c, or any prefix when there is no
      c, has no c in it. */
  lemma PrefixAvoids(key: string, c: char, first: int, n: int)
    requires first == IndexOf(key, c) && 0 <= n <= |key|
    requires first < 0 || n <= first
    ensures c !in key[..n]
  {
    if first >= 0 {
      assert key[..n] == key[..first][..n];
    }
  }

  /** What follows "[n]": the rest of the key, without a '.' right after
      the bracket. */
  function After(key: string, close: int): (r: string)
    requires 0 <= close && close + 1 < |key|
    ensures |r| < |key|
  {
    if key[close + 1] == '.' then key[close + 2..] else key[close + 1..]
  }

  /** obj[k] for a key with no '.' or '[' in it: the dictionary entry, or
      Undefined. */
  function Child(o: Json, k: string): (r: Json)
    ensures HasField(o, k) ==> r == Lookup(o.value.entries, k).value
    ensures !HasField(o, k) ==> r == Undefined()
  {
    if IsObject(o) && Lookup(o.value.entries, k).Some? then Lookup(o.value.entries, k).value else Undefined()
  }

  /** obj[index] for an index known not to be negative. */
  function Element(o: Json, index: nat): (r: Json)
    ensures At(o, index) == Ok(r)
  {
    if IsArray(o) && index < |o.value.items| then o.value.items[index] else Undefined()
  }

  /** The string indexer's getter: ValueForExpression without creating. */
  function Read(o: Json, key: string, toInt: string -> int): Json
    decreases |key|
  {
    match SplitKey(key)
    case Descend(first, rest) => Read(Child(o, first), rest, toInt)
    case Bracket =>
      var close := IndexOf(key, ']');
      if close < 2 then Undefined()
      else
        var index := toInt(key[1..close]);
        if index < 0 then Undefined()
        else if close + 1 >= |key| then Element(o, index)
        else Read(Element(o, index), After(key, close), toInt)
    case Plain => Child(o, key)
  }

  /** The index+1 children an array grows to: the old ones, then Undefined. */
  function Grown(arr: seq<Json>, index: nat): (r: seq<Json>)
    requires |arr| <= index
    ensures |r| == index + 1 && r[..|arr|] == arr
    ensures forall i :: |arr| <= i <= index ==> r[i] == Undefined()
  {
    arr + seq(index + 1 - |arr|, _ => Undefined())
  }

  /** The string indexer's setter: ValueForExpression creating what is
      missing, then Set(v) on the node it returns. The result is the new
      state of the node the indexer was called on. */
  function Write(o: Json, key: string, v: Json, toInt: string -> int): Json
    decreases |key|
  {
    match SplitKey(key)
    case Descend(first, rest) =>
      var o1 := if IsObject(o) then o else EmptyObject();
      var d := o1.value.entries;
      var d1 := if Lookup(d, first).Some? then d else Put(d, first, Undefined());
      Json(Dict(Put(d1, first, Write(Lookup(d1, first).value, rest, v, toInt))), o1.isUndefined)
    case Bracket =>
      var close := IndexOf(key, ']');
      if close < 2 then o
      else
        var index := toInt(key[1..close]);
        if index < 0 then o
        else
          var o1 := if IsArray(o) then o else EmptyArray();
          var arr := o1.value.items;
          var arr1 := if |arr| <= index then Grown(arr, index) else arr[index := Undefined()];
          var target := if close + 1 >= |key| then v else Write(arr1[index], After(key, close), v, toInt);
          Json(Arr(arr1[index := target]), o1.isUndefined)
    case Plain =>
      var o1 := if IsObject(o) then o else EmptyObject();
      Json(Dict(Put(o1.value.entries, key, v)), o1.isUndefined)
  }

  /** A key whose every bracket holds a non-negative index between '[' and a
      later ']': setting such a path stores the value in the tree, others
      end on a detached Undefined node. */
  predicate Attached(key: string, toInt: string -> int)
    decreases |key|
  {
    match SplitKey(key)
    case Descend(_, rest) => Attached(rest, toInt)
    case Bracket =>
      var close := IndexOf(key, ']');
      close >= 2 && toInt(key[1..close]) >= 0 && (close + 1 >= |key| || Attached(After(key, close), toInt))
    case Plain => true
  }

  /** The getter reads back what the setter stored, and Undefined when the
      path cannot hold a value. */
  lemma {:induction false} ReadAfterWrite(o: Json, key: string, v: Json, toInt: string -> int)
    ensures Read(Write(o, key, v, toInt), key, toInt) == if Attached(key, toInt) then v else Undefined()
    decreases |key|
  {
    var w := Write(o, key, v, toInt);
    match SplitKey(key)
    case Descend(first, rest) =>
      var child := DescendWritten(o, key, v, toInt);
      assert Read(w, key, toInt) == Read(Child(w, first), rest, toInt);
      assert Attached(key, toInt) == Attached(rest, toInt);
      ReadAfterWrite(child, rest, v, toInt);
    case Bracket =>
      var close := IndexOf(key, ']');
      if close >= 2 && toInt(key[1..close]) >= 0 && close + 1 < |key| {
        var child := ElementWritten(o, key, v, toInt);
        var index: nat := toInt(key[1..close]);
        assert Read(w, key, toInt) == Read(Element(w, index), After(key, close), toInt);
        assert Attached(key, toInt) == Attached(After(key, close), toInt);
        ReadAfterWrite(child, After(key, close), v, toInt);
      } else {
        ReadAfterWriteLastBracket(o, key, v, toInt);
      }
    case Plain =>
      ReadAfterWritePlain(o, key, v, toInt);
  }

  /** A plain key reads back what was stored under it. */
  lemma ReadAfterWritePlain(o: Json, key: string, v: Json, toInt: string -> int)
    requires SplitKey(key).Plain?
    ensures Read(Write(o, key, v, toInt), key, toInt) == v && Attached(key, toInt)
  {
    var o1 := if IsObject(o) then o else EmptyObject();
    assert Lookup(Put(o1.value.entries, key, v), key) == Some(v);
  }

  /** A key that starts with a bracket and ends at it, or whose bracket
      holds no usable index. */
  lemma ReadAfterWriteLastBracket(o: Json, key: string, v: Json, toInt: string -> int)
    requires SplitKey(key).Bracket?
    requires var close := IndexOf(key, ']');
      !(close >= 2 && toInt(key[1..close]) >= 0 && close + 1 < |key|)
    ensures Read(Write(o, key, v, toInt), key, toInt) == if Attached(key, toInt) then v else Undefined()
  {
    var close := IndexOf(key, ']');
    if close >= 2 && toInt(key[1..close]) >= 0 {
      var index := toInt(key[1..close]);
      var o1 := if IsArray(o) then o else EmptyArray();
      var arr := o1.value.items;
      var arr1 := if |arr| <= index then Grown(arr, index) else arr[index := Undefined()];
      assert index < |arr1|;
      var w := Json(Arr(arr1[index := v]), o1.isUndefined);
      assert Write(o, key, v, toInt) == w;
      assert Element(w, index) == v;
      assert Read(w, key, toInt) == Element(w, index);
      assert Attached(key, toInt);
    } else {
      assert Write(o, key, v, toInt) == o;
      assert Read(o, key, toInt) == Undefined();
      assert !Attached(key, toInt);
    }
  }

  /** A write through "first.rest" writes rest into the child under first,
      which is that child before the write, or Undefined when it was
      missing. */
  lemma DescendWritten(o: Json, key: string, v: Json, toInt: string -> int) returns (child: Json)
    requires SplitKey(key).Descend?
    ensures Child(Write(o, key, v, toInt), SplitKey(key).first) == Write(child, SplitKey(key).rest, v, toInt)
  {
    var first := SplitKey(key).first;
    var o1 := if IsObject(o) then o else EmptyObject();
    var d := o1.value.entries;
    var d1 := if Lookup(d, first).Some? then d else Put(d, first, Undefined());
    child := Lookup(d1, first).value;
  }

  /** A write through "[i]rest" writes rest into element i, the element
      having been reset to Undefined. */
  lemma ElementWritten(o: Json, key: string, v: Json, toInt: string -> int) returns (child: Json)
    requires SplitKey(key).Bracket?
    requires IndexOf(key, ']') >= 2 && toInt(key[1..IndexOf(key, ']')]) >= 0 && IndexOf(key, ']') + 1 < |key|
    ensures Element(Write(o, key, v, toInt), toInt(key[1..IndexOf(key, ']')])) == Write(child, After(key, IndexOf(key, ']')), v, toInt)
  {
    var close := IndexOf(key, ']');
    var index := toInt(key[1..close]);
    var o1 := if IsArray(o) then o else EmptyArray();
    var arr := o1.value.items;
    var arr1 := if |arr| <= index then Grown(arr, index) else arr[index := Undefined()];
    child := arr1[index];
  }

  /** Reading below an undefined node finds nothing. */
  lemma {:induction false} ReadUndefined(key: string, toInt: string -> int)
    ensures Read(Undefined(), key, toInt) == Undefined()
    decreases |key|
  {
    match SplitKey(key)
    case Descend(first, rest) =>
      assert Child(Undefined(), first) == Undefined();
      ReadUndefined(rest, toInt);
    case Bracket =>
      var close := IndexOf(key, ']');
      if close >= 2 && toInt(key[1..close]) >= 0 {
        assert Element(Undefined(), toInt(key[1..close])) == Undefined();
        if close + 1 < |key| {
          ReadUndefined(After(key, close), toInt);
        }
      }
    case Plain =>
      assert Child(Undefined(), key) == Undefined();
  }

  /** "a.b" reads the same as reading "a" and then "b". */
  lemma ReadComposes(o: Json, key: string, toInt: string -> int)
    requires SplitKey(key).Descend?
    ensures Read(o, key, toInt) == Read(Read(o, SplitKey(key).first, toInt), SplitKey(key).rest, toInt)
  {
    FirstSegmentIsPlain(SplitKey(key).first);
  }

  /** A first segment has no '.' or '[', so reading it is a plain lookup. */
  lemma FirstSegmentIsPlain(k: string)
    requires '.' !in k && '[' !in k
    ensures SplitKey(k) == Plain
  {
  }

  /** The dictionary key a path that does not start with '[' goes through
      first. */
  function Head(key: string): string
    requires !SplitKey(key).Bracket?
  {
    match SplitKey(key)
    case Descend(first, _) => first
    case Plain => key
  }

  /** Setting one path leaves every path through another first key as it
      was. */
  lemma Siblings(o: Json, k1: string, k2: string, v: Json, toInt: string -> int)
    requires Valid(o)
    requires !SplitKey(k1).Bracket? && !SplitKey(k2).Bracket? && Head(k1) != Head(k2)
    ensures Read(Write(o, k1, v, toInt), k2, toInt) == Read(o, k2, toInt)
  {
    var o2 := Write(o, k1, v, toInt);
    assert Child(o2, Head(k2)) == Child(o, Head(k2));
  }

  /** Setting "[n]" on a node makes it an array of at least n+1 children,
      the n-th the value, the others kept, and any new ones Undefined. */
  lemma WriteElement(o: Json, key: string, v: Json, toInt: string -> int)
    requires SplitKey(key).Bracket?
    requires IndexOf(key, ']') == |key| - 1 >= 2 && toInt(key[1..|key| - 1]) >= 0
    ensures var index := toInt(key[1..|key| - 1]);
      var old_ := if IsArray(o) then o.value.items else [];
      var r := Write(o, key, v, toInt);
      IsArray(r) && |r.value.items| == (if |old_| <= index then index + 1 else |old_|)
      && r.value.items[index] == v
      && (forall i :: 0 <= i < |old_| && i != index ==> r.value.items[i] == old_[i])
      && (forall i :: |old_| <= i < |r.value.items| && i != index ==> r.value.items[i] == Undefined())
  {
    var index := toInt(key[1..|key| - 1]);
    var o1 := if IsArray(o) then o else EmptyArray();
    var arr := o1.value.items;
    if |arr| <= index {
      var g := Grown(arr, index);
      assert forall i :: 0 <= i < |arr| ==> g[i] == g[..|arr|][i];
    }
  }

  /** Writing below an element that already exists first replaces that
      element by Undefined, so its other members are gone: after setting
      "[0].a" on [{"b": y}], "[0].b" is Undefined although it held y. */
  lemma WriteThroughElementResetsIt(a: char, b: char, y: Json, v: Json, toInt: string -> int)
    requires a != b && a != ']' && a != '.' && a != '[' && b != ']' && b != '.' && b != '['
    requires toInt("0") == 0
    requires y != Undefined()
    ensures var o := FromValue(Arr([FromValue(Dict([Entry([b], y)]))]));
      var ka, kb := ['[', '0', ']', '.', a], ['[', '0', ']', '.', b];
      Read(o, kb, toInt) == y && Read(Write(o, ka, v, toInt), kb, toInt) == Undefined()
  {
    var inner := FromValue(Dict([Entry([b], y)]));
    var o := FromValue(Arr([inner]));
    var ka, kb := ['[', '0', ']', '.', a], ['[', '0', ']', '.', b];
    ReadFirstElement(o, kb, b, toInt);
    assert Element(o, 0) == inner && Lookup(inner.value.entries, [b]) == Some(y);
    WriteFirstElement(o, ka, a, v, toInt);
    var t := Json(Dict([Entry([a], v)]), false);
    var o2 := Json(Arr([t]), false);
    ReadFirstElement(o2, kb, b, toInt);
    assert [a] != [b] by { assert [a][0] != [b][0]; }
    assert Element(o2, 0) == t && Lookup(t.value.entries, [b]) == None;
  }

  lemma ReadFirstElement(o: Json, key: string, c: char, toInt: string -> int)
    requires key == ['[', '0', ']', '.', c] && c != ']' && c != '.' && c != '['
    requires toInt("0") == 0
    ensures Read(o, key, toInt) == Child(Element(o, 0), [c])
  {
    ElementKey(key, c);
    assert SplitKey([c]) == Plain;
  }

  lemma WriteFirstElement(o: Json, key: string, c: char, v: Json, toInt: string -> int)
    requires key == ['[', '0', ']', '.', c] && c != ']' && c != '.' && c != '['
    requires toInt("0") == 0
    requires IsArray(o) && |o.value.items| == 1
    ensures Write(o, key, v, toInt) == Json(Arr([Json(Dict([Entry([c], v)]), false)]), o.isUndefined)
  {
    ElementKey(key, c);
    WriteElementZero(o, key, [c], v, toInt);
    WriteSingle(c, v, toInt);
    var t := Json(Dict([Entry([c], v)]), false);
    assert o.value.items[0 := t] == [t];
  }

  /** Setting "[0]" followed by more of a path on an array that has an
      element 0: the element is reset and the rest is written into it. */
  lemma WriteElementZero(o: Json, key: string, rest: string, v: Json, toInt: string -> int)
    requires SplitKey(key) == Bracket && IndexOf(key, ']') == 2 && toInt(key[1..2]) == 0
    requires 3 < |key| && After(key, 2) == rest
    requires IsArray(o) && 0 < |o.value.items|
    ensures Write(o, key, v, toInt) == Json(Arr(o.value.items[0 := Write(Undefined(), rest, v, toInt)]), o.isUndefined)
  {
    BracketWritten(o, key, v, toInt);
  }

  /** Setting a one-character key on an undefined node. */
  lemma WriteSingle(c: char, v: Json, toInt: string -> int)
    requires c != ']' && c != '.' && c != '['
    ensures Write(Undefined(), [c], v, toInt) == Json(Dict([Entry([c], v)]), false)
  {
    assert SplitKey([c]) == Plain;
  }

  /** How the key "[0].c" splits. */
  lemma ElementKey(key: string, c: char)
    requires key == ['[', '0', ']', '.', c] && c != ']' && c != '.' && c != '['
    ensures SplitKey(key) == Bracket && IndexOf(key, ']') == 2 && key[1..2] == "0" && After(key, 2) == [c]
  {
    IndexOfAt(key, '[', 0);
    IndexOfAt(key, '.', 3);
    IndexOfAt(key, ']', 2);
  }

  /** A valid child put into the entries of a valid dictionary. */
  lemma PutKeepsValid(o: Json, key: string, w: Json)
    requires Valid(o) && IsObject(o) && Valid(w)
    ensures Valid(Json(Dict(Put(o.value.entries, key, w)), o.isUndefined))
  {
    PutUnique(o.value.entries, key, w);
    PutEntries(o.value.entries, key, w);
  }

  /** The child a path goes through below a valid dictionary, created
      Undefined when missing, is valid, and so is the dictionary holding
      it. */
  lemma DescendValid(o: Json, first: string)
    requires Valid(o) && IsObject(o)
    ensures var d := o.value.entries;
      var d1 := if Lookup(d, first).Some? then d else Put(d, first, Undefined());
      Valid(Json(Dict(d1), o.isUndefined)) && Lookup(d1, first).Some? && Valid(Lookup(d1, first).value)
  {
    var d := o.value.entries;
    if Lookup(d, first).None? {
      PutKeepsValid(o, first, Undefined());
    }
    var d1 := if Lookup(d, first).Some? then d else Put(d, first, Undefined());
    LookupMember(d1, first);
  }

  /** The children of an array grown, or with one slot reset to Undefined,
      stay valid; so does the array once a valid child is stored. */
  lemma ElementsValid(arr: seq<Json>, index: nat, target: Json)
    requires forall x :: x in arr ==> Valid(x)
    ensures var arr1 := if |arr| <= index then Grown(arr, index) else arr[index := Undefined()];
      index < |arr1| && (forall x :: x in arr1 ==> Valid(x))
      && (Valid(target) ==> forall x :: x in arr1[index := target] ==> Valid(x))
  {
    var arr1 := if |arr| <= index then Grown(arr, index) else arr[index := Undefined()];
    forall x | x in arr1 ensures Valid(x) {
      var i :| 0 <= i < |arr1| && arr1[i] == x;
      if i < |arr| && i != index {
        if |arr| <= index { assert arr1[i] == arr1[..|arr|][i]; }
        assert arr1[i] == arr[i];
      }
    }
  }

  /** The setter keeps every node valid, at every depth. */
  lemma {:induction false} WriteKeepsValid(o: Json, key: string, v: Json, toInt: string -> int)
    requires Valid(o) && Valid(v)
    ensures Valid(Write(o, key, v, toInt))
    decreases |key|, 2
  {
    match SplitKey(key)
    case Descend(_, _) => DescendKeepsValid(o, key, v, toInt);
    case Bracket => BracketKeepsValid(o, key, v, toInt);
    case Plain => PutKeepsValid(if IsObject(o) then o else EmptyObject(), key, v);
  }

  /** A write through a dotted path keeps the tree valid. */
  lemma {:induction false} DescendKeepsValid(o: Json, key: string, v: Json, toInt: string -> int)
    requires Valid(o) && Valid(v) && SplitKey(key).Descend?
    ensures Valid(Write(o, key, v, toInt))
    decreases |key|, 0
  {
    var first, rest := SplitKey(key).first, SplitKey(key).rest;
    var o1 := if IsObject(o) then o else EmptyObject();
    var d := o1.value.entries;
    var d1 := if Lookup(d, first).Some? then d else Put(d, first, Undefined());
    DescendValid(o1, first);
    WriteKeepsValid(Lookup(d1, first).value, rest, v, toInt);
    PutKeepsValid(Json(Dict(d1), o1.isUndefined), first, Write(Lookup(d1, first).value, rest, v, toInt));
  }

  /** A write through an array index keeps the tree valid. */
  lemma {:induction false} BracketKeepsValid(o: Json, key: string, v: Json, toInt: string -> int)
    requires Valid(o) && Valid(v) && SplitKey(key).Bracket?
    ensures Valid(Write(o, key, v, toInt))
    decreases |key|, 1
  {
    BracketWritten(o, key, v, toInt);
    BracketTargetValid(o, key, v, toInt);
    var close := IndexOf(key, ']');
    if close >= 2 && toInt(key[1..close]) >= 0 {
      var index := toInt(key[1..close]);
      var o1 := if IsArray(o) then o else EmptyArray();
      var arr := o1.value.items;
      var arr1 := if |arr| <= index then Grown(arr, index) else arr[index := Undefined()];
      var target := if close + 1 >= |key| then v else Write(arr1[index], After(key, close), v, toInt);
      assert !o1.isUndefined;
      StoredValid(arr, index, target);
    }
  }

  /** A valid child stored in a valid array, grown or with its slot reset. */
  lemma StoredValid(arr: seq<Json>, index: nat, target: Json)
    requires (forall x :: x in arr ==> Valid(x)) && Valid(target)
    ensures var arr1 := if |arr| <= index then Grown(arr, index) else arr[index := Undefined()];
      index < |arr1| && Valid(Json(Arr(arr1[index := target]), false))
  {
    ElementsValid(arr, index, target);
  }

  /** What a write through an array index builds: the array, grown or with
      its slot reset, holding the written child at the index. */
  lemma BracketWritten(o: Json, key: string, v: Json, toInt: string -> int)
    requires SplitKey(key).Bracket?
    ensures var close := IndexOf(key, ']');
      if close >= 2 && toInt(key[1..close]) >= 0 then
        var index := toInt(key[1..close]);
        var o1 := if IsArray(o) then o else EmptyArray();
        var arr := o1.value.items;
        var arr1 := if |arr| <= index then Grown(arr, index) else arr[index := Undefined()];
        var target := if close + 1 >= |key| then v else Write(arr1[index], After(key, close), v, toInt);
        Write(o, key, v, toInt) == Json(Arr(arr1[index := target]), o1.isUndefined)
      else Write(o, key, v, toInt) == o
  {
  }

  /** The child stored at the index is valid. */
  lemma {:induction false} BracketTargetValid(o: Json, key: string, v: Json, toInt: string -> int)
    requires Valid(o) && Valid(v) && SplitKey(key).Bracket?
    ensures var close := IndexOf(key, ']');
      close >= 2 && toInt(key[1..close]) >= 0 ==>
        var index := toInt(key[1..close]);
        var o1 := if IsArray(o) then o else EmptyArray();
        var arr := o1.value.items;
        var arr1 := if |arr| <= index then Grown(arr, index) else arr[index := Undefined()];
        var target := if close + 1 >= |key| then v else Write(arr1[index], After(key, close), v, toInt);
        Valid(target)
    decreases |key|, 0
  {
    var close := IndexOf(key, ']');
    if close >= 2 && toInt(key[1..close]) >= 0 && close + 1 < |key| {
      var index := toInt(key[1..close]);
      var o1 := if IsArray(o) then o else EmptyArray();
      var arr := o1.value.items;
      var arr1 := if |arr| <= index then Grown(arr, index) else arr[index := Undefined()];
      ElementsValid(arr, index, v);
      assert arr1[index] in arr1;
      WriteKeepsValid(arr1[index], After(key, close), v, toInt);
    }
  }

  /** Validity reaches below the root: a dictionary nested in a valid one
      cannot repeat a key either. */
  lemma NestedRepeatInvalid(a: string, x: string, n: Json)
    ensures !Valid(Json(Dict([Entry(a, Json(Dict([Entry(x, n), Entry(x, n)]), false))]), false))
  {
    var inner := Json(Dict([Entry(x, n), Entry(x, n)]), false);
    var es := inner.value.entries;
    assert es[0].key == es[1].key;
    assert !Valid(inner);
    assert Entry(a, inner) in [Entry(a, inner)];
  }

  /** A tree parsed from text without a target type is valid. */
  lemma {:induction false} UntypedIsValid(o: Json)
    requires Untyped(o)
    ensures Valid(o)
    decreases o
  {
    match o.value
    case Dict(es) =>
      forall e | e in es ensures Valid(e.value) { UntypedIsValid(e.value); }
    case Arr(items) =>
      forall x | x in items ensures Valid(x) { UntypedIsValid(x); }
    case _ =>
  }

  /** The loops that grow an array so that `index` is in range: copy the old
      children into a new array of index+1 slots, then fill the rest with
      Undefined nodes. The tree is a value here, so `Write` grows its
      sequence through `Grown` and does not call this method; it renders
      the two loops on their own, over an array, with `Grown` as their
      specification. */
  method GrowArray(arr: array<Json>, index: nat) returns (newArr: array<Json>)
    requires arr.Length <= index
    ensures fresh(newArr)
    ensures newArr[..] == Grown(arr[..], index)
  {
    newArr := new Json[index + 1](_ => Undefined());
    var i := 0;
    while i < arr.Length
      invariant 0 <= i <= arr.Length
      invariant forall j :: 0 <= j < i ==> newArr[j] == arr[j]
    {
      newArr[i] := arr[i];
      i := i + 1;
    }
    i := arr.Length;
    while i <= index
      invariant arr.Length <= i <= index + 1
      invariant forall j :: 0 <= j < arr.Length ==> newArr[j] == arr[j]
      invariant forall j :: arr.Length <= j < i ==> newArr[j] == Undefined()
    {
      newArr[i] := Undefined();
      i := i + 1;
    }
    assert newArr[..] == Grown(arr[..], index) by {
      var g := Grown(arr[..], index);
      forall j | 0 <= j < newArr.Length ensures newArr[j] == g[j] {
        if j < arr.Length { assert g[j] == g[..arr.Length][j]; }
      }
    }
  }

  /** A JsonObject instance: its value and undefined flag, and the indexers
      that change them. Children are values here, so this object is the only
      one a setter changes. */
  class JsonObject {
    var value: Payload<Json>
    var isUndefined: bool

    function State(): Json
      reads this
    {
      Json(value, isUndefined)
    }

    /** FromValue(value). */
    constructor (p: Payload<Json>)
      ensures State() == FromValue(p)
    {
      value := p;
      isUndefined := false;
    }

    /** Set(o): take over the other node's value and flag. */
    method Set(o: Json)
      modifies this
      ensures State() == o
    {
      value := o.value;
      isUndefined := o.isUndefined;
    }

    /** this[key] (get). */
    method GetItem(key: string, toInt: string -> int) returns (r: Json)
      ensures r == Read(State(), key, toInt)
    {
      r := Read(State(), key, toInt);
    }

    /** this[key] = v. */
    method SetItem(key: string, v: Json, toInt: string -> int)
      modifies this
      ensures State() == Write(old(State()), key, v, toInt)
      ensures Valid(old(State())) && Valid(v) ==> Valid(State())
      ensures Read(State(), key, toInt) == if Attached(key, toInt) then v else Undefined()
    {
      var s := Write(State(), key, v, toInt);
      ReadAfterWrite(State(), key, v, toInt);
      if Valid(State()) && Valid(v) { WriteKeepsValid(State(), key, v, toInt); }
      Set(s);
    }
  }
}
