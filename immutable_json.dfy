/** The immutable JsonObject of the older revision (Iridium-Core): a payload
    and an "empty" flag fixed at construction, a dotted-path lookup that
    tries the longest dotted prefix of the key first, an int indexer and an
    enumerator. */
module ImmutableJson {
  import opened Results
  import opened Text
  import opened HostTypes
  import opened JsonValues

  datatype Node = Node(value: Payload<Node>, empty: bool)

  /** Every node the class can build: only Empty carries the flag, and it
      holds no value. */
  predicate Valid(o: Node) {
    o.empty ==> o.value.Null?
  }

  /** `new JsonObject(value)`. */
  function Of(p: Payload<Node>): Node {
    Node(p, false)
  }

  /** The shared JsonObject.Empty. */
  const Empty := Node(Null, true)

  predicate IsObject(o: Node) { o.value.Dict? }
  predicate IsArray(o: Node) { o.value.Arr? }
  predicate IsEmpty(o: Node) { o.empty }
  predicate IsValue(o: Node) { !IsObject(o) && !IsArray(o) && !IsEmpty(o) }
  predicate IsNull(o: Node) { o.value.Null? && !IsEmpty(o) }
  predicate IsNullOrEmpty(o: Node) { o.value.Null? }

  /** Value: the payload of a value, null otherwise. */
  function Value(o: Node): (r: Payload<Node>)
    ensures !r.Dict? && !r.Arr?
    ensures IsValue(o) ==> r == o.value
    ensures !IsValue(o) ==> r == Null
  {
    if IsValue(o) then o.value else Null
  }

  /** The predicates split the nodes into objects, arrays, values and Empty;
      the default `new JsonObject()` is a null value. */
  lemma Kinds(o: Node)
    requires Valid(o)
    ensures IsObject(o) || IsArray(o) || IsValue(o) || IsEmpty(o)
    ensures !(IsObject(o) && IsArray(o)) && !(IsObject(o) && IsEmpty(o)) && !(IsArray(o) && IsEmpty(o))
    ensures IsValue(o) ==> !IsObject(o) && !IsArray(o) && !IsEmpty(o)
    ensures IsNull(o) ==> IsValue(o) && Value(o) == Null
    ensures IsNullOrEmpty(o) <==> IsNull(o) || IsEmpty(o)
    ensures IsNull(Of(Null)) && !IsEmpty(Of(Null)) && IsEmpty(Empty) && !IsNull(Empty)
  {
  }

  /** AsArray<T>(): null on a non-array, else every element converted. */
  function AsArrayOf(o: Node, t: HostType): (r: Option<seq<Conversion<Node>>>)
    ensures r.None? <==> !IsArray(o)
    ensures r.Some? ==> |r.value| == |o.value.items|
    ensures r.Some? ==> forall i :: 0 <= i < |r.value| ==> r.value[i] == As(o.value.items[i], t)
  {
    if !IsArray(o) then None
    else Some(seq(|o.value.items|, i requires 0 <= i < |o.value.items| => As(o.value.items[i], t)))
  }

  /** Keys: the dictionary's keys, none for a non-object. */
  function Keys(o: Node): (r: seq<string>)
    ensures !IsObject(o) ==> r == []
    ensures IsObject(o) ==> forall k :: k in r <==> Lookup(o.value.entries, k).Some?
  {
    if IsObject(o) then KeysOf(o.value.entries) else []
  }

  /** this[int]: Empty unless the node is an array and the index is below
      its length; a negative index into an array is out of range. */
  function At(o: Node, index: int): (r: Result<Node>)
    ensures r.Err? <==> IsArray(o) && index < 0
    ensures r.Err? ==> r.error == IndexOutOfRangeException
    ensures r.Ok? && IsArray(o) && 0 <= index < |o.value.items| ==> r.value == o.value.items[index]
    ensures r.Ok? && !(IsArray(o) && 0 <= index < |o.value.items|) ==> r.value == Empty
  {
    if !IsArray(o) || index >= |o.value.items| then Ok(Empty)
    else if index < 0 then Err(IndexOutOfRangeException)
    else Ok(o.value.items[index])
  }

  /** A key part of `key`: the key itself, or the text before one of its
      dots. */
  predicate IsKeyPart(key: string, p: string) {
    p == key || (|p| < |key| && key[|p|] == '.' && key[..|p|] == p)
  }

  /** AllKeyParts from position `from`: the text before each dot at or after
      `from`, then the whole key. */
  function KeyPartsFrom(key: string, from: nat): (r: seq<string>)
    requires from <= |key|
    ensures |r| > 0 && r[|r| - 1] == key
    ensures forall i :: 0 <= i < |r| - 1 ==> from <= |r[i]| < |key| && key[|r[i]|] == '.' && key[..|r[i]|] == r[i]
    ensures forall i, j :: 0 <= i < j < |r| ==> |r[i]| < |r[j]|
    decreases |key| - from
  {
    var d := IndexOf(key[from..], '.');
    if d < 0 then [key]
    else
      assert key[from + d] == key[from..][d];
      [key[..from + d]] + KeyPartsFrom(key, from + d + 1)
  }

  /** Every dot at or after `from` gives a part. */
  lemma {:induction false} KeyPartsFromCover(key: string, from: nat, n: nat)
    requires from <= n < |key| && key[n] == '.'
    ensures key[..n] in KeyPartsFrom(key, from)
    decreases |key| - from
  {
    var tail := key[from..];
    var d := IndexOf(tail, '.');
    assert tail[n - from] == '.';
    assert 0 <= d <= n - from;
    var r := KeyPartsFrom(key, from);
    assert r == [key[..from + d]] + KeyPartsFrom(key, from + d + 1);
    if from + d < n {
      KeyPartsFromCover(key, from + d + 1, n);
    }
  }

  function AllKeyParts(key: string): (r: seq<string>)
    ensures |r| > 0 && r[|r| - 1] == key
    ensures forall i :: 0 <= i < |r| - 1 ==> |r[i]| < |key| && key[|r[i]|] == '.' && key[..|r[i]|] == r[i]
    ensures forall i, j :: 0 <= i < j < |r| ==> |r[i]| < |r[j]|
  {
    KeyPartsFrom(key, 0)
  }

  /** The parts are exactly the key parts. */
  lemma AllKeyPartsAre(key: string, p: string)
    ensures p in AllKeyParts(key) <==> IsKeyPart(key, p)
  {
    var r := AllKeyParts(key);
    if p in r {
      var i :| 0 <= i < |r| && r[i] == p;
      if i < |r| - 1 {
        assert key[..|r[i]|] == r[i];
      }
    }
    if IsKeyPart(key, p) && p != key {
      KeyPartsFromCover(key, 0, |p|);
    }
  }

  /** Enumerable.Reverse. */
  function Reverse(s: seq<string>): (r: seq<string>)
    ensures |r| == |s|
    ensures forall i :: 0 <= i < |s| ==> r[i] == s[|s| - 1 - i]
    ensures forall x :: x in r <==> x in s
  {
    if s == [] then [] else Reverse(s[1..]) + [s[0]]
  }

  /** The foreach over the key parts: the first one the dictionary holds. */
  function FirstPresent(es: seq<Entry<Node>>, parts: seq<string>): (r: Option<string>)
    ensures r.None? <==> forall i :: 0 <= i < |parts| ==> Lookup(es, parts[i]).None?
    ensures r.Some? ==> r.value in parts && Lookup(es, r.value).Some?
  {
    if parts == [] then None
    else if Lookup(es, parts[0]).Some? then Some(parts[0])
    else FirstPresent(es, parts[1..])
  }

  /** this[key]: on an object, the longest key part the dictionary holds is
      committed to: the whole key gives its value, a shorter part continues
      with the rest of the key in that part's value. Anything else is
      Empty. */
  function ValueForExpression(obj: Node, key: string): Node
    decreases |key|
  {
    if !IsObject(obj) then Empty
    else
      var es := obj.value.entries;
      var found := FirstPresent(es, Reverse(AllKeyParts(key)));
      if found.None? then Empty
      else
        var part := found.value;
        var value := Lookup(es, part).value;
        if |part| == |key| then value
        else ValueForExpression(value, key[|part| + 1..])
  }

  /** A key part that an object holds. */
  predicate Present(o: Node, key: string, p: string) {
    IsObject(o) && IsKeyPart(key, p) && Lookup(o.value.entries, p).Some?
  }

  /** In parts that get shorter, the first one held is the longest held. */
  lemma {:induction false} FirstPresentIsLongest(es: seq<Entry<Node>>, parts: seq<string>)
    requires forall i, j :: 0 <= i < j < |parts| ==> |parts[i]| > |parts[j]|
    ensures var r := FirstPresent(es, parts);
      r.Some? ==> forall p :: p in parts && Lookup(es, p).Some? ==> |p| <= |r.value|
  {
    if parts != [] && Lookup(es, parts[0]).None? {
      FirstPresentIsLongest(es, parts[1..]);
      assert forall p :: p in parts && p != parts[0] ==> p in parts[1..];
    } else if parts != [] {
      assert forall p :: p in parts ==> p == parts[0] || p in parts[1..];
      assert forall p :: p in parts[1..] ==> |p| < |parts[0]| by {
        forall p | p in parts[1..] ensures |p| < |parts[0]| {
          var j :| 0 <= j < |parts[1..]| && parts[1..][j] == p;
          assert parts[j + 1] == p;
        }
      }
    }
  }

  /** The part the lookup commits to is the longest key part the object
      holds. */
  lemma CommitsToLongest(o: Node, key: string)
    requires IsObject(o)
    ensures var found := FirstPresent(o.value.entries, Reverse(AllKeyParts(key)));
      (found.None? <==> forall p :: IsKeyPart(key, p) ==> !Present(o, key, p))
      && (found.Some? ==>
            Present(o, key, found.value) && forall p :: Present(o, key, p) ==> |p| <= |found.value|)
  {
    var rev := Reverse(AllKeyParts(key));
    forall p ensures p in rev <==> IsKeyPart(key, p) {
      AllKeyPartsAre(key, p);
    }
    FirstPresentIsLongest(o.value.entries, rev);
  }

  /** Path lookup, stated without the list of parts: with the longest key
      part `p` the object holds, the whole key gives its value and a
      shorter part continues in that value; no more prefixes are tried. */
  lemma LookupCommits(o: Node, key: string, p: string)
    requires Present(o, key, p)
    requires forall q :: Present(o, key, q) ==> |q| <= |p|
    ensures ValueForExpression(o, key) ==
      var value := Lookup(o.value.entries, p).value;
      if p == key then value else ValueForExpression(value, key[|p| + 1..])
  {
    CommitsToLongest(o, key);
    var found := FirstPresent(o.value.entries, Reverse(AllKeyParts(key)));
    var f := found.value;
    assert |f| == |p|;
    assert f == p by {
      if f != key {
        assert key[..|f|] == f;
      }
      if p != key {
        assert key[..|p|] == p;
      }
    }
  }

  /** When the object holds no key part, and on a non-object, the lookup
      gives Empty. */
  lemma LookupMisses(o: Node, key: string)
    requires forall p :: IsKeyPart(key, p) ==> !Present(o, key, p)
    ensures ValueForExpression(o, key) == Empty
  {
    if IsObject(o) {
      CommitsToLongest(o, key);
    }
  }

  /** A key held as a whole wins, dots and all. */
  lemma WholeKeyWins(o: Node, key: string)
    requires IsObject(o) && Lookup(o.value.entries, key).Some?
    ensures ValueForExpression(o, key) == Lookup(o.value.entries, key).value
  {
    assert Present(o, key, key);
    forall q | Present(o, key, q) ensures |q| <= |key| {
    }
    LookupCommits(o, key, key);
  }

  /** "a.b" reads as this["a"]["b"] when the object holds `a` but neither
      "a.b" nor a longer dotted prefix of it. */
  lemma DottedPath(o: Node, a: string, b: string)
    requires IsObject(o) && '.' !in a && '.' !in b
    requires Lookup(o.value.entries, a).Some? && Lookup(o.value.entries, a + "." + b).None?
    ensures ValueForExpression(o, a + "." + b) == ValueForExpression(ValueForExpression(o, a), b)
  {
    var key := a + "." + b;
    assert key[..|a|] == a && key[|a|] == '.';
    assert Present(o, key, a);
    forall q | Present(o, key, q) ensures |q| <= |a| {
    }
    LookupCommits(o, key, a);
    assert key[|a| + 1..] == b;
    WholeKeyWins(o, a);
  }

  /** No retry: {"a": {"b.c": x}, "a.b": 1} has no "a.b.c", although
      this["a"]["b.c"] is x, because "a.b" is committed to. */
  lemma NoRetry(x: Node)
    ensures var inner := Of(Dict([Entry("b.c", x)]));
      var one := Of(Prim(NumberValue(Int32Value(1))));
      var o := Of(Dict([Entry("a", inner), Entry("a.b", one)]));
      ValueForExpression(o, "a.b.c") == Empty
      && ValueForExpression(ValueForExpression(o, "a"), "b.c") == x
  {
    var inner := Of(Dict([Entry("b.c", x)]));
    var one := Of(Prim(NumberValue(Int32Value(1))));
    var o := Of(Dict([Entry("a", inner), Entry("a.b", one)]));
    NoRetryCommits(o, inner, one);
    LookupMisses(one, "c");
    WholeKeyWins(o, "a");
    WholeKeyWins(inner, "b.c");
  }

  lemma NoRetryCommits(o: Node, inner: Node, one: Node)
    requires o == Of(Dict([Entry("a", inner), Entry("a.b", one)]))
    ensures ValueForExpression(o, "a.b.c") == ValueForExpression(one, "c")
  {
    var key := "a.b.c";
    var es := o.value.entries;
    assert Lookup(es, "a.b") == Some(one);
    assert Lookup(es, key).None?;
    assert IsKeyPart(key, "a.b") by {
      assert key[..3] == "a.b";
    }
    forall q | Present(o, key, q) ensures |q| <= 3 {
      assert q != key;
    }
    LookupCommits(o, key, "a.b");
    assert key[4..] == "c";
  }

  /** GetEnumerator: a dictionary's values, an array's elements, and any
      other node (Empty included) once, as itself. */
  function Enumerate(o: Node): (r: seq<Node>)
    ensures !IsObject(o) && !IsArray(o) ==> r == [o]
  {
    match o.value
    case Dict(es) => ValuesOf(es)
    case Arr(items) => items
    case _ => [o]
  }

  /** The enumerator agrees with the indexers: the i-th value of an object
      is this[Keys[i]], the i-th element of an array this[i]. */
  lemma EnumerateMatchesIndexers(o: Node)
    ensures IsObject(o) && UniqueKeys(o.value.entries) ==>
              |Enumerate(o)| == |Keys(o)|
              && forall i :: 0 <= i < |Keys(o)| ==> ValueForExpression(o, Keys(o)[i]) == Enumerate(o)[i]
    ensures IsArray(o) ==> forall i :: 0 <= i < |Enumerate(o)| ==> At(o, i) == Ok(Enumerate(o)[i])
  {
    if IsObject(o) && UniqueKeys(o.value.entries) {
      var es := o.value.entries;
      forall i | 0 <= i < |Keys(o)| ensures ValueForExpression(o, Keys(o)[i]) == Enumerate(o)[i] {
        LookupByPosition(es, i);
        WholeKeyWins(o, KeysOf(es)[i]);
      }
    }
  }
}
