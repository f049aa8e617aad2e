/** What a JSON node holds, shared by the two JsonObject revisions: null, a
    dictionary of named children kept in insertion order, an array of
    children, a boxed scalar, or the host values typed parsing produces. */
module JsonValues {
  import opened Results
  import opened HostTypes

  datatype Scalar = BoolValue(b: bool) | StringValue(s: string) | NumberValue(n: Number)

  datatype Entry<N> = Entry(key: string, value: N)

  /** `As(source, target)`: the node converted to a declared type, the part of
      the source that goes through its conversion library. */
  datatype Conversion<N> = As(source: N, target: HostType)

  datatype Payload<N> =
    | Null
    | Dict(entries: seq<Entry<N>>)
    | Arr(items: seq<N>)
    | Prim(scalar: Scalar)
    | HostArray(elem: HostType, elements: seq<Conversion<N>>)
    | Instance(instanceType: HostType, fields: seq<Entry<Conversion<N>>>)

  function KeysOf<N>(es: seq<Entry<N>>): (r: seq<string>)
    ensures |r| == |es|
  {
    if es == [] then [] else [es[0].key] + KeysOf(es[1..])
  }

  function ValuesOf<N>(es: seq<Entry<N>>): (r: seq<N>)
    ensures |r| == |es|
  {
    if es == [] then [] else [es[0].value] + ValuesOf(es[1..])
  }

  lemma {:induction false} KeyAt<N>(es: seq<Entry<N>>, i: int)
    requires 0 <= i < |es|
    ensures KeysOf(es)[i] == es[i].key && ValuesOf(es)[i] == es[i].value
  {
    if i > 0 {
      KeyAt(es[1..], i - 1);
    }
  }

  predicate UniqueKeys<N>(es: seq<Entry<N>>) {
    forall i, j :: 0 <= i < j < |es| ==> es[i].key != es[j].key
  }

  /** Dictionary TryGetValue. */
  function Lookup<N>(es: seq<Entry<N>>, key: string): (r: Option<N>)
    ensures r.None? <==> key !in KeysOf(es)
  {
    if es == [] then None
    else if es[0].key == key then Some(es[0].value)
    else Lookup(es[1..], key)
  }

  /** Dictionary indexer assignment: an existing key keeps its place and gets
      the new value; a new key is added at the end. */
  function Put<N>(es: seq<Entry<N>>, key: string, v: N): (r: seq<Entry<N>>)
    ensures Lookup(r, key) == Some(v)
    ensures forall k :: k != key ==> Lookup(r, k) == Lookup(es, k)
  {
    if es == [] then [Entry(key, v)]
    else if es[0].key == key then [Entry(key, v)] + es[1..]
    else [es[0]] + Put(es[1..], key, v)
  }

  /** Put keeps the key order, appending only a key that is new. */
  lemma {:induction false} PutKeys<N>(es: seq<Entry<N>>, key: string, v: N)
    ensures KeysOf(Put(es, key, v)) == if key in KeysOf(es) then KeysOf(es) else KeysOf(es) + [key]
  {
    if es == [] {
    } else if es[0].key == key {
      assert KeysOf(Put(es, key, v)) == [key] + KeysOf(es[1..]);
      assert KeysOf(es) == [key] + KeysOf(es[1..]);
    } else {
      PutKeys(es[1..], key, v);
      var r := Put(es, key, v);
      assert KeysOf(r) == [es[0].key] + KeysOf(Put(es[1..], key, v));
      assert KeysOf(es) == [es[0].key] + KeysOf(es[1..]);
      assert key in KeysOf(es) <==> key in KeysOf(es[1..]);
    }
  }

  lemma KeysOfMembers<N>(es: seq<Entry<N>>)
    ensures forall i :: 0 <= i < |es| ==> KeysOf(es)[i] == es[i].key
  {
    forall i | 0 <= i < |es| ensures KeysOf(es)[i] == es[i].key {
      KeyAt(es, i);
    }
  }

  /** A key that is found is found in one of the entries. */
  lemma {:induction false} LookupMember<N>(es: seq<Entry<N>>, key: string)
    requires Lookup(es, key).Some?
    ensures Entry(key, Lookup(es, key).value) in es
  {
    if es[0].key != key {
      LookupMember(es[1..], key);
    }
  }

  /** Put adds or replaces one entry and keeps the others. */
  lemma {:induction false} PutEntries<N>(es: seq<Entry<N>>, key: string, v: N)
    ensures forall e :: e in Put(es, key, v) ==> e == Entry(key, v) || e in es
  {
    if es != [] && es[0].key != key {
      PutEntries(es[1..], key, v);
      assert Put(es, key, v) == [es[0]] + Put(es[1..], key, v);
    }
  }

  /** Put never repeats a key. */
  lemma {:induction false} PutUnique<N>(es: seq<Entry<N>>, key: string, v: N)
    requires UniqueKeys(es)
    ensures UniqueKeys(Put(es, key, v))
  {
    var r := Put(es, key, v);
    if es == [] {
    } else if es[0].key == key {
      assert forall i :: 0 <= i < |r| ==> r[i].key == es[i].key;
    } else {
      var tail := Put(es[1..], key, v);
      assert UniqueKeys(es[1..]);
      PutUnique(es[1..], key, v);
      KeysOfMembers(es[1..]);
      KeysOfMembers(tail);
      assert es[0].key !in KeysOf(es[1..]);
      assert Lookup(tail, es[0].key).None?;
      assert r == [es[0]] + tail;
      forall i, j | 0 <= i < j < |r| ensures r[i].key != r[j].key {
        if i == 0 {
          assert r[j] == tail[j - 1];
          assert KeysOf(tail)[j - 1] == tail[j - 1].key;
        } else {
          assert r[i] == tail[i - 1] && r[j] == tail[j - 1];
        }
      }
    }
  }

  /** In a dictionary without repeated keys, the i-th key leads to the i-th
      value. */
  lemma {:induction false} LookupByPosition<N>(es: seq<Entry<N>>, i: int)
    requires UniqueKeys(es) && 0 <= i < |es|
    ensures Lookup(es, KeysOf(es)[i]) == Some(ValuesOf(es)[i])
  {
    if i > 0 {
      assert UniqueKeys(es[1..]);
      LookupByPosition(es[1..], i - 1);
      assert KeysOf(es)[i] == KeysOf(es[1..])[i - 1];
      assert ValuesOf(es)[i] == ValuesOf(es[1..])[i - 1];
      KeyAt(es, i);
      assert es[0].key != es[i].key;
    }
  }
}
