/** SafeDictionary<TK,TV>: a dictionary whose indexer reads DefaultValue for
    a missing key instead of throwing. Keys compare with Dafny equality in
    place of the dictionary's IEqualityComparer. */
module SafeDictionaries {
  import opened Results

  /** The indexer's read over a map and a default. */
  function Lookup<K, V>(d: map<K, V>, defaultValue: V, key: K): V {
    if key in d then d[key] else defaultValue
  }

  /** Writing a key changes the read of that key and of no other. */
  lemma LookupAfterSet<K, V>(d: map<K, V>, defaultValue: V, key: K, value: V, other: K)
    ensures Lookup(d[key := value], defaultValue, other) == if other == key then value else Lookup(d, defaultValue, other)
  {
  }

  /** Removing a key makes it read as the default and leaves the others. */
  lemma LookupAfterRemove<K, V>(d: map<K, V>, defaultValue: V, key: K, other: K)
    ensures Lookup(d - {key}, defaultValue, other) == if other == key then defaultValue else Lookup(d, defaultValue, other)
  {
  }

  /** Count after an add of a new key or a removal of a present one. */
  lemma CountAfterAdd<K, V>(d: map<K, V>, key: K, value: V)
    requires key !in d
    ensures |d[key := value].Keys| == |d.Keys| + 1
  {
    assert d[key := value].Keys == d.Keys + {key};
  }

  lemma CountAfterRemove<K, V>(d: map<K, V>, key: K)
    requires key in d
    ensures |(d - {key}).Keys| == |d.Keys| - 1
  {
    assert (d - {key}).Keys == d.Keys - {key};
  }

  class SafeDictionary<K(==), V(==)> {
    var entries: map<K, V>
    var defaultValue: V

    /** SafeDictionary() and SafeDictionary(TV defaultValue): no entries;
        the first form passes default(TV). */
    constructor (defaultValue: V)
      ensures entries == map[] && this.defaultValue == defaultValue
    {
      entries := map[];
      this.defaultValue := defaultValue;
    }

    /** SafeDictionary(IDictionary dic[, TV defaultValue]): a private copy of
        the entries. */
    constructor FromDictionary(dic: map<K, V>, defaultValue: V)
      ensures entries == dic && this.defaultValue == defaultValue
    {
      entries := dic;
      this.defaultValue := defaultValue;
    }

    /** The indexer's get: the stored value, or DefaultValue for a missing
        key. */
    function Get(key: K): (r: V)
      reads this
      ensures key in entries ==> r == entries[key]
      ensures key !in entries ==> r == defaultValue
    {
      Lookup(entries, defaultValue, key)
    }

    /** The indexer's set: inserts or overwrites that key. */
    method Set(key: K, value: V)
      modifies this
      ensures entries == old(entries)[key := value] && defaultValue == old(defaultValue)
      ensures Get(key) == value
      ensures forall k :: k != key ==> Get(k) == Lookup(old(entries), defaultValue, k)
    {
      entries := entries[key := value];
    }

    /** Add(key, value) and Add(KeyValuePair): Dictionary.Add, which throws
        on a key that is already present. */
    method Add(key: K, value: V) returns (r: Result<()>)
      modifies this
      ensures r.Err? <==> key in old(entries)
      ensures r.Err? ==> r.error == ArgumentException && entries == old(entries)
      ensures r.Ok? ==> entries == old(entries)[key := value] && Count() == old(Count()) + 1
      ensures defaultValue == old(defaultValue)
    {
      if key in entries {
        return Err(ArgumentException);
      }
      CountAfterAdd(entries, key, value);
      entries := entries[key := value];
      return Ok(());
    }

    /** Remove(key): whether the key was present; only that key goes. */
    method Remove(key: K) returns (present: bool)
      modifies this
      ensures present <==> key in old(entries)
      ensures entries == old(entries) - {key} && defaultValue == old(defaultValue)
      ensures Count() == if present then old(Count()) - 1 else old(Count())
    {
      present := key in entries;
      if present {
        CountAfterRemove(entries, key);
      } else {
        assert entries - {key} == entries;
      }
      entries := entries - {key};
    }

    /** Remove(KeyValuePair): removes the key only when it holds that value. */
    method RemovePair(key: K, value: V) returns (removed: bool)
      modifies this
      ensures removed <==> key in old(entries) && old(entries)[key] == value
      ensures entries == if removed then old(entries) - {key} else old(entries)
      ensures defaultValue == old(defaultValue)
    {
      removed := key in entries && entries[key] == value;
      if removed {
        entries := entries - {key};
      }
    }

    /** TryGetValue: the stored value when present; DefaultValue plays no
        part. */
    function TryGetValue(key: K): (r: Option<V>)
      reads this
      ensures r.Some? <==> ContainsKey(key)
      ensures r.Some? ==> r.value == entries[key] == Get(key)
    {
      if key in entries then Some(entries[key]) else None
    }

    predicate ContainsKey(key: K)
      reads this
    {
      key in entries
    }

    /** Contains(KeyValuePair): the key is present with that value. */
    predicate ContainsPair(key: K, value: V)
      reads this
    {
      key in entries && entries[key] == value
    }

    function Count(): nat
      reads this
    {
      |entries.Keys|
    }

    method Clear()
      modifies this
      ensures entries == map[] && Count() == 0 && defaultValue == old(defaultValue)
      ensures forall k :: Get(k) == defaultValue
    {
      entries := map[];
    }

    method SetDefaultValue(value: V)
      modifies this
      ensures defaultValue == value && entries == old(entries)
    {
      defaultValue := value;
    }
  }
}
