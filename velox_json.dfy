/** The immutable JsonObject of Velox.Core. Its lookup, indexer, AsArray<T>,
    Keys and enumerator are those of ImmutableJson; it differs in IsValue,
    which does not exclude Empty, and in Value, which is the raw payload. */
module VeloxJson {
  import opened JsonValues
  import ImmutableJson

  type Node = ImmutableJson.Node

  /** IsValue: neither an object nor an array. */
  predicate IsValue(o: Node) {
    !ImmutableJson.IsObject(o) && !ImmutableJson.IsArray(o)
  }

  /** The internal Value: the payload as stored. */
  function Value(o: Node): (r: Payload<Node>)
    ensures ImmutableJson.Value(o) == if ImmutableJson.IsValue(o) then r else Null
    ensures ImmutableJson.IsObject(o) <==> r.Dict?
  {
    o.value
  }

  /** Every node is an object, an array or a value, and only one of them;
      Empty counts as a value here, whereas the Iridium-Core revision puts it
      apart. */
  lemma Kinds(o: Node)
    requires ImmutableJson.Valid(o)
    ensures IsValue(o) <==> ImmutableJson.IsValue(o) || ImmutableJson.IsEmpty(o)
    ensures IsValue(o) || ImmutableJson.IsObject(o) || ImmutableJson.IsArray(o)
    ensures !(ImmutableJson.IsObject(o) && ImmutableJson.IsArray(o))
    ensures ImmutableJson.IsEmpty(o) ==> IsValue(o) && ImmutableJson.IsNullOrEmpty(o) && !ImmutableJson.IsNull(o)
    ensures ImmutableJson.IsNull(o) ==> IsValue(o) && !ImmutableJson.IsEmpty(o)
  {
  }

  /** Empty is the one node both empty and a value, and it enumerates as
      itself. */
  lemma EmptyInstance()
    ensures IsValue(ImmutableJson.Empty) && !ImmutableJson.IsValue(ImmutableJson.Empty)
    ensures ImmutableJson.Enumerate(ImmutableJson.Empty) == [ImmutableJson.Empty]
    ensures forall k :: ImmutableJson.ValueForExpression(ImmutableJson.Empty, k) == ImmutableJson.Empty
  {
  }
}
