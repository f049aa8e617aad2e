/** The search and iteration extensions of Iridium.Core.CoreExtensions and
    Velox.Core.CoreExtensions. A reference that may be null is an Option
    (None is null); element equality is Dafny equality, standing for
    Equals and EqualityComparer<T>.Default. */
module CoreExtensions {
  import opened Results

  /** Array.IndexOf / IList.IndexOf: the first index holding x, or -1. */
  function IndexOf<T(==)>(list: seq<T>, x: T): (r: int)
    ensures -1 <= r < |list|
    ensures r >= 0 ==> list[r] == x && forall j :: 0 <= j < r ==> list[j] != x
    ensures r < 0 <==> x !in list
  {
    if list == [] then -1
    else if list[0] == x then 0
    else
      var r := IndexOf(list[1..], x);
      assert forall j :: 1 <= j < |list| ==> list[j] == list[1..][j - 1];
      if r < 0 then -1 else r + 1
  }

  /** IsIn(params T[] list): a null source throws; otherwise whether some
      element equals it. */
  function IsIn<T(==)>(source: Option<T>, list: seq<Option<T>>): (r: Result<bool>)
    ensures source.None? ==> r == Err(ArgumentNullException("source"))
    ensures source.Some? ==> r.Ok? && (r.value <==> source in list)
  {
    if source.None? then Err(ArgumentNullException("source"))
    else Ok(IndexOf(list, source) >= 0)
  }

  /** IndexIn(params T[] list): a null source throws; otherwise Array.IndexOf. */
  function IndexIn<T(==)>(source: Option<T>, list: seq<Option<T>>): (r: Result<int>)
    ensures source.None? ==> r == Err(ArgumentNullException("source"))
    ensures source.Some? ==> r.Ok? && -1 <= r.value < |list|
    ensures r.Ok? && r.value >= 0 ==> list[r.value] == source && source !in list[..r.value]
    ensures r.Ok? && r.value < 0 ==> source !in list
  {
    if source.None? then Err(ArgumentNullException("source"))
    else
      var i := IndexOf(list, source);
      assert i >= 0 ==> forall j :: 0 <= j < i ==> list[..i][j] == list[j];
      Ok(i)
  }

  /** IsIn(IEnumerable<T> list): a null source throws; a null list makes
      Enumerable.Contains throw; otherwise membership. */
  function IsInSequence<T(==)>(source: Option<T>, list: Option<seq<Option<T>>>): (r: Result<bool>)
    ensures source.None? || list.None? ==> r == Err(ArgumentNullException("source"))
    ensures source.Some? && list.Some? ==> r.Ok? && (r.value <==> source in list.value)
  {
    if source.None? || list.None? then Err(ArgumentNullException("source"))
    else Ok(source in list.value)
  }

  /** IndexIn(IEnumerable<T> list). A null source throws
      ArgumentNullException. An IList answers through IndexOf; any other
      sequence is scanned in order with a counter. A null list is no IList,
      so the scan's foreach dereferences it. Both paths give the first
      matching index or -1. */
  method IndexInSequence<T(==)>(source: Option<T>, list: Option<seq<Option<T>>>, isIList: bool) returns (r: Result<int>)
    ensures source.None? ==> r == Err(ArgumentNullException("source"))
    ensures source.Some? && list.None? ==> r == Err(NullReferenceException)
    ensures source.Some? && list.Some? ==> r == IndexIn(source, list.value)
  {
    if source.None? {
      return Err(ArgumentNullException("source"));
    }
    if isIList && list.Some? {
      return Ok(IndexOf(list.value, source));
    }
    if list.None? {
      return Err(NullReferenceException);
    }
    var items := list.value;
    var idx := 0;
    while idx < |items|
      invariant 0 <= idx <= |items|
      invariant source !in items[..idx]
    {
      if source == items[idx] {
        IndexOfFirst(items, source, idx);
        return Ok(idx);
      }
      assert items[..idx + 1] == items[..idx] + [items[idx]];
      idx := idx + 1;
    }
    assert items[..idx] == items;
    return Ok(-1);
  }

  /** The first position holding x is the one IndexOf names. */
  lemma IndexOfFirst<T>(list: seq<T>, x: T, i: int)
    requires 0 <= i < |list| && list[i] == x && x !in list[..i]
    ensures IndexOf(list, x) == i
  {
  }

  /** IsIn holds exactly when IndexIn finds a position. */
  lemma IsInIndexIn<T>(source: Option<T>, list: seq<Option<T>>)
    requires source.Some?
    ensures IsIn(source, list).value <==> IndexIn(source, list).value >= 0
    ensures IsInSequence(source, Some(list)) == IsIn(source, list)
  {
  }

  /** The tests' searches of 3, 4, 5. */
  lemma IndexInExamples()
    ensures IndexIn(Some(5), [Some(3), Some(4), Some(5)]) == Ok(2)
    ensures IndexIn(Some(6), [Some(3), Some(4), Some(5)]).value < 0
    ensures IsIn(Some(5), [Some(3), Some(4), Some(5)]) == Ok(true)
    ensures IsIn(Some(6), [Some(3), Some(4), Some(5)]) == Ok(false)
  {
    var l := [Some(3), Some(4), Some(5)];
    assert l[1..] == [Some(4), Some(5)] && l[1..][1..] == [Some(5)];
    assert Some(6) !in l;
  }

  /** The state an action leaves after visiting each element in turn. */
  function Visit<S, T>(action: (S, T) -> S, s: S, list: seq<T>): S
    decreases |list|
  {
    if list == [] then s else Visit(action, action(s, list[0]), list[1..])
  }

  /** Visiting a concatenation visits the first part, then the second. */
  lemma {:induction false} VisitAppend<S, T>(action: (S, T) -> S, s: S, a: seq<T>, b: seq<T>)
    ensures Visit(action, s, a + b) == Visit(action, Visit(action, s, a), b)
    decreases |a|
  {
    if a != [] {
      var s1 := action(s, a[0]);
      assert (a + b)[0] == a[0] && (a + b)[1..] == a[1..] + b;
      assert Visit(action, s, a + b) == Visit(action, s1, a[1..] + b);
      assert Visit(action, s, a) == Visit(action, s1, a[1..]);
      VisitAppend(action, s1, a[1..], b);
    } else {
      assert a + b == b;
    }
  }

  /** ForEach: the action runs once per element, in enumeration order; the
      action is a function from the state it affects to the next state. */
  method ForEach<S, T>(list: seq<T>, action: (S, T) -> S, s0: S) returns (s: S)
    ensures s == Visit(action, s0, list)
  {
    s := s0;
    for i := 0 to |list|
      invariant s == Visit(action, s0, list[..i])
    {
      VisitAppend(action, s0, list[..i], [list[i]]);
      assert list[..i + 1] == list[..i] + [list[i]];
      s := action(s, list[i]);
    }
    assert list[..|list|] == list;
  }

  /** Velox's ConvertAll: a null array throws; otherwise a new array of the
      same length whose i-th element is the converter applied to the input's
      i-th, filled in index order. The input is only read. */
  method ConvertAll<A, B(0)>(input: Option<array<A>>, converter: A -> B) returns (r: Result<array<B>>)
    ensures input.None? ==> r == Err(ArgumentNullException("array"))
    ensures input.Some? ==> r.Ok? && fresh(r.value) && r.value.Length == input.value.Length
    ensures input.Some? ==> forall i :: 0 <= i < r.value.Length ==> r.value[i] == converter(input.value[i])
  {
    if input.None? {
      return Err(ArgumentNullException("array"));
    }
    var a := input.value;
    var result := new B[a.Length];
    for i := 0 to a.Length
      invariant forall j :: 0 <= j < i ==> result[j] == converter(a[j])
    {
      result[i] := converter(a[i]);
    }
    return Ok(result);
  }
}
