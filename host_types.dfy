/** The host (.NET) side of typed parsing: the declared types the parser
    dispatches on, an abstract table of public fields and properties in place
    of reflection, and the numbers Int64.Parse and Convert.ChangeType give. */
module HostTypes {
  import opened Results
  import opened Text

  datatype NumericType = Int16 | Int32 | Int64 | Single | Double | Decimal

  /** A declared type: string, bool, one of the six numeric types, an array
      T[], a list type implementing IList<T> that is not an array, a class
      (by name), or System.Object. */
  datatype HostType =
    | TString
    | TBool
    | TNumeric(numeric: NumericType)
    | TArray(elem: HostType)
    | TList(elem: HostType)
    | TClass(name: string)
    | TObject

  /** The parser's IsArray(type): the type implements IList or IList<>. */
  predicate IsListType(t: HostType) {
    t.TArray? || t.TList?
  }

  /** A public instance field or property of a class. */
  datatype Member = Member(name: string, memberType: HostType, isProperty: bool)

  /** The members of each class, in declaration order. */
  type TypeTable = map<string, seq<Member>>

  function MembersOf(table: TypeTable, t: HostType): seq<Member> {
    if t.TClass? && t.name in table then table[t.name] else []
  }

  /** FirstOrDefault over the members with an OrdinalIgnoreCase name match. */
  function FirstIgnoreCase(ms: seq<Member>, name: string): (r: Option<Member>)
    ensures r.Some? ==> r.value in ms && EqualsIgnoreCase(r.value.name, name)
    ensures r.None? <==> forall i :: 0 <= i < |ms| ==> !EqualsIgnoreCase(ms[i].name, name)
    ensures r.Some? ==>
      exists i :: 0 <= i < |ms| && ms[i] == r.value && forall j :: 0 <= j < i ==> !EqualsIgnoreCase(ms[j].name, name)
  {
    if ms == [] then None
    else if EqualsIgnoreCase(ms[0].name, name) then Some(ms[0])
    else
      var r := FirstIgnoreCase(ms[1..], name);
      if r.Some? then
        assert exists i :: 0 <= i < |ms| && ms[i] == r.value && forall j :: 0 <= j < i ==> !EqualsIgnoreCase(ms[j].name, name) by {
          var i :| 0 <= i < |ms[1..]| && ms[1..][i] == r.value && forall j :: 0 <= j < i ==> !EqualsIgnoreCase(ms[1..][j].name, name);
          assert ms[i + 1] == r.value;
          assert forall j :: 0 <= j < i + 1 ==> !EqualsIgnoreCase(ms[j].name, name) by {
            forall j | 0 <= j < i + 1 ensures !EqualsIgnoreCase(ms[j].name, name) {
              if j > 0 { assert ms[j] == ms[1..][j - 1]; }
            }
          }
        }
        r
      else r
  }

  /** The first member with exactly this name and the given kind. */
  function FirstNamed(ms: seq<Member>, name: string, isProperty: bool): (r: Option<Member>)
    ensures r.Some? ==> r.value in ms && r.value.name == name && r.value.isProperty == isProperty
    ensures r.None? <==> forall m :: m in ms ==> !(m.name == name && m.isProperty == isProperty)
  {
    if ms == [] then None
    else if ms[0].name == name && ms[0].isProperty == isProperty then Some(ms[0])
    else FirstNamed(ms[1..], name, isProperty)
  }

  /** GetProperty(name), then GetField(name): a property of that exact name
      wins over a field of that name. */
  function PropertyOrField(ms: seq<Member>, name: string): (r: Option<Member>)
    ensures r.Some? ==> r.value in ms && r.value.name == name
    ensures (exists m :: m in ms && m.name == name && m.isProperty) ==> r.Some? && r.value.isProperty
    ensures r.None? <==> forall m :: m in ms ==> m.name != name
  {
    var p := FirstNamed(ms, name, true);
    if p.Some? then p else FirstNamed(ms, name, false)
  }

  const Int32MinValue: int := -0x8000_0000
  const Int32MaxValue: int := 0x7FFF_FFFF
  const Int64MaxValue: int := 0x7FFF_FFFF_FFFF_FFFF

  /** A boxed number: an int, a long, a double kept as its decimal text, or
      the result of Convert.ChangeType to another numeric type. */
  datatype Number =
    | Int32Value(i: int)
    | Int64Value(i: int)
    | DoubleValue(text: string)
    | Changed(from: Number, to: NumericType)

  function TypeOfNumber(n: Number): NumericType {
    match n
    case Int32Value(_) => Int32
    case Int64Value(_) => Int64
    case DoubleValue(_) => Double
    case Changed(_, t) => t
  }

  /** Whether an integer fits the numeric type; the floating and decimal
      types hold every value a long can have. */
  predicate Fits(i: int, t: NumericType) {
    match t
    case Int16 => -0x8000 <= i <= 0x7FFF
    case Int32 => Int32MinValue <= i <= Int32MaxValue
    case Int64 => -0x8000_0000_0000_0000 <= i <= Int64MaxValue
    case _ => true
  }

  /** Convert.ChangeType(n, t): the value itself when it already has type t,
      an OverflowException for an int or long that t cannot hold, otherwise
      a conversion to t. */
  function ChangeType(n: Number, t: NumericType): (r: Result<Number>)
    ensures r.Ok? ==> TypeOfNumber(r.value) == t
    ensures TypeOfNumber(n) == t ==> r == Ok(n)
    ensures r.Err? <==> TypeOfNumber(n) != t && (n.Int32Value? || n.Int64Value?) && !Fits(n.i, t)
    ensures r.Err? ==> r.error == OverflowException
  {
    if TypeOfNumber(n) == t then Ok(n)
    else if (n.Int32Value? || n.Int64Value?) && !Fits(n.i, t) then Err(OverflowException)
    else Ok(Changed(n, t))
  }

  predicate AllDigits(s: string) {
    forall i :: 0 <= i < |s| ==> IsDigit(s[i])
  }

  /** The value of a string of decimal digits. */
  function DecimalValue(s: string): nat
    requires AllDigits(s)
  {
    if s == [] then 0 else DecimalValue(s[..|s| - 1]) * 10 + (s[|s| - 1] as int - '0' as int)
  }

  /** Int64.Parse of the digit text an Integer token carries: too large a
      value overflows; anything else is a format error. */
  function Int64Parse(s: string): (r: Result<int>)
    ensures r.Ok? ==> 0 <= r.value <= Int64MaxValue
    ensures r.Ok? <==> (s != [] && AllDigits(s) && DecimalValue(s) <= Int64MaxValue)
  {
    if s != [] && AllDigits(s) then
      var v := DecimalValue(s);
      if v <= Int64MaxValue then Ok(v) else Err(OverflowException)
    else Err(Exception("Input string was not in a correct format."))
  }
}
