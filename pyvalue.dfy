/** The Python values that flow through the logging core: what a keyword
    argument, a context entry or a record attribute can hold. */
module PyValue {

  /** One Python value. A `dict` keeps its insertion order as a sequence of
      pairs (its keys may be any hashable value); a `float` is carried by its
      IEEE-754 bit pattern; `Object` stands for every other kind of object
      (datetime, exception, user class ...). */
  datatype Value =
    | None
    | Bool(b: bool)
    | Int(i: int)
    | Float(bits: bv64)
    | Str(s: string)
    | Bytes(data: seq<bv8>)
    | List(items: seq<Value>)
    | Tuple(items: seq<Value>)
    | Dict(entries: seq<(Value, Value)>)
    | Set(elems: set<Value>)
    | Object(id: nat)

  /** The Python exceptions the core raises or lets escape. */
  datatype Error =
    | StLogError
    | TypeError
    | ValueError
    | KeyError
    | AttributeError
    | UnboundLocalError
    /** Not a Python exception: the source goes on past this point, along a
        path the model does not follow (see the adapter's `extra=`). */
    | Unmodelled

  datatype Option<T> = Nothing | Some(value: T)

  datatype Result<T> = Ok(value: T) | Err(error: Error)

  datatype Outcome = Pass | Fail(error: Error)

  /** `bool(v)`: Python truthiness. */
  predicate Truthy(v: Value) {
    match v
    case None => false
    case Bool(b) => b
    case Int(i) => i != 0
    case Float(bits) => bits & 0x7FFF_FFFF_FFFF_FFFF != 0
    case Str(s) => s != []
    case Bytes(d) => d != []
    case List(items) => items != []
    case Tuple(items) => items != []
    case Dict(entries) => entries != []
    case Set(elems) => elems != {}
    case Object(_) => true
  }

  /** The built-in Python types that `isinstance` checks in the core name. */
  datatype PyType =
    | NoneType | BoolType | IntType | FloatType | StrType | BytesType
    | ListType | TupleType | DictType | SetType | ObjectType

  function TypeOf(v: Value): PyType {
    match v
    case None => NoneType
    case Bool(_) => BoolType
    case Int(_) => IntType
    case Float(_) => FloatType
    case Str(_) => StrType
    case Bytes(_) => BytesType
    case List(_) => ListType
    case Tuple(_) => TupleType
    case Dict(_) => DictType
    case Set(_) => SetType
    case Object(_) => ObjectType
  }

  /** `isinstance(v, types)`: `bool` is a subclass of `int`. */
  predicate IsInstance(v: Value, types: set<PyType>) {
    TypeOf(v) in types || (v.Bool? && IntType in types)
  }

  function DigitChar(d: nat): (c: char)
    requires d < 10
    ensures '0' <= c <= '9'
  {
    ['0', '1', '2', '3', '4', '5', '6', '7', '8', '9'][d]
  }

  /** Decimal digits of a natural number, most significant first. */
  function NatDigits(n: nat): (r: string)
    ensures r != []
    ensures forall i | 0 <= i < |r| :: '0' <= r[i] <= '9'
    ensures |r| > 1 ==> r[0] != '0'
  {
    if n < 10 then [DigitChar(n)] else NatDigits(n / 10) + [DigitChar(n % 10)]
  }

  /** `str(i)` for an `int`: an optional minus sign, then decimal digits. */
  function IntText(i: int): (r: string)
    ensures r != []
    ensures i < 0 <==> r[0] == '-'
    ensures forall k | (if i < 0 then 1 else 0) <= k < |r| :: '0' <= r[k] <= '9'
  {
    if i < 0 then "-" + NatDigits(-i) else NatDigits(i)
  }

  /** `str(v)`. `None`, booleans, integers and strings are printed as Python
      prints them; every other value goes through `render`, which stands for
      Python's own `__str__` (a float's shortest repr, a list's repr ...).
      `render` answers `Nothing` when that call raises. */
  function PyStr(v: Value, render: Value -> Option<string>): (r: Option<string>)
    ensures v.Str? ==> r == Some(v.s)
    ensures v.None? || v.Bool? || v.Int? || v.Str? ==> r.Some?
  {
    match v
    case None => Some("None")
    case Bool(b) => Some(if b then "True" else "False")
    case Int(i) => Some(IntText(i))
    case Str(s) => Some(s)
    case _ => render(v)
  }

  /** The set of string keys of a mapping, as the Python `set` of `str`
      the core stores in its marker attributes. */
  function KeySet(keys: set<string>): (r: Value)
    ensures r.Set?
    ensures forall k :: Str(k) in r.elems <==> k in keys
    ensures forall e | e in r.elems :: e.Str?
  {
    Set(set k | k in keys :: Str(k))
  }
}
