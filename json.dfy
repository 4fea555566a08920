/** JSON documents as `json.load` returns them, and the few Python operations
    the modelled code applies to them: `obj[key]`, `obj.get(key)`, `int(x)` and
    the comparisons of an `int` with a loaded value. */
module Json {
  import opened Wrappers
  import opened Strings

  /** A loaded JSON value; `Null` is Python's `None`. Floating-point numbers
      are not modelled. */
  datatype Value =
    | Null
    | Bool(b: bool)
    | Int(i: int)
    | Str(s: string)
    | List(items: seq<Value>)
    | Dict(fields: map<string, Value>)

  /** `v[key]` for a string key: a `dict` lookup, `KeyError` when the key is
      missing and `TypeError` on anything that is not a `dict`. */
  function Index(v: Value, key: string): (r: Result<Value>)
    ensures r.Ok? <==> v.Dict? && key in v.fields
    ensures r.Ok? ==> r.value == v.fields[key]
    ensures r.Err? && v.Dict? ==> r.error == KeyError(key)
    ensures r.Err? && !v.Dict? ==> r.error.TypeError?
  {
    if !v.Dict? then Err(TypeError("value is not subscriptable by a string"))
    else if key in v.fields then Ok(v.fields[key])
    else Err(KeyError(key))
  }

  /** `v.get(key)`: `None` for a missing key, `AttributeError` on a value
      that is not a `dict`. */
  function Get(v: Value, key: string): (r: Result<Value>)
    ensures r.Ok? <==> v.Dict?
    ensures r.Ok? && key in v.fields ==> r.value == v.fields[key]
    ensures r.Ok? && key !in v.fields ==> r.value == Null
  {
    if !v.Dict? then Err(AttributeError("value has no attribute 'get'"))
    else if key in v.fields then Ok(v.fields[key])
    else Ok(Null)
  }

  /** The integer a value stands for in a comparison with an `int`: Python's
      `bool` is an `int`; every other value makes `<` raise `TypeError`. */
  function Numeric(v: Value): (r: Result<int>)
    ensures r.Ok? <==> v.Int? || v.Bool?
    ensures v.Int? ==> r == Ok(v.i)
  {
    match v
    case Int(i) => Ok(i)
    case Bool(b) => Ok(if b then 1 else 0)
    case _ => Err(TypeError("'<' not supported between int and a non-number"))
  }

  /** `a == v` for an `int` a: never raises, false across types. */
  predicate EqualsInt(a: int, v: Value) {
    Numeric(v).Ok? && Numeric(v).value == a
  }

  /** `int(v)`: integers and booleans as they are, a string of decimal digits
      read in decimal (`ValueError` for any other string), `TypeError` for
      the rest. Signs and surrounding whitespace in strings are not modelled. */
  function ToInt(v: Value): (r: Result<int>)
    ensures v.Int? ==> r == Ok(v.i)
    ensures v.Str? ==> (r.Ok? <==> v.s != [] && forall k :: 0 <= k < |v.s| ==> IsDigit(v.s[k]))
    ensures v.Str? && r.Ok? ==> r.value == ParseDigits(v.s)
  {
    match v
    case Int(i) => Ok(i)
    case Bool(b) => Ok(if b then 1 else 0)
    case Str(s) =>
      if s != [] && forall k :: 0 <= k < |s| ==> IsDigit(s[k]) then Ok(ParseDigits(s))
      else Err(ValueError("invalid literal for int() with base 10"))
    case _ => Err(TypeError("int() argument must be a string or a number"))
  }

  /** `int(str(n))`: rendering a natural number and reading it back. */
  lemma ToIntOfRendered(n: nat)
    ensures ToInt(Str(NatToString(n))) == Ok(n)
  {
    NatToStringRoundTrip(n);
  }
}
