/** JSON values as the response parser hands them to the schema validators, and
    the readers for the scalar field types. */
module Json {
  import opened Wrappers

  /** A parsed JSON value. Integral and non-integral numbers are kept apart,
      as Python's `int` and `float` are after `json.loads`. */
  datatype Json =
    | JNull
    | JBool(b: bool)
    | JInt(i: int)
    | JFloat(f: real)
    | JStr(s: string)
    | JArr(items: seq<Json>)
    | JObj(fields: map<string, Json>)

  /** The behaviour of the validation library that the schemas leave implicit.
      When a field of type `int`, `str`, `bool` or `float` receives a value of
      another JSON kind, the library decides whether to coerce it (its "lax"
      mode); `isHttpUrl` is the library's URL grammar. Every property in this
      model is proved for an arbitrary `Lib`. */
  datatype Lib = Lib(
    coerceInt: Json -> Option<int>,
    coerceStr: Json -> Option<string>,
    coerceBool: Json -> Option<bool>,
    coerceFloat: Json -> Option<real>,
    isHttpUrl: string -> bool)

  // ---------------------------------------------------------------------------
  // Field types. Each reads one JSON value; `None` means the value is rejected.
  // `null` is never accepted here: only an `Optional[...]` field takes it.
  // ---------------------------------------------------------------------------

  /** `int`: a JSON integer as is, anything but null left to the library. */
  function IntValue(lib: Lib, j: Json): (r: Option<int>)
  {
    match j
    case JInt(n) => Some(n)
    case JNull => None
    case _ => lib.coerceInt(j)
  }

  /** `str`. */
  function StrValue(lib: Lib, j: Json): (r: Option<string>)
  {
    match j
    case JStr(s) => Some(s)
    case JNull => None
    case _ => lib.coerceStr(j)
  }

  /** `bool`. */
  function BoolValue(lib: Lib, j: Json): (r: Option<bool>)
  {
    match j
    case JBool(b) => Some(b)
    case JNull => None
    case _ => lib.coerceBool(j)
  }

  /** `PositiveFloat` / `NonNegativeFloat`, read as a number; the sign bound
      on these floating-point fields is not part of this model. */
  function FloatValue(lib: Lib, j: Json): (r: Option<real>)
  {
    match j
    case JFloat(f) => Some(f)
    case JInt(n) => Some(n as real)
    case JNull => None
    case _ => lib.coerceFloat(j)
  }
}
