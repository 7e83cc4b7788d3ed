/** The Python values the modelled code passes around: JSON-like values as
    they appear in log payloads and HTTP error details, an optional value,
    Python truthiness and `dict.get`. */
module PyValues {

  /** An attribute or argument that may be missing (Python `None` or an
      absent attribute). */
  datatype Option<+T> = None | Some(value: T) {
    /** The value if present, otherwise `default`. */
    function GetOr(default: T): T {
      match this
      case Some(v) => v
      case None => default
    }
  }

  /** A Python value of the kinds that reach a JSON body. */
  datatype Value =
    | Null
    | Bool(b: bool)
    | Int(i: int)
    | Str(s: string)
    | List(items: seq<Value>)
    | Dict(entries: map<string, Value>)

  /** Python's truth test: `None`, `False`, `0`, `""`, `[]` and `{}` are false. */
  predicate Truthy(v: Value) {
    match v
    case Null => false
    case Bool(b) => b
    case Int(i) => i != 0
    case Str(s) => s != []
    case List(xs) => xs != []
    case Dict(m) => m != map[]
  }

  /** `d.get(key, default)` on a Python dict. */
  function Get(d: map<string, Value>, key: string, default: Value): (v: Value)
    ensures key in d ==> v == d[key]
    ensures key !in d ==> v == default
  {
    if key in d then d[key] else default
  }

  /** A Python optional string as a value: `None` or the string itself. */
  function OptionalStr(s: Option<string>): (v: Value)
    ensures s.None? <==> v == Null
    ensures s.Some? ==> v == Str(s.value)
  {
    match s
    case None => Null
    case Some(t) => Str(t)
  }
}
