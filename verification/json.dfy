/** The already-parsed JSON document handed from the extractor to the
    transformer, together with the two Python dictionary operations the
    transformer applies to it: subscripting `v[key]` and `v.get(key, default)`. */
module Json {
  import opened Wrappers

  /** A JSON value as `json.loads` produces it. An object is a Python dict,
      so a key occurs at most once and lookup does not depend on key order. */
  datatype Value =
    | JNull
    | JBool(b: bool)
    | JNumber(n: int)
    | JString(s: string)
    | JArray(elems: seq<Value>)
    | JObject(fields: map<string, Value>)

  /** The Python exceptions the transformer can raise while reading a value. */
  datatype PyError =
    | KeyError(key: string)       // `d[key]` on a dict without `key`
    | TypeError                   // `v[key]` on a non-dict, or iterating a non-iterable
    | AttributeError(name: string) // `v.get(...)` on a value that is not a dict

  predicate HasKey(v: Value, key: string) {
    v.JObject? && key in v.fields
  }

  /** `v[key]` with a string key. */
  function Subscript(v: Value, key: string): Result<Value, PyError> {
    match v
    case JObject(m) => if key in m then Success(m[key]) else Failure(KeyError(key))
    case _ => Failure(TypeError)
  }

  /** `v.get(key, default)`: only dicts have a `get` method. */
  function Get(v: Value, key: string, default: Value): Result<Value, PyError> {
    match v
    case JObject(m) => Success(if key in m then m[key] else default)
    case _ => Failure(AttributeError("get"))
  }
}
