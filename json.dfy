/** The values `json.loads` produces for the `datos_usuarios` form field. */
module Json {

  /** A parsed JSON value. Numbers are kept as integers only. */
  datatype Value =
    | Null
    | Bool(b: bool)
    | Num(n: int)
    | Str(s: string)
    | Arr(items: seq<Value>)
    | Obj(fields: map<string, Value>)

  /** One element of the parsed `datos_usuarios` array: a JSON object. */
  type Person = map<string, Value>

  /** Python truthiness of a parsed value (`if value:`). */
  predicate Truthy(v: Value) {
    match v
    case Null => false
    case Bool(b) => b
    case Num(n) => n != 0
    case Str(s) => s != ""
    case Arr(items) => items != []
    case Obj(fields) => fields != map[]
  }
}
