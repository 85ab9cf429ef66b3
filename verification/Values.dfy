/** Python values as they flow between nodes and live in node configurations. */
module Values {
  datatype Value =
    | Null
    | Bool(b: bool)
    | Number(r: real)
    | Text(s: string)
    | List(items: seq<Value>)
    | Dict(fields: map<string, Value>)

  /** Python truthiness. */
  predicate Truthy(v: Value) {
    match v
    case Null => false
    case Bool(b) => b
    case Number(r) => r != 0.0
    case Text(s) => s != ""
    case List(items) => items != []
    case Dict(fields) => fields != map[]
  }

  /** dict.get(key): Null when the key is absent. */
  function Get(fields: map<string, Value>, key: string): Value {
    if key in fields then fields[key] else Null
  }
}
