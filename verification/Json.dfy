/** JSON values as `json.loads` returns them. */
module Json {
  datatype Value =
    | Null
    | Bool(flag: bool)
    | Number(n: int)
    | Text(text: string)
    | List(items: seq<Value>)
    | Object(fields: map<string, Value>)

  /** `payload.get(key)`: a missing key reads as `None`. */
  function Field(fields: map<string, Value>, key: string): Value {
    if key in fields then fields[key] else Null
  }

  /** `values.get(key, "")`. */
  function Get(values: map<string, string>, key: string): string {
    if key in values then values[key] else ""
  }

  /** `parent[key]` is there and is this value. */
  predicate HasField(parent: Value, key: string, value: Value) {
    parent.Object? && key in parent.fields && parent.fields[key] == value
  }

  predicate Shows(values: map<string, string>, key: string, text: string) { key in values && values[key] == text }

  predicate Given(values: map<string, string>, key: string) { key in values && values[key] != "" }

  /** Some key anywhere in the value is flagged. */
  predicate HasKey(flagged: string -> bool, value: Value)
    decreases value
  {
    match value
    case Object(fields) => exists key <- fields :: flagged(key) || HasKey(flagged, fields[key])
    case List(items) => exists item <- items :: HasKey(flagged, item)
    case _ => false
  }
}
