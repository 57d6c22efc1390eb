/** JSON values as a web-map document holds them, with Python's notion of truthiness. */
module Json {

  /** A JSON value. Objects are maps, so two objects with the same members are
      equal whatever order their members were written in. */
  datatype Json =
    | JNull
    | JBool(b: bool)
    | JNumber(n: int)
    | JString(s: string)
    | JArray(items: seq<Json>)
    | JObject(members: map<string, Json>)

  /** Python's `bool(v)` for the value `json.loads` produces: `None`, `False`,
      `0`, `""`, `[]` and `{}` are false, everything else is true. */
  predicate Truthy(v: Json)
  {
    match v
    case JNull => false
    case JBool(b) => b
    case JNumber(n) => n != 0
    case JString(s) => |s| > 0
    case JArray(items) => |items| > 0
    case JObject(members) => |members| > 0
  }
}
