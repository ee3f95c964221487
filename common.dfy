/** Values shared by every component: optional values and the JSON documents
    the platform's HTTP endpoints return. */
module Common {

  datatype Option<+T> = None | Some(value: T)

  datatype Result<+T, +E> = Success(value: T) | Failure(error: E)

  /** A decoded JSON document. Numbers are integers; an object is a map, so the
      order of its members is not represented. */
  datatype Json =
    | JNull
    | JBool(b: bool)
    | JNum(n: int)
    | JStr(s: string)
    | JArr(items: seq<Json>)
    | JObj(fields: map<string, Json>)

  /** Python truthiness of a decoded JSON value (`if value:`). */
  predicate Truthy(v: Json) {
    match v
    case JNull => false
    case JBool(b) => b
    case JNum(n) => n != 0
    case JStr(s) => s != ""
    case JArr(items) => items != []
    case JObj(fields) => fields != map[]
  }

  /** `d.get(key, default)` on a decoded JSON object. */
  function GetOr(fields: map<string, Json>, key: string, default: Json): Json {
    if key in fields then fields[key] else default
  }

  /** Python's `a or b`: the first operand when it is truthy, else the second. */
  function OrElse(a: Json, b: Json): Json {
    if Truthy(a) then a else b
  }
}
