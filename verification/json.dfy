/** Decoded JSON values, as Flask and `requests` hand them to the code, and Python's truth test on them. */
module Json {

  datatype Json =
    | JNull
    | JBool(b: bool)
    | JNum(n: real)
    | JStr(s: string)
    | JArr(items: seq<Json>)
    | JObj(fields: map<string, Json>)

  /** The values Python's `bool` takes for false, listed as its documentation lists them. */
  const Falsy: set<Json> := {JNull, JBool(false), JNum(0.0), JStr(""), JArr([]), JObj(map[])}

  /** Python's `bool(v)`: `None`, `False`, zero and empty containers are false, and nothing else is. */
  predicate Truthy(v: Json)
    ensures !Truthy(v) <==> v in Falsy
  {
    match v
    case JNull => false
    case JBool(b) => b
    case JNum(n) => n != 0.0
    case JStr(s) => s != ""
    case JArr(items) => items != []
    case JObj(fields) => fields != map[]
  }

  /** `d.get(key, default)` on a decoded object. */
  function Get(fields: map<string, Json>, key: string, default: Json): (r: Json)
    ensures key in fields ==> r == fields[key]
    ensures key !in fields ==> r == default
  {
    if key in fields then fields[key] else default
  }
}
