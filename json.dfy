/** JSON values as they appear in JSONB columns and in JavaScript objects
    handled by the code (user records, permission maps, reducer payloads). */
module Json {

  datatype Json =
    | JNull
    | JBool(b: bool)
    | JNumber(x: real)
    | JString(s: string)
    | JArray(elems: seq<Json>)
    | JObject(fields: map<string, Json>)

  /** JavaScript truthiness of a JSON value: `null`, `false`, `0` and `""`
      are falsy, everything else (including empty arrays and objects) is truthy.
      JSON has no `NaN`, so every number other than zero is truthy. */
  predicate Truthy(v: Json) {
    match v
    case JNull => false
    case JBool(b) => b
    case JNumber(x) => x != 0.0
    case JString(s) => s != ""
    case JArray(_) => true
    case JObject(_) => true
  }
}
