/**
 The values a decoded JSON request body can hold. A JSON number is kept as
 an exact `real`; the request body itself is an object, i.e. a map from
 field name to value.
 */
module JsonValues {

  datatype Json =
    | JNull
    | JBool(b: bool)
    | JNumber(x: real)
    | JString(s: string)
    | JArray(items: seq<Json>)
    | JObject(fields: map<string, Json>)

  /** A raw loan-application record: the decoded request body. */
  type Record = map<string, Json>
}
