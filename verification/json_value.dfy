/** An already-parsed JSON document. The text syntax of JSON is not part of
    the model: parsing and printing are taken as given, and only the shape
    of the parsed value matters. Numbers are integers here. */
module JsonValue {

  datatype Json =
    | JNull
    | JBool(b: bool)
    | JNumber(n: int)
    | JString(s: string)
    | JArray(items: seq<Json>)
    | JObject(fields: seq<(string, Json)>)
}
