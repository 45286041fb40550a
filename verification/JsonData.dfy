/** Parsed JSON, as far as the decoders tell values apart. */
module JsonData {

  datatype Json =
    | JNull
    | JInt(n: int)
    | JString(text: string)
    | JArray(items: seq<Json>)
    | JObject(pairs: seq<(string, Json)>)
    | JOther
}
