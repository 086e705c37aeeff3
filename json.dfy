/** The JSON values that `json.loads` produces and `json.dumps` consumes. Only
    their shape matters to the model; the text encoding itself is left to
    the decoder and encoder that callers pass in. */
module Json {

  datatype Json =
    | JNull
    | JBool(b: bool)
    | JNumber(n: real)
    | JString(s: string)
    | JArray(items: seq<Json>)
    | JObject(fields: map<string, Json>)

  /** What `json.loads` does with a text: a value, or `JSONDecodeError`. */
  datatype Decoded = Malformed | Decoded(value: Json)

  type Loads = string -> Decoded
}
