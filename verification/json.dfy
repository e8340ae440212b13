/** A JSON-like value, standing for the Python objects the client sends and receives
    (`json.loads` results, request payload values, decoded image bytes). The encoders and
    decoders themselves are not modelled: they enter as function parameters. */
module Json {

  datatype Json =
    | JNull
    | JBool(b: bool)
    | JInt(i: int)
    | JNum(r: real)
    | JStr(s: string)
    | JBytes(bytes: seq<int>)
    | JList(items: seq<Json>)
    | JObject(fields: map<string, Json>)

  /** A Python `Dict[str, Any]`. */
  type JsonObject = map<string, Json>
}
