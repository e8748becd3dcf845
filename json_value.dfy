/**
 * The values the dashboard passes through `json.dumps` and `json.loads`, and
 * the codec itself, which is a parameter of the model: a pair of functions
 * that the lemmas needing a round trip require to be lawful.
 */
module JsonValue {
  import opened Wrappers

  /** A JSON document; `JNull` is Python's `None`. */
  datatype Json =
    | JNull
    | JBool(b: bool)
    | JInt(i: int)
    | JStr(s: string)
    | JList(items: seq<Json>)
    | JObject(fields: map<string, Json>)

  /** `json.dumps` and `json.loads`; `decode` gives `None` where `json.loads` raises. */
  datatype Codec = Codec(encode: Json -> string, decode: string -> Option<Json>)

  /**
   * What `json.dumps` and `json.loads` promise each other: every encoding is a
   * non-empty text that decodes to the value encoded.
   */
  ghost predicate Lawful(c: Codec)
  {
    forall j: Json :: |c.encode(j)| > 0 && c.decode(c.encode(j)) == Some(j)
  }
}
