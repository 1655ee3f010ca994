/**
 * JSON values, and the two things the chat engine asks of them. Parsing is not
 * modelled: `JSON.parse` and the reading of a parsed payload's `content` field
 * are supplied by the caller as a `Codec`.
 */
module Json {
  import opened Optional

  /** A parsed JSON value; a number is kept as its literal text. */
  datatype Json =
    | JNull
    | JBool(b: bool)
    | JNumber(literal: string)
    | JString(s: string)
    | JArray(items: seq<Json>)
    | JObject(members: seq<(string, Json)>)

  /**
   * `parse(s)` is `JSON.parse(s)`: `None` when it throws.
   * `contentOf(j)` is the text that `${j.content}` renders when `j?.content`
   * is truthy, and `None` when it is falsy or absent.
   */
  datatype Codec = Codec(parse: string -> Option<Json>, contentOf: Json -> Option<string>)
}
