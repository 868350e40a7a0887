/** The decoded JSON values the upstream snapshot endpoint may return. */
module JsonValue {

  /**
   * A JSON value as Python's json decoder hands it over: `null` is `None`,
   * an array is a list and an object is a dict. A dict iterates its entries in
   * insertion order, so an object is kept as the ordered sequence of its
   * (key, value) pairs. Integers and floats are both numbers here.
   */
  datatype Json =
    | JNull
    | JBool(b: bool)
    | JNum(n: real)
    | JStr(s: string)
    | JArr(items: seq<Json>)
    | JObj(entries: seq<(string, Json)>)
}
