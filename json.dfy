/** JSON-like documents: the configuration tree and the global
    configuration a repository publishes. */
module JsonValues {
  datatype Json =
    | JNull
    | JBool(b: bool)
    | JInt(i: int)
    | JStr(s: string)
    | JArr(items: seq<Json>)
    | JObj(fields: map<string, Json>)

  /** `{}`. */
  const EmptyObject: Json := JObj(map[])
}
