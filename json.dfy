/** The values a parsed JSON document, or a Ruby hash of extracted fields,
    can hold. Hash keys are the names of the symbols (or strings) they are
    written with. */
module JsonValues {

  datatype Json =
    | JNull
    | JBool(b: bool)
    | JNum(n: int)
    | JStr(s: string)
    | JArr(items: seq<Json>)
    | JObj(fields: map<string, Json>)

  /** A hash of field values, keyed by field name. */
  type Record = map<string, Json>
}
