/**
 * The values a time-tracking report delivers.  One report entry is a JSON
 * object; the model keeps it as a map from field name to value, so that a
 * field that is absent is distinct from a field whose value is null.
 */
module Records {

  /**
   * A cell of a report entry or of a DataFrame column.  `Null` stands for
   * Python's None and for pandas' NaN/NaT alike.  `Stamp(t)` is an ISO-8601
   * timestamp text, kept as the instant `t` (seconds) it denotes.
   */
  datatype Value =
    | Null
    | Int(i: int)
    | Real(r: real)
    | Str(s: string)
    | Stamp(t: int)
    | List(items: seq<Value>)

  /** One entry of the detailed report, as the JSON object the service returns. */
  type RawEntry = map<string, Value>

  /** The value a DataFrame built from entries holds for a field: NaN where the key is absent. */
  function Cell(e: RawEntry, field: string): (v: Value)
    ensures field !in e ==> v == Null
  {
    if field in e then e[field] else Null
  }
}
