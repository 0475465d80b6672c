/** JavaScript values as the gallery reads them out of the API's JSON: a field
    may be missing, and `a || b` falls back on every falsy value. */
module Values {

  /** A JSON field that may be missing (or `null`, or of a shape the code
      treats as missing). */
  datatype Option<+T> = None | Some(value: T)

  /** A string field is truthy when present and non-empty. */
  predicate TruthyStr(o: Option<string>) {
    o.Some? && o.value != ""
  }

  /** A numeric field is truthy when present and non-zero. */
  predicate TruthyInt(o: Option<int>) {
    o.Some? && o.value != 0
  }

  /** `field || fallback` on an optional string. */
  function StrOr(o: Option<string>, fallback: string): (r: string)
    ensures TruthyStr(o) ==> r == o.value
    ensures !TruthyStr(o) ==> r == fallback
    ensures fallback != "" ==> r != ""
  {
    if TruthyStr(o) then o.value else fallback
  }

  /** `field ? field : fallback` on an optional number. */
  function IntOr(o: Option<int>, fallback: int): (r: int)
    ensures TruthyInt(o) ==> r == o.value
    ensures !TruthyInt(o) ==> r == fallback
    ensures fallback != 0 ==> r != 0
  {
    if TruthyInt(o) then o.value else fallback
  }
}
