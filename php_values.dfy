/** The few PHP value semantics the configuration form relies on. */
module PhpValues {
  import opened Optional
  import Decimal

  /** A decoded JSON value (floats and objects-with-keys are not distinguished here). */
  datatype Json = JNull | JBool(b: bool) | JInt(i: int) | JStr(s: string) | JArray(items: seq<Json>)

  /** PHP's `empty()` applied to a string: only "" and "0" are empty. */
  predicate IsEmptyString(s: string) {
    s == "" || s == "0"
  }

  /** PHP's `(string)` cast of a decoded JSON value. */
  function ToPhpString(v: Json): (s: string)
    ensures v.JStr? ==> s == v.s
    ensures v.JInt? ==> s == Decimal.IntToString(v.i) && Decimal.Canonical(s) && Decimal.ParseInt(s) == Some(v.i)
    ensures v.JNull? || v == JBool(false) ==> s == ""
    ensures v == JBool(true) ==> s == "1"
    ensures v.JArray? ==> s == "Array"
  {
    match v
    case JNull => ""
    case JBool(b) => if b then "1" else ""
    case JInt(i) => Decimal.ParseIntToString(i); Decimal.IntToString(i)
    case JStr(s) => s
    case JArray(_) => "Array"
  }
}
