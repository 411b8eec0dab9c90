/** The JavaScript values the application reads out of provider payloads
    and its result record, with the three JavaScript tests the code applies
    to them: loose `== null`, truthiness, and the string conversion that
    `Array.prototype.join` performs. */
module Values {
  import Text

  /** A scalar JSON-ish value. `Undefined` is what reading an absent
      property gives. Numbers are integer-valued. */
  datatype Value =
    | Undefined
    | Null
    | Bool(b: bool)
    | Num(n: int)
    | Str(s: string)

  /** A JSON object: property name to value. */
  type Record = map<string, Value>

  /** Property access `o[k]`: an absent property reads as `undefined`. */
  function Get(o: Record, k: string): (v: Value)
    ensures k !in o ==> v == Undefined
    ensures k in o ==> v == o[k]
  {
    if k in o then o[k] else Undefined
  }

  /** `v == null` with JavaScript's loose equality: true of `null` and
      `undefined` only. */
  predicate Nullish(v: Value) {
    v.Undefined? || v.Null?
  }

  /** The JavaScript falsy values among those modelled. */
  predicate Falsy(v: Value) {
    match v
    case Undefined => true
    case Null => true
    case Bool(b) => !b
    case Num(n) => n == 0
    case Str(s) => s == ""
  }

  /** The string an array element becomes in `Array.prototype.join`:
      `null` and `undefined` become the empty string, everything else its
      `String(...)` conversion. */
  function JoinText(v: Value): (t: string)
    ensures Nullish(v) ==> t == ""
    ensures v.Str? ==> t == v.s
    ensures v.Bool? ==> t == (if v.b then "true" else "false")
    ensures v.Num? ==> Text.IsCanonicalNumeral(t) && Text.NumeralValue(t) == v.n
    ensures v.Num? && v.n >= 0 ==> Text.AllDigits(t) && Text.DecimalValue(t) == v.n
  {
    match v
    case Undefined => ""
    case Null => ""
    case Bool(b) => if b then "true" else "false"
    case Num(n) => Text.IntToDecimal(n)
    case Str(s) => s
  }
}
