/** The JavaScript values the client's logic inspects, with the coercions it relies on:
    truthiness (`if (x)`, `a || b`), `Number(x)` and `x.toString()`. */
module JsValues {
  import opened Wrappers
  import opened Numerals

  /** An answer, option value or point value as it arrives from the backend or the UI.
      `NaN` is not a member: no input of the modelled code carries one. */
  datatype Value = Undefined | Null | Num(r: real) | Str(s: string)

  /** An identifier field of a backend record: an integer, a text, or missing. */
  datatype IdField = Missing | NullId | IdNum(n: int) | IdText(t: string)

  predicate Truthy(v: Value) {
    match v
    case Undefined => false
    case Null => false
    case Num(r) => r != 0.0
    case Str(s) => s != ""
  }

  predicate IdTruthy(f: IdField) {
    match f
    case Missing => false
    case NullId => false
    case IdNum(n) => n != 0
    case IdText(t) => t != ""
  }

  /** `String(f)`, as a template literal or `toString` renders the field. */
  function TextOf(f: IdField): string {
    match f
    case Missing => "undefined"
    case NullId => "null"
    case IdNum(n) => IntToString(n)
    case IdText(t) => t
  }

  /** `Number(v)`; `None` is NaN. */
  function ToNumber(v: Value): (r: Option<real>)
    ensures v.Num? ==> r == Some(v.r)
    ensures v.Undefined? ==> r == None
    ensures v.Null? ==> r == Some(0.0)
  {
    match v
    case Undefined => None
    case Null => Some(0.0)
    case Num(x) => Some(x)
    case Str(s) => DecimalNumber(s)
  }

  /** `Number(v) || 0`: NaN and 0 both give 0. */
  function NumberOrZero(v: Value): (r: real)
    ensures ToNumber(v).None? ==> r == 0.0
    ensures ToNumber(v).Some? ==> r == ToNumber(v).value
  {
    match ToNumber(v)
    case Some(x) => x
    case None => 0.0
  }

  /** `a.toString() === b.toString()`: `None` when `toString` throws (on
      `undefined` or `null`, the left operand being evaluated first); a number's
      text is its canonical decimal numeral. */
  function SameText(a: Value, b: Value): (r: Option<bool>)
    ensures r.None? <==> a.Undefined? || a.Null? || b.Undefined? || b.Null?
    ensures r == Some(true) && a.Num? && b.Num? ==> a == b
    ensures r == Some(true) && a.Str? && b.Str? ==> a == b
  {
    match (a, b)
    case (Undefined, _) => None
    case (Null, _) => None
    case (_, Undefined) => None
    case (_, Null) => None
    case (Num(x), Num(y)) => Some(x == y)
    case (Str(s), Str(t)) => Some(s == t)
    case (Num(x), Str(t)) => Some(CanonicalNumeral(t) && DecimalNumber(t) == Some(x))
    case (Str(s), Num(y)) => Some(CanonicalNumeral(s) && DecimalNumber(s) == Some(y))
  }

  /** An integer and its decimal text have the same text. */
  lemma SameTextIntegerAndNumeral(n: int)
    ensures SameText(Num(n as real), Str(IntToString(n))) == Some(true)
    ensures SameText(Str(IntToString(n)), Num(n as real)) == Some(true)
  {
    IntToStringNumeral(n);
  }
}
