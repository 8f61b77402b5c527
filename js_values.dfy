/**
 * The JavaScript values a handler reads out of a parsed JSON request body,
 * and the two JavaScript operators the handlers apply to them: truthiness
 * (`!x`) and the short-circuit `x || y`.
 */
module JsValues {

  /** A value as the handlers see it. A key missing from the body reads as
      `Undefined`; `Date` is a `new Date()` object, carrying its instant. */
  datatype Value =
    | Undefined
    | Null
    | Bool(b: bool)
    | Int(n: int)
    | Str(s: string)
    | Date(millis: int)

  /** JavaScript's falsy values among those above: undefined, null, false,
      0 and the empty string. Every object, a Date included, is truthy. */
  predicate IsFalsy(v: Value)
    ensures IsFalsy(v) <==> v in {Undefined, Null, Bool(false), Int(0), Str("")}
  {
    match v
    case Undefined => true
    case Null => true
    case Bool(b) => !b
    case Int(n) => n == 0
    case Str(s) => s == ""
    case Date(_) => false
  }

  /** `a || b`: the left operand when it is truthy, the right one otherwise. */
  function Or(a: Value, b: Value): (r: Value)
    ensures !IsFalsy(a) ==> r == a
    ensures IsFalsy(a) ==> r == b
  {
    if IsFalsy(a) then b else a
  }

  /** `v || null`, the normalisation the handlers apply to optional fields:
      null exactly when `v` is falsy, `v` itself otherwise. */
  function OrNull(v: Value): (r: Value)
    ensures r == Null <==> IsFalsy(v)
    ensures !IsFalsy(v) ==> r == v
    ensures r == Null || !IsFalsy(r)
  {
    Or(v, Null)
  }

  /** Both zeroes of the model are falsy, but the string "0" is not:
      `0 || null` is null while `"0" || null` is "0". */
  lemma ZeroIsFalsyButStringZeroIsNot()
    ensures OrNull(Int(0)) == Null && OrNull(Str("")) == Null
    ensures OrNull(Str("0")) == Str("0")
  {
  }
}
