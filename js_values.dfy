/** The JavaScript values a terminal preference can hold, with the two
    coercions the preference validator relies on: truthiness (`||`, `if (v)`,
    `!v`) and the numeric conversion behind `value > 5`. */
module JsValues {

  datatype Option<+T> = None | Some(value: T)

  /** A primitive JavaScript value. Numbers are integers here; `===` on these
      primitives coincides with Dafny's structural equality. */
  datatype Value =
    | Undefined
    | Null
    | Bool(b: bool)
    | Num(n: int)
    | Str(s: string)

  /** JavaScript truthiness: `undefined`, `null`, `false`, `0` and `''` are falsy. */
  predicate IsTruthy(v: Value) {
    match v
    case Undefined => false
    case Null => false
    case Bool(b) => b
    case Num(n) => n != 0
    case Str(s) => s != ""
  }

  lemma FalsyValues(v: Value)
    ensures !IsTruthy(v) <==> v in {Undefined, Null, Bool(false), Num(0), Str("")}
  {
  }

  predicate IsDigit(c: char) {
    '0' <= c <= '9'
  }

  predicate AllDigits(s: string) {
    forall i :: 0 <= i < |s| ==> IsDigit(s[i])
  }

  /** The decimal number written by a string of digits. */
  function DigitsValue(s: string): nat
    requires AllDigits(s)
  {
    if s == [] then 0
    else DigitsValue(s[..|s| - 1]) * 10 + (s[|s| - 1] as int - '0' as int)
  }

  /** JavaScript's conversion of a string to a number, for the empty string
      (which is 0) and strings of decimal digits; any other string is `NaN`,
      written None. */
  function StringToNumber(s: string): (r: Option<int>)
    ensures r.Some? <==> AllDigits(s)
    ensures r.Some? ==> r.value >= 0
  {
    if AllDigits(s) then Some(DigitsValue(s)) else None
  }

  /** JavaScript's `ToNumber` on a primitive; None stands for `NaN`. */
  function ToNumber(v: Value): (r: Option<int>)
    ensures v.Num? ==> r == Some(v.n)
    ensures v.Undefined? ==> r.None?
    ensures v == Null || v == Bool(false) ==> r == Some(0)
    ensures v == Bool(true) ==> r == Some(1)
    ensures v.Str? ==> r == StringToNumber(v.s)
  {
    match v
    case Undefined => None
    case Null => Some(0)
    case Bool(b) => Some(if b then 1 else 0)
    case Num(n) => Some(n)
    case Str(s) => StringToNumber(s)
  }

  /** JavaScript's `v > bound` for a number `bound`: false whenever `v`
      converts to `NaN`. */
  predicate Exceeds(v: Value, bound: int): (r: bool)
    ensures v.Num? ==> (r <==> v.n > bound)
    ensures v.Undefined? ==> !r
    ensures r ==> NumericallyAtLeast(v, bound + 1)
    ensures r && bound >= 0 ==> IsTruthy(v)
  {
    var n := ToNumber(v);
    n.Some? && n.value > bound
  }

  /** `v` converts to a number no smaller than `bound`. */
  predicate NumericallyAtLeast(v: Value, bound: int) {
    var n := ToNumber(v);
    n.Some? && n.value >= bound
  }
}
