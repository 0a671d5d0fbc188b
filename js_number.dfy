/** The few ECMAScript number operations the library relies on, for finite
    numbers (modelled as `real`). */
module JsNumber {

  /** `Number.isInteger(x)` for a finite x. */
  predicate IsInteger(x: real) {
    x.Floor as real == x
  }

  /** The abstract operation ToIntegerOrInfinity on a finite number:
      truncation toward zero (so -0.5 becomes 0). */
  function Trunc(x: real): (n: int)
    ensures -1.0 < x - n as real < 1.0
    ensures x >= 0.0 ==> 0 <= n && n as real <= x
    ensures x < 0.0 ==> n <= 0 && x <= n as real
  {
    if x >= 0.0 then x.Floor else -((-x).Floor)
  }

  /** The abstract operation ToLength on a finite number, without its upper
      clamp at 2^53 - 1. */
  function ToLength(x: real): nat
  {
    if Trunc(x) < 0 then 0 else Trunc(x)
  }
}
