/** Single-precision quotients as the legacy code computes them: a
    positive number divided by zero is positive infinity, which compares
    greater than every finite value. */
module Floats {

  datatype Float = Finite(x: real) | PositiveInfinity {

    /** `this <= bound` for a finite bound. */
    predicate AtMost(bound: real) {
      Finite? && x <= bound
    }
  }

  /** `n / d` for a positive numerator. */
  function Over(n: real, d: real): (q: Float)
    requires n > 0.0
    ensures q.PositiveInfinity? <==> d == 0.0
    ensures q.Finite? ==> q.x * d == n
  {
    if d == 0.0 then PositiveInfinity else Finite(n / d)
  }
}
