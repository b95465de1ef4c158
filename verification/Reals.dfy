// Facts about products of reals.
module Reals {

  lemma MulMonotone(a: real, b: real, c: real)
    requires a > 0.0 && b <= c
    ensures a * b <= a * c
  {
  }
}
