/** Products that the solver needs to be told about. */
module Arithmetic {
  lemma TimesMonotone(a: int, b: int, k: int)
    requires a <= b && k >= 0
    ensures a * k <= b * k
  {
  }
}
