/** Facts about integers that several engines use. */
module Integers {
  function Max(a: int, b: int): int {
    if a < b then b else a
  }

  /** Multiplying by a number that is not negative keeps the order. */
  lemma MulAtLeast(a: int, b: int, m: int)
    requires a <= b && 0 <= m
    ensures a * m <= b * m
  {
  }
}
