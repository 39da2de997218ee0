/** The middle of three values. */
module Medians {

  function Min(a: int, b: int): int {
    if a < b then a else b
  }

  function Max(a: int, b: int): int {
    if a > b then a else b
  }

  /** m is one of the three and lies between every two of them. */
  predicate IsMedian(m: int, a: int, b: int, c: int) {
    && (m == a || m == b || m == c)
    && Min(a, b) <= m <= Max(a, b)
    && Min(b, c) <= m <= Max(b, c)
    && Min(a, c) <= m <= Max(a, c)
  }
}
