// Facts about exact ratios, used where the source divides counts to get a
// percentage. Each lemma keeps one nonlinear step away from the proofs that use it.
module Ratios {
  /** Dividing by a positive whole keeps `c`'s position against 0 and the whole, and hits 0 and 1 exactly at the ends. */
  lemma UnitShare(c: real, n: real)
    requires 0.0 < n
    ensures 0.0 <= c ==> 0.0 <= c / n
    ensures c <= n ==> c / n <= 1.0
    ensures c / n == 1.0 <==> c == n
    ensures c / n == 0.0 <==> c == 0.0
  {
  }

  /** Converting a product of integers to a real is the product of the converted factors. */
  lemma ProductAsReal(a: int, b: int)
    ensures (a * b) as real == (a as real) * (b as real)
  {
  }

  /** Bounds on `b` against multiples of a positive `n` become bounds on `b / n`. */
  lemma BetweenOverN(lo: real, hi: real, b: real, n: real)
    requires 0.0 < n && lo * n <= b < hi * n
    ensures lo <= b / n < hi
  {
  }

  /** Twice a percentage `s / n * 100` is `200 * s / n`. */
  lemma TwicePercent(s: real, n: real)
    requires 0.0 < n
    ensures 2.0 * ((s / n) * 100.0) == (200.0 * s) / n
  {
  }
}
