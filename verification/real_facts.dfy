/**
  Small facts of real arithmetic with products and quotients, each over
  plain variables, for the models' proofs to instantiate.
 */
module RealFacts {

  /** Multiplying and then dividing by the same non-zero number cancels. */
  lemma CancelFactor(a: real, c: real)
    ensures a != 0.0 ==> (a * c) / a == c
    ensures a != 0.0 ==> (c * a) / a == c
  {
  }

  /** Scaling [-1, 1) by a positive a gives [-a, a). */
  lemma ScaleUnitInterval(a: real, c: real)
    ensures 0.0 < a && -1.0 <= c < 1.0 ==> -a <= a * c < a
  {
  }

  /** Scaling by a positive number keeps the order. */
  lemma ScaleKeepsOrder(a: real, c1: real, c2: real)
    requires 0.0 < a && c1 < c2
    ensures a * c1 < a * c2
  {
  }

  /** A positive p times something above -1 lies above -p. */
  lemma ScaleAboveMinusOne(p: real, x: real)
    ensures 0.0 < p && -1.0 < x ==> -p < p * x
  {
  }

  /** Zero times anything is zero. */
  lemma ZeroFactor(a: real, b: real)
    ensures a == 0.0 ==> a * b == 0.0 && b * a == 0.0
  {
  }

  /** a * b * c == a * (b * c). */
  lemma Associate(a: real, b: real, c: real)
    ensures a * b * c == a * (b * c)
  {
  }

  /** A non-negative numerator over a positive denominator: sign, zero and comparison with 1. */
  lemma QuotientFacts(a: real, b: real)
    requires 0.0 <= a
    ensures 0.0 < b ==> 0.0 <= a / b
    ensures 0.0 < b ==> (a / b == 0.0 <==> a == 0.0)
    ensures 0.0 < b && a <= b ==> a / b <= 1.0
    ensures 0.0 < b && b <= a ==> 1.0 <= a / b
  {
  }
}
