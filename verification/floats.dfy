/**
  Double-precision values as the analysis script and the sampler see them,
  and the transcendental functions the script calls.

  Arithmetic is exact (reals); what is kept from IEEE-754 is the part the
  programs' behaviour depends on: dividing by zero gives an infinity or NaN
  instead of stopping, and every comparison with NaN is false.
  `sqrt`, `ln` and `atan` are not defined here: they arrive as a record of
  functions, and `SqrtLaw` and `LnLaw` are the only facts the proofs use
  about them.
 */
module Floats {
  import opened Wrappers

  /** A double: finite, an infinity of either sign, or not-a-number. */
  datatype Num = Finite(value: real) | Infinite(negative: bool) | NaN

  /** Python's `math.log` outside its domain raises "math domain error". */
  datatype MathError = LogDomainError

  /** The library functions the script calls, supplied from outside. */
  datatype Transcendentals = Transcendentals(
    sqrt: real -> real,
    ln: real -> real,
    atan: real -> real,
    halfPi: real)

  /** The fact about `sqrt` the proofs rely on: it is the non-negative square root. */
  ghost predicate SqrtLaw(sqrt: real -> real)
  {
    forall x :: 0.0 <= x ==> 0.0 <= sqrt(x) && sqrt(x) * sqrt(x) == x
  }

  /** The fact about `ln` the proofs rely on: ln(1/q) == -ln(q). */
  ghost predicate LnLaw(ln: real -> real)
  {
    forall p, q {:trigger ln(p), ln(q)} :: 0.0 < p && 0.0 < q && p * q == 1.0 ==> ln(p) == -ln(q)
  }

  /** Floating-point `a / b` where a zero divisor is +0.0 (as `x - x` is). */
  function Quotient(a: real, b: real): Num
  {
    if b != 0.0 then Finite(a / b)
    else if a > 0.0 then Infinite(false)
    else if a < 0.0 then Infinite(true)
    else NaN
  }

  /** `0.5 * n`. */
  function Half(n: Num): Num
  {
    match n
    case Finite(v) => Finite(0.5 * v)
    case Infinite(neg) => Infinite(neg)
    case NaN => NaN
  }

  /** `-n`. */
  function Negate(n: Num): Num
  {
    match n
    case Finite(v) => Finite(-v)
    case Infinite(neg) => Infinite(!neg)
    case NaN => NaN
  }

  /** `abs(n) < bound` for a finite bound: false for both infinities and for NaN. */
  predicate AbsBelow(n: Num, bound: real)
  {
    n.Finite? && -bound < n.value < bound
  }

  /** `bound <= n` for a finite bound: true for +inf, false for -inf and NaN. */
  predicate AtLeast(n: Num, bound: real)
  {
    match n
    case Finite(v) => bound <= v
    case Infinite(neg) => !neg
    case NaN => false
  }

  /** `x < n` for a finite x: true for +inf, false for -inf and NaN. */
  predicate Exceeds(n: Num, x: real)
  {
    match n
    case Finite(v) => x < v
    case Infinite(neg) => !neg
    case NaN => false
  }

  /** `n * w` for a finite w: an infinity times zero is NaN. */
  function Scale(n: Num, w: real): Num
  {
    match n
    case Finite(v) => Finite(v * w)
    case Infinite(neg) => if w == 0.0 then NaN else Infinite(if 0.0 < w then neg else !neg)
    case NaN => NaN
  }

  /** Python's `math.log`: domain error at or below zero and at -inf; inf and NaN pass through. */
  function Log(t: Transcendentals, n: Num): Result<Num, MathError>
  {
    match n
    case Finite(x) => if 0.0 < x then Success(Finite(t.ln(x))) else Failure(LogDomainError)
    case Infinite(neg) => if neg then Failure(LogDomainError) else Success(n)
    case NaN => Success(NaN)
  }

  /** Python's single-argument `math.atan`: the infinities map to plus or minus pi/2. */
  function Atan(t: Transcendentals, n: Num): Num
  {
    match n
    case Finite(x) => Finite(t.atan(x))
    case Infinite(neg) => Finite(if neg then -t.halfPi else t.halfPi)
    case NaN => NaN
  }
}
