/**
  * The square root of `f64::sqrt`, over `real`.
  *
  * Dafny cannot exhibit a real square root, so the model takes the square root as a parameter
  * `sqrt: real -> real` and asks of it only what `IsSqrt` says: for every non-negative argument the
  * result is non-negative and squares back to the argument. What it returns for a negative argument
  * (NaN in f64) is left open. The other facts the renderer needs are proved from `IsSqrt` below.
  */
module RealSqrt {
  import opened RealArith

  ghost predicate IsSqrt(sqrt: real -> real) {
    forall x: real :: 0.0 <= x ==> 0.0 <= sqrt(x) && sqrt(x) * sqrt(x) == x
  }

  /** A non-negative number whose square is `x` is the square root of `x`. */
  lemma SqrtUnique(sqrt: real -> real, x: real, y: real)
    requires IsSqrt(sqrt)
    requires 0.0 <= y && y * y == x
    ensures sqrt(x) == y
  {
    var s := sqrt(x);
    if s < y {
      SquareStrictlyIncreasing(s, y);
    } else if y < s {
      SquareStrictlyIncreasing(y, s);
    }
  }

  /** The square root of a number in [0, 1) is below 1. */
  lemma SqrtBelowOne(sqrt: real -> real, x: real)
    requires IsSqrt(sqrt)
    requires 0.0 <= x < 1.0
    ensures 0.0 <= sqrt(x) < 1.0
  {
  }

  /** The square root of `x >= 0` squares back to `x`, and only zero has square root zero. */
  lemma SqrtFacts(sqrt: real -> real, x: real)
    requires IsSqrt(sqrt)
    requires 0.0 <= x
    ensures 0.0 <= sqrt(x) && sqrt(x) * sqrt(x) == x
    ensures 0.0 < sqrt(x) <==> 0.0 < x
  {
    if 0.0 < sqrt(x) {
      ProductPositive(sqrt(x), sqrt(x), x);
    }
  }

  /** Square root is monotone: a larger argument has a square root at least as large. */
  lemma SqrtMonotone(sqrt: real -> real, x: real, y: real)
    requires IsSqrt(sqrt)
    requires 0.0 <= x <= y
    ensures sqrt(x) <= sqrt(y)
  {
    if sqrt(y) < sqrt(x) {
      SquareStrictlyIncreasing(sqrt(y), sqrt(x));
    }
  }
}
