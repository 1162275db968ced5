/**
  * Facts about `real` arithmetic that the geometry below relies on. Each is stated about named
  * quantities (`p == a * b`) rather than about raw products compared with zero, which keeps the
  * solver's non-linear reasoning small.
  */
module RealArith {

  /** A product of two numbers of the same strict sign is positive. */
  lemma ProductPositive(a: real, b: real, p: real)
    requires p == a * b
    requires (0.0 < a && 0.0 < b) || (a < 0.0 && b < 0.0)
    ensures 0.0 < p
  {
  }

  /** A product of two non-negative numbers is non-negative. */
  lemma ProductNonNegative(a: real, b: real, p: real)
    requires p == a * b
    requires 0.0 <= a && 0.0 <= b
    ensures 0.0 <= p
  {
    if 0.0 < a && 0.0 < b {
      ProductPositive(a, b, p);
    }
  }

  /** A square is non-negative, and positive exactly when the number is not zero. */
  lemma SquareSign(a: real, p: real)
    requires p == a * a
    ensures 0.0 <= p
    ensures 0.0 < p <==> a != 0.0
  {
    if a != 0.0 {
      ProductPositive(a, a, p);
    }
  }

  /** A sum of three squares is non-negative, and positive unless all three numbers are zero. */
  lemma SumOfSquaresSign(a: real, b: real, c: real, s: real)
    requires s == a * a + b * b + c * c
    ensures 0.0 <= s
    ensures 0.0 < s <==> a != 0.0 || b != 0.0 || c != 0.0
  {
    SquareSign(a, a * a);
    SquareSign(b, b * b);
    SquareSign(c, c * c);
  }

  /** A number and its negation have the same square. */
  lemma NegSquare(e: real)
    ensures (-e) * (-e) == e * e
  {
  }

  /** Squaring is strictly increasing on the non-negative numbers. */
  lemma SquareStrictlyIncreasing(a: real, b: real)
    requires 0.0 <= a < b
    ensures a * a < b * b
  {
    var d := b - a;
    assert b * b == a * a + 2.0 * a * d + d * d;
    ProductPositive(d, d, d * d);
  }

  /** A factor that is not zero can be cancelled from both sides of an equation. */
  lemma CancelFactor(a: real, b: real, c: real)
    requires a * c == b * c && c != 0.0
    ensures a == b
  {
    assert (a - b) * c == 0.0;
  }

  /** The product of two numbers in [0, 1] lies in [0, 1]. */
  lemma ProductInUnit(a: real, b: real)
    requires 0.0 <= a <= 1.0 && 0.0 <= b <= 1.0
    ensures 0.0 <= a * b <= 1.0
  {
    var p := a * b;
    if a == 0.0 || b == 0.0 {
      assert p == 0.0;
    } else if a == 1.0 {
      assert p == b;
    } else {
      var q := (1.0 - a) * b;
      ProductPositive(a, b, p);
      ProductPositive(1.0 - a, b, q);
      assert q == b - p;
    }
  }
}
