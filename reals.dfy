/**
 * Facts about real arithmetic used by the vector proofs. Each is stated over
 * plain reals so that the vector lemmas can instantiate it; squares are
 * handled through these lemmas rather than left to the solver.
 */
module Reals {

  lemma NonNegSquare(a: real)
    ensures 0.0 <= a * a
  {
  }

  /** The sign of a product whose first factor is non-negative follows the second factor. */
  lemma ProductSign(a: real, b: real)
    requires 0.0 <= a
    ensures 0.0 <= b ==> 0.0 <= a * b
    ensures b <= 0.0 ==> a * b <= 0.0
  {
  }

  /** A negative number times a positive one is negative. */
  lemma NegativeProduct(a: real, b: real)
    requires a < 0.0 < b
    ensures a * b < 0.0
  {
    ProductSign(b, a);
    if a * b == 0.0 {
      ProductZero(a, b);
    }
  }

  /** A product is zero only if one of its factors is. */
  lemma ProductZero(p: real, q: real)
    requires p * q == 0.0
    ensures p == 0.0 || q == 0.0
  {
    if p != 0.0 {
      assert q == (p * q) / p;
    }
  }

  /** A sum of two squares is non-negative, and zero only when both terms are zero. */
  lemma SumOfSquares(a: real, b: real)
    ensures 0.0 <= a * a + b * b
    ensures a * a + b * b == 0.0 ==> a == 0.0 && b == 0.0
  {
    NonNegSquare(a);
    NonNegSquare(b);
    if a * a + b * b == 0.0 {
      assert a * a == 0.0;
      assert b * b == 0.0;
      ProductZero(a, a);
      ProductZero(b, b);
    }
  }

  /** A root of `d` is zero exactly when `d` is. */
  lemma RootZero(r: real, d: real)
    requires r * r == d
    ensures d == 0.0 <==> r == 0.0
  {
    if d == 0.0 {
      ProductZero(r, r);
    }
  }

  /** Two non-negative reals with the same square are equal. */
  lemma RootUnique(r: real, s: real)
    requires 0.0 <= r && 0.0 <= s && r * r == s * s
    ensures r == s
  {
    assert (r - s) * (r + s) == r * r - s * s;
    if r + s != 0.0 {
      ProductZero(r - s, r + s);
    }
  }

  /** A difference squared does not depend on the order of the operands. */
  lemma SquareOfDifference(a: real, b: real)
    ensures (a - b) * (a - b) == (b - a) * (b - a)
  {
  }

  /** Dividing both coordinates by a root of their squared norm gives squared norm one. */
  lemma UnitScale(x: real, y: real, l: real)
    requires l != 0.0 && l * l == x * x + y * y
    ensures (x / l) * (x / l) + (y / l) * (y / l) == 1.0
  {
    var i := 1.0 / l;
    assert i * l == 1.0;
    assert x / l == x * i;
    assert y / l == y * i;
    assert (x * i) * (x * i) + (y * i) * (y * i) == (x * x + y * y) * (i * i);
    assert (l * l) * (i * i) == (l * i) * (l * i);
  }

  /** Scaling both coordinates by the same factor keeps them proportional. */
  lemma ScaledParallel(x: real, y: real, l: real, m: real)
    requires l != 0.0
    ensures ((x / l) * m) * y == ((y / l) * m) * x
  {
    var i := 1.0 / l;
    assert x / l == x * i;
    assert y / l == y * i;
  }

  /** The scalar product of (x, y) scaled by m / l with (x, y), when l is its norm. */
  lemma ScaledDot(x: real, y: real, l: real, m: real)
    requires l != 0.0 && l * l == x * x + y * y
    ensures ((x / l) * m) * x + ((y / l) * m) * y == m * l
  {
    var i := 1.0 / l;
    assert i * l == 1.0;
    assert x / l == x * i;
    assert y / l == y * i;
    assert (x * i * m) * x + (y * i * m) * y == (x * x + y * y) * i * m;
    assert (l * l) * i * m == l * (l * i) * m;
  }
}
