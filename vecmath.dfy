/**
 * The 2D vector value type of the library (vecmath.go). Every operation takes
 * its receiver by value and returns a fresh vector or scalar, so the module is
 * pure functions over a datatype. Components are float64 in the library and
 * `real` here. The y-axis grows downwards (screen coordinates).
 *
 * Dafny's `real` has no square root, so the operations that use Go's
 * `math.Sqrt` take it as a parameter `sqrt`, and their contracts assume only `IsSqrt(sqrt)`: it
 * returns the exact non-negative square root of every non-negative real.
 */
module Vecmath {
  import Maths
  import Reals

  /** What the model assumes of `math.Sqrt`. */
  ghost predicate IsSqrt(sqrt: real -> real)
  {
    forall a :: 0.0 <= a ==> 0.0 <= sqrt(a) && sqrt(a) * sqrt(a) == a
  }

  datatype Vec2 = Vec2(x: real, y: real) {

    /** A copy of the vector; a value type, so the copy is the vector itself. */
    function Clone(): (r: Vec2)
      ensures r == this && r.Equals(this)
    {
      this
    }

    /** Exact component-wise equality, which is equality of the values. */
    function Equals(other: Vec2): (r: bool)
      ensures r <==> this == other
    {
      x == other.x && y == other.y
    }

    /** Scalar product; its laws are the lemmas `DotProductSymmetric`, `SelfDotProduct` and `DotProductMult`. */
    function DotProduct(w: Vec2): (r: real)
    {
      x * w.x + y * w.y
    }

    /** Component-wise difference; it is the zero vector exactly when both are equal. */
    function Sub(w: Vec2): (r: Vec2)
      ensures r == ZERO() <==> this == w
    {
      Vec2(x - w.x, y - w.y)
    }

    /** Component-wise sum; subtracting `w` again undoes it, and `ZERO` changes nothing. */
    function Add(w: Vec2): (r: Vec2)
      ensures r.Sub(w) == this
      ensures w == ZERO() ==> r == this
    {
      Vec2(x + w.x, y + w.y)
    }

    /** Subtracts `s` from both components: the same as subtracting the vector (s, s). */
    function SubScalar(s: real): (r: Vec2)
      ensures r == this.Sub(Vec2(s, s))
    {
      Vec2(x - s, y - s)
    }

    /** Adds `s` to both components; subtracting `s` again undoes it. */
    function AddScalar(s: real): (r: Vec2)
      ensures r == this.Add(Vec2(s, s))
      ensures r.SubScalar(s) == this
    {
      Vec2(x + s, y + s)
    }

    /** The opposite vector (a half turn): it cancels the vector under `Add`. */
    function Neg(): (r: Vec2)
      ensures this.Add(r) == ZERO()
      ensures r == ZERO().Sub(this)
    {
      Vec2(-1.0 * x, -1.0 * y)
    }

    /** Scales both components by `s`. */
    function Mult(s: real): (r: Vec2)
      ensures s == 1.0 ==> r == this
      ensures s == 0.0 ==> r == ZERO()
      ensures this == ZERO() ==> r == ZERO()
    {
      Vec2(x * s, y * s)
    }

    /**
     * Divides both components by `s`; undone by `Mult(s)`. The library does
     * not guard a zero divisor (it yields infinities); here it is excluded.
     */
    function Div(s: real): (r: Vec2)
      requires s != 0.0
      ensures r.Mult(s) == this
    {
      Vec2(x / s, y / s)
    }

    /** The Euclidean norm: the non-negative root of the vector's product with itself. */
    function Length(sqrt: real -> real): (r: real)
      requires IsSqrt(sqrt)
      ensures 0.0 <= r && r * r == this.DotProduct(this)
      ensures this == ZERO() ==> r == 0.0
      ensures this != ZERO() ==> 0.0 < r
    {
      var d := DotProduct(this);
      SelfDotProduct(this);
      Reals.RootZero(sqrt(d), d);
      sqrt(d)
    }

    /**
     * The unit vector in this vector's direction. A vector of length zero is
     * returned unchanged instead of being divided by zero.
     */
    function Normalize(sqrt: real -> real): (r: Vec2)
      requires IsSqrt(sqrt)
      ensures this == ZERO() ==> r == ZERO()
      ensures this != ZERO() ==> r.Mult(this.Length(sqrt)) == this
    {
      var length := Length(sqrt);
      if length == 0.0 then this else Div(length)
    }

    /** The distance to `w`: the length of `w - this`. */
    function Distance(w: Vec2, sqrt: real -> real): (r: real)
      requires IsSqrt(sqrt)
      ensures 0.0 <= r && r * r == this.DistanceSq(w)
      ensures this.Equals(w) ==> r == 0.0
      ensures !this.Equals(w) ==> 0.0 < r
    {
      w.Sub(this).Length(sqrt)
    }

    /** The squared distance to `w`, computed without a square root. */
    function DistanceSq(w: Vec2): (r: real)
      ensures r == w.Sub(this).DotProduct(w.Sub(this))
      ensures 0.0 <= r
      ensures this.Equals(w) ==> r == 0.0
      ensures !this.Equals(w) ==> r != 0.0
    {
      var dx := w.x - x;
      var dy := w.y - y;
      Reals.SumOfSquares(dx, dy);
      dx * dx + dy * dy
    }

    /**
     * The vector rescaled to `length`: `Normalize` then `Mult`. A zero vector
     * stays zero; a vector that already has that length is unchanged.
     */
    function SetMag(length: real, sqrt: real -> real): (r: Vec2)
      requires IsSqrt(sqrt)
      ensures this == ZERO() ==> r == ZERO()
      ensures this != ZERO() && length == this.Length(sqrt) ==> r == this
    {
      var v := Normalize(sqrt);
      v.Mult(length)
    }

    /** Component-wise scalar interpolation from this vector (t = 0) to `other` (t = 1). */
    function Lerp(other: Vec2, t: real): (r: Vec2)
      ensures r.x == Maths.Lerp(x, other.x, t) && r.y == Maths.Lerp(y, other.y, t)
      ensures t == 0.0 ==> r == this
      ensures t == 1.0 ==> r == other
      ensures other == this ==> r == this
    {
      var nwX := x + t * (other.x - x);
      var nwY := y + t * (other.y - y);
      Vec2(nwX, nwY)
    }

    /**
     * Rescales the vector to its current length clamped to [min, max]. A zero
     * vector stays zero; a vector whose length is in range is unchanged.
     */
    function LimitMag(min: real, max: real, sqrt: real -> real): (r: Vec2)
      requires IsSqrt(sqrt)
      ensures this == ZERO() ==> r == ZERO()
      ensures this != ZERO() && min <= this.Length(sqrt) <= max ==> r == this
    {
      var clamped := Maths.Clamp(Length(sqrt), min, max);
      SetMag(clamped, sqrt)
    }
  }

  /** Builds a vector from its components. */
  function NewVector(x: real, y: real): (r: Vec2)
    ensures r.x == x && r.y == y
  {
    Vec2(x, y)
  }

  /** The zero vector (0, 0). */
  function ZERO(): (r: Vec2)
    ensures r.x == 0.0 && r.y == 0.0
  {
    NewVector(0.0, 0.0)
  }

  /** (0, 1): pointing down the screen. */
  function DOWN(): (r: Vec2)
    ensures r.x == 0.0 && r.y == 1.0
  {
    NewVector(0.0, 1.0)
  }

  /** (0, -1): the opposite of `DOWN`. */
  function UP(): (r: Vec2)
    ensures r == DOWN().Neg()
  {
    NewVector(0.0, -1.0)
  }

  /** (1, 0): pointing right. */
  function RIGHT(): (r: Vec2)
    ensures r.x == 1.0 && r.y == 0.0
  {
    NewVector(1.0, 0.0)
  }

  /** (-1, 0): the opposite of `RIGHT`. */
  function LEFT(): (r: Vec2)
    ensures r == RIGHT().Neg()
  {
    NewVector(-1.0, 0.0)
  }

  // ---------------------------------------------------------------------------
  // Algebraic laws

  /** `ZERO` is the identity of `Add` and `Sub`, fixed by `Neg`, and orthogonal to everything. */
  lemma ZeroLaws(v: Vec2)
    ensures v.Add(ZERO()) == v && v.Sub(ZERO()) == v
    ensures ZERO().Neg() == ZERO()
    ensures v.DotProduct(ZERO()) == 0.0
  {
    var z := ZERO();
    assert z == Vec2(0.0, 0.0);
    assert v.Add(z) == Vec2(v.x + 0.0, v.y + 0.0);
    assert v.Sub(z) == Vec2(v.x - 0.0, v.y - 0.0);
  }

  /** Scaling by -1 is negation. */
  lemma MultNeg(v: Vec2)
    ensures v.Mult(-1.0) == v.Neg()
  {
  }

  lemma AddCommutative(v: Vec2, w: Vec2)
    ensures v.Add(w) == w.Add(v)
  {
  }

  lemma NegInvolution(v: Vec2)
    ensures v.Neg().Neg() == v
    ensures v.Add(v.Neg()) == ZERO()
  {
  }

  lemma DotProductSymmetric(v: Vec2, w: Vec2)
    ensures v.DotProduct(w) == w.DotProduct(v)
  {
  }

  /** A vector's product with itself is non-negative, and zero only for the zero vector. */
  lemma SelfDotProduct(v: Vec2)
    ensures 0.0 <= v.DotProduct(v)
    ensures v == ZERO() ==> v.DotProduct(v) == 0.0
    ensures v != ZERO() ==> 0.0 < v.DotProduct(v)
  {
    Reals.SumOfSquares(v.x, v.y);
  }

  /** Scaling both arguments scales the scalar product by the product of the factors. */
  lemma DotProductMult(v: Vec2, w: Vec2, s: real, t: real)
    ensures v.Mult(s).DotProduct(w.Mult(t)) == (s * t) * v.DotProduct(w)
  {
  }

  lemma DistanceSqSymmetric(v: Vec2, w: Vec2)
    ensures v.DistanceSq(w) == w.DistanceSq(v)
  {
    Reals.SquareOfDifference(w.x, v.x);
    Reals.SquareOfDifference(w.y, v.y);
  }

  lemma DistanceSymmetric(v: Vec2, w: Vec2, sqrt: real -> real)
    requires IsSqrt(sqrt)
    ensures v.Distance(w, sqrt) == w.Distance(v, sqrt)
  {
    DistanceSqSymmetric(v, w);
  }

  /** Two vectors are parallel when their cross product is zero. */
  predicate Parallel(a: Vec2, b: Vec2)
  {
    a.x * b.y == a.y * b.x
  }

  // ---------------------------------------------------------------------------
  // The magnitude chain: Length, Normalize, SetMag, LimitMag

  /** A vector whose product with itself is m * m, for m >= 0, has length m. */
  lemma LengthFromSquare(v: Vec2, m: real, sqrt: real -> real)
    requires IsSqrt(sqrt) && 0.0 <= m && v.DotProduct(v) == m * m
    ensures v.Length(sqrt) == m
  {
    Reals.RootUnique(v.Length(sqrt), m);
  }

  /** A non-zero vector normalizes to a vector of length one. */
  lemma NormalizeUnit(v: Vec2, sqrt: real -> real)
    requires IsSqrt(sqrt) && v != ZERO()
    ensures v.Normalize(sqrt).DotProduct(v.Normalize(sqrt)) == 1.0
    ensures v.Normalize(sqrt).Length(sqrt) == 1.0
  {
    var l := v.Length(sqrt);
    Reals.UnitScale(v.x, v.y, l);
    Reals.RootUnique(v.Normalize(sqrt).Length(sqrt), 1.0);
  }

  /** Normalizing twice is normalizing once. */
  lemma NormalizeIdempotent(v: Vec2, sqrt: real -> real)
    requires IsSqrt(sqrt)
    ensures v.Normalize(sqrt).Normalize(sqrt) == v.Normalize(sqrt)
  {
    if v != ZERO() {
      var n := v.Normalize(sqrt);
      NormalizeUnit(v, sqrt);
      assert n.Div(1.0) == n;
    }
  }

  /** `SetMag(length)` gives a non-zero vector the length |length|. */
  lemma SetMagLength(v: Vec2, length: real, sqrt: real -> real)
    requires IsSqrt(sqrt) && v != ZERO()
    ensures v.SetMag(length, sqrt).DotProduct(v.SetMag(length, sqrt)) == length * length
    ensures v.SetMag(length, sqrt).Length(sqrt) == if length < 0.0 then -length else length
  {
    var n := v.Normalize(sqrt);
    NormalizeUnit(v, sqrt);
    var r := v.SetMag(length, sqrt);
    assert r == n.Mult(length);
    DotProductMult(n, n, length, length);
    assert r.DotProduct(r) == length * length;
    if length < 0.0 {
      assert (-length) * (-length) == length * length;
      LengthFromSquare(r, -length, sqrt);
    } else {
      LengthFromSquare(r, length, sqrt);
    }
  }

  /**
   * `SetMag` keeps the direction: the result is parallel to the vector, and
   * its scalar product with the vector is `length` times the vector's length,
   * so it points the same way when `length` is positive.
   */
  lemma SetMagDirection(v: Vec2, length: real, sqrt: real -> real)
    requires IsSqrt(sqrt) && v != ZERO()
    ensures Parallel(v.SetMag(length, sqrt), v)
    ensures v.SetMag(length, sqrt).DotProduct(v) == length * v.Length(sqrt)
  {
    var l := v.Length(sqrt);
    Reals.ScaledParallel(v.x, v.y, l, length);
    Reals.ScaledDot(v.x, v.y, l, length);
  }

  /**
   * As long as one bound is non-negative, `LimitMag` gives a non-zero vector
   * the length of its current length clamped to [min, max] (in [min, max]
   * when min <= max) and never reverses it: the result is parallel with a
   * non-negative scalar product, and it collapses to `ZERO` when the
   * clamped length is zero.
   */
  lemma LimitMagLength(v: Vec2, min: real, max: real, sqrt: real -> real)
    requires IsSqrt(sqrt) && v != ZERO() && (0.0 <= min || 0.0 <= max)
    ensures v.LimitMag(min, max, sqrt).Length(sqrt) == Maths.Clamp(v.Length(sqrt), min, max)
    ensures min <= max ==> min <= v.LimitMag(min, max, sqrt).Length(sqrt) <= max
    ensures Parallel(v.LimitMag(min, max, sqrt), v)
    ensures v.LimitMag(min, max, sqrt).DotProduct(v)
         == Maths.Clamp(v.Length(sqrt), min, max) * v.Length(sqrt)
    ensures 0.0 <= v.LimitMag(min, max, sqrt).DotProduct(v)
    ensures Maths.Clamp(v.Length(sqrt), min, max) == 0.0 ==> v.LimitMag(min, max, sqrt) == ZERO()
  {
    var l := v.Length(sqrt);
    var c := Maths.Clamp(l, min, max);
    var r := v.LimitMag(min, max, sqrt);
    assert r == v.SetMag(c, sqrt);
    assert 0.0 <= c by {
      if min < 0.0 {
        assert 0.0 <= Maths.Min(l, max);
      }
    }
    SetMagLength(v, c, sqrt);
    SetMagDirection(v, c, sqrt);
    Reals.ProductSign(c, l);
  }

  /**
   * With both bounds negative (in either order) the clamped length is
   * negative, and `SetMag` then reverses the vector: its length is minus the
   * clamped length (-max, or -min when the bounds are inverted) and it points
   * away from the original.
   */
  lemma LimitMagNegativeBounds(v: Vec2, min: real, max: real, sqrt: real -> real)
    requires IsSqrt(sqrt) && v != ZERO() && min < 0.0 && max < 0.0
    ensures v.LimitMag(min, max, sqrt).Length(sqrt) == -Maths.Clamp(v.Length(sqrt), min, max)
    ensures min <= max ==> v.LimitMag(min, max, sqrt).Length(sqrt) == -max
    ensures max < min ==> v.LimitMag(min, max, sqrt).Length(sqrt) == -min
    ensures Parallel(v.LimitMag(min, max, sqrt), v)
    ensures v.LimitMag(min, max, sqrt).DotProduct(v) < 0.0
  {
    var l := v.Length(sqrt);
    var c := Maths.Clamp(l, min, max);
    var r := v.LimitMag(min, max, sqrt);
    assert c < 0.0;
    assert r == v.SetMag(c, sqrt);
    SetMagLength(v, c, sqrt);
    SetMagDirection(v, c, sqrt);
    Reals.NegativeProduct(c, l);
  }

  /** `DOWN` and `RIGHT` are unit vectors: their products with themselves are one. */
  lemma DirectionsUnit()
    ensures DOWN().DotProduct(DOWN()) == 1.0 && RIGHT().DotProduct(RIGHT()) == 1.0
  {
  }

  /** `DOWN` and `RIGHT` are orthogonal. */
  lemma DirectionsOrthogonal()
    ensures RIGHT().DotProduct(DOWN()) == 0.0
  {
  }

  /** Negating `UP` and `LEFT` gives back `DOWN` and `RIGHT`. */
  lemma DirectionsOpposite()
    ensures UP().Neg() == DOWN() && LEFT().Neg() == RIGHT()
  {
  }

  /** Negation keeps the vector's product with itself ... */
  lemma NegDotProduct(v: Vec2)
    ensures v.Neg().DotProduct(v.Neg()) == v.DotProduct(v)
  {
  }

  /** ... and so its length. */
  lemma NegLength(v: Vec2, sqrt: real -> real)
    requires IsSqrt(sqrt)
    ensures v.Neg().Length(sqrt) == v.Length(sqrt)
  {
    NegDotProduct(v);
  }

  /** The square root of one is one. */
  lemma SqrtOne(sqrt: real -> real)
    requires IsSqrt(sqrt)
    ensures sqrt(1.0) == 1.0
  {
    Reals.RootUnique(sqrt(1.0), 1.0);
  }

  /** Each of the four direction vectors has length one. */
  lemma DirectionLengths(sqrt: real -> real)
    requires IsSqrt(sqrt)
    ensures DOWN().Length(sqrt) == 1.0 && UP().Length(sqrt) == 1.0
    ensures RIGHT().Length(sqrt) == 1.0 && LEFT().Length(sqrt) == 1.0
  {
    DirectionsUnit();
    SqrtOne(sqrt);
    NegLength(DOWN(), sqrt);
    NegLength(RIGHT(), sqrt);
  }

  // ---------------------------------------------------------------------------
  // Worked values

  lemma LengthExample(sqrt: real -> real)
    requires IsSqrt(sqrt)
    ensures NewVector(3.0, 4.0).Length(sqrt) == 5.0
  {
    Reals.RootUnique(NewVector(3.0, 4.0).Length(sqrt), 5.0);
  }

  /** (6, 8) has length 10; limited to [0, 5] it becomes (3, 4). */
  lemma LimitMagExample(sqrt: real -> real)
    requires IsSqrt(sqrt)
    ensures NewVector(6.0, 8.0).LimitMag(0.0, 5.0, sqrt) == NewVector(3.0, 4.0)
  {
    var v := NewVector(6.0, 8.0);
    Reals.RootUnique(v.Length(sqrt), 10.0);
    assert v.Normalize(sqrt) == Vec2(0.6, 0.8);
  }
}
