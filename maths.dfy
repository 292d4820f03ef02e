/**
 * Scalar helpers of the vector library (maths/maths.go): angle unit
 * conversion, clamping and linear interpolation. Go's float64 is modelled
 * as the ideal `real`, so rounding error, NaN and infinities are not part
 * of this model.
 */
module Maths {
  import Reals

  /** Go's `math.Pi`, which is itself a decimal literal. */
  const PI: real := 3.14159265358979323846264338327950288419716939937510582097494459

  /** `math.Min` on ordinary (non-NaN) operands: the smaller of the two. */
  function Min(a: real, b: real): (r: real)
    ensures r <= a && r <= b
    ensures r == a || r == b
  {
    if a <= b then a else b
  }

  /** `math.Max` on ordinary (non-NaN) operands: the larger of the two. */
  function Max(a: real, b: real): (r: real)
    ensures a <= r && b <= r
    ensures r == a || r == b
  {
    if a <= b then b else a
  }

  /** Degrees to radians. */
  function Rad(deg: real): (r: real)
    ensures deg == 0.0 ==> r == 0.0
    ensures deg == 180.0 ==> r == PI
    ensures deg == 360.0 ==> r == 2.0 * PI
  {
    deg * PI / 180.0
  }

  /** Radians to degrees: the inverse of `Rad`. */
  function Deg(rad: real): (r: real)
    ensures Rad(r) == rad
    ensures rad == PI ==> r == 180.0
  {
    rad * 180.0 / PI
  }

  /** Converting to radians and back gives the original angle. */
  lemma DegOfRad(deg: real)
    ensures Deg(Rad(deg)) == deg
  {
  }

  /**
   * Restricts `val` to `[min, max]`, evaluated as `Max(min, Min(val, max))`:
   * when the bounds are inverted the lower bound wins whatever `val` is.
   */
  function Clamp(val: real, min: real, max: real): (r: real)
    ensures min <= max ==> min <= r <= max
    ensures min <= val <= max ==> r == val
    ensures min <= max && val < min ==> r == min
    ensures min <= max && max < val ==> r == max
    ensures max < min ==> r == min
  {
    Max(min, Min(val, max))
  }

  /** Clamping a value that is already clamped changes nothing. */
  lemma ClampIdempotent(val: real, min: real, max: real)
    ensures Clamp(Clamp(val, min, max), min, max) == Clamp(val, min, max)
  {
  }

  /**
   * Unclamped linear interpolation from `first` (at t = 0) to `second`
   * (at t = 1); values of `t` outside [0, 1] extrapolate.
   */
  function Lerp(first: real, second: real, t: real): (r: real)
    ensures t == 0.0 ==> r == first
    ensures t == 1.0 ==> r == second
    ensures first == second ==> r == first
  {
    first + t * (second - first)
  }

  /** For t in [0, 1] the interpolated value lies between the two endpoints. */
  lemma LerpBetween(first: real, second: real, t: real)
    requires 0.0 <= t <= 1.0
    ensures Min(first, second) <= Lerp(first, second, t) <= Max(first, second)
  {
    var d := second - first;
    Reals.ProductSign(t, d);
    Reals.ProductSign(1.0 - t, d);
    assert d - t * d == (1.0 - t) * d;
  }
}
