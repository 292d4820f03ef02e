# vecmath in Dafny

A model of the Go library `vecmath`. It has two parts:

- the scalar helpers of package `maths`: degree/radian conversion, clamping and linear interpolation;
- the immutable 2D vector type `Vec2` with its algebra. That covers sums and differences, scaling, the scalar product, length and normalization, distances, rescaling to a given magnitude, interpolation, and the named direction vectors. The y-axis grows downwards, as on a screen.

Every Go operation takes its receiver by value and returns a new value, so the model is pure:

- `datatype Vec2` has member functions;
- the free functions `NewVector`, `ZERO`, `UP`, `DOWN`, `LEFT` and `RIGHT` sit in module `Vecmath`;
- the scalar helpers are in module `Maths`;
- module `Reals` holds a few facts about real arithmetic, such as products, squares and roots, that the vector proofs use.

Go's `float64` is modelled as the ideal `real`. `math.Pi` is its decimal literal. Dafny's `real` has no square root, so `Length` and the operations built on it take Go's `math.Sqrt` as a parameter `sqrt`. Their contracts assume only `Vecmath.IsSqrt(sqrt)`: `sqrt` returns the exact non-negative square root of every non-negative real.

One might expect `LimitMag` to keep the direction. The code does not reverse the vector as long as at least one bound is non-negative. Even then, the vector collapses to `ZERO` when the clamped length is zero, for example with `max == 0`. With both bounds negative, in either order, `Clamp` returns a negative length. `SetMag` then scales the unit vector by it, which reverses the vector. The model follows the code: `LimitMagLength` states the first cases and `LimitMagNegativeBounds` the reversal.

## Model

| member | source | states |
|---|---|---|
| Maths.Min | maths/maths.go:19 | `math.Min` on ordinary operands: a lower bound of both arguments that is one of them |
| Maths.Max | maths/maths.go:19 | `math.Max` on ordinary operands: an upper bound of both arguments that is one of them |
| Maths.PI | maths/maths.go:9-14 | Go's `math.Pi`, written as its decimal literal (used by `Rad` and `Deg`) |
| Maths.Rad | maths/maths.go:8-10 | 0° is 0 rad, 180° is π, 360° is 2π |
| Maths.Deg | maths/maths.go:13-15 | `Rad` undoes `Deg` exactly; π rad is 180° |
| Maths.DegOfRad | maths/maths.go:8-15 | `Deg` undoes `Rad` exactly (degree/radian round trip) |
| Maths.Clamp | maths/maths.go:18-20 | with min <= max the result lies in [min, max]; it is the value itself when the value is in range, min below the range, max above it; with inverted bounds min wins |
| Maths.ClampIdempotent | maths/maths.go:18-20 | clamping an already clamped value changes nothing |
| Maths.Lerp | maths/maths.go:23-25 | t = 0 gives first, t = 1 gives second, equal endpoints give that endpoint |
| Maths.LerpBetween | maths/maths.go:23-25 | for t in [0, 1] the result lies between the smaller and the larger endpoint |
| Vecmath.NewVector | vecmath.go:17-19 | the vector has exactly the given components |
| Vecmath.Vec2.Clone | vecmath.go:33-35 | the copy is equal, and `Equals`, to the original |
| Vecmath.Vec2.Equals | vecmath.go:38-40 | true exactly when the two vectors are the same value (both directions) |
| Vecmath.Vec2.Add | vecmath.go:53-55 | subtracting the addend again gives back the vector; adding `ZERO` changes nothing |
| Vecmath.AddCommutative | vecmath.go:53-55 | `Add` is commutative |
| Vecmath.Vec2.AddScalar | vecmath.go:58-60 | the same as adding the vector (s, s); `SubScalar(s)` undoes it |
| Vecmath.Vec2.Sub | vecmath.go:63-65 | the difference is `ZERO` exactly when the two vectors are equal (both directions) |
| Vecmath.Vec2.SubScalar | vecmath.go:68-70 | the same as subtracting the vector (s, s) |
| Vecmath.Vec2.DotProduct | vecmath.go:73-75 | `x·w.x + y·w.y`; no contract of its own, its laws are the rows `DotProductSymmetric`, `SelfDotProduct`, `DotProductMult` and `NegDotProduct` |
| Vecmath.DotProductSymmetric | vecmath.go:73-75 | the scalar product is symmetric |
| Vecmath.SelfDotProduct | vecmath.go:73-75 | a vector's scalar product with itself is non-negative, zero for `ZERO` and positive for every other vector |
| Vecmath.DotProductMult | vecmath.go:73-80 | scaling the arguments by s and t scales the scalar product by s·t |
| Vecmath.Vec2.Mult | vecmath.go:78-80 | factor 1 is the identity, 0 gives `ZERO`; `ZERO` stays `ZERO` |
| Vecmath.MultNeg | vecmath.go:78-90 | scaling by -1 is `Neg` |
| Vecmath.Vec2.Div | vecmath.go:83-85 | for a non-zero divisor, `Mult` by the divisor gives back the vector |
| Vecmath.Vec2.Neg | vecmath.go:88-90 | the result cancels the vector under `Add` and equals `ZERO` minus the vector |
| Vecmath.NegInvolution | vecmath.go:88-90 | negating twice gives back the vector |
| Vecmath.NegDotProduct | vecmath.go:73-90 | negation keeps a vector's scalar product with itself |
| Vecmath.NegLength | vecmath.go:88-96 | negation keeps the length |
| Vecmath.ZERO | vecmath.go:135-137 | both components are zero |
| Vecmath.ZeroLaws | vecmath.go:135-137 | `ZERO` is the identity of `Add` and `Sub`, its own negation, and orthogonal to every vector |
| Vecmath.Vec2.Length | vecmath.go:93-96 | the non-negative number whose square is the vector's scalar product with itself; zero exactly for `ZERO`, positive otherwise |
| Vecmath.LengthExample | vecmath.go:93-96 | (3, 4) has length 5 |
| Vecmath.Vec2.Normalize | vecmath.go:99-105 | the zero vector is returned unchanged; any other vector is its normalization scaled back by its length |
| Vecmath.NormalizeUnit | vecmath.go:99-105 | a non-zero vector normalizes to a vector of length 1 |
| Vecmath.NormalizeIdempotent | vecmath.go:99-105 | normalizing twice is normalizing once |
| Vecmath.Vec2.Distance | vecmath.go:108-110 | non-negative and its square is `DistanceSq`; zero when the vectors are `Equals`, positive otherwise |
| Vecmath.DistanceSymmetric | vecmath.go:108-110 | the distance from v to w is the distance from w to v |
| Vecmath.Vec2.DistanceSq | vecmath.go:113-118 | the scalar product of the difference with itself: non-negative, zero when the vectors are `Equals`, non-zero otherwise |
| Vecmath.DistanceSqSymmetric | vecmath.go:113-118 | the squared distance is symmetric |
| Vecmath.Vec2.SetMag | vecmath.go:121-124 | the zero vector stays zero; a vector that already has the requested length is unchanged |
| Vecmath.SetMagLength | vecmath.go:121-124 | a non-zero vector gets length abs(length), and its scalar product with itself is length² |
| Vecmath.SetMagDirection | vecmath.go:121-124 | the result is parallel to the vector, and its scalar product with the vector is length times the vector's length, so for a positive length it points the same way |
| Vecmath.Vec2.Lerp | vecmath.go:127-132 | each component is the scalar `Lerp` of the components; t = 0 gives the vector, t = 1 gives the other, equal endpoints give that endpoint |
| Vecmath.Vec2.LimitMag | vecmath.go:166-169 | the zero vector stays zero; a vector whose length is already in [min, max] is unchanged |
| Vecmath.LimitMagLength | vecmath.go:166-169 | when at least one bound is non-negative, a non-zero vector's new length is its old length clamped to [min, max] (so it lies in [min, max] when min <= max), and the vector is not reversed: the result is parallel to the vector, its scalar product with the vector is the clamped length times the old length, hence non-negative, and the result is `ZERO` when the clamped length is zero |
| Vecmath.LimitMagNegativeBounds | vecmath.go:166-169 | with both bounds negative, in either order, the result has length minus the clamped length (-max when min <= max, -min when max < min), is parallel to the vector and points the opposite way (negative scalar product) |
| Vecmath.LimitMagExample | vecmath.go:166-169 | (6, 8) limited to [0, 5] becomes (3, 4) |
| Vecmath.DOWN | vecmath.go:145-147 | the components are (0, 1): along the positive y-axis, which points down the screen |
| Vecmath.UP | vecmath.go:140-142 | (0, -1), the negation of `DOWN` |
| Vecmath.RIGHT | vecmath.go:155-157 | the components are (1, 0): along the positive x-axis |
| Vecmath.LEFT | vecmath.go:150-152 | (-1, 0), the negation of `RIGHT` |
| Vecmath.DirectionsUnit | vecmath.go:145-157 | `DOWN` and `RIGHT` each have scalar product one with themselves |
| Vecmath.DirectionsOrthogonal | vecmath.go:145-157 | `RIGHT` and `DOWN` are orthogonal |
| Vecmath.DirectionsOpposite | vecmath.go:140-157 | negating `UP` gives `DOWN` and negating `LEFT` gives `RIGHT` |
| Vecmath.DirectionLengths | vecmath.go:140-157 | all four direction vectors have length one |

## Left out

- FromPolar (vecmath.go:24-29) and Angle (vecmath.go:44-50) are not modelled, because they rely on `math.Cos`, `math.Sin` and `math.Atan2`, which have no counterpart over exact reals.
- Round (vecmath.go:160-163) is not modelled, because it depends on `math.Pow10` and on `math.Round`'s floating-point rounding.
- String (vecmath.go:172-174) is not modelled. It is `fmt` formatting.
- IEEE-754 behaviour is not modelled: rounding error, overflow, underflow, NaN, infinities and signed zero. The exact laws proved here, such as `Deg(Rad(d)) == d`, `Length(Normalize(v)) == 1` and `Div(s).Mult(s) == v`, hold for `float64` only approximately.
- Vecmath.Vec2.Div: requires a non-zero divisor. Division by zero in Go yields infinities or NaN, and `real` has no such values.
- Vecmath.Vec2.Normalize: in the model the guard `length == 0` holds exactly for the zero vector. In `float64` it also holds for tiny non-zero vectors whose squared length underflows to zero, and those are returned unchanged as well. That case is not modelled.
- Vecmath.Vec2.Equals: in the model this is equality of values. In `float64`, NaN components make a vector unequal to itself, and +0 and -0 compare equal. Neither case is modelled.
- Maths.Min, Maths.Max and Maths.Clamp: the NaN and signed-zero special cases of `math.Min` and `math.Max` are not modelled.
- `math.Sqrt` is a parameter of `Length`, `Normalize`, `Distance`, `SetMag` and `LimitMag`. The model assumes it is an exact non-negative square root (`IsSqrt`).
