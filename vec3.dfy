/**
  * Three-component vectors over `real` (src/vec3.rs). A `Vec3` is used as a geometric vector, as a
  * point (`Point3`) and as an RGB colour (`Color`).
  */
module Vector {
  import opened Options
  import opened RealArith
  import opened RealSqrt

  datatype Vec3 = Vec3(x: real, y: real, z: real)

  type Point3 = Vec3
  type Color = Vec3

  /** A pixel as written to the image: one integer per channel. */
  datatype Rgb = Rgb(r: int, g: int, b: int)

  /** `Vec3::zeros`; `Vec3::new` is the datatype constructor `Vec3`. */
  const Zeros: Vec3 := Vec3(0.0, 0.0, 0.0)

  /** The fixed threshold of `near_zero`, 1e-8. */
  const NearZeroEpsilon: real := 0.00000001

  // ---------------------------------------------------------------------------------------------
  // Scalar helpers: `f64::min`, `f64::max` and `f64::abs` without NaN.

  function MinOf(a: real, b: real): (r: real)
    ensures r <= a && r <= b
    ensures r == a || r == b
  {
    if a <= b then a else b
  }

  function MaxOf(a: real, b: real): (r: real)
    ensures a <= r && b <= r
    ensures r == a || r == b
  {
    if a >= b then a else b
  }

  function AbsOf(a: real): (r: real)
    ensures 0.0 <= r
    ensures r == a || r == -a
  {
    if a < 0.0 then -a else a
  }

  /** A number divided by its absolute value is its sign. */
  lemma SignByAbs(k: real)
    requires k != 0.0
    ensures k / AbsOf(k) == if 0.0 < k then 1.0 else -1.0
  {
    if k < 0.0 {
      assert k / -k == -(k / k);
    }
  }

  // ---------------------------------------------------------------------------------------------
  // Indexing

  /**
    * `v[idx]`. The source maps 1, 2, 3 to x, y, z and panics on every other index; a panic is
    * modelled as `None`.
    */
  function Index(v: Vec3, idx: nat): (r: Option<real>)
    ensures r.Some? <==> 1 <= idx <= 3
    ensures r.Some? ==> r.value == [v.x, v.y, v.z][idx - 1]
  {
    match idx
    case 1 => Some(v.x)
    case 2 => Some(v.y)
    case 3 => Some(v.z)
    case _ => None
  }

  // ---------------------------------------------------------------------------------------------
  // Operators

  /** `u + v` */
  function Add(u: Vec3, v: Vec3): Vec3 {
    Vec3(u.x + v.x, u.y + v.y, u.z + v.z)
  }

  /** `v + k` for a scalar `k` */
  function AddScalar(v: Vec3, k: real): Vec3 {
    Vec3(v.x + k, v.y + k, v.z + k)
  }

  /** `u - v` */
  function Sub(u: Vec3, v: Vec3): Vec3 {
    Vec3(u.x - v.x, u.y - v.y, u.z - v.z)
  }

  /** `v - k` for a scalar `k` */
  function SubScalar(v: Vec3, k: real): Vec3 {
    Vec3(v.x - k, v.y - k, v.z - k)
  }

  /** `u * v`, componentwise (used to attenuate colours) */
  function Mul(u: Vec3, v: Vec3): Vec3 {
    Vec3(u.x * v.x, u.y * v.y, u.z * v.z)
  }

  /** `v * k` for a scalar `k` (`Mul<f64> for Vec3`) */
  function Scale(v: Vec3, k: real): Vec3 {
    Vec3(v.x * k, v.y * k, v.z * k)
  }

  /** `k * v` for a scalar `k` (`Mul<Vec3> for f64`) */
  function ScalarMul(k: real, v: Vec3): Vec3 {
    Vec3(v.x * k, v.y * k, v.z * k)
  }

  /** `u / v`, componentwise; f64 division by zero (infinity, NaN) is not modelled. */
  function Div(u: Vec3, v: Vec3): Vec3
    requires v.x != 0.0 && v.y != 0.0 && v.z != 0.0
  {
    Vec3(u.x / v.x, u.y / v.y, u.z / v.z)
  }

  /** `v / k` for a scalar `k`; f64 division by zero is not modelled. */
  function DivScalar(v: Vec3, k: real): Vec3
    requires k != 0.0
  {
    Vec3(v.x / k, v.y / k, v.z / k)
  }

  /** `-v` */
  function Neg(v: Vec3): Vec3 {
    Vec3(-v.x, -v.y, -v.z)
  }

  lemma SubIsAddNeg(u: Vec3, v: Vec3)
    ensures Sub(u, v) == Add(u, Neg(v))
    ensures Add(Sub(u, v), v) == u
  {
  }

  lemma ScalarFormsBroadcast(v: Vec3, k: real)
    ensures AddScalar(v, k) == Add(v, Vec3(k, k, k))
    ensures SubScalar(v, k) == Sub(v, Vec3(k, k, k))
    ensures Scale(v, k) == Mul(v, Vec3(k, k, k))
  {
  }

  lemma DivUndoesMul(u: Vec3, v: Vec3)
    requires v.x != 0.0 && v.y != 0.0 && v.z != 0.0
    ensures Mul(Div(u, v), v) == u
    ensures Div(Mul(u, v), v) == u
  {
  }

  lemma DivScalarIsScaleByInverse(v: Vec3, k: real)
    requires k != 0.0
    ensures DivScalar(v, k) == Scale(v, 1.0 / k)
    ensures Scale(DivScalar(v, k), k) == v
  {
  }

  /** Scalar multiplication commutes: `k * v == v * k`. */
  lemma ScalarMulCommutes(k: real, v: Vec3)
    ensures ScalarMul(k, v) == Scale(v, k)
  {
  }

  /** `-v` is `v * -1`. */
  lemma NegIsScaleByMinusOne(v: Vec3)
    ensures Neg(v) == Scale(v, -1.0)
    ensures Neg(Neg(v)) == v
  {
  }

  /**
    * A `Vec3` updated in place through `&mut self`: the receiver of the compound assignments
    * `+=`, `-=`, `*=` and `/=`, each of which leaves the value the matching binary operator gives.
    */
  class MutVec3 {
    var x: real
    var y: real
    var z: real

    constructor (v: Vec3)
      ensures Value() == v
    {
      x, y, z := v.x, v.y, v.z;
    }

    function Value(): Vec3
      reads this
    {
      Vec3(x, y, z)
    }

    /** `self += other` */
    method AddAssign(other: Vec3)
      modifies this
      ensures Value() == Add(old(Value()), other)
    {
      x := x + other.x;
      y := y + other.y;
      z := z + other.z;
    }

    /** `self += k` */
    method AddAssignScalar(k: real)
      modifies this
      ensures Value() == AddScalar(old(Value()), k)
    {
      x := x + k;
      y := y + k;
      z := z + k;
    }

    /** `self -= other` */
    method SubAssign(other: Vec3)
      modifies this
      ensures Value() == Sub(old(Value()), other)
    {
      x := x - other.x;
      y := y - other.y;
      z := z - other.z;
    }

    /** `self -= k` */
    method SubAssignScalar(k: real)
      modifies this
      ensures Value() == SubScalar(old(Value()), k)
    {
      x := x - k;
      y := y - k;
      z := z - k;
    }

    /** `self *= other`, componentwise */
    method MulAssign(other: Vec3)
      modifies this
      ensures Value() == Mul(old(Value()), other)
    {
      x := x * other.x;
      y := y * other.y;
      z := z * other.z;
    }

    /** `self *= k` */
    method MulAssignScalar(k: real)
      modifies this
      ensures Value() == Scale(old(Value()), k)
    {
      x := x * k;
      y := y * k;
      z := z * k;
    }

    /** `self /= other`, componentwise; division by zero is not modelled. */
    method DivAssign(other: Vec3)
      requires other.x != 0.0 && other.y != 0.0 && other.z != 0.0
      modifies this
      ensures Value() == Div(old(Value()), other)
    {
      x := x / other.x;
      y := y / other.y;
      z := z / other.z;
    }

    /** `self /= k`; division by zero is not modelled. */
    method DivAssignScalar(k: real)
      requires k != 0.0
      modifies this
      ensures Value() == DivScalar(old(Value()), k)
    {
      x := x / k;
      y := y / k;
      z := z / k;
    }
  }

  // ---------------------------------------------------------------------------------------------
  // Products and lengths

  /** `v.dot(w)` */
  function Dot(u: Vec3, v: Vec3): real {
    u.x * v.x + u.y * v.y + u.z * v.z
  }

  lemma DotSymmetric(u: Vec3, v: Vec3)
    ensures Dot(u, v) == Dot(v, u)
  {
  }

  /** The dot product is linear in its first argument: `(u - k v) . w == u . w - k (v . w)`. */
  lemma DotSubScaled(u: Vec3, v: Vec3, k: real, w: Vec3)
    ensures Dot(Sub(u, ScalarMul(k, v)), w) == Dot(u, w) - k * Dot(v, w)
  {
  }

  /** `(u + k v) . w == u . w + k (v . w)` */
  lemma DotAddScaled(u: Vec3, v: Vec3, k: real, w: Vec3)
    ensures Dot(Add(u, ScalarMul(k, v)), w) == Dot(u, w) + k * Dot(v, w)
  {
  }

  /** `v.sum()` adds the three components: the dot product with (1, 1, 1). */
  function Sum(v: Vec3): (r: real)
    ensures r == Dot(v, Vec3(1.0, 1.0, 1.0))
  {
    v.x + v.y + v.z
  }

  /** `v.lengthsq()`: the dot product of `v` with itself, zero exactly for the zero vector. */
  function LengthSq(v: Vec3): (r: real)
    ensures r == Dot(v, v)
    ensures 0.0 <= r
    ensures 0.0 < r <==> v != Zeros
  {
    var r := v.x * v.x + v.y * v.y + v.z * v.z;
    SumOfSquaresSign(v.x, v.y, v.z, r);
    ZerosByComponents(v);
    r
  }

  /** A component of a unit vector lies in [-1, 1]. */
  lemma UnitComponentBounded(v: Vec3)
    requires LengthSq(v) == 1.0
    ensures -1.0 <= v.y <= 1.0
  {
    SquareSign(v.x, v.x * v.x);
    SquareSign(v.z, v.z * v.z);
    if v.y < -1.0 {
      SquareStrictlyIncreasing(1.0, -v.y);
    } else if v.y > 1.0 {
      SquareStrictlyIncreasing(1.0, v.y);
    }
  }

  /** The zero vector is the one whose components are all zero. */
  lemma ZerosByComponents(v: Vec3)
    ensures v != Zeros <==> v.x != 0.0 || v.y != 0.0 || v.z != 0.0
  {
  }

  /** `v.length()`: the non-negative number whose square is `lengthsq`. */
  function Length(v: Vec3, sqrt: real -> real): (r: real)
    requires IsSqrt(sqrt)
    ensures 0.0 <= r && r * r == LengthSq(v)
    ensures 0.0 < r <==> v != Zeros
  {
    var l := LengthSq(v);
    SqrtFacts(sqrt, l);
    sqrt(l)
  }

  /**
    * `v.unit()`, which divides by `length()`. The source gives NaN for the zero vector; here the
    * caller must rule it out.
    */
  function Unit(v: Vec3, sqrt: real -> real): (r: Vec3)
    requires IsSqrt(sqrt)
    requires v != Zeros
    ensures LengthSq(r) == 1.0
    ensures Dot(r, v) == Length(v, sqrt)
  {
    var len := Length(v, sqrt);
    UnitProperties(v, len);
    DivScalar(v, len)
  }

  /** Dividing a vector by a number whose square is its squared length gives a unit vector. */
  lemma UnitProperties(v: Vec3, len: real)
    requires len != 0.0 && len * len == LengthSq(v)
    ensures LengthSq(DivScalar(v, len)) == 1.0
    ensures Dot(DivScalar(v, len), v) == len
  {
    var i := 1.0 / len;
    assert i * len == 1.0;
    assert DivScalar(v, len) == Vec3(v.x * i, v.y * i, v.z * i);
    ScaledSumOfSquares(v.x, v.y, v.z, i);
    InverseSquared(i, len);
    ScaledSum(v.x, v.y, v.z, i);
    InverseTimes(i, len);
  }

  lemma ScaledSumOfSquares(a: real, b: real, c: real, i: real)
    ensures (a * i) * (a * i) + (b * i) * (b * i) + (c * i) * (c * i) == (i * i) * (a * a + b * b + c * c)
  {
  }

  lemma ScaledSum(a: real, b: real, c: real, i: real)
    ensures (a * i) * a + (b * i) * b + (c * i) * c == i * (a * a + b * b + c * c)
  {
  }

  lemma InverseSquared(i: real, l: real)
    requires i * l == 1.0
    ensures (i * i) * (l * l) == 1.0
  {
    assert (i * i) * (l * l) == (i * l) * (i * l);
  }

  lemma InverseTimes(i: real, l: real)
    requires i * l == 1.0
    ensures i * (l * l) == l
  {
    assert i * (l * l) == (i * l) * l;
  }

  /**
    * `v.cross(w)` AS WRITTEN: it reads `self[0]` and `other[0]`, which `Index` does not accept, so
    * every call panics (`None`).
    */
  function Cross(u: Vec3, v: Vec3): (r: Option<Vec3>)
    ensures r == None
  {
    match (Index(u, 1), Index(v, 2), Index(u, 2), Index(v, 1), Index(v, 0), Index(u, 0))
    case (Some(u1), Some(v2), Some(u2), Some(v1), Some(v0), Some(u0)) =>
      Some(Vec3(u1 * v2 - u2 * v1, u2 * v0 - u0 * v2, u0 * v1 - u1 * v0))
    case _ => None
  }

  /** The cross product the source evidently intends: orthogonal to both of its arguments. */
  function CrossProduct(u: Vec3, v: Vec3): (r: Vec3)
    ensures Dot(r, u) == 0.0 && Dot(r, v) == 0.0
  {
    var r := Vec3(u.y * v.z - u.z * v.y, u.z * v.x - u.x * v.z, u.x * v.y - u.y * v.x);
    assert Dot(r, u) == 0.0 by {
      assert Dot(r, u) == (u.y * v.z - u.z * v.y) * u.x + (u.z * v.x - u.x * v.z) * u.y + (u.x * v.y - u.y * v.x) * u.z;
    }
    assert Dot(r, v) == 0.0 by {
      assert Dot(r, v) == (u.y * v.z - u.z * v.y) * v.x + (u.z * v.x - u.x * v.z) * v.y + (u.x * v.y - u.y * v.x) * v.z;
    }
    r
  }

  lemma CrossProductAntiCommutes(u: Vec3, v: Vec3)
    ensures CrossProduct(v, u) == Neg(CrossProduct(u, v))
    ensures CrossProduct(u, u) == Zeros
  {
  }

  // ---------------------------------------------------------------------------------------------
  // Componentwise helpers

  /** `v.min(k)`: every component is at most `k`, and a component already at most `k` is kept. */
  function Min(v: Vec3, k: real): (r: Vec3)
    ensures r.x <= v.x && r.y <= v.y && r.z <= v.z
    ensures r.x <= k && r.y <= k && r.z <= k
    ensures (v.x <= k ==> r.x == v.x) && (v.y <= k ==> r.y == v.y) && (v.z <= k ==> r.z == v.z)
    ensures (v.x > k ==> r.x == k) && (v.y > k ==> r.y == k) && (v.z > k ==> r.z == k)
  {
    Vec3(MinOf(v.x, k), MinOf(v.y, k), MinOf(v.z, k))
  }

  /** `v.abs()`: every component is non-negative and equal to the original up to its sign. */
  function Abs(v: Vec3): (r: Vec3)
    ensures 0.0 <= r.x && 0.0 <= r.y && 0.0 <= r.z
    ensures (r.x == v.x || r.x == -v.x) && (r.y == v.y || r.y == -v.y) && (r.z == v.z || r.z == -v.z)
    ensures LengthSq(r) == LengthSq(v)
  {
    Vec3(AbsOf(v.x), AbsOf(v.y), AbsOf(v.z))
  }

  /** `v.sqrt()`, componentwise; a negative component (NaN in f64) is left to `sqrt`. */
  function Sqrt(v: Vec3, sqrt: real -> real): (r: Vec3)
    requires IsSqrt(sqrt)
    ensures 0.0 <= v.x ==> 0.0 <= r.x && r.x * r.x == v.x
    ensures 0.0 <= v.y ==> 0.0 <= r.y && r.y * r.y == v.y
    ensures 0.0 <= v.z ==> 0.0 <= r.z && r.z * r.z == v.z
  {
    Vec3(sqrt(v.x), sqrt(v.y), sqrt(v.z))
  }

  /**
    * `v.near_zero()`: every component is strictly below 1e-8. There is no absolute value, so only
    * the upper side is bounded.
    */
  function NearZero(v: Vec3): bool {
    v.x < NearZeroEpsilon && v.y < NearZeroEpsilon && v.z < NearZeroEpsilon
  }

  /** `near_zero` holds exactly when every indexable component is below the threshold. */
  lemma NearZeroByIndex(v: Vec3)
    ensures NearZero(v) <==> forall i :: 1 <= i <= 3 ==> Index(v, i).value < NearZeroEpsilon
  {
    assert Index(v, 1).value == v.x && Index(v, 2).value == v.y && Index(v, 3).value == v.z;
  }

  /** A vector whose components are all small in magnitude is near zero. */
  lemma SmallIsNearZero(v: Vec3)
    requires Abs(v).x < NearZeroEpsilon && Abs(v).y < NearZeroEpsilon && Abs(v).z < NearZeroEpsilon
    ensures NearZero(v)
  {
  }

  /** Without an absolute value, a long vector with negative components also counts as near zero. */
  lemma NearZeroIgnoresNegativeComponents(k: real)
    requires k >= 1.0
    ensures NearZero(Vec3(-k, -k, -k))
    ensures LengthSq(Vec3(-k, -k, -k)) >= 3.0
  {
    assert k * k >= 1.0 by { assert k * k >= k * 1.0; }
  }

  // ---------------------------------------------------------------------------------------------
  // Pixel quantisation

  /** The gamma-corrected value of one channel, scaled to 0..255. */
  function Channel(value: real, sqrt: real -> real): (r: int)
    requires IsSqrt(sqrt)
    ensures 0 <= r <= 255
  {
    var clamped := MaxOf(MinOf(value, 0.999), 0.0);
    var gamma := sqrt(clamped);
    SqrtBelowOne(sqrt, clamped);
    (256.0 * gamma).Floor
  }

  /**
    * `v.rgb(sample_per_pixel)`: each channel is averaged, clamped to [0, 0.999], square-rooted,
    * multiplied by 256 and floored, so it is an integer in 0..255. A sample count of 0 (an f64
    * division by zero) is excluded.
    */
  function ToRgb(v: Color, samplesPerPixel: nat, sqrt: real -> real): (r: Rgb)
    requires IsSqrt(sqrt)
    requires samplesPerPixel > 0
    ensures 0 <= r.r <= 255 && 0 <= r.g <= 255 && 0 <= r.b <= 255
  {
    var scale := 1.0 / samplesPerPixel as real;
    Rgb(Channel(v.x * scale, sqrt), Channel(v.y * scale, sqrt), Channel(v.z * scale, sqrt))
  }

  /** A brighter channel value never quantises to a darker pixel. */
  lemma ChannelMonotone(a: real, b: real, sqrt: real -> real)
    requires IsSqrt(sqrt)
    requires a <= b
    ensures Channel(a, sqrt) <= Channel(b, sqrt)
  {
    var ca := MaxOf(MinOf(a, 0.999), 0.0);
    var cb := MaxOf(MinOf(b, 0.999), 0.0);
    SqrtMonotone(sqrt, ca, cb);
  }

  /** Black, and anything darker, quantises to 0. */
  lemma ChannelOfNonPositive(value: real, sqrt: real -> real)
    requires IsSqrt(sqrt)
    requires value <= 0.0
    ensures Channel(value, sqrt) == 0
  {
    SqrtUnique(sqrt, 0.0, 0.0);
  }

  /** Any value at or above the clamp 0.999 quantises to 255. */
  lemma ChannelSaturates(value: real, sqrt: real -> real)
    requires IsSqrt(sqrt)
    requires value >= 0.999
    ensures Channel(value, sqrt) == 255
  {
    var q := 255.0 / 256.0;
    SqrtUnique(sqrt, q * q, q);
    SqrtMonotone(sqrt, q * q, 0.999);
  }
}
