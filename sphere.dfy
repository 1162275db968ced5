/**
  * Spheres (src/sphere.rs): ray-sphere intersection. `hit` solves
  * `a t^2 + 2 half_b t + c = 0` for the ray's parameter and only ever tries the smaller root
  * `(-half_b - sqrt(discriminant)) / a`.
  */
module Spheres {
  import opened Vector
  import opened RealArith
  import opened RealSqrt
  import opened Options
  import opened Materials
  import opened Rays

  /** `Sphere::new(center, radius, material)` is the constructor `Sphere`. */
  datatype Sphere = Sphere(center: Point3, radius: real, material: Material)

  /** The points whose squared distance from the centre is the squared radius. */
  predicate OnSurface(s: Sphere, p: Point3) {
    LengthSq(Sub(p, s.center)) == s.radius * s.radius
  }

  /** `a` of `sphere.hit`: the squared length of the direction. */
  function QuadA(ray: Ray): real {
    LengthSq(ray.direction)
  }

  /** `half_b` of `sphere.hit`: `oc . direction`, with `oc` the origin relative to the centre. */
  function QuadHalfB(s: Sphere, ray: Ray): real {
    Dot(Sub(ray.origin, s.center), ray.direction)
  }

  /** `c` of `sphere.hit`: `|oc|^2 - radius^2`. */
  function QuadC(s: Sphere, ray: Ray): real {
    LengthSq(Sub(ray.origin, s.center)) - s.radius * s.radius
  }

  /** `discriminant` of `sphere.hit`: `half_b^2 - a c`. */
  function Discriminant(s: Sphere, ray: Ray): real {
    var h := QuadHalfB(s, ray);
    h * h - QuadA(ray) * QuadC(s, ray)
  }

  /**
    * The one root `sphere.hit` tries, `(-half_b - sqrt(discriminant)) / a`, or `None` when the
    * discriminant is negative.
    */
  function NearRoot(s: Sphere, ray: Ray, sqrt: real -> real): (r: Option<real>)
    requires IsSqrt(sqrt)
    requires ray.direction != Zeros
    ensures r.None? <==> Discriminant(s, ray) < 0.0
    ensures r.Some? ==> 0.0 < QuadA(ray) && r.value * QuadA(ray) == -QuadHalfB(s, ray) - sqrt(Discriminant(s, ray))
  {
    var discriminant := Discriminant(s, ray);
    if discriminant < 0.0 then None
    else
      var sqrtd := sqrt(discriminant);
      var a := QuadA(ray);
      var t := (-QuadHalfB(s, ray) - sqrtd) / a;
      assert t * a == -QuadHalfB(s, ray) - sqrtd;
      Some(t)
  }

  /**
    * The record `sphere.hit` builds at parameter `t`: the ray's point, the face normal of the
    * outward normal `(point - center) / radius`, and the sphere's material.
    */
  function RecordAt(s: Sphere, ray: Ray, t: real): (rec: HitRecord)
    requires s.radius != 0.0
    ensures rec.t == t && rec.point == At(ray, t) && rec.material == s.material
    ensures Dot(ray.direction, rec.normal) <= 0.0
    ensures rec.frontFace <==> Dot(ray.direction, DivScalar(Sub(rec.point, s.center), s.radius)) < 0.0
    ensures var outward := DivScalar(Sub(rec.point, s.center), s.radius);
      rec.normal == if rec.frontFace then outward else Neg(outward)
  {
    var point := At(ray, t);
    var outwardNormal := DivScalar(Sub(point, s.center), s.radius);
    var (frontFace, normal) := FaceNormal(ray, outwardNormal);
    HitRecord(point, normal, t, frontFace, s.material)
  }

  /**
    * `sphere.hit(ray, t_min, t_max)`: the near root, when it exists and lies in [tMin, tMax]. The
    * hit then lies on the ray, carries the sphere's material, and has a normal that runs against
    * the ray; its face flag says whether the ray runs against the outward normal.
    */
  function Hit(s: Sphere, ray: Ray, tMin: real, tMax: Bound, sqrt: real -> real): (r: Option<HitRecord>)
    requires IsSqrt(sqrt)
    requires ray.direction != Zeros
    requires s.radius != 0.0
    ensures r.Some? ==> tMin <= r.value.t && tMax.Admits(r.value.t)
    ensures r.Some? ==> r.value.point == At(ray, r.value.t)
    ensures r.Some? ==> r.value.material == s.material
    ensures r.Some? ==> Dot(ray.direction, r.value.normal) <= 0.0
    ensures r.Some? ==> (r.value.frontFace <==> Dot(ray.direction, DivScalar(Sub(r.value.point, s.center), s.radius)) < 0.0)
    ensures r.Some? ==> var outward := DivScalar(Sub(r.value.point, s.center), s.radius);
      r.value.normal == if r.value.frontFace then outward else Neg(outward)
  {
    var root := NearRoot(s, ray, sqrt);
    if root.None? then None
    else
      var t := root.value;
      if t < tMin || !tMax.Admits(t) then None
      else Some(RecordAt(s, ray, t))
  }

  /**
    * The bound only decides whether the one candidate root is accepted: a hit under any bound is
    * the hit without upper bound, when the bound admits its `t`.
    */
  lemma HitDependsOnBoundOnlyByAcceptance(s: Sphere, ray: Ray, tMin: real, tMax: Bound, sqrt: real -> real)
    requires IsSqrt(sqrt)
    requires ray.direction != Zeros
    requires s.radius != 0.0
    ensures var h := Hit(s, ray, tMin, Unbounded, sqrt);
      Hit(s, ray, tMin, tMax, sqrt) == if h.Some? && tMax.Admits(h.value.t) then h else None
  {
  }

  /** Narrowing the bound to a value the old bound admits keeps exactly the hits below the value. */
  lemma HitBelowTighterBound(s: Sphere, ray: Ray, tMin: real, b: real, tMax: Bound, sqrt: real -> real)
    requires IsSqrt(sqrt)
    requires ray.direction != Zeros
    requires s.radius != 0.0
    requires tMax.Admits(b)
    ensures var h := Hit(s, ray, tMin, tMax, sqrt);
      Hit(s, ray, tMin, UpTo(b), sqrt) == if h.Some? && h.value.t <= b then h else None
  {
    HitDependsOnBoundOnlyByAcceptance(s, ray, tMin, tMax, sqrt);
    HitDependsOnBoundOnlyByAcceptance(s, ray, tMin, UpTo(b), sqrt);
  }

  // ---------------------------------------------------------------------------------------------
  // Geometry of the hit

  /** The squared distance of a ray point from the centre, as a quadratic in the parameter. */
  lemma DistanceAlongRay(s: Sphere, ray: Ray, t: real)
    ensures LengthSq(Sub(At(ray, t), s.center))
      == LengthSq(Sub(ray.origin, s.center)) + 2.0 * t * Dot(Sub(ray.origin, s.center), ray.direction)
         + t * t * LengthSq(ray.direction)
  {
    var oc := Sub(ray.origin, s.center);
    var d := ray.direction;
    var p := Sub(At(ray, t), s.center);
    ExpandedSumOfSquares(p.x, p.y, p.z, oc.x, oc.y, oc.z, d.x, d.y, d.z, t);
  }

  /** The expansion of `|o + t d|^2` over components. */
  lemma ExpandedSumOfSquares(px: real, py: real, pz: real, ox: real, oy: real, oz: real, dx: real, dy: real, dz: real, t: real)
    requires px == ox + t * dx && py == oy + t * dy && pz == oz + t * dz
    ensures px * px + py * py + pz * pz
      == (ox * ox + oy * oy + oz * oz) + 2.0 * t * (ox * dx + oy * dy + oz * dz) + t * t * (dx * dx + dy * dy + dz * dz)
  {
    QuadraticExpansion(ox, dx, t);
    QuadraticExpansion(oy, dy, t);
    QuadraticExpansion(oz, dz, t);
  }

  lemma QuadraticExpansion(o: real, d: real, t: real)
    ensures (o + t * d) * (o + t * d) == o * o + 2.0 * t * (o * d) + t * t * (d * d)
  {
  }

  /** The smaller root of `a t^2 + 2 h t + c` (with `sd` the root of the discriminant) is a root. */
  lemma SmallerRootIsRoot(a: real, h: real, c: real, sd: real, t: real)
    requires a != 0.0
    requires sd * sd == h * h - a * c
    requires t * a == -h - sd
    ensures a * (t * t) + 2.0 * h * t + c == 0.0
  {
    var q := a * (t * t) + 2.0 * h * t + c;
    var at := t * a;
    assert a * q == at * at + 2.0 * h * at + a * c;
    assert at * at + 2.0 * h * at + a * c == 0.0;
    CancelFactor(q, 0.0, a);
  }

  /** At a root `tp` of `a t^2 + 2 h t + c`, `a tp + h` squares to the discriminant. */
  lemma RootSquaresToDiscriminant(a: real, h: real, c: real, tp: real)
    requires a * (tp * tp) + 2.0 * h * tp + c == 0.0
    ensures (a * tp + h) * (a * tp + h) == h * h - a * c
  {
    assert (a * tp + h) * (a * tp + h) == a * (a * (tp * tp) + 2.0 * h * tp) + h * h;
  }

  /** Of two numbers with the same square, the one that is not negative is at least the other. */
  lemma SameSquareBound(e: real, sd: real)
    requires 0.0 <= sd && e * e == sd * sd
    ensures -sd <= e <= sd
  {
    if e < -sd {
      SquareStrictlyIncreasing(sd, -e);
    } else if sd < e {
      SquareStrictlyIncreasing(sd, e);
    }
  }

  /** Dividing by `a > 0` keeps the order of the quotients the order of `t * a`. */
  lemma OrderByPositiveFactor(t: real, u: real, a: real)
    requires 0.0 < a && t * a <= u * a
    ensures t <= u
  {
    if u < t {
      ProductPositive(t - u, a, (t - u) * a);
    }
  }

  /** The smaller root is at most every root. */
  lemma SmallerRootIsSmallest(a: real, h: real, c: real, sd: real, t: real, tp: real)
    requires 0.0 < a && 0.0 <= sd && sd * sd == h * h - a * c
    requires t * a == -h - sd
    requires a * (tp * tp) + 2.0 * h * tp + c == 0.0
    ensures t <= tp
  {
    RootSquaresToDiscriminant(a, h, c, tp);
    SameSquareBound(a * tp + h, sd);
    assert t * a <= tp * a;
    OrderByPositiveFactor(t, tp, a);
  }

  /**
    * At a root `tp` where `a tp + h <= 0`, the discriminant is non-negative and `-(a tp + h)` is
    * its non-negative square root.
    */
  lemma EnteringRootIsSmallerRoot(a: real, h: real, c: real, tp: real, disc: real)
    requires disc == h * h - a * c
    requires a * (tp * tp) + 2.0 * h * tp + c == 0.0
    requires tp * a + h <= 0.0
    ensures 0.0 <= disc
    ensures 0.0 <= -(a * tp + h) && -(a * tp + h) * -(a * tp + h) == disc
  {
    RootSquaresToDiscriminant(a, h, c, tp);
    var e := a * tp + h;
    SquareSign(e, e * e);
    NegSquare(e);
  }

  /** A ray point lies on the surface exactly when its parameter is a root of the quadratic. */
  lemma OnSurfaceIffRoot(s: Sphere, ray: Ray, t: real)
    ensures OnSurface(s, At(ray, t)) <==> QuadA(ray) * (t * t) + 2.0 * QuadHalfB(s, ray) * t + QuadC(s, ray) == 0.0
  {
    DistanceAlongRay(s, ray, t);
  }

  /** A hit is the record at the near root, when the near root lies in [tMin, tMax]. */
  lemma HitIsAcceptedNearRoot(s: Sphere, ray: Ray, tMin: real, tMax: Bound, sqrt: real -> real)
    requires IsSqrt(sqrt)
    requires ray.direction != Zeros
    requires s.radius != 0.0
    ensures var root := NearRoot(s, ray, sqrt);
      Hit(s, ray, tMin, tMax, sqrt)
        == if root.Some? && tMin <= root.value && tMax.Admits(root.value) then Some(RecordAt(s, ray, root.value)) else None
  {
  }

  /** A negative discriminant is a miss, whatever the bounds. */
  lemma NegativeDiscriminantMisses(s: Sphere, ray: Ray, tMin: real, tMax: Bound, sqrt: real -> real)
    requires IsSqrt(sqrt)
    requires ray.direction != Zeros
    requires s.radius != 0.0
    ensures Discriminant(s, ray) < 0.0 ==> Hit(s, ray, tMin, tMax, sqrt).None?
  {
    HitIsAcceptedNearRoot(s, ray, tMin, tMax, sqrt);
  }

  /** The parameter of a hit is the near root. */
  lemma HitParameter(s: Sphere, ray: Ray, tMin: real, tMax: Bound, sqrt: real -> real)
    requires IsSqrt(sqrt)
    requires ray.direction != Zeros
    requires s.radius != 0.0
    requires Hit(s, ray, tMin, tMax, sqrt).Some?
    ensures NearRoot(s, ray, sqrt).Some?
    ensures Hit(s, ray, tMin, tMax, sqrt).value.t == NearRoot(s, ray, sqrt).value
  {
    HitIsAcceptedNearRoot(s, ray, tMin, tMax, sqrt);
  }

  /** The near root is a root: its point lies on the surface. */
  lemma NearRootOnSurface(s: Sphere, ray: Ray, sqrt: real -> real)
    requires IsSqrt(sqrt)
    requires ray.direction != Zeros
    requires NearRoot(s, ray, sqrt).Some?
    ensures OnSurface(s, At(ray, NearRoot(s, ray, sqrt).value))
  {
    var a, h, c := QuadA(ray), QuadHalfB(s, ray), QuadC(s, ray);
    var t := NearRoot(s, ray, sqrt).value;
    var disc := Discriminant(s, ray);
    SqrtFacts(sqrt, disc);
    SmallerRootIsRoot(a, h, c, sqrt(disc), t);
    OnSurfaceIffRoot(s, ray, t);
  }

  /** At the near root the ray enters or grazes the sphere. */
  lemma NearRootIsEntering(s: Sphere, ray: Ray, sqrt: real -> real)
    requires IsSqrt(sqrt)
    requires ray.direction != Zeros
    requires NearRoot(s, ray, sqrt).Some?
    ensures Dot(Sub(At(ray, NearRoot(s, ray, sqrt).value), s.center), ray.direction) <= 0.0
  {
    SqrtFacts(sqrt, Discriminant(s, ray));
    EnteringAt(s, ray, NearRoot(s, ray, sqrt).value);
  }

  /** No surface point of the line has a parameter below the near root. */
  lemma NearRootIsFirst(s: Sphere, ray: Ray, sqrt: real -> real, tp: real)
    requires IsSqrt(sqrt)
    requires ray.direction != Zeros
    requires NearRoot(s, ray, sqrt).Some?
    requires OnSurface(s, At(ray, tp))
    ensures NearRoot(s, ray, sqrt).value <= tp
  {
    var a, h, c := QuadA(ray), QuadHalfB(s, ray), QuadC(s, ray);
    var t := NearRoot(s, ray, sqrt).value;
    var disc := Discriminant(s, ray);
    SqrtFacts(sqrt, disc);
    OnSurfaceIffRoot(s, ray, tp);
    SmallerRootIsSmallest(a, h, c, sqrt(disc), t, tp);
  }

  /** Every hit lies on the sphere's surface. */
  lemma HitOnSurface(s: Sphere, ray: Ray, tMin: real, tMax: Bound, sqrt: real -> real)
    requires IsSqrt(sqrt)
    requires ray.direction != Zeros
    requires s.radius != 0.0
    requires Hit(s, ray, tMin, tMax, sqrt).Some?
    ensures OnSurface(s, Hit(s, ray, tMin, tMax, sqrt).value.point)
  {
    HitParameter(s, ray, tMin, tMax, sqrt);
    NearRootOnSurface(s, ray, sqrt);
  }

  /** The normal of every hit has unit length. */
  lemma HitNormalIsUnit(s: Sphere, ray: Ray, tMin: real, tMax: Bound, sqrt: real -> real)
    requires IsSqrt(sqrt)
    requires ray.direction != Zeros
    requires s.radius != 0.0
    requires Hit(s, ray, tMin, tMax, sqrt).Some?
    ensures LengthSq(Hit(s, ray, tMin, tMax, sqrt).value.normal) == 1.0
  {
    HitParameter(s, ray, tMin, tMax, sqrt);
    HitIsAcceptedNearRoot(s, ray, tMin, tMax, sqrt);
    var t := NearRoot(s, ray, sqrt).value;
    NearRootOnSurface(s, ray, sqrt);
    RecordNormalIsUnit(s, ray, t);
  }

  /** The record at a surface point has a unit normal. */
  lemma RecordNormalIsUnit(s: Sphere, ray: Ray, t: real)
    requires s.radius != 0.0
    requires OnSurface(s, At(ray, t))
    ensures LengthSq(RecordAt(s, ray, t).normal) == 1.0
  {
    var outward := DivScalar(Sub(At(ray, t), s.center), s.radius);
    UnitProperties(Sub(At(ray, t), s.center), s.radius);
    assert FaceNormal(ray, outward).1 == RecordAt(s, ray, t).normal;
    FaceNormalKeepsLength(ray, outward);
  }

  /** At every hit the ray is entering the sphere or grazing it, never leaving it. */
  lemma HitIsEntering(s: Sphere, ray: Ray, tMin: real, tMax: Bound, sqrt: real -> real)
    requires IsSqrt(sqrt)
    requires ray.direction != Zeros
    requires s.radius != 0.0
    requires Hit(s, ray, tMin, tMax, sqrt).Some?
    ensures Dot(Sub(Hit(s, ray, tMin, tMax, sqrt).value.point, s.center), ray.direction) <= 0.0
  {
    HitParameter(s, ray, tMin, tMax, sqrt);
    NearRootIsEntering(s, ray, sqrt);
  }

  /** How fast the distance from the centre changes along the ray, at parameter `t`. */
  lemma EnteringAt(s: Sphere, ray: Ray, t: real)
    ensures Dot(Sub(At(ray, t), s.center), ray.direction) == t * QuadA(ray) + QuadHalfB(s, ray)
  {
    var oc := Sub(ray.origin, s.center);
    var d := ray.direction;
    var p := Sub(At(ray, t), s.center);
    ExpandedDot(p.x, p.y, p.z, oc.x, oc.y, oc.z, d.x, d.y, d.z, t);
  }

  /** The expansion of `(o + t d) . d` over components. */
  lemma ExpandedDot(px: real, py: real, pz: real, ox: real, oy: real, oz: real, dx: real, dy: real, dz: real, t: real)
    requires px == ox + t * dx && py == oy + t * dy && pz == oz + t * dz
    ensures px * dx + py * dy + pz * dz == t * (dx * dx + dy * dy + dz * dz) + (ox * dx + oy * dy + oz * dz)
  {
  }

  /**
    * The hit is the first point of the whole line on the surface: no surface point of the line has
    * a smaller parameter, even one below `tMin`.
    */
  lemma HitIsFirstOnLine(s: Sphere, ray: Ray, tMin: real, tMax: Bound, sqrt: real -> real, tp: real)
    requires IsSqrt(sqrt)
    requires ray.direction != Zeros
    requires s.radius != 0.0
    requires Hit(s, ray, tMin, tMax, sqrt).Some?
    requires OnSurface(s, At(ray, tp))
    ensures Hit(s, ray, tMin, tMax, sqrt).value.t <= tp
  {
    HitParameter(s, ray, tMin, tMax, sqrt);
    NearRootIsFirst(s, ray, sqrt, tp);
  }

  /** A surface point where the ray enters is a root at which the quadratic is not increasing. */
  lemma EnteringPointIsRoot(s: Sphere, ray: Ray, tp: real)
    requires OnSurface(s, At(ray, tp))
    requires Dot(Sub(At(ray, tp), s.center), ray.direction) <= 0.0
    ensures QuadA(ray) * (tp * tp) + 2.0 * QuadHalfB(s, ray) * tp + QuadC(s, ray) == 0.0
    ensures tp * QuadA(ray) + QuadHalfB(s, ray) <= 0.0
  {
    OnSurfaceIffRoot(s, ray, tp);
    EnteringAt(s, ray, tp);
  }

  /**
    * At a root `tp` of `a t^2 + 2 h t + c` with `tp a + h <= 0`, the discriminant is non-negative
    * and the smaller-root formula gives `tp`.
    */
  lemma SmallerRootAtEnteringRoot(a: real, h: real, c: real, disc: real, tp: real, sqrt: real -> real)
    requires IsSqrt(sqrt)
    requires disc == h * h - a * c
    requires a * (tp * tp) + 2.0 * h * tp + c == 0.0
    requires tp * a + h <= 0.0
    ensures 0.0 <= disc
    ensures -h - sqrt(disc) == tp * a
  {
    EnteringRootIsSmallerRoot(a, h, c, tp, disc);
    SqrtUnique(sqrt, disc, -(a * tp + h));
  }

  /** The near root is the parameter of any root where the ray enters or grazes the sphere. */
  lemma NearRootAtEnteringRoot(s: Sphere, ray: Ray, sqrt: real -> real, tp: real)
    requires IsSqrt(sqrt)
    requires ray.direction != Zeros
    requires QuadA(ray) * (tp * tp) + 2.0 * QuadHalfB(s, ray) * tp + QuadC(s, ray) == 0.0
    requires tp * QuadA(ray) + QuadHalfB(s, ray) <= 0.0
    ensures NearRoot(s, ray, sqrt) == Some(tp)
  {
    var a, h, c := QuadA(ray), QuadHalfB(s, ray), QuadC(s, ray);
    SmallerRootAtEnteringRoot(a, h, c, Discriminant(s, ray), tp, sqrt);
    var r := NearRoot(s, ray, sqrt).value;
    CancelFactor(r, tp, a);
  }

  /**
    * Conversely, a surface point of the ray within [tMin, tMax] where the ray is entering (or
    * grazing) the sphere is found.
    */
  lemma EnteringSurfacePointIsHit(s: Sphere, ray: Ray, tMin: real, tMax: Bound, sqrt: real -> real, tp: real)
    requires IsSqrt(sqrt)
    requires ray.direction != Zeros
    requires s.radius != 0.0
    requires OnSurface(s, At(ray, tp))
    requires Dot(Sub(At(ray, tp), s.center), ray.direction) <= 0.0
    requires tMin <= tp && tMax.Admits(tp)
    ensures Hit(s, ray, tMin, tMax, sqrt) == Some(RecordAt(s, ray, tp))
  {
    HitIsAcceptedNearRoot(s, ray, tMin, tMax, sqrt);
    EnteringPointIsRoot(s, ray, tp);
    NearRootAtEnteringRoot(s, ray, sqrt, tp);
  }

  /** From an origin strictly inside the sphere, the near root lies behind the origin. */
  lemma NearRootBehindInsideOrigin(s: Sphere, ray: Ray, sqrt: real -> real)
    requires IsSqrt(sqrt)
    requires ray.direction != Zeros
    requires LengthSq(Sub(ray.origin, s.center)) < s.radius * s.radius
    ensures NearRoot(s, ray, sqrt).Some? && NearRoot(s, ray, sqrt).value < 0.0
  {
    var a, h, c := QuadA(ray), QuadHalfB(s, ray), QuadC(s, ray);
    var disc := Discriminant(s, ray);
    ProductPositive(a, -c, a * -c);
    SquareSign(h, h * h);
    var sd := sqrt(disc);
    SqrtFacts(sqrt, disc);
    AbsBelowRoot(h, sd, disc);
    NegativeByPositiveFactor(NearRoot(s, ray, sqrt).value, a);
  }

  /**
    * A ray that starts strictly inside the sphere is never hit at a non-negative parameter: the
    * far root, where it would leave the sphere, is never tried.
    */
  lemma StartInsideIsNeverHit(s: Sphere, ray: Ray, tMin: real, tMax: Bound, sqrt: real -> real)
    requires IsSqrt(sqrt)
    requires ray.direction != Zeros
    requires s.radius != 0.0
    requires LengthSq(Sub(ray.origin, s.center)) < s.radius * s.radius
    requires 0.0 <= tMin
    ensures Hit(s, ray, tMin, tMax, sqrt).None?
  {
    HitIsAcceptedNearRoot(s, ray, tMin, tMax, sqrt);
    NearRootBehindInsideOrigin(s, ray, sqrt);
  }

  /**
    * From an origin outside the sphere, a ray heading away from the centre (`oc . d >= 0`) only
    * moves further out: no point at a non-negative parameter is on or inside the surface.
    */
  lemma OutsideAwayStaysOutside(s: Sphere, ray: Ray, t: real)
    requires LengthSq(Sub(ray.origin, s.center)) > s.radius * s.radius
    requires 0.0 <= Dot(Sub(ray.origin, s.center), ray.direction)
    ensures 0.0 <= t ==> LengthSq(Sub(At(ray, t), s.center)) > s.radius * s.radius
  {
    if 0.0 <= t {
      DistanceAlongRay(s, ray, t);
      var oc := Sub(ray.origin, s.center);
      QuadraticGrowsFrom(LengthSq(oc), Dot(oc, ray.direction), LengthSq(ray.direction), t, s.radius * s.radius);
    }
  }

  /** `c + 2 t h + t^2 a` exceeds `r2` when `c` does and `h`, `a`, `t` are non-negative. */
  lemma QuadraticGrowsFrom(c: real, h: real, a: real, t: real, r2: real)
    requires r2 < c && 0.0 <= h && 0.0 <= a && 0.0 <= t
    ensures r2 < c + 2.0 * t * h + t * t * a
  {
    ProductNonNegative(t, h, t * h);
    ProductNonNegative(t, t, t * t);
    ProductNonNegative(t * t, a, t * t * a);
  }

  /**
    * A ray that starts outside the sphere and points away from its centre is never hit at a
    * non-negative parameter.
    */
  lemma OutsideAwayMisses(s: Sphere, ray: Ray, tMin: real, tMax: Bound, sqrt: real -> real)
    requires IsSqrt(sqrt)
    requires ray.direction != Zeros
    requires s.radius != 0.0
    requires LengthSq(Sub(ray.origin, s.center)) > s.radius * s.radius
    requires 0.0 <= Dot(Sub(ray.origin, s.center), ray.direction)
    requires 0.0 <= tMin
    ensures Hit(s, ray, tMin, tMax, sqrt).None?
  {
    HitIsAcceptedNearRoot(s, ray, tMin, tMax, sqrt);
    var root := NearRoot(s, ray, sqrt);
    if root.Some? {
      NearRootOnSurface(s, ray, sqrt);
      OutsideAwayStaysOutside(s, ray, root.value);
    }
  }

  /** A number whose product with a positive factor is negative is negative. */
  lemma NegativeByPositiveFactor(t: real, a: real)
    requires 0.0 < a && t * a < 0.0
    ensures t < 0.0
  {
    if 0.0 < t {
      ProductPositive(t, a, t * a);
    }
  }

  /** A number whose square is below `sd * sd` is below `sd`. */
  lemma AbsBelowRoot(h: real, sd: real, disc: real)
    requires 0.0 <= sd && sd * sd == disc && h * h < disc
    ensures -sd < h < sd
  {
    if h <= -sd {
      if h < -sd { SquareStrictlyIncreasing(sd, -h); }
    } else if sd <= h {
      if sd < h { SquareStrictlyIncreasing(sd, h); }
    }
  }
}
