/**
  * Surface materials (src/material.rs): the closed set of materials a sphere can carry, the
  * constructors, the two optical helpers `mirror_reflect` and `snell_refract`, and (in module
  * `Scattering`) what each material does with an incoming ray.
  */
module Materials {
  import opened Vector
  import opened RealArith
  import opened RealSqrt

  /**
    * `dyn Material`: `Lambertian::new(color)` and `Dielectric::new(ir)` are the constructors
    * `Lambertian(color)` and `Dielectric(ir)`; a `Metal` is built with `NewMetal`.
    */
  datatype Material =
    | Lambertian(albedo: Color)
    | Metal(albedo: Color, fuzz: real)
    | Dielectric(ir: real)

  /**
    * `Metal::new(color, fuzz)` stores `fuzz.min(1.0)`: the stored fuzz is at most 1 and equals the
    * argument when that is already at most 1. There is no lower clamp.
    */
  function NewMetal(color: Color, fuzz: real): (m: Material)
    ensures m.Metal? && m.albedo == color
    ensures m.fuzz <= 1.0
    ensures fuzz <= 1.0 ==> m.fuzz == fuzz
    ensures fuzz > 1.0 ==> m.fuzz == 1.0
  {
    Metal(color, MinOf(fuzz, 1.0))
  }

  /** A negative fuzz is stored as given. */
  lemma NewMetalKeepsNegativeFuzz(color: Color, fuzz: real)
    requires fuzz < 0.0
    ensures NewMetal(color, fuzz).fuzz < 0.0
  {
  }

  // ---------------------------------------------------------------------------------------------
  // Reflection

  /** `mirror_reflect(incident, normal)`: `incident - 2 (incident . normal) normal`. */
  function MirrorReflect(incident: Vec3, normal: Vec3): Vec3 {
    Sub(incident, ScalarMul(2.0 * Dot(incident, normal), normal))
  }

  /** About a unit normal, reflection negates the component along the normal. */
  lemma ReflectNegatesNormalComponent(d: Vec3, n: Vec3)
    requires LengthSq(n) == 1.0
    ensures Dot(MirrorReflect(d, n), n) == -Dot(d, n)
  {
    DotSubScaled(d, n, 2.0 * Dot(d, n), n);
  }

  /** Reflecting twice about the same unit normal gives back the incident vector. */
  lemma ReflectTwice(d: Vec3, n: Vec3)
    requires LengthSq(n) == 1.0
    ensures MirrorReflect(MirrorReflect(d, n), n) == d
  {
    ReflectNegatesNormalComponent(d, n);
  }

  /** Reflection about a unit normal preserves length. */
  lemma ReflectPreservesLength(d: Vec3, n: Vec3)
    requires LengthSq(n) == 1.0
    ensures LengthSq(MirrorReflect(d, n)) == LengthSq(d)
  {
    var k := Dot(d, n);
    var r := MirrorReflect(d, n);
    DotSubScaled(d, n, 2.0 * k, r);
    ReflectNegatesNormalComponent(d, n);
    DotSubScaled(d, n, 2.0 * k, d);
    DotSymmetric(r, d);
  }

  /** Reflection leaves the components orthogonal to the normal unchanged. */
  lemma ReflectKeepsTangent(d: Vec3, n: Vec3, w: Vec3)
    requires Dot(n, w) == 0.0
    ensures Dot(MirrorReflect(d, n), w) == Dot(d, w)
  {
    DotSubScaled(d, n, 2.0 * Dot(d, n), w);
  }

  // ---------------------------------------------------------------------------------------------
  // Refraction

  /** `cos_theta` of `snell_refract`: `n . -uv`, capped at 1. */
  function CosTheta(uv: Vec3, n: Vec3): (c: real)
    ensures c <= 1.0
    ensures Dot(n, Neg(uv)) <= 1.0 ==> c == Dot(n, Neg(uv))
  {
    MinOf(Dot(n, Neg(uv)), 1.0)
  }

  /** `r_out_perp` of `snell_refract`: `etai_over_etat (uv + cos_theta n)`. */
  function RefractPerp(uv: Vec3, n: Vec3, etaiOverEtat: real): Vec3 {
    ScalarMul(etaiOverEtat, Add(uv, ScalarMul(CosTheta(uv, n), n)))
  }

  /**
    * The length of `r_out_parallel` of `snell_refract`: the square root of `|1 - |r_out_perp|^2|`.
    * The absolute value keeps the argument non-negative; total internal reflection is not
    * detected.
    */
  function ParallelLength(uv: Vec3, n: Vec3, etaiOverEtat: real, sqrt: real -> real): (s: real)
    requires IsSqrt(sqrt)
    ensures 0.0 <= s
    ensures s * s == AbsOf(1.0 - LengthSq(RefractPerp(uv, n, etaiOverEtat)))
  {
    var arg := AbsOf(1.0 - LengthSq(RefractPerp(uv, n, etaiOverEtat)));
    SqrtFacts(sqrt, arg);
    sqrt(arg)
  }

  /** `snell_refract(uv, n, etai_over_etat)`: `r_out_parallel + r_out_perp`. */
  function SnellRefract(uv: Vec3, n: Vec3, etaiOverEtat: real, sqrt: real -> real): Vec3
    requires IsSqrt(sqrt)
  {
    var perp := RefractPerp(uv, n, etaiOverEtat);
    var parallel := ScalarMul(-ParallelLength(uv, n, etaiOverEtat, sqrt), n);
    Add(parallel, perp)
  }

  /** The part added to `r_out_perp` never points along a unit normal. */
  lemma RefractParallelOpposesNormal(uv: Vec3, n: Vec3, etaiOverEtat: real, sqrt: real -> real)
    requires IsSqrt(sqrt)
    requires LengthSq(n) == 1.0
    ensures Dot(Sub(SnellRefract(uv, n, etaiOverEtat, sqrt), RefractPerp(uv, n, etaiOverEtat)), n) <= 0.0
  {
    var s := ParallelLength(uv, n, etaiOverEtat, sqrt);
    var perp := RefractPerp(uv, n, etaiOverEtat);
    assert Sub(SnellRefract(uv, n, etaiOverEtat, sqrt), perp) == ScalarMul(-s, n);
    DotAddScaled(Zeros, n, -s, n);
    assert Add(Zeros, ScalarMul(-s, n)) == ScalarMul(-s, n);
  }

  /**
    * Lagrange's identity: `|u|^2 |v|^2 - (u . v)^2` is the squared length of the cross product,
    * so it is never negative.
    */
  lemma Lagrange(u: Vec3, v: Vec3)
    ensures LengthSq(u) * LengthSq(v) - Dot(u, v) * Dot(u, v) == LengthSq(CrossProduct(u, v))
  {
  }

  /** For unit vectors the dot product lies in [-1, 1] (Cauchy-Schwarz). */
  lemma UnitDotBounded(u: Vec3, v: Vec3)
    requires LengthSq(u) == 1.0 && LengthSq(v) == 1.0
    ensures -1.0 <= Dot(u, v) <= 1.0
  {
    var c := Dot(u, v);
    Lagrange(u, v);
    assert c * c <= 1.0;
    if c < -1.0 {
      SquareStrictlyIncreasing(1.0, -c);
    } else if c > 1.0 {
      SquareStrictlyIncreasing(1.0, c);
    }
  }

  /**
    * With refraction ratio 1 (equal indices), a unit direction meeting a unit normal from the
    * front passes through unchanged.
    */
  lemma RefractWithRatioOneIsIdentity(uv: Vec3, n: Vec3, sqrt: real -> real)
    requires IsSqrt(sqrt)
    requires LengthSq(uv) == 1.0 && LengthSq(n) == 1.0
    requires Dot(n, uv) <= 0.0
    ensures SnellRefract(uv, n, 1.0, sqrt) == uv
  {
    var c := Dot(n, uv);
    UnitDotBounded(n, uv);
    DotWithNeg(n, uv);
    var perp := RefractPerp(uv, n, 1.0);
    PerpWithRatioOne(uv, n, -c);
    assert perp == Sub(uv, ScalarMul(c, n));
    PerpLength(uv, n, c);
    SquareSign(c, c * c);
    NegSquare(c);
    SqrtUnique(sqrt, c * c, -c);
    assert ParallelLength(uv, n, 1.0, sqrt) == -c;
    AddBackScaled(uv, n, c);
  }

  lemma DotWithNeg(u: Vec3, v: Vec3)
    ensures Dot(u, Neg(v)) == -Dot(u, v)
  {
  }

  /** With ratio 1, `r_out_perp` is `uv` plus the capped cosine times the normal. */
  lemma PerpWithRatioOne(uv: Vec3, n: Vec3, k: real)
    requires CosTheta(uv, n) == k
    ensures RefractPerp(uv, n, 1.0) == Sub(uv, ScalarMul(-k, n))
  {
  }

  /** Adding back what was subtracted. */
  lemma AddBackScaled(u: Vec3, v: Vec3, k: real)
    ensures Add(ScalarMul(k, v), Sub(u, ScalarMul(k, v))) == u
  {
  }

  lemma PerpLength(uv: Vec3, n: Vec3, c: real)
    requires LengthSq(uv) == 1.0 && LengthSq(n) == 1.0
    requires c == Dot(n, uv)
    ensures LengthSq(Sub(uv, ScalarMul(c, n))) == 1.0 - c * c
  {
    var p := Sub(uv, ScalarMul(c, n));
    DotSubScaled(uv, n, c, p);
    DotSymmetric(p, uv);
    DotSymmetric(p, n);
    DotSubScaled(uv, n, c, uv);
    DotSubScaled(uv, n, c, n);
    DotSymmetric(n, uv);
  }
}

/**
  * `Material::scatter` for each material. The random draws of one bounce (`random_unit_vector`
  * for a Lambertian surface, `random_within_unit_sphere` for a metal) come in as a `Draw`.
  */
module Scattering {
  import opened Vector
  import opened RealSqrt
  import opened Options
  import opened Materials
  import opened Rays

  /** The random vectors one bounce may use. */
  datatype Draw = Draw(unitVector: Vec3, inUnitSphere: Vec3)

  /**
    * What a material may assume of the ray and record it scatters: a metal and a dielectric take
    * `unit()` of the incoming direction, which needs it non-zero, and a dielectric hit from the
    * front divides by `ir`. A Lambertian surface never reads the ray.
    */
  predicate CanScatter(m: Material, ray: Ray, rec: HitRecord) {
    (m.Lambertian? || ray.direction != Zeros) && (m.Dielectric? && rec.frontFace ==> m.ir != 0.0)
  }

  /** The direction a Lambertian surface sends the ray: `normal + u`, or `normal` if that is near zero. */
  function LambertianDirection(normal: Vec3, u: Vec3): Vec3 {
    var d := Add(normal, u);
    if NearZero(d) then normal else d
  }

  /** `refraction_ratio` of the dielectric: `1/ir` from the front, `ir` from behind. */
  function RefractionRatio(ir: real, frontFace: bool): (r: real)
    requires frontFace ==> ir != 0.0
    ensures frontFace ==> r * ir == 1.0
    ensures !frontFace ==> r == ir
  {
    if frontFace then 1.0 / ir else ir
  }

  /**
    * `scatter(ray, record)`: `Some((scattered, attenuation))`, or `None` when the ray is absorbed.
    *   - Lambertian scatters always, from the hit point, with the albedo.
    *   - Metal scatters from the hit point with the albedo exactly when the mirror reflection of
    *     the unit incoming direction (before fuzz) points out of the surface.
    *   - Dielectric scatters always, from the hit point, with attenuation (1, 1, 1) and the
    *     refracted unit direction.
    */
  function Scatter(m: Material, ray: Ray, rec: HitRecord, draw: Draw, sqrt: real -> real)
    : (r: Option<(Ray, Color)>)
    requires IsSqrt(sqrt)
    requires CanScatter(m, ray, rec)
    ensures r.Some? ==> r.value.0.origin == rec.point
    ensures m.Lambertian? ==> r == Some((Ray(rec.point, LambertianDirection(rec.normal, draw.unitVector)), m.albedo))
    ensures m.Metal? ==> (r.None? <==> Dot(MirrorReflect(Unit(ray.direction, sqrt), rec.normal), rec.normal) <= 0.0)
    ensures m.Metal? && r.Some? ==> r.value.1 == m.albedo
    ensures m.Metal? && r.Some? ==>
      r.value.0.direction == Add(MirrorReflect(Unit(ray.direction, sqrt), rec.normal), ScalarMul(m.fuzz, draw.inUnitSphere))
    ensures m.Dielectric? ==> r.Some? && r.value.1 == Vec3(1.0, 1.0, 1.0)
    ensures m.Dielectric? ==>
      r.value.0.direction == SnellRefract(Unit(ray.direction, sqrt), rec.normal, RefractionRatio(m.ir, rec.frontFace), sqrt)
  {
    match m
    case Lambertian(albedo) =>
      Some((Ray(rec.point, LambertianDirection(rec.normal, draw.unitVector)), albedo))
    case Metal(albedo, fuzz) =>
      var reflected := MirrorReflect(Unit(ray.direction, sqrt), rec.normal);
      if Dot(reflected, rec.normal) > 0.0 then
        Some((Ray(rec.point, Add(reflected, ScalarMul(fuzz, draw.inUnitSphere))), albedo))
      else
        None
    case Dielectric(ir) =>
      var ratio := RefractionRatio(ir, rec.frontFace);
      var refracted := SnellRefract(Unit(ray.direction, sqrt), rec.normal, ratio, sqrt);
      Some((Ray(rec.point, refracted), Vec3(1.0, 1.0, 1.0)))
  }

  /** The Lambertian direction is never zero when the normal is not. */
  lemma LambertianDirectionNonZero(normal: Vec3, u: Vec3)
    requires normal != Zeros
    ensures LambertianDirection(normal, u) != Zeros
  {
  }

  /** A metal whose (reflected) direction is perturbed by no fuzz scatters along the mirror direction. */
  lemma PolishedMetalReflects(albedo: Color, ray: Ray, rec: HitRecord, draw: Draw, sqrt: real -> real)
    requires IsSqrt(sqrt)
    requires ray.direction != Zeros
    requires Dot(MirrorReflect(Unit(ray.direction, sqrt), rec.normal), rec.normal) > 0.0
    ensures Scatter(Metal(albedo, 0.0), ray, rec, draw, sqrt)
      == Some((Ray(rec.point, MirrorReflect(Unit(ray.direction, sqrt), rec.normal)), albedo))
  {
    var reflected := MirrorReflect(Unit(ray.direction, sqrt), rec.normal);
    assert Add(reflected, ScalarMul(0.0, draw.inUnitSphere)) == reflected;
  }

  /**
    * About a unit normal the metal's mirror direction points out of the surface exactly when the
    * incoming ray meets the surface from the front side the normal points to.
    */
  lemma MetalScattersIffIncoming(albedo: Color, fuzz: real, ray: Ray, rec: HitRecord, draw: Draw, sqrt: real -> real)
    requires IsSqrt(sqrt)
    requires ray.direction != Zeros
    requires LengthSq(rec.normal) == 1.0
    ensures Scatter(Metal(albedo, fuzz), ray, rec, draw, sqrt).Some? <==> Dot(Unit(ray.direction, sqrt), rec.normal) < 0.0
  {
    ReflectNegatesNormalComponent(Unit(ray.direction, sqrt), rec.normal);
  }
}
