/**
  * The recursive integrator `ray_color` (src/main.rs): the colour seen along a ray, following at
  * most `depth` bounces through the world. The random draws of every bounce come in as `draws`,
  * one per remaining level of depth.
  */
module Integrator {
  import opened Vector
  import opened RealArith
  import opened RealSqrt
  import opened Options
  import opened Rays
  import opened Materials
  import opened Scattering
  import opened Spheres
  import opened Hittables

  const Black: Color := Vec3(0.0, 0.0, 0.0)
  const White: Color := Vec3(1.0, 1.0, 1.0)
  const SkyBlue: Color := Vec3(0.5, 0.7, 1.0)

  /** `t_min` of the world query, which keeps a bounce from hitting its own starting point. */
  const HitEpsilon: real := 0.001

  /** A world `ray_color` can trace: every sphere has a radius and every glass an index. */
  predicate WellFormedWorld(world: seq<Sphere>) {
    WellFormedScene(world) &&
    forall i :: 0 <= i < |world| ==> (world[i].material.Dielectric? ==> world[i].material.ir != 0.0)
  }

  /**
    * The sky a missing ray sees, `(1 - t) white + t sky blue` with `t = (unit(direction).y + 1) / 2`.
    * Every component lies between the sky blue's and white's.
    */
  function Background(direction: Vec3, sqrt: real -> real): (c: Color)
    requires IsSqrt(sqrt)
    requires direction != Zeros
    ensures 0.5 <= c.x <= 1.0 && 0.7 <= c.y <= 1.0 && c.z == 1.0
  {
    var unitDirection := Unit(direction, sqrt);
    UnitComponentBounded(unitDirection);
    var t := 0.5 * (unitDirection.y + 1.0);
    Gradient(t)
  }

  /** The blend `(1 - t) white + t sky blue` of the background. */
  function Gradient(t: real): (c: Color)
    ensures 0.0 <= t <= 1.0 ==> 0.5 <= c.x <= 1.0 && 0.7 <= c.y <= 1.0 && c.z == 1.0
    ensures t == 0.0 ==> c == White
    ensures t == 1.0 ==> c == SkyBlue
    ensures c == Vec3(1.0 - 0.5 * t, 1.0 - 0.3 * t, 1.0)
  {
    Add(ScalarMul(1.0 - t, White), ScalarMul(t, SkyBlue))
  }

  /** Looking straight up shows the sky blue, straight down shows white. */
  lemma BackgroundVertical(k: real, sqrt: real -> real)
    requires IsSqrt(sqrt)
    requires k != 0.0
    ensures Background(Vec3(0.0, k, 0.0), sqrt) == if 0.0 < k then SkyBlue else White
  {
    var v := Vec3(0.0, k, 0.0);
    var l := LengthSq(v);
    assert l == k * k;
    var m := AbsOf(k);
    assert m * m == l by {
      NegSquare(k);
    }
    SqrtUnique(sqrt, l, m);
    assert Unit(v, sqrt) == DivScalar(v, m);
    assert DivScalar(v, m).y == k / m;
    SignByAbs(k);
  }

  /**
    * `ray_color(ray, world, depth)`. `None` stands for a ray whose direction is zero, whose colour
    * the source computes through NaN (the background's `unit()` in an empty world, the sphere's
    * `t = 0/0` otherwise), which is not modelled; everything else is traced as the source does:
    *   - at depth 0 the colour is black;
    *   - a ray that hits nothing in [0.001, INFINITY) sees the background;
    *   - a hit whose material absorbs the ray is black;
    *   - otherwise the colour is the attenuation times the colour of the scattered ray, traced one
    *     level shallower with the remaining draws.
    */
  function RayColor(ray: Ray, world: seq<Sphere>, depth: nat, draws: seq<Draw>, sqrt: real -> real)
    : (r: Option<Color>)
    requires IsSqrt(sqrt)
    requires WellFormedWorld(world)
    requires depth <= |draws|
    ensures depth == 0 ==> r == Some(Black)
    ensures 0 < depth && ray.direction != Zeros && Nearest(world, ray, HitEpsilon, Unbounded, sqrt).None? ==>
      r == Some(Background(ray.direction, sqrt))
    decreases depth
  {
    if depth == 0 then Some(Black)
    else if ray.direction == Zeros then None
    else
      var hit := Nearest(world, ray, HitEpsilon, Unbounded, sqrt);
      if hit.None? then Some(Background(ray.direction, sqrt))
      else
        var record := hit.value;
        NearestCanScatter(world, ray, sqrt);
        var scattered := Scatter(record.material, ray, record, draws[0], sqrt);
        if scattered.None? then Some(Black)
        else
          var (next, attenuation) := scattered.value;
          var rest := RayColor(next, world, depth - 1, draws[1..], sqrt);
          if rest.None? then None else Some(Mul(attenuation, rest.value))
  }

  /** The material of a hit in a well-formed world can scatter. */
  lemma NearestCanScatter(world: seq<Sphere>, ray: Ray, sqrt: real -> real)
    requires IsSqrt(sqrt)
    requires WellFormedWorld(world)
    requires ray.direction != Zeros
    ensures var hit := Nearest(world, ray, HitEpsilon, Unbounded, sqrt);
      hit.Some? ==> CanScatter(hit.value.material, ray, hit.value)
  {
    if Nearest(world, ray, HitEpsilon, Unbounded, sqrt).Some? {
      NearestMaterialFromScene(world, ray, HitEpsilon, Unbounded, sqrt);
    }
  }

  /** A world without spheres shows the background at every positive depth. */
  lemma EmptyWorldShowsBackground(ray: Ray, depth: nat, draws: seq<Draw>, sqrt: real -> real)
    requires IsSqrt(sqrt)
    requires 0 < depth <= |draws|
    requires ray.direction != Zeros
    ensures RayColor(ray, [], depth, draws, sqrt) == Some(Background(ray.direction, sqrt))
  {
  }

  /** A hit whose material absorbs the ray is black. */
  lemma AbsorbedIsBlack(ray: Ray, world: seq<Sphere>, depth: nat, draws: seq<Draw>, sqrt: real -> real)
    requires IsSqrt(sqrt)
    requires WellFormedWorld(world)
    requires 0 < depth <= |draws|
    requires ray.direction != Zeros
    requires var hit := Nearest(world, ray, HitEpsilon, Unbounded, sqrt);
      hit.Some? && CanScatter(hit.value.material, ray, hit.value) &&
      Scatter(hit.value.material, ray, hit.value, draws[0], sqrt).None?
    ensures RayColor(ray, world, depth, draws, sqrt) == Some(Black)
  {
  }

  /**
    * A hit that scatters shows the attenuation times the colour of the scattered ray, traced one
    * level shallower with the remaining draws.
    */
  lemma ScatteredIsAttenuated(ray: Ray, world: seq<Sphere>, depth: nat, draws: seq<Draw>, sqrt: real -> real)
    requires IsSqrt(sqrt)
    requires WellFormedWorld(world)
    requires 0 < depth <= |draws|
    requires ray.direction != Zeros
    requires var hit := Nearest(world, ray, HitEpsilon, Unbounded, sqrt);
      hit.Some? && CanScatter(hit.value.material, ray, hit.value) &&
      Scatter(hit.value.material, ray, hit.value, draws[0], sqrt).Some?
    ensures var hit := Nearest(world, ray, HitEpsilon, Unbounded, sqrt).value;
      var s := Scatter(hit.material, ray, hit, draws[0], sqrt).value;
      var rest := RayColor(s.0, world, depth - 1, draws[1..], sqrt);
      RayColor(ray, world, depth, draws, sqrt) == if rest.Some? then Some(Mul(s.1, rest.value)) else None
  {
  }

  // ---------------------------------------------------------------------------------------------
  // Colours stay in the unit cube

  predicate InUnitCube(c: Color) {
    0.0 <= c.x <= 1.0 && 0.0 <= c.y <= 1.0 && 0.0 <= c.z <= 1.0
  }

  /** A material whose attenuation never amplifies a channel. */
  predicate Dimming(m: Material) {
    m.Dielectric? || InUnitCube(m.albedo)
  }

  /** The componentwise product of two colours in the unit cube stays in it. */
  lemma MulInUnitCube(u: Color, v: Color)
    requires InUnitCube(u) && InUnitCube(v)
    ensures InUnitCube(Mul(u, v))
  {
    ProductInUnit(u.x, v.x);
    ProductInUnit(u.y, v.y);
    ProductInUnit(u.z, v.z);
  }

  /** The attenuation of a dimming material lies in the unit cube. */
  lemma AttenuationInUnitCube(m: Material, ray: Ray, rec: HitRecord, draw: Draw, sqrt: real -> real)
    requires IsSqrt(sqrt)
    requires CanScatter(m, ray, rec)
    requires Dimming(m)
    ensures var s := Scatter(m, ray, rec, draw, sqrt);
      s.Some? ==> InUnitCube(s.value.1)
  {
  }

  /**
    * When every material of the world dims, every colour `ray_color` returns lies in the unit
    * cube, at every depth.
    */
  lemma {:induction false} RayColorInUnitCube(ray: Ray, world: seq<Sphere>, depth: nat, draws: seq<Draw>, sqrt: real -> real)
    requires IsSqrt(sqrt)
    requires WellFormedWorld(world)
    requires depth <= |draws|
    requires forall i :: 0 <= i < |world| ==> Dimming(world[i].material)
    ensures RayColor(ray, world, depth, draws, sqrt).Some? ==> InUnitCube(RayColor(ray, world, depth, draws, sqrt).value)
    decreases depth
  {
    if 0 < depth && ray.direction != Zeros {
      var hit := Nearest(world, ray, HitEpsilon, Unbounded, sqrt);
      if hit.Some? {
        var record := hit.value;
        NearestCanScatter(world, ray, sqrt);
        NearestMaterialFromScene(world, ray, HitEpsilon, Unbounded, sqrt);
        var scattered := Scatter(record.material, ray, record, draws[0], sqrt);
        AttenuationInUnitCube(record.material, ray, record, draws[0], sqrt);
        if scattered.Some? {
          var (next, attenuation) := scattered.value;
          RayColorInUnitCube(next, world, depth - 1, draws[1..], sqrt);
          var rest := RayColor(next, world, depth - 1, draws[1..], sqrt);
          if rest.Some? {
            MulInUnitCube(attenuation, rest.value);
          }
        }
      }
    }
  }
}
