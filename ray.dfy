/**
  * Rays and hit records (src/ray.rs, first half): `Ray::at`, `HitRecord::face_normal`, and the
  * upper bound of a hit interval, which the renderer sets to `INFINITY`.
  */
module Rays {
  import opened Vector
  import opened Materials

  /** `Ray { origin, direction }`. */
  datatype Ray = Ray(origin: Point3, direction: Vec3)

  /**
    * The record a hit produces. The record the sphere builds also carries the sphere's material,
    * which is how the renderer finds the material to scatter with.
    */
  datatype HitRecord = HitRecord(point: Point3, normal: Vec3, t: real, frontFace: bool, material: Material)

  /** `ray.at(t)`: `origin + direction * t`. */
  function At(ray: Ray, t: real): (p: Point3)
    ensures Sub(p, ray.origin) == Scale(ray.direction, t)
  {
    Add(ray.origin, Scale(ray.direction, t))
  }

  /** The ray is at its origin at parameter 0. */
  lemma AtZero(ray: Ray)
    ensures At(ray, 0.0) == ray.origin
  {
  }

  /** Moving along a ray is additive in the parameter. */
  lemma AtShift(ray: Ray, s: real, t: real)
    ensures At(ray, s + t) == Add(At(ray, s), Scale(ray.direction, t))
  {
  }

  /**
    * `HitRecord::face_normal(ray, outward_normal)`: the ray meets the front face exactly when it
    * runs against the outward normal. The returned normal is then the outward normal, and otherwise
    * (grazing included) its negation, so it always runs against the ray.
    */
  function FaceNormal(ray: Ray, outwardNormal: Vec3): (r: (bool, Vec3))
    ensures r.0 <==> Dot(ray.direction, outwardNormal) < 0.0
    ensures Dot(ray.direction, r.1) <= 0.0
    ensures r.1 == if r.0 then outwardNormal else Neg(outwardNormal)
  {
    var frontFace := Dot(ray.direction, outwardNormal) < 0.0;
    var normal := if frontFace then outwardNormal else Neg(outwardNormal);
    (frontFace, normal)
  }

  /** The face normal has the outward normal's length. */
  lemma FaceNormalKeepsLength(ray: Ray, outwardNormal: Vec3)
    ensures LengthSq(FaceNormal(ray, outwardNormal).1) == LengthSq(outwardNormal)
  {
  }

  /** Reversing the outward normal flips the face flag unless the ray grazes the surface. */
  lemma FaceNormalOfReversed(ray: Ray, outwardNormal: Vec3)
    requires Dot(ray.direction, outwardNormal) != 0.0
    ensures FaceNormal(ray, Neg(outwardNormal)).0 == !FaceNormal(ray, outwardNormal).0
    ensures FaceNormal(ray, Neg(outwardNormal)).1 == FaceNormal(ray, outwardNormal).1
  {
    assert Dot(ray.direction, Neg(outwardNormal)) == -Dot(ray.direction, outwardNormal);
    assert Neg(Neg(outwardNormal)) == outwardNormal;
  }

  /** The upper end of a hit interval: a finite `t_max`, or `INFINITY`. */
  datatype Bound = Unbounded | UpTo(value: real) {
    /** The interval's upper test `t > t_max` fails. */
    predicate Admits(t: real) {
      UpTo? ==> t <= value
    }
  }

  /** Nothing is rejected by `INFINITY`, and a larger bound admits more. */
  lemma BoundMonotone(a: real, b: real, t: real)
    requires a <= b
    ensures Unbounded.Admits(t)
    ensures UpTo(a).Admits(t) ==> UpTo(b).Admits(t)
  {
  }
}

/**
  * `HittableList` (src/ray.rs, second half): a list of spheres that `add` and `clear` change in
  * place, and whose `hit` keeps the closest hit by narrowing `t_max` as it goes.
  */
module Hittables {
  import opened Vector
  import opened RealSqrt
  import opened Options
  import opened Rays
  import opened Spheres
  import opened Materials

  /** Every sphere the list may be asked to hit: `Sphere::hit` divides by the radius. */
  predicate WellFormedScene(objects: seq<Sphere>) {
    forall i :: 0 <= i < |objects| ==> objects[i].radius != 0.0
  }

  /**
    * The result of the `hit` loop after it has visited `objects` in order: each sphere is asked
    * for a hit below the `t` of the record kept so far (or below `tMax` before any), and a hit it
    * reports replaces that record.
    */
  function Nearest(objects: seq<Sphere>, ray: Ray, tMin: real, tMax: Bound, sqrt: real -> real)
    : (r: Option<HitRecord>)
    requires IsSqrt(sqrt)
    requires ray.direction != Zeros
    requires WellFormedScene(objects)
    ensures objects == [] ==> r.None?
    ensures r.Some? ==> tMin <= r.value.t && tMax.Admits(r.value.t)
    decreases |objects|
  {
    if objects == [] then None
    else
      var before := Nearest(objects[..|objects| - 1], ray, tMin, tMax, sqrt);
      var bound := if before.Some? then UpTo(before.value.t) else tMax;
      var h := Hit(objects[|objects| - 1], ray, tMin, bound, sqrt);
      if h.Some? then h else before
  }

  class HittableList {
    var objects: seq<Sphere>

    /** `HittableList::new()`: an empty list. */
    constructor ()
      ensures objects == []
    {
      objects := [];
    }

    /** `clear()`: removes every object. */
    method Clear()
      modifies this
      ensures objects == []
    {
      objects := [];
    }

    /** `add(object)`: appends the sphere at the end. */
    method Add(sphere: Sphere)
      modifies this
      ensures objects == old(objects) + [sphere]
    {
      objects := objects + [sphere];
    }

    /**
      * `hit(ray, t_min, t_max)`: the loop over the objects, with `closest` narrowed to the `t` of
      * each hit found. What its result means is proved about `Nearest` below: it is `None` exactly
      * when no object is hit in [tMin, tMax], and otherwise the hit of some object, at a `t` no
      * larger than that of any object's hit.
      */
    method Hit(ray: Ray, tMin: real, tMax: Bound, sqrt: real -> real) returns (r: Option<HitRecord>)
      requires IsSqrt(sqrt)
      requires ray.direction != Zeros
      requires WellFormedScene(objects)
      ensures r == Nearest(objects, ray, tMin, tMax, sqrt)
      ensures objects == [] ==> r.None?
    {
      var closest := tMax;
      var tempRecord: Option<HitRecord> := None;
      var i := 0;
      while i < |objects|
        invariant 0 <= i <= |objects|
        invariant tempRecord == Nearest(objects[..i], ray, tMin, tMax, sqrt)
        invariant closest == if tempRecord.Some? then UpTo(tempRecord.value.t) else tMax
        invariant closest.UpTo? ==> tMax.Admits(closest.value)
      {
        assert objects[..i + 1][..i] == objects[..i];
        var record := Spheres.Hit(objects[i], ray, tMin, closest, sqrt);
        if record.Some? {
          // `closest` only shrinks: the new bound is admitted by the old one.
          assert closest.Admits(record.value.t);
          closest := UpTo(record.value.t);
          tempRecord := record;
        }
        i := i + 1;
      }
      assert objects[..i] == objects;
      r := tempRecord;
    }
  }

  /** Any hit `hit` returns is the hit of one of the objects within [tMin, tMax]. */
  lemma {:induction false} NearestIsAnObjectsHit(objects: seq<Sphere>, ray: Ray, tMin: real, tMax: Bound, sqrt: real -> real)
    requires IsSqrt(sqrt)
    requires ray.direction != Zeros
    requires WellFormedScene(objects)
    requires Nearest(objects, ray, tMin, tMax, sqrt).Some?
    ensures exists i :: 0 <= i < |objects| && Hit(objects[i], ray, tMin, tMax, sqrt) == Nearest(objects, ray, tMin, tMax, sqrt)
    decreases |objects|
  {
    var init := objects[..|objects| - 1];
    var last := objects[|objects| - 1];
    var before := Nearest(init, ray, tMin, tMax, sqrt);
    var bound := if before.Some? then UpTo(before.value.t) else tMax;
    var h := Hit(last, ray, tMin, bound, sqrt);
    assert Nearest(objects, ray, tMin, tMax, sqrt) == if h.Some? then h else before;
    if h.Some? {
      if before.Some? {
        HitBelowTighterBound(last, ray, tMin, before.value.t, tMax, sqrt);
      }
      assert Hit(objects[|objects| - 1], ray, tMin, tMax, sqrt) == h;
    } else {
      NearestIsAnObjectsHit(init, ray, tMin, tMax, sqrt);
      var j :| 0 <= j < |init| && Hit(init[j], ray, tMin, tMax, sqrt) == before;
      assert objects[j] == init[j];
    }
  }

  /** The hit `hit` returns is at least as close as the hit of every object. */
  lemma NearestIsClosest(objects: seq<Sphere>, ray: Ray, tMin: real, tMax: Bound, sqrt: real -> real, i: int)
    requires IsSqrt(sqrt)
    requires ray.direction != Zeros
    requires WellFormedScene(objects)
    requires 0 <= i < |objects|
    ensures Hit(objects[i], ray, tMin, tMax, sqrt).Some? ==>
      Nearest(objects, ray, tMin, tMax, sqrt).Some? &&
      Nearest(objects, ray, tMin, tMax, sqrt).value.t <= Hit(objects[i], ray, tMin, tMax, sqrt).value.t
    decreases |objects|
  {
    if Hit(objects[i], ray, tMin, tMax, sqrt).Some? {
      NearestIsClosestToHit(objects, ray, tMin, tMax, sqrt, i);
    }
  }

  lemma {:induction false} NearestIsClosestToHit(objects: seq<Sphere>, ray: Ray, tMin: real, tMax: Bound, sqrt: real -> real, i: int)
    requires IsSqrt(sqrt)
    requires ray.direction != Zeros
    requires WellFormedScene(objects)
    requires 0 <= i < |objects|
    requires Hit(objects[i], ray, tMin, tMax, sqrt).Some?
    ensures Nearest(objects, ray, tMin, tMax, sqrt).Some?
    ensures Nearest(objects, ray, tMin, tMax, sqrt).value.t <= Hit(objects[i], ray, tMin, tMax, sqrt).value.t
    decreases |objects|
  {
    var init := objects[..|objects| - 1];
    var last := objects[|objects| - 1];
    var before := Nearest(init, ray, tMin, tMax, sqrt);
    var bound := if before.Some? then UpTo(before.value.t) else tMax;
    var h := Hit(last, ray, tMin, bound, sqrt);
    var hi := Hit(objects[i], ray, tMin, tMax, sqrt).value;
    if i < |objects| - 1 {
      assert objects[i] == init[i];
      NearestIsClosestToHit(init, ray, tMin, tMax, sqrt, i);
      if h.Some? {
        assert h.value.t <= before.value.t;
      }
    } else if before.Some? {
      HitBelowTighterBound(last, ray, tMin, before.value.t, tMax, sqrt);
      if h.None? {
        assert hi.t > before.value.t;
      }
    }
  }

  /** `hit` finds nothing exactly when no object is hit within [tMin, tMax]. */
  lemma NearestNoneIff(objects: seq<Sphere>, ray: Ray, tMin: real, tMax: Bound, sqrt: real -> real)
    requires IsSqrt(sqrt)
    requires ray.direction != Zeros
    requires WellFormedScene(objects)
    ensures Nearest(objects, ray, tMin, tMax, sqrt).None?
      <==> forall i :: 0 <= i < |objects| ==> Hit(objects[i], ray, tMin, tMax, sqrt).None?
  {
    if Nearest(objects, ray, tMin, tMax, sqrt).Some? {
      NearestIsAnObjectsHit(objects, ray, tMin, tMax, sqrt);
    } else {
      forall i | 0 <= i < |objects|
        ensures Hit(objects[i], ray, tMin, tMax, sqrt).None?
      {
        NearestIsClosest(objects, ray, tMin, tMax, sqrt, i);
      }
    }
  }

  /**
    * Appending an object never loses a hit and never moves it further away: the bound `closest`
    * only shrinks during the scan.
    */
  lemma NearestNarrows(objects: seq<Sphere>, sphere: Sphere, ray: Ray, tMin: real, tMax: Bound, sqrt: real -> real)
    requires IsSqrt(sqrt)
    requires ray.direction != Zeros
    requires WellFormedScene(objects + [sphere])
    ensures WellFormedScene(objects)
    ensures Nearest(objects, ray, tMin, tMax, sqrt).Some? ==>
      Nearest(objects + [sphere], ray, tMin, tMax, sqrt).Some? &&
      Nearest(objects + [sphere], ray, tMin, tMax, sqrt).value.t <= Nearest(objects, ray, tMin, tMax, sqrt).value.t
  {
    assert (objects + [sphere])[..|objects|] == objects;
    assert forall i :: 0 <= i < |objects| ==> objects[i] == (objects + [sphere])[i];
  }

  /**
    * `hit` over two spheres: the later sphere's hit wins when it is at least as close as the
    * earlier one's, since `Sphere::hit` accepts `t == closest`.
    */
  lemma NearestOfTwo(a: Sphere, b: Sphere, ray: Ray, tMin: real, tMax: Bound, sqrt: real -> real)
    requires IsSqrt(sqrt)
    requires ray.direction != Zeros
    requires a.radius != 0.0 && b.radius != 0.0
    ensures WellFormedScene([a, b])
    ensures var ha, hb := Hit(a, ray, tMin, tMax, sqrt), Hit(b, ray, tMin, tMax, sqrt);
      Nearest([a, b], ray, tMin, tMax, sqrt)
        == if ha.None? || (hb.Some? && hb.value.t <= ha.value.t) then hb else ha
  {
    var ha := Hit(a, ray, tMin, tMax, sqrt);
    assert [a, b][..1] == [a];
    assert [a][..0] == [];
    assert Nearest([a], ray, tMin, tMax, sqrt) == ha;
    if ha.Some? {
      HitBelowTighterBound(b, ray, tMin, ha.value.t, tMax, sqrt);
    }
  }

  /**
    * The order of two spheres does not matter as long as they are not both hit at the same
    * parameter.
    */
  lemma NearestOrderIndependent(a: Sphere, b: Sphere, ray: Ray, tMin: real, tMax: Bound, sqrt: real -> real)
    requires IsSqrt(sqrt)
    requires ray.direction != Zeros
    requires a.radius != 0.0 && b.radius != 0.0
    requires var ha, hb := Hit(a, ray, tMin, tMax, sqrt), Hit(b, ray, tMin, tMax, sqrt);
      ha.Some? && hb.Some? ==> ha.value.t != hb.value.t
    ensures WellFormedScene([a, b]) && WellFormedScene([b, a])
    ensures Nearest([a, b], ray, tMin, tMax, sqrt) == Nearest([b, a], ray, tMin, tMax, sqrt)
  {
    NearestOfTwo(a, b, ray, tMin, tMax, sqrt);
    NearestOfTwo(b, a, ray, tMin, tMax, sqrt);
  }

  /** When both spheres are hit at the same parameter, the later one's record is returned. */
  lemma TieGoesToLater(a: Sphere, b: Sphere, ray: Ray, tMin: real, tMax: Bound, sqrt: real -> real)
    requires IsSqrt(sqrt)
    requires ray.direction != Zeros
    requires a.radius != 0.0 && b.radius != 0.0
    requires var ha, hb := Hit(a, ray, tMin, tMax, sqrt), Hit(b, ray, tMin, tMax, sqrt);
      ha.Some? && hb.Some? && ha.value.t == hb.value.t
    ensures WellFormedScene([a, b]) && WellFormedScene([b, a])
    ensures Nearest([a, b], ray, tMin, tMax, sqrt) == Hit(b, ray, tMin, tMax, sqrt)
    ensures Nearest([b, a], ray, tMin, tMax, sqrt) == Hit(a, ray, tMin, tMax, sqrt)
  {
    NearestOfTwo(a, b, ray, tMin, tMax, sqrt);
    NearestOfTwo(b, a, ray, tMin, tMax, sqrt);
  }

  /**
    * Two copies of one sphere that differ only in material tie at every hit, so the order of the
    * list decides which material is seen.
    */
  lemma CoincidentSpheresDependOnOrder(c: Point3, radius: real, m1: Material, m2: Material, ray: Ray, tMin: real, tMax: Bound, sqrt: real -> real)
    requires IsSqrt(sqrt)
    requires ray.direction != Zeros
    requires radius != 0.0
    requires m1 != m2
    requires Hit(Sphere(c, radius, m1), ray, tMin, tMax, sqrt).Some?
    ensures WellFormedScene([Sphere(c, radius, m1), Sphere(c, radius, m2)])
    ensures WellFormedScene([Sphere(c, radius, m2), Sphere(c, radius, m1)])
    ensures var r := Nearest([Sphere(c, radius, m1), Sphere(c, radius, m2)], ray, tMin, tMax, sqrt);
      r.Some? && r.value.material == m2
    ensures var r := Nearest([Sphere(c, radius, m2), Sphere(c, radius, m1)], ray, tMin, tMax, sqrt);
      r.Some? && r.value.material == m1
  {
    var a, b := Sphere(c, radius, m1), Sphere(c, radius, m2);
    assert Discriminant(a, ray) == Discriminant(b, ray);
    assert NearRoot(a, ray, sqrt) == NearRoot(b, ray, sqrt);
    HitIsAcceptedNearRoot(a, ray, tMin, tMax, sqrt);
    HitIsAcceptedNearRoot(b, ray, tMin, tMax, sqrt);
    TieGoesToLater(a, b, ray, tMin, tMax, sqrt);
  }

  /** The material of any hit `hit` returns is the material of one of the objects. */
  lemma NearestMaterialFromScene(objects: seq<Sphere>, ray: Ray, tMin: real, tMax: Bound, sqrt: real -> real)
    requires IsSqrt(sqrt)
    requires ray.direction != Zeros
    requires WellFormedScene(objects)
    requires Nearest(objects, ray, tMin, tMax, sqrt).Some?
    ensures exists i :: 0 <= i < |objects| && Nearest(objects, ray, tMin, tMax, sqrt).value.material == objects[i].material
  {
    NearestIsAnObjectsHit(objects, ray, tMin, tMax, sqrt);
    var i :| 0 <= i < |objects| && Hit(objects[i], ray, tMin, tMax, sqrt) == Nearest(objects, ray, tMin, tMax, sqrt);
  }
}
