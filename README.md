# A verified model of a Monte Carlo sphere ray tracer

This project models the rendering core of a small Rust path tracer in Dafny:
- three-component vectors, also used as points and colours;
- rays and hit records;
- ray-sphere intersection;
- a list of spheres that keeps the nearest hit;
- three materials (Lambertian, metal, glass) with mirror reflection and Snell refraction;
- the recursive integrator `ray_color`;
- the pinhole camera.

Arithmetic is over Dafny's `real`, not IEEE `f64`. The square root is a parameter `sqrt: real -> real`, constrained by the ghost predicate `RealSqrt.IsSqrt`: the result is non-negative and squares back to its argument for every `x >= 0`. Everything else about `sqrt` is proved from that: uniqueness, monotonicity, and `sqrt(x) < 1` on `[0, 1)`.

The random draws of one bounce become parameters: a `Scattering.Draw` holds a unit vector and a vector inside the unit sphere. The trait objects `dyn Material` and `dyn Hittable` become the closed datatypes `Materials.Material` and `Spheres.Sphere`.

Files, one per source file, plus three small support modules:

| file | modules | models |
|---|---|---|
| vec3.dfy | `Vector` | src/vec3.rs |
| ray.dfy | `Rays`, `Hittables` | src/ray.rs |
| sphere.dfy | `Spheres` | src/sphere.rs |
| material.dfy | `Materials`, `Scattering` | src/material.rs |
| main.dfy | `Integrator` | `ray_color` of src/main.rs |
| camera.dfy | `Cameras` | src/camera.rs |
| reals.dfy, sqrt.dfy, options.dfy | `RealArith`, `RealSqrt`, `Options` | facts about real products, the square-root contract, `Option` |

The Rust code has a module cycle: `material.rs` uses `HitRecord` from `ray.rs`, and `HitRecord` carries a material. To break it, the material data and optics live in `Materials` and `scatter` lives in `Scattering`, after `Rays`.

Where the source is inconsistent, the model follows the callers:
- `HitRecord` has a `material` field, which `sphere.rs` sets and `main.rs` reads.
- A `Ray` is built from `(origin, direction)`.
- The list holds `Sphere` values.

In four places the code does something other than what a reader of a textbook tracer might expect. The model follows the code:
- The acceptance interval of `hit` is inclusive at both ends (`t < t_min || t > t_max` rejects).
- The order of the list matters on a tie. It does not matter as long as only one object reaches the nearest `t`. When two objects are hit at the same `t`, the later one's record wins: `Sphere::hit` accepts `t == closest` (src/sphere.rs:36) and the scan then replaces the record it kept (src/ray.rs:69-71).
- `Metal::new` only caps the fuzz at 1 and keeps negative values.
- A metal absorbs according to the mirror reflection *before* the fuzz is added.

`Vec3`'s `Index` is modelled as a function returning `Option<real>`, `None` standing for the panic, rather than with a precondition. That way `cross`, which reads index 0, can be written as it stands and proved to fail on every input (see Findings).

## Model

| member | source | states |
|---|---|---|
| Vector.Index | src/vec3.rs:144-154 | defined exactly for indices 1, 2, 3, which give x, y, z; every other index, 0 included, panics (`None`) |
| Vector.Add | src/vec3.rs:156-165 | componentwise sum (no contract of its own; `Vector.SubIsAddNeg` relates it to `Sub` and `Neg`) |
| Vector.AddScalar | src/vec3.rs:167-177 | adds the scalar to every component (related to `Add` by `Vector.ScalarFormsBroadcast`) |
| Vector.Sub | src/vec3.rs:195-204 | componentwise difference (`Vector.SubIsAddNeg`: `u - v == u + (-v)` and `(u - v) + v == u`) |
| Vector.SubScalar | src/vec3.rs:206-216 | subtracts the scalar from every component (related to `Sub` by `Vector.ScalarFormsBroadcast`) |
| Vector.Mul | src/vec3.rs:234-243 | componentwise product (`Vector.DivUndoesMul` relates it to `Div`) |
| Vector.Scale | src/vec3.rs:245-255 | `v * k` scales every component (`Vector.ScalarFormsBroadcast`, `Vector.DivScalarIsScaleByInverse`) |
| Vector.ScalarMul | src/vec3.rs:257-267 | `k * v` scales every component (`Vector.ScalarMulCommutes`: it equals `v * k`) |
| Vector.Div | src/vec3.rs:285-294 | componentwise quotient, for divisors without zero components (`Vector.DivUndoesMul`) |
| Vector.DivScalar | src/vec3.rs:296-306 | divides every component by a non-zero scalar (`Vector.DivScalarIsScaleByInverse`) |
| Vector.Neg | src/vec3.rs:324-334 | negates every component (`Vector.NegIsScaleByMinusOne`) |
| Vector.Dot | src/vec3.rs:96-98 | the dot product (symmetric and linear by `Vector.DotSymmetric`, `Vector.DotSubScaled`, `Vector.DotAddScaled`) |
| Vector.NearZero | src/vec3.rs:124-127 | every component strictly below 1e-8, without absolute value (`Vector.NearZeroByIndex`, `Vector.SmallIsNearZero`, `Vector.NearZeroIgnoresNegativeComponents`) |
| Vector.SubIsAddNeg | src/vec3.rs:195-204 | `u - v == u + (-v)`, and adding `v` back gives `u` |
| Vector.ScalarFormsBroadcast | src/vec3.rs:167-177 | `v + k`, `v - k` and `v * k` equal the vector operators applied to `(k, k, k)` |
| Vector.DivUndoesMul | src/vec3.rs:285-294 | componentwise division and multiplication by a vector without zero components undo each other |
| Vector.DivScalarIsScaleByInverse | src/vec3.rs:296-306 | `v / k == v * (1/k)` and `(v / k) * k == v` for `k != 0` |
| Vector.ScalarMulCommutes | src/vec3.rs:245-267 | `k * v == v * k` |
| Vector.NegIsScaleByMinusOne | src/vec3.rs:324-334 | `-v == v * -1`, and negating twice gives `v` back |
| Vector.MutVec3.constructor | src/vec3.rs:25-27 | the new mutable vector holds the given value |
| Vector.MutVec3.AddAssign | src/vec3.rs:179-185 | after `self += other` the value is the old value plus `other` |
| Vector.MutVec3.AddAssignScalar | src/vec3.rs:187-193 | after `self += k` the value is the old value plus `k` in every component |
| Vector.MutVec3.SubAssign | src/vec3.rs:218-224 | after `self -= other` the value is the old value minus `other` |
| Vector.MutVec3.SubAssignScalar | src/vec3.rs:226-232 | after `self -= k` the value is the old value minus `k` in every component |
| Vector.MutVec3.MulAssign | src/vec3.rs:269-275 | after `self *= other` the value is the componentwise product with the old value |
| Vector.MutVec3.MulAssignScalar | src/vec3.rs:277-283 | after `self *= k` the value is the old value scaled by `k` |
| Vector.MutVec3.DivAssign | src/vec3.rs:308-314 | after `self /= other` the value is the componentwise quotient of the old value |
| Vector.MutVec3.DivAssignScalar | src/vec3.rs:316-322 | after `self /= k` the value is the old value divided by `k` |
| Vector.DotSymmetric | src/vec3.rs:96-98 | the dot product is symmetric |
| Vector.DotSubScaled | src/vec3.rs:96-98 | the dot product is linear: `(u - k v) . w == u . w - k (v . w)` |
| Vector.DotAddScaled | src/vec3.rs:96-98 | `(u + k v) . w == u . w + k (v . w)` |
| Vector.Sum | src/vec3.rs:92-94 | the sum of the components is the dot product with (1, 1, 1) |
| Vector.LengthSq | src/vec3.rs:133-135 | `lengthsq(v) == v . v`; it is at least 0, and positive exactly when `v` is not the zero vector |
| Vector.ZerosByComponents | src/vec3.rs:29-35 | a vector is the zero vector exactly when all three components are 0 |
| Vector.Length | src/vec3.rs:129-131 | the length is non-negative, squares to `lengthsq`, and is positive exactly for non-zero vectors |
| Vector.Unit | src/vec3.rs:108-110 | for a non-zero vector `unit(v)` has squared length 1, and its dot product with `v` is `length(v)` |
| Vector.Cross | src/vec3.rs:100-106 | as written, `cross` panics on every pair of vectors because it reads index 0 |
| Vector.CrossProduct | src/vec3.rs:100-106 | the intended cross product is orthogonal to both arguments |
| Vector.CrossProductAntiCommutes | src/vec3.rs:100-106 | swapping the arguments negates the intended cross product, and `u x u` is zero |
| Vector.Min | src/vec3.rs:68-74 | every component of `min(v, k)` is at most the original and at most `k`; a component already at most `k` is kept, a larger one becomes `k` |
| Vector.Abs | src/vec3.rs:84-90 | every component of `abs` is non-negative and equals the original up to sign; the squared length is unchanged |
| Vector.Sqrt | src/vec3.rs:76-82 | every non-negative component is replaced by its non-negative square root |
| Vector.NearZeroByIndex | src/vec3.rs:124-127 | `near_zero` holds exactly when each of the components at indices 1, 2, 3 is strictly below 1e-8 |
| Vector.SmallIsNearZero | src/vec3.rs:124-127 | a vector whose components are all smaller than 1e-8 in magnitude is near zero |
| Vector.NearZeroIgnoresNegativeComponents | src/vec3.rs:124-127 | with no absolute value, a vector of large negative components (squared length at least 3) also counts as near zero |
| Vector.Channel | src/vec3.rs:114-120 | a clamped, gamma-corrected, scaled and floored channel is an integer in 0..255 |
| Vector.ToRgb | src/vec3.rs:112-122 | for at least one sample per pixel, each of the three channels of `rgb` is in 0..255 |
| Vector.ChannelMonotone | src/vec3.rs:112-122 | a larger channel value never gives a smaller pixel value |
| Vector.ChannelOfNonPositive | src/vec3.rs:112-122 | a channel value at or below 0 gives 0 |
| Vector.ChannelSaturates | src/vec3.rs:112-122 | a channel value at or above the 0.999 clamp gives 255 |
| Rays.At | src/ray.rs:13-15 | `at(t) - origin == direction * t` |
| Rays.AtZero | src/ray.rs:13-15 | `at(0) == origin` |
| Rays.AtShift | src/ray.rs:13-15 | `at(s + t) == at(s) + direction * t` |
| Rays.FaceNormal | src/ray.rs:31-40 | `front_face` holds exactly when `direction . outward < 0`; the normal is `outward` on the front face and `-outward` otherwise, grazing included, so it runs against the ray (`direction . normal <= 0`) |
| Rays.FaceNormalKeepsLength | src/ray.rs:31-40 | the oriented normal has the outward normal's length |
| Rays.FaceNormalOfReversed | src/ray.rs:31-40 | unless the ray grazes, reversing the outward normal flips `front_face` and keeps the oriented normal |
| Rays.BoundMonotone | src/ray.rs:64-72 | an infinite upper bound admits every `t`, and a larger bound admits more |
| Hittables.Nearest | src/ray.rs:64-76 | what the scan computes after visiting the objects in order: `None` for no objects, and any hit it keeps has `t_min <= t` and is admitted by `t_max` |
| Hittables.HittableList.constructor | src/ray.rs:48-52 | `new()` is empty |
| Hittables.HittableList.Clear | src/ray.rs:54-56 | `clear()` leaves the list empty |
| Hittables.HittableList.Add | src/ray.rs:58-60 | `add` appends the sphere at the end and keeps the earlier entries |
| Hittables.HittableList.Hit | src/ray.rs:64-76 | the scan returns the nearest-hit result `Nearest` of its objects, and `None` on an empty list; the loop keeps `closest` equal to the best `t` so far, admitted by `t_max` |
| Hittables.NearestIsAnObjectsHit | src/ray.rs:64-76 | any hit found is the hit that one of the objects reports for the whole interval [t_min, t_max] |
| Hittables.NearestIsClosest | src/ray.rs:64-76 | whenever an object reports a hit, a hit is found, and its `t` is no larger than that object's |
| Hittables.NearestIsClosestToHit | src/ray.rs:64-76 | the same, for an object known to report a hit |
| Hittables.NearestNoneIff | src/ray.rs:64-76 | the list finds nothing exactly when no object reports a hit |
| Hittables.NearestNarrows | src/ray.rs:58-72 | appending a sphere never loses a hit and never moves the nearest hit further away |
| Hittables.NearestOfTwo | src/ray.rs:64-76 | over two spheres the result is the later sphere's hit when that is at least as close as the earlier one's, else the earlier one's |
| Hittables.NearestOrderIndependent | src/ray.rs:64-76 | swapping two spheres gives the same result unless both are hit at the same `t` |
| Hittables.TieGoesToLater | src/ray.rs:69-71 | when two spheres are hit at the same `t`, each order returns the record of the sphere that comes later |
| Hittables.CoincidentSpheresDependOnOrder | src/sphere.rs:36 | two copies of one sphere with different materials: the material seen is the later copy's, so the two orders differ |
| Hittables.NearestMaterialFromScene | src/ray.rs:64-76 | the material of a hit found is the material of one of the objects |
| Spheres.NearRoot | src/sphere.rs:25-35 | no root exactly when the discriminant is negative; otherwise `a > 0` and the root `t` satisfies `t a == -half_b - sqrt(disc)` |
| Spheres.RecordAt | src/sphere.rs:40-50 | the record has the given `t`, the point `at(t)`, the sphere's material; with `outward = (point - center) / radius`, `front_face` holds exactly when the ray runs against `outward`, and the normal is `outward` on the front face and `-outward` otherwise, so it runs against the ray |
| Spheres.Hit | src/sphere.rs:24-51 | a hit has `t_min <= t <= t_max` (both ends included), lies at `at(t)`, carries the sphere's material, and has the face flag and face normal of `outward = (point - center) / radius`: `outward` on the front face, `-outward` otherwise, so the normal runs against the ray |
| Spheres.HitDependsOnBoundOnlyByAcceptance | src/sphere.rs:36-38 | the upper bound only decides whether the one candidate root is accepted |
| Spheres.HitBelowTighterBound | src/sphere.rs:36-38 | narrowing the bound to a value the old bound admits keeps exactly the hits at or below that value |
| Spheres.DistanceAlongRay | src/sphere.rs:25-28 | the squared distance of `at(t)` from the centre is `|oc|^2 + 2 t (oc . d) + t^2 |d|^2` |
| Spheres.OnSurfaceIffRoot | src/sphere.rs:25-29 | `at(t)` lies on the sphere exactly when `t` solves `a t^2 + 2 half_b t + c == 0` |
| Spheres.NegativeDiscriminantMisses | src/sphere.rs:29-32 | a negative discriminant gives no hit, whatever the bounds |
| Spheres.HitIsAcceptedNearRoot | src/sphere.rs:29-50 | `hit` is the record at the near root when that root exists and lies in [t_min, t_max], and no hit otherwise, even when the far root lies in the interval |
| Spheres.HitParameter | src/sphere.rs:34-35 | the `t` of a hit is the near root |
| Spheres.NearRootOnSurface | src/sphere.rs:34-35 | the point at the near root lies on the sphere |
| Spheres.NearRootIsEntering | src/sphere.rs:34-35 | at the near root the ray enters or grazes the sphere, never leaves it |
| Spheres.NearRootIsFirst | src/sphere.rs:34-35 | no point of the ray's line on the sphere has a smaller parameter than the near root |
| Spheres.HitOnSurface | src/sphere.rs:25-40 | every hit point lies on the sphere |
| Spheres.HitNormalIsUnit | src/sphere.rs:40-42 | the normal of every hit has unit length |
| Spheres.RecordNormalIsUnit | src/sphere.rs:41-42 | the record at a surface point has a unit normal |
| Spheres.HitIsEntering | src/sphere.rs:34-42 | at every hit the ray is entering or grazing the sphere |
| Spheres.EnteringAt | src/sphere.rs:25-28 | along the ray, `(at(t) - center) . d == t a + half_b` |
| Spheres.HitIsFirstOnLine | src/sphere.rs:34-38 | no point of the line on the sphere has a smaller parameter than a hit, not even one below `t_min` |
| Spheres.EnteringPointIsRoot | src/sphere.rs:25-29 | a surface point where the ray enters is a root at which the quadratic does not increase |
| Spheres.NearRootAtEnteringRoot | src/sphere.rs:29-35 | the near root is the parameter of any surface point where the ray enters or grazes |
| Spheres.EnteringSurfacePointIsHit | src/sphere.rs:24-51 | conversely, a surface point in [t_min, t_max] where the ray enters is the hit that is found |
| Spheres.NearRootBehindInsideOrigin | src/sphere.rs:29-35 | from an origin strictly inside the sphere, the near root lies behind the origin |
| Spheres.StartInsideIsNeverHit | src/sphere.rs:34-38 | a ray starting strictly inside the sphere is never hit at `t >= 0`, because the far root is never tried |
| Spheres.OutsideAwayStaysOutside | src/sphere.rs:25-29 | from an origin outside the sphere with `oc . d >= 0`, every point at `t >= 0` is strictly outside |
| Spheres.OutsideAwayMisses | src/sphere.rs:24-38 | a ray starting outside the sphere and pointing away from its centre is never hit when `t_min >= 0` |
| Materials.NewMetal | src/material.rs:38-43 | the stored fuzz is at most 1; it equals the argument when the argument is at most 1, and is 1 otherwise |
| Materials.NewMetalKeepsNegativeFuzz | src/material.rs:38-43 | there is no lower clamp: a negative fuzz stays negative |
| Materials.MirrorReflect | src/material.rs:89-91 | `d - 2 (d . n) n` (no contract of its own; its properties are the four `Reflect` lemmas below) |
| Materials.ReflectNegatesNormalComponent | src/material.rs:89-91 | about a unit normal, the reflection has dot product `-(d . n)` with the normal |
| Materials.ReflectTwice | src/material.rs:89-91 | reflecting twice about the same unit normal gives the incident vector back |
| Materials.ReflectPreservesLength | src/material.rs:89-91 | reflection about a unit normal preserves the squared length |
| Materials.ReflectKeepsTangent | src/material.rs:89-91 | reflection keeps the dot product with every vector orthogonal to the normal |
| Materials.CosTheta | src/material.rs:94 | `cos_theta <= 1`, and it is `n . -uv` whenever that is at most 1 |
| Materials.ParallelLength | src/material.rs:96 | the length of the parallel part is non-negative and squares to `abs(1 - |r_out_perp|^2)` |
| Materials.RefractPerp | src/material.rs:95 | `r_out_perp = etai_over_etat (uv + cos_theta n)` (its squared length feeds `Materials.ParallelLength`) |
| Materials.SnellRefract | src/material.rs:93-98 | `r_out_parallel + r_out_perp` (no contract of its own; see `Materials.RefractParallelOpposesNormal` and `Materials.RefractWithRatioOneIsIdentity`) |
| Materials.RefractParallelOpposesNormal | src/material.rs:93-98 | the part `snell_refract` adds to `r_out_perp` never points along a unit normal |
| Materials.Lagrange | src/material.rs:93-98 | `|u|^2 |v|^2 - (u . v)^2` is the squared length of the cross product |
| Materials.UnitDotBounded | src/material.rs:94 | the dot product of two unit vectors lies in [-1, 1] |
| Materials.RefractWithRatioOneIsIdentity | src/material.rs:93-98 | with ratio 1, a unit direction that meets a unit normal from the front passes through `snell_refract` unchanged |
| Scattering.RefractionRatio | src/material.rs:76-80 | the ratio times `ir` is 1 on the front face, and the ratio is `ir` from behind |
| Scattering.Scatter | src/material.rs:19-86 | Lambertian and Dielectric always scatter; Metal scatters exactly when the unfuzzed reflection has positive dot product with the normal. Every scattered ray starts at the hit point. Lambertian gives the albedo and `normal + u` (or `normal` when that is near zero), Metal the albedo and `reflected + fuzz s`, Dielectric (1, 1, 1) and the refraction with ratio `1/ir` or `ir` |
| Scattering.LambertianDirection | src/material.rs:20-26 | `normal + u`, or `normal` when that is near zero (`Scattering.LambertianDirectionNonZero`) |
| Scattering.LambertianDirectionNonZero | src/material.rs:20-26 | the Lambertian direction is never zero when the normal is not |
| Scattering.PolishedMetalReflects | src/material.rs:47-61 | a metal with no fuzz scatters along the exact mirror direction |
| Scattering.MetalScattersIffIncoming | src/material.rs:47-61 | about a unit normal, a metal scatters exactly when the unit incoming direction has negative dot product with the normal |
| Integrator.Gradient | src/main.rs:32 | the blend is `(1 - 0.5 t, 1 - 0.3 t, 1)`: for `t` in [0, 1] x lies in [0.5, 1], y in [0.7, 1] and z = 1; `t = 0` gives white and `t = 1` sky blue |
| Integrator.Background | src/main.rs:30-32 | the background seen in any direction has x in [0.5, 1], y in [0.7, 1] and z = 1 |
| Integrator.BackgroundVertical | src/main.rs:30-32 | looking straight up shows sky blue (0.5, 0.7, 1), straight down shows white |
| Integrator.RayColor | src/main.rs:17-33 | black at depth 0; the background for a ray that hits nothing in [0.001, infinity); terminates because `depth` decreases |
| Integrator.NearestCanScatter | src/main.rs:22-23 | the material of a hit in a well-formed world can scatter the ray |
| Integrator.EmptyWorldShowsBackground | src/main.rs:22-32 | with no spheres every ray shows the background at every positive depth |
| Integrator.AbsorbedIsBlack | src/main.rs:25-27 | a hit whose material absorbs the ray is black |
| Integrator.ScatteredIsAttenuated | src/main.rs:23-24 | a hit that scatters shows the attenuation times the colour of the scattered ray, one level shallower |
| Integrator.MulInUnitCube | src/main.rs:24 | the componentwise product of two colours in the unit cube stays in it |
| Integrator.AttenuationInUnitCube | src/main.rs:23 | a material whose albedo lies in the unit cube, or glass, attenuates by a colour in the unit cube |
| Integrator.RayColorInUnitCube | src/main.rs:17-33 | when every material dims, every colour `ray_color` returns lies in the unit cube, at every depth (induction on `depth`) |
| Cameras.New | src/camera.rs:14-25 | `horizontal == (w, 0, 0)`, `vertical == (0, h, 0)` with the height first, and the origin as given |
| Cameras.NewLowerLeftCorner | src/camera.rs:17 | the lower left corner is `(o.x - w/2, o.y - h/2, o.z - f)` |
| Cameras.Default | src/camera.rs:27-44 | the default camera sits at the origin |
| Cameras.DefaultIsNew | src/camera.rs:27-44 | `default()` has exactly the fields of `new(2, 2 * 16/9, 1, (0, 0, 0))` |
| Cameras.RayAt | src/camera.rs:46-51 | the ray starts at the camera's origin and reaches `lower_left_corner + u horizontal + v vertical` at parameter 1 |
| Cameras.RayAtDirection | src/camera.rs:46-51 | for a camera from `new(h, w, f, o)` the direction of `ray_at(u, v)` is `((u - 1/2) w, (v - 1/2) h, -f)`, whatever the origin |
| Cameras.CentreRayLooksAhead | src/camera.rs:46-51 | `ray_at(0.5, 0.5)` looks straight ahead, along `(0, 0, -f)` |

## Left out

- Random numbers: `Vec3::random`, `random_range`, `random_within_sphere`, `random_unit_vector`, `random_double` and src/random.rs are left out. Their results are parameters (`Scattering.Draw`). Every property proved holds for arbitrary draws, so nothing depends on a draw being a unit vector or lying inside the unit sphere. The rejection loop has no bound and does nothing else.
- `main()`: the scene setup, the per-pixel sampling loop and the PPM output are configuration and I/O. The camera, `ray_color` and `rgb` that it calls are modelled.
- `Display` for `Vec3` and `Rgb`: text formatting only.
- IEEE-754 behaviour: rounding, NaN, infinity and `f64::sqrt` are not modelled. Arithmetic is exact over `real`, `t_max = INFINITY` is `Rays.Bound.Unbounded`, and `sqrt` is a parameter constrained by `IsSqrt`.
- `Rgb`'s `u64` channels are `int`. The channels are always in 0..255, so the `as u64` conversion never truncates.
- `Rc` sharing and `dyn` dispatch carry no behaviour here. Materials and spheres are datatypes, and `HittableList` holds spheres, not nested lists.
- `Vector.Div`, `Vector.DivScalar`, `Vector.MutVec3.DivAssign`, `Vector.MutVec3.DivAssignScalar`: they require non-zero divisors, because f64 division by zero yields infinity or NaN, which is not modelled.
- `Vector.Unit`: requires a non-zero vector; the source gives NaN components for the zero vector.
- `Vector.ToRgb`: requires `sample_per_pixel > 0`; the source divides by zero otherwise.
- `Spheres.Hit`: requires a non-zero ray direction and a non-zero radius. For a zero direction `a`, `half_b` and the discriminant are all 0, so the test at src/sphere.rs:30 passes and src/sphere.rs:35 computes `t = 0/0`, which is NaN. A zero-radius sphere divides by 0 only for a ray whose line passes through its centre: for any other ray the discriminant is negative and `hit` returns `None` before dividing. Zero radii are still excluded, because the scene never builds such a sphere.
- `Hittables.Nearest`, `Hittables.HittableList.Hit`: require a non-zero ray direction and `WellFormedScene` (every radius non-zero), even for an empty list, where the source returns `None` without reading the ray. These requires are lifted from those of `Spheres.Hit`. `Integrator.RayColor`, which calls `Nearest`, already answers a zero direction with `None` before that call.
- `Scattering.Scatter`: requires `Scattering.CanScatter`: a non-zero incoming direction for a metal or glass, whose `scatter` divides by `length()`, and `ir != 0` for glass hit from the front, which divides by `ir`. A Lambertian surface never reads the ray, so it is not constrained.
- `Integrator.RayColor`: returns `None` for a ray with zero direction traced at positive depth. The source computes that colour through NaN: in an empty world the background divides 0 by 0; otherwise every sphere's `t = 0/0` passes both rejection tests, the NaN record is scattered (or absorbed by a metal), and the colour ends as attenuations times black. NaN is not modelled, so neither outcome is. It requires a world whose spheres have non-zero radii and whose glass has a non-zero index, and one `Draw` per level of depth.
- `Materials.SnellRefract`: has no contract of its own. Its properties are `Materials.CosTheta`, `Materials.ParallelLength`, `Materials.RefractParallelOpposesNormal` and `Materials.RefractWithRatioOneIsIdentity`. Total internal reflection is not detected, as in the source, so no claim is made about the refracted direction in general.
- `Cameras.Default`: its own contract states only the origin. The fields are stated by `Cameras.DefaultIsNew` together with `Cameras.New` and `Cameras.NewLowerLeftCorner`.
- `Vector.Index`: modelled as a total function returning `None` for a panicking index, not with a precondition. As a result `Vector.Cross` is total and always `None`.

## Findings

| source | as written | input that shows it | evidently intended | confidence | as-written member | corrected member |
|---|---|---|---|---|---|---|
| src/vec3.rs:100-106 | `cross` reads `self[0]` and `other[0]`, but `Index` accepts only 1, 2, 3 (src/vec3.rs:146-152), so every call panics | any pair, e.g. `(1,0,0).cross((0,1,0))` | the usual cross product `(u.y v.z - u.z v.y, u.z v.x - u.x v.z, u.x v.y - u.y v.x)`, orthogonal to both arguments | not executed | Vector.Cross | Vector.CrossProduct |
