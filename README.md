# Sphere ray tracer: a Dafny model of its decision logic

This project models the exact, decision-making core of a small Monte Carlo sphere ray
tracer. The parts modelled are:

- the ray value type;
- reflection and the rejection sampler for a random point in the unit sphere;
- ray–sphere intersection and its root selection;
- the nearest-hit loop over a list of surfaces;
- the three materials' scatter decisions;
- the fixed default camera;
- the depth-limited recursive colour estimate `GetColor`.

Eigen's `Vector3f` is modelled as a triple of exact reals (`Vectors.Vec3`). So "the normal
has unit length" and "the hit point lies on the sphere" are statements about exact
arithmetic, not about single-precision floats.

Some operations are inputs to the model rather than defined in it:

- The square root is a parameter `sqrt` constrained by `Vectors.IsSqrt`: the result is
  non-negative and squares back to its argument.
- Eigen's `normalized()` is `Vectors.Normalized`. It divides by that square root when the
  squared norm is positive, and returns the vector unchanged otherwise.
- `Refract`, which none of the modelled files defines, is a parameter `refract`. It
  returns the refracted direction, or `None` when it reports failure.
- The `drand48` stream is explicit data:
  - the sampler reads a finite sequence of draws;
  - a material receives the random vector it would draw as the argument `sample`;
  - `GetColor` receives one such vector per recursion depth.

C++ out-parameters become results:

- The sphere's `ComputeHit(..., HitResult* result)` becomes a function that takes the old
  record and returns `Option<HitResult>`. `None` means "returned false, `*result`
  untouched".
- `HitableList::ComputeHit` is an imperative loop proved against the fold
  `HitableLists.Nearest`.
- `Scatter` returns its three out-values together as a `Materials.Scattering`.

`HitResult` is generic in the material type, which mirrors the forward-declared
`Material*`. Spheres are the only concrete surface, so the world is a sequence of spheres.

The modules follow the source files:

| module | source file |
|---|---|
| `Rays` | ray.h |
| `Util` | util.h |
| `Hits` and `HitableLists` | hitable.h |
| `Spheres` | sphere.h |
| `Materials` | material.h |
| `Cameras` | camera.h |
| `Raytracer` | raytracer.cc |

`Vectors`, `RealArith` and `Options` are supporting modules.

## Model

| member | source | states |
|---|---|---|
| Rays.Ray.GetPointAtParameter | ray.h:15 | No requires and no ensures: it is `point + t * direction`. Its properties are stated by `Rays.GetPointAtParameterIsAffine`. |
| Rays.GetPointAtParameterIsAffine | ray.h:9-15 | The point at parameter 0 is the origin. At 1 it is `point + direction`. Moving the parameter by `s` moves the point by `s` directions, with the direction used as given (not normalised). |
| Vectors.Normalized | material.h:38 | Eigen's `normalized()`. A zero vector is returned unchanged. Otherwise the result has squared length 1, and the vector is a positive multiple of it (its length times the result). |
| Util.Reflect | util.h:15-17 | No requires and no ensures: it is `d - 2 dot(d, n) n`. Its properties are stated by the four `Util.Reflect*` lemmas below. |
| Util.ReflectFlipsNormalComponent | util.h:15-17 | For a unit normal, `dot(Reflect(d, n), n) == -dot(d, n)`. |
| Util.ReflectIsInvolution | util.h:15-17 | For a unit normal, reflecting twice gives back `d`. |
| Util.ReflectPreservesLength | util.h:15-17 | For a unit normal, `|Reflect(d, n)|^2 == |d|^2`. |
| Util.ReflectTangent | util.h:16 | A direction orthogonal to the normal is its own reflection. |
| Util.CandidateInCube | util.h:10 | With draws in `[0, 1)`, each component of each candidate `2 (r0, r1, r2) - (1, 1, 1)` lies in `[-1, 1)`. |
| Util.GetRandomVecInUnitSphere | util.h:7-13 | The loop's result is the first candidate that is strictly inside the unit sphere (`squaredNorm < 1`). Every earlier candidate was rejected. The result is `None` only when the draws run out with every candidate rejected. |
| Spheres.DegenerateNeverHits | sphere.h:10-15 | `a >= 0`. A zero direction (`a == 0`) or a zero radius gives a discriminant `<= 0`, so the divisions by `a` and by `radius` are never reached with a zero divisor. |
| Spheres.ComputeSphereHit | sphere.h:8-32 | A discriminant `<= 0` returns false. On success, `t_min < t < t_max` strictly, the point is the ray at `t`, and the material is left as it was. |
| Spheres.RootsOfSphere | sphere.h:14-23 | For a positive discriminant, the two candidates `(-b -+ sqrt(disc)) / a` are exactly the parameters where the ray meets the sphere, and the first is never larger than the second. |
| Spheres.SphereHitGeometry | sphere.h:17-28 | On success, the point lies on the sphere (`|point - center|^2 == radius^2`) and the normal has squared length 1. `dot(normal, point - center) == radius`, so the normal's sign follows the radius. |
| Spheres.SphereHitIsNearest | sphere.h:15-31 | On success, `t` is a parameter on the sphere, and no parameter on the sphere lies in `(t_min, t)`. The smaller root is taken whenever it is in the interval. On failure, a parameter on the sphere in `(t_min, t_max)` exists only for a tangent ray (discriminant 0). |
| Spheres.Sphere.ComputeHit | sphere.h:48-56 | Same outcome as `ComputeSphereHit`. On success the record carries the sphere's material and otherwise agrees with `ComputeSphereHit`'s record. |
| Spheres.ComputeHitIgnoresPriorRecord | sphere.h:17-28 | Every field of `*result` is written on success, so the old record never shows in the outcome. |
| Spheres.SphereHitShrink | sphere.h:15-31 | Lowering `t_max` to `bound` keeps the same hit if its `t` is below `bound` and loses it otherwise; a miss stays a miss. |
| HitableLists.Nearest | hitable.h:36-43 | The fold the loop computes: each surface is queried below the last accepted `t`. Any reported hit has `t_min < t < t_max`. |
| HitableLists.NearestIsClosest | hitable.h:37-43 | The list misses iff every surface misses on `(t_min, t_max)`. Otherwise the result is surface `j`'s own hit for some `j`, and its `t` is the minimum over all surfaces whatever the order. Every earlier surface misses or hits strictly later, so ties go to the earlier surface. |
| HitableLists.NearestStep | hitable.h:38-41 | One more surface never loses a found hit or moves it further away. When the record changes, the new `t` is strictly smaller. |
| HitableLists.ClosestNeverIncreases | hitable.h:36-42 | `closest_so_far` never increases from one prefix of the list to a longer one. |
| HitableLists.NearestIgnoresPriorRecord | hitable.h:34-41 | The initial contents of the record (uninitialised `temp_result`) never show in the outcome. |
| HitableLists.NearestMaterialFromList | hitable.h:38-41 | A reported hit carries the material of one of the listed surfaces. |
| HitableLists.NearestSingleton | hitable.h:37-43 | A one-surface list reports exactly that surface's hit. |
| HitableLists.HitableList.ComputeHit | hitable.h:32-45 | `hit_anything` is true iff the fold `Nearest` hits, and then `*result` is the fold's record. Otherwise (including the empty list) `*result` is unchanged. A hit has `t_min < t < t_max`. |
| Materials.ClampFuzz | material.h:33 | `std::max(std::min(fuzz, 1), 0)` lies in `[0, 1]`: identity inside, 1 above, 0 below. |
| Materials.NewMetal | material.h:32-34 | A Metal with the given albedo and `fuzz_` in `[0, 1]`, equal to the argument when that is in range. |
| Materials.NewDielectric | material.h:53-56 | A Dielectric with the given index and `fuzz_` in `[0, 1]`, equal to the argument when that is in range. |
| Materials.LambertianScatter | material.h:19-25 | No requires and no ensures. Its behaviour is stated through `Materials.Scatter` and `Materials.LambertianLeavesSurface`. |
| Materials.MetalScatter | material.h:36-45 | Requires `IsSqrt(sqrt)`; no ensures. Its behaviour is stated through `Materials.Scatter` and `Materials.MetalWithoutFuzzReflects`. |
| Materials.OutwardNormal | material.h:62-68 | No requires and no ensures. `Materials.DielectricSide` states its value in both branches. |
| Materials.RefractionRatio | material.h:62-68 | Requires `refractiveIndex != 0.0`; no ensures. `Materials.DielectricSide` states its value in both branches. |
| Materials.DielectricScatter | material.h:58-81 | Requires `refractiveIndex != 0.0`; no ensures. Its behaviour is stated through `Materials.Scatter` and `Materials.DielectricScatterOutcome`. |
| Materials.Scatter | material.h:19-80 | Every material's scattered ray starts at the hit point. Lambertian always succeeds with attenuation `albedo_` and direction `hit.normal + sample`. Metal has attenuation `albedo_`. Its direction is `Reflect(normalized(d), n)`, plus `fuzz_ * sample` when `fuzz_ > 0`. It succeeds iff that direction has a positive dot product with the normal. Dielectric always has attenuation `(1, 1, 1)`. |
| Materials.LambertianLeavesSurface | material.h:21 | With a unit normal and a sample strictly inside the unit sphere, `normal + sample` points out of the surface. |
| Materials.MetalWithoutFuzzReflects | material.h:38-44 | With `fuzz_ == 0` the direction is `Reflect(normalized(d), n)`. With a unit normal and `d != 0`, the scatter succeeds iff `dot(d, n) < 0`. |
| Materials.DielectricSide | material.h:62-68 | When `dot(d, n) > 0`, the outward normal is `-n` and `ni_over_nt` is the index. Otherwise, including `dot(d, n) == 0`, the outward normal is `n` and `ni_over_nt` is the inverse of the index. Either way, the outward normal never points along `d`. |
| Materials.DielectricScatterOutcome | material.h:72-80 | Succeeds iff `Refract` succeeds, then along the refracted direction. Otherwise it fails with `Reflect(d, hit.normal)` of the unnormalised `d`, which equals the reflection about the outward normal. |
| Cameras.Camera.GetRay | camera.h:17-20 | No requires and no ensures: it is the ray from `origin` to `ImagePoint(u, v)`. Its properties are stated by `Cameras.GetRayReachesImagePlane` and `Cameras.DefaultGetRay`. Being a function on a datatype value, it cannot change the camera. |
| Cameras.DefaultCamera | camera.h:10-15 | No requires and no ensures: it holds the four constants of `Camera()`. `Cameras.DefaultGetRay` states the rays they give. |
| Cameras.GetRayReachesImagePlane | camera.h:17-20 | For any camera, `GetRay(u, v)` starts at the origin and reaches `lower_left_corner + u horizontal + v vertical` at parameter 1. |
| Cameras.DefaultGetRay | camera.h:10-19 | The default camera's ray starts at `(0, 0, 0)` with direction `(-2 + 4u, -1 + 2v, -1)`, so its depth is always -1. |
| Cameras.DefaultGetRayLandmarks | camera.h:12-19 | `GetRay(0, 0)` aims at `lower_left_corner`, `GetRay(1, 1)` at `(2, 1, -1)`, and `GetRay(0.5, 0.5)` at `(0, 0, -1)`. |
| Raytracer.WorldHit | raytracer.cc:68 | The world is queried on `(kMinHitDistance, MAXFLOAT)`, and any reported hit has `0.001 < t < MAXFLOAT`. |
| Raytracer.SkyBlend | raytracer.cc:79-80 | `t = 0.5 (unit.y + 1)` lies in `[0, 1]`. |
| Raytracer.Background | raytracer.cc:79-81 | Each sky channel lies between the white and the blue endpoint: red in `[0.5, 1]`, green in `[0.7, 1]`, blue exactly 1. |
| Raytracer.BackgroundVertical | raytracer.cc:79-81 | Straight up the sky is `(0.5, 0.7, 1)`; straight down it is white. |
| Raytracer.GetColor | raytracer.cc:66-83 | Requires `IsSqrt(sqrt) && WellFormedWorld(world)`; no ensures, only `decreases 50 - depth`. That clause proves termination: a call recurses only below depth 50, so at most `50 - depth` nested calls follow. Its behaviour is stated by the four `Raytracer.GetColor*` lemmas below. |
| Raytracer.GetColorMiss | raytracer.cc:66-82 | When every surface misses on `(kMinHitDistance, MAXFLOAT)`, including in an empty world, the colour is the sky at every depth. |
| Raytracer.GetColorDepthCutoff | raytracer.cc:71-76 | When some surface is hit at depth `>= 50`, the colour is exactly black, whatever the material. |
| Raytracer.GetColorScatter | raytracer.cc:71-77 | Below depth 50, a failed scatter gives black. A successful one gives `attenuation (*) GetColor(scattered, depth + 1)`, channel by channel. |
| Raytracer.GetColorInUnitCube | raytracer.cc:66-83 | If every Lambertian and Metal albedo has channels in `[0, 1]`, every channel of the colour lies in `[0, 1]`. |
| Raytracer.FrontSphereHit | sphere.h:15-21 | The ray from the origin along `-z` meets the sphere of radius 0.5 centred at `(0, 0, -1)` at the near root `t = 0.5`, which is accepted in `(kMinHitDistance, MAXFLOAT)`. |
| Raytracer.CentreRayHitsFrontSphere | raytracer.cc:21 | The default camera's centre ray hits the basic scene's front sphere at `t = 0.5`, at the point `(0, 0, -0.5)`, with normal `(0, 0, 1)` facing the camera and the sphere's material. |

## Left out

- `main` (raytracer.cc:85-145) is not modelled: argument parsing, the pixel and sample loops, OpenMP, gamma correction, the float-to-int cast and the PPM output are I/O, concurrency and float conversion.
- `GetBasicScene` and `GetDemoScene` (raytracer.cc:19-64) are not modelled. `GetDemoScene` populates the scene from `drand48`. `GetBasicScene` builds five fixed spheres with raw `new`. Both pass a `std::vector` to a `HitableList` constructor that takes `(Hitable**, int)` (hitable.h:25). Only the front sphere of the basic scene is used, in `Raytracer.CentreRayHitsFrontSphere`.
- Single-precision rounding is not modelled: all arithmetic is exact real arithmetic, and `std::sqrt` and `normalized()` are exact.
- `Refract` is defined in none of the modelled files. It is an arbitrary function passed in, and nothing is proved about refraction itself.
- Global `drand48` state and its thread safety are not modelled: random draws are explicit inputs.
- Util.GetRandomVecInUnitSphere: reads a finite sequence of draws and returns `None` when it runs out, where the C++ loop keeps drawing forever. Termination of the unbounded loop is not claimed.
- Raytracer.GetColor: the random vector used at depth `k` is `sample(k)`. How many draws each material consumes from the shared stream is not modelled.
- Materials.RefractionRatio: requires a non-zero refractive index, because its own expression `1.0 / refractive_index_` (material.h:67) with index 0 is an infinity that exact reals cannot represent.
- Materials.DielectricScatter: requires a non-zero refractive index, because `1.0 / refractive_index_` with index 0 is an infinity that exact reals cannot represent. `Materials.Scatter` and `Raytracer.GetColor` inherit this through `Materials.HasRealRatio` and `Raytracer.WellFormedWorld`.
- Materials.ClampFuzz: a NaN fuzz is not modelled.
- `Hitable` as an open class hierarchy is not modelled: spheres are the only concrete surface in the source, so a world is a sequence of spheres.
- The camera features that `main` calls (field of view, aperture, focus distance, `SetLook`, lens sampling) are not modelled, because camera.h does not contain them.
- Schlick/Fresnel stochastic reflect-versus-refract choice is not modelled, because `Dielectric::Scatter` as written has none.

## Note on the dielectric

On total internal reflection, `Dielectric::Scatter` (material.h:72-80) writes the mirror ray and returns false, so `GetColor` renders black. There is no Schlick reflect-versus-refract choice, unlike the usual glass material. The model follows the code (`Materials.DielectricScatterOutcome`).
