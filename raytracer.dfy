/**
  * raytracer.cc: the minimum hit distance and GetColor, the depth-limited recursive
  * radiance estimate. A ray that misses the world sees the sky gradient; a ray that
  * hits is scattered by the surface's material and its colour is the attenuation times
  * the colour of the scattered ray, until the depth reaches 50.
  */
module Raytracer {
  import opened Options
  import opened RealArith
  import opened Vectors
  import opened Rays
  import opened Hits
  import opened Spheres
  import opened HitableLists
  import opened Materials
  import opened Cameras

  /** `kMinHitDistance`: hits closer than this are ignored, so a scattered ray does not
      hit the surface it starts on. */
  const KMinHitDistance: real := 0.001

  /** `MAXFLOAT`, the largest finite single-precision value, as the upper bound of every
      world query. */
  const MaxFloat: real := 340282346638528859811704183484516925440.0

  /** The depth at which GetColor stops following scattered rays. */
  const MaxDepth: int := 50

  /** `HitResult hit_result;` is left uninitialised; any value stands for it. */
  const UnsetRecord: HitResult<Material> := HitResult(0.0, Zero, Zero, Lambertian(Zero))

  /** Every dielectric in the world has a non-zero refractive index. */
  predicate WellFormedWorld(world: seq<Sphere<Material>>) {
    forall j :: 0 <= j < |world| ==> HasRealRatio(world[j].material)
  }

  /** `world->ComputeHit(ray, kMinHitDistance, MAXFLOAT, &hit_result)`. */
  function WorldHit(ray: Ray, world: seq<Sphere<Material>>, sqrt: real -> real): (r: Option<HitResult<Material>>)
    ensures r.Some? ==> KMinHitDistance < r.value.t < MaxFloat
  {
    Nearest(world, ray, KMinHitDistance, MaxFloat, UnsetRecord, sqrt)
  }

  /** The blend parameter of the sky, `0.5 (unit.y + 1)`. */
  function SkyBlend(direction: Vec3, sqrt: real -> real): (t: real)
    requires IsSqrt(sqrt)
    ensures 0.0 <= t <= 1.0
  {
    var unit := Normalized(direction, sqrt);
    UnitComponentBounded(direction, sqrt);
    0.5 * (unit.y + 1.0)
  }

  /** Each component of a normalised vector lies in `[-1, 1]`. */
  lemma UnitComponentBounded(direction: Vec3, sqrt: real -> real)
    requires IsSqrt(sqrt)
    ensures -1.0 <= Normalized(direction, sqrt).y <= 1.0
  {
    var unit := Normalized(direction, sqrt);
    SquaredNormNonNegative(direction);
    SquareNonNegative(unit.x);
    SquareNonNegative(unit.z);
    assert SquaredNorm(unit) <= 1.0;
    SquareAtMostOne(unit.y);
  }

  /** The sky colour `(1 - t) (1, 1, 1) + t (0.5, 0.7, 1)`: every channel lies between
      the white and the blue endpoint, and blue stays at 1. */
  function Background(direction: Vec3, sqrt: real -> real): (c: Vec3)
    requires IsSqrt(sqrt)
    ensures 0.5 <= c.x <= 1.0 && 0.7 <= c.y <= 1.0 && c.z == 1.0
  {
    var t := SkyBlend(direction, sqrt);
    Add(Scale(1.0 - t, Vec3(1.0, 1.0, 1.0)), Scale(t, Vec3(0.5, 0.7, 1.0)))
  }

  /** Straight up the sky is the blue endpoint, straight down it is white. */
  lemma BackgroundVertical(k: real, sqrt: real -> real)
    requires IsSqrt(sqrt) && k != 0.0
    ensures k > 0.0 ==> Background(Vec3(0.0, k, 0.0), sqrt) == Vec3(0.5, 0.7, 1.0)
    ensures k < 0.0 ==> Background(Vec3(0.0, k, 0.0), sqrt) == Vec3(1.0, 1.0, 1.0)
  {
    var d := Vec3(0.0, k, 0.0);
    NormalizedVertical(k, sqrt);
    assert SkyBlend(d, sqrt) == if k > 0.0 then 1.0 else 0.0;
    BackgroundChannels(d, sqrt);
  }

  /** The sky's channels as functions of the blend parameter `t`. */
  lemma BackgroundChannels(direction: Vec3, sqrt: real -> real)
    requires IsSqrt(sqrt)
    ensures var t := SkyBlend(direction, sqrt);
      Background(direction, sqrt) == Vec3(1.0 - 0.5 * t, 1.0 - 0.3 * t, 1.0)
  {
  }

  /** Normalising `(0, k, 0)` gives the unit vector along the sign of `k`. */
  lemma NormalizedVertical(k: real, sqrt: real -> real)
    requires IsSqrt(sqrt) && k != 0.0
    ensures Normalized(Vec3(0.0, k, 0.0), sqrt) == Vec3(0.0, if k > 0.0 then 1.0 else -1.0, 0.0)
  {
    var d := Vec3(0.0, k, 0.0);
    VerticalSquaredNorm(k);
    NormalizedDividesByLength(d, sqrt);
    var len := sqrt(SquaredNorm(d));
    assert 0.0 <= len && len * len == k * k;
    AbsoluteValue(len, k);
  }

  lemma VerticalSquaredNorm(k: real)
    requires k != 0.0
    ensures SquaredNorm(Vec3(0.0, k, 0.0)) > 0.0
  {
    calc {
      SquaredNorm(Vec3(0.0, k, 0.0));
      0.0 * 0.0 + k * k + 0.0 * 0.0;
      k * k;
    > { PositiveSquare(k); }
      0.0;
    }
  }

  /** The non-negative number whose square is `k * k` is `|k|`. */
  lemma AbsoluteValue(len: real, k: real)
    requires 0.0 <= len && len * len == k * k
    ensures len == if k >= 0.0 then k else -k
  {
    if k >= 0.0 {
      SqrtUnique(len, k);
    } else {
      assert (-k) * (-k) == k * k;
      SqrtUnique(len, -k);
    }
  }

  lemma PositiveSquare(k: real)
    requires k != 0.0
    ensures k * k > 0.0
  {
    if k > 0.0 {
      MulPos(k, k);
    } else {
      MulPos(-k, -k);
    }
  }

  /** The material of a reported hit belongs to the world, so it is well formed. */
  lemma HitMaterialWellFormed(ray: Ray, world: seq<Sphere<Material>>, sqrt: real -> real)
    requires WellFormedWorld(world) && WorldHit(ray, world, sqrt).Some?
    ensures HasRealRatio(WorldHit(ray, world, sqrt).value.material)
  {
    NearestMaterialFromList(world, ray, KMinHitDistance, MaxFloat, UnsetRecord, sqrt);
  }

  /**
    * GetColor. The random vector drawn by the material at recursion depth `k` is
    * `sample(k)`; `refract` stands for the `Refract` helper. The depth bound makes the
    * recursion terminate: a call at depth `depth` recurses only while `depth < 50`.
    */
  function GetColor(ray: Ray, world: seq<Sphere<Material>>, depth: int, sqrt: real -> real,
                    refract: (Vec3, Vec3, real) -> Option<Vec3>, sample: int -> Vec3): Vec3
    requires IsSqrt(sqrt) && WellFormedWorld(world)
    decreases MaxDepth - depth
  {
    match WorldHit(ray, world, sqrt)
    case None => Background(ray.direction, sqrt)
    case Some(hit) =>
      if depth < MaxDepth then
        HitMaterialWellFormed(ray, world, sqrt);
        var s := Scatter(hit.material, ray, hit, sample(depth), sqrt, refract);
        if s.ok then CwiseProduct(s.attenuation, GetColor(s.scattered, world, depth + 1, sqrt, refract, sample))
        else Zero
      else
        Zero
  }

  /** When every surface misses (in particular in an empty world), the colour is the
      sky, at every depth. */
  lemma GetColorMiss(ray: Ray, world: seq<Sphere<Material>>, depth: int, sqrt: real -> real,
                     refract: (Vec3, Vec3, real) -> Option<Vec3>, sample: int -> Vec3)
    requires IsSqrt(sqrt) && WellFormedWorld(world)
    requires forall k :: 0 <= k < |world| ==> world[k].ComputeHit(ray, KMinHitDistance, MaxFloat, UnsetRecord, sqrt).None?
    ensures GetColor(ray, world, depth, sqrt, refract, sample) == Background(ray.direction, sqrt)
  {
    NearestIsClosest(world, ray, KMinHitDistance, MaxFloat, UnsetRecord, sqrt);
  }

  /** When some surface is hit at depth 50 or more, the colour is black whatever the
      material. */
  lemma GetColorDepthCutoff(ray: Ray, world: seq<Sphere<Material>>, depth: int, sqrt: real -> real,
                            refract: (Vec3, Vec3, real) -> Option<Vec3>, sample: int -> Vec3, k: int)
    requires IsSqrt(sqrt) && WellFormedWorld(world) && MaxDepth <= depth
    requires 0 <= k < |world| && world[k].ComputeHit(ray, KMinHitDistance, MaxFloat, UnsetRecord, sqrt).Some?
    ensures GetColor(ray, world, depth, sqrt, refract, sample) == Zero
  {
    NearestIsClosest(world, ray, KMinHitDistance, MaxFloat, UnsetRecord, sqrt);
  }

  /** Below the cutoff, a hit whose scatter fails is black, and a hit whose scatter
      succeeds is the attenuation times the colour of the scattered ray one level deeper. */
  lemma GetColorScatter(ray: Ray, world: seq<Sphere<Material>>, depth: int, sqrt: real -> real,
                        refract: (Vec3, Vec3, real) -> Option<Vec3>, sample: int -> Vec3)
    requires IsSqrt(sqrt) && WellFormedWorld(world) && depth < MaxDepth
    requires WorldHit(ray, world, sqrt).Some?
    ensures var hit := WorldHit(ray, world, sqrt).value;
            HasRealRatio(hit.material) &&
            var s := Scatter(hit.material, ray, hit, sample(depth), sqrt, refract);
      && (!s.ok ==> GetColor(ray, world, depth, sqrt, refract, sample) == Zero)
      && (s.ok ==> GetColor(ray, world, depth, sqrt, refract, sample)
                   == CwiseProduct(s.attenuation, GetColor(s.scattered, world, depth + 1, sqrt, refract, sample)))
  {
    HitMaterialWellFormed(ray, world, sqrt);
  }

  predicate InUnitCube(c: Vec3) {
    0.0 <= c.x <= 1.0 && 0.0 <= c.y <= 1.0 && 0.0 <= c.z <= 1.0
  }

  /** Every Lambertian and Metal albedo in the world has its channels in `[0, 1]`. */
  predicate AlbedosInUnitCube(world: seq<Sphere<Material>>) {
    forall j :: 0 <= j < |world| && !world[j].material.Dielectric? ==> InUnitCube(world[j].material.albedo)
  }

  /** A reported hit's material has its albedo in the unit cube, when the world's have. */
  lemma HitAlbedoInUnitCube(ray: Ray, world: seq<Sphere<Material>>, sqrt: real -> real)
    requires AlbedosInUnitCube(world) && WorldHit(ray, world, sqrt).Some?
    ensures var m := WorldHit(ray, world, sqrt).value.material;
      !m.Dielectric? ==> InUnitCube(m.albedo)
  {
    NearestMaterialFromList(world, ray, KMinHitDistance, MaxFloat, UnsetRecord, sqrt);
  }

  lemma CwiseProductInUnitCube(a: Vec3, b: Vec3)
    requires InUnitCube(a) && InUnitCube(b)
    ensures InUnitCube(CwiseProduct(a, b))
  {
    UnitProduct(a.x, b.x);
    UnitProduct(a.y, b.y);
    UnitProduct(a.z, b.z);
  }

  /** With every albedo in `[0, 1]`, every channel of the colour lies in `[0, 1]`. */
  lemma {:induction false} GetColorInUnitCube(ray: Ray, world: seq<Sphere<Material>>, depth: int,
                                             sqrt: real -> real, refract: (Vec3, Vec3, real) -> Option<Vec3>,
                                             sample: int -> Vec3)
    requires IsSqrt(sqrt) && WellFormedWorld(world) && AlbedosInUnitCube(world)
    ensures InUnitCube(GetColor(ray, world, depth, sqrt, refract, sample))
    decreases MaxDepth - depth
  {
    match WorldHit(ray, world, sqrt)
    case None =>
    case Some(hit) =>
      if depth < MaxDepth {
        HitMaterialWellFormed(ray, world, sqrt);
        HitAlbedoInUnitCube(ray, world, sqrt);
        var s := Scatter(hit.material, ray, hit, sample(depth), sqrt, refract);
        if s.ok {
          GetColorInUnitCube(s.scattered, world, depth + 1, sqrt, refract, sample);
          CwiseProductInUnitCube(s.attenuation, GetColor(s.scattered, world, depth + 1, sqrt, refract, sample));
        }
      }
  }

  /** The centre ray of the default camera, and the centre of the basic scene's front
      sphere, which has radius 0.5. */
  const CentreRay := Ray(Zero, Vec3(0.0, 0.0, -1.0))
  const FrontCenter := Vec3(0.0, 0.0, -1.0)

  /** The default camera's ray through the centre of the image runs from the origin
      straight down `-z`. */
  lemma DefaultCentreRay()
    ensures DefaultCamera().GetRay(0.5, 0.5) == CentreRay
  {
    DefaultGetRay(0.5, 0.5);
  }

  /** `sqrt(0.25) == 0.5` for the exact square root. */
  lemma SqrtQuarter(sqrt: real -> real)
    requires IsSqrt(sqrt)
    ensures sqrt(0.25) == 0.5
  {
    assert 0.0 <= sqrt(0.25) && sqrt(0.25) * sqrt(0.25) == 0.25;
    SqrtUnique(sqrt(0.25), 0.5);
  }

  lemma FrontQuadA()
    ensures QuadA(CentreRay) == 1.0
  {
  }

  lemma FrontQuadB()
    ensures QuadB(CentreRay, FrontCenter) == -1.0
  {
  }

  lemma FrontQuadC()
    ensures QuadC(CentreRay, FrontCenter, 0.5) == 0.75
  {
  }

  lemma FrontDiscriminant()
    ensures Discriminant(CentreRay, FrontCenter, 0.5) == 0.25
  {
    FrontQuadA();
    FrontQuadB();
    FrontQuadC();
  }

  lemma FrontNearRoot(sqrt: real -> real)
    requires sqrt(0.25) == 0.5
    ensures Discriminant(CentreRay, FrontCenter, 0.5) > 0.0
    ensures SmallerRoot(CentreRay, FrontCenter, 0.5, sqrt) == 0.5
  {
    FrontDiscriminant();
    calc {
      SmallerRoot(CentreRay, FrontCenter, 0.5, sqrt);
      (-QuadB(CentreRay, FrontCenter) - sqrt(Discriminant(CentreRay, FrontCenter, 0.5))) / QuadA(CentreRay);
    == { FrontQuadA(); FrontQuadB(); }
      (1.0 - sqrt(0.25)) / 1.0;
      0.5;
    }
  }

  lemma FrontHitRecord(result: HitResult<Material>)
    ensures HitAt(CentreRay, FrontCenter, 0.5, 0.5, result)
         == result.(t := 0.5, point := Vec3(0.0, 0.0, -0.5), normal := Vec3(0.0, 0.0, 1.0))
  {
    assert CentreRay.GetPointAtParameter(0.5) == Vec3(0.0, 0.0, -0.5);
    assert Div(Sub(Vec3(0.0, 0.0, -0.5), FrontCenter), 0.5) == Vec3(0.0, 0.0, 1.0);
  }

  /** With `sqrt(0.25) = 0.5`, the near root 0.5 lies in `(kMinHitDistance, MAXFLOAT)`
      and is accepted. */
  lemma FrontSphereHit(result: HitResult<Material>, sqrt: real -> real)
    requires sqrt(0.25) == 0.5
    ensures ComputeSphereHit(CentreRay, KMinHitDistance, MaxFloat, FrontCenter, 0.5, result, sqrt)
         == Some(result.(t := 0.5, point := Vec3(0.0, 0.0, -0.5), normal := Vec3(0.0, 0.0, 1.0)))
  {
    FrontNearRoot(sqrt);
    FrontHitRecord(result);
  }

  /**
    * The centre ray of the default camera hits the basic scene's front sphere (radius 0.5
    * at `(0, 0, -1)`) at `t = 0.5`, in the point `(0, 0, -0.5)`, with the normal
    * `(0, 0, 1)` facing the camera and the sphere's material.
    */
  lemma CentreRayHitsFrontSphere(m: Material, sqrt: real -> real)
    requires IsSqrt(sqrt)
    ensures WorldHit(DefaultCamera().GetRay(0.5, 0.5), [Sphere(FrontCenter, 0.5, m)], sqrt)
         == Some(HitResult(0.5, Vec3(0.0, 0.0, -0.5), Vec3(0.0, 0.0, 1.0), m))
  {
    DefaultCentreRay();
    SqrtQuarter(sqrt);
    FrontSphereHit(UnsetRecord, sqrt);
    NearestSingleton(Sphere(FrontCenter, 0.5, m), CentreRay, KMinHitDistance, MaxFloat, UnsetRecord, sqrt);
  }
}
