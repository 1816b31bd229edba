/**
  * material.h: the three materials and their scatter decisions. Each `Scatter` writes
  * the attenuation and the scattered ray and returns whether the ray goes on. The random
  * vector a Lambertian or fuzzed Metal surface draws is the argument `sample`, and the
  * `Refract` helper, which none of the modelled files defines, is the argument `refract`:
  * it maps (direction, outward normal, `ni_over_nt`) to the refracted direction, or to
  * `None` when it reports failure.
  */
module Materials {
  import opened Options
  import opened RealArith
  import opened Vectors
  import opened Rays
  import opened Hits
  import opened Util

  datatype Material =
    | Lambertian(albedo: Vec3)
    | Metal(albedo: Vec3, fuzz: real)
    | Dielectric(refractiveIndex: real, fuzz: real)

  /** `std::max(std::min(fuzz, 1.f), 0.f)`: `std::min(a, b)` is `b < a ? b : a` and
      `std::max(a, b)` is `a < b ? b : a`. */
  function ClampFuzz(fuzz: real): (r: real)
    ensures 0.0 <= r <= 1.0
    ensures 0.0 <= fuzz <= 1.0 ==> r == fuzz
    ensures 1.0 < fuzz ==> r == 1.0
    ensures fuzz < 0.0 ==> r == 0.0
  {
    var upper := if 1.0 < fuzz then 1.0 else fuzz;
    if upper < 0.0 then 0.0 else upper
  }

  /** `Metal(albedo, fuzz)`: keeps the albedo and clamps the fuzz into `[0, 1]`. */
  function NewMetal(albedo: Vec3, fuzz: real): (m: Material)
    ensures m.Metal? && m.albedo == albedo
    ensures 0.0 <= m.fuzz <= 1.0
    ensures 0.0 <= fuzz <= 1.0 ==> m.fuzz == fuzz
  {
    Metal(albedo, ClampFuzz(fuzz))
  }

  /** `Dielectric(refractive_index, fuzz)`: keeps the index and clamps the fuzz. */
  function NewDielectric(refractiveIndex: real, fuzz: real): (m: Material)
    ensures m.Dielectric? && m.refractiveIndex == refractiveIndex
    ensures 0.0 <= m.fuzz <= 1.0
    ensures 0.0 <= fuzz <= 1.0 ==> m.fuzz == fuzz
  {
    Dielectric(refractiveIndex, ClampFuzz(fuzz))
  }

  /** A dielectric's index must be non-zero for `1.0 / refractive_index_` to be a real. */
  predicate HasRealRatio(m: Material) {
    m.Dielectric? ==> m.refractiveIndex != 0.0
  }

  /** The three out-values of `Scatter`: the return value, `*attenuation` and
      `*scattered_ray`. Every material writes all three. */
  datatype Scattering = Scattering(ok: bool, attenuation: Vec3, scattered: Ray)

  /** Lambertian::Scatter: always goes on, from the hit point, along `normal + sample`. */
  function LambertianScatter(albedo: Vec3, hit: HitResult<Material>, sample: Vec3): Scattering {
    Scattering(true, albedo, Ray(hit.point, Add(hit.normal, sample)))
  }

  /** Metal::Scatter: reflect the normalised incoming direction, add `fuzz * sample` when
      the fuzz is positive, and go on only when the result leaves the surface. */
  function MetalScatter(albedo: Vec3, fuzz: real, rayIn: Ray, hit: HitResult<Material>,
                        sample: Vec3, sqrt: real -> real): Scattering
    requires IsSqrt(sqrt)
  {
    var reflected := Reflect(Normalized(rayIn.direction, sqrt), hit.normal);
    var direction := if fuzz > 0.0 then Add(reflected, Scale(fuzz, sample)) else reflected;
    Scattering(Dot(direction, hit.normal) > 0.0, albedo, Ray(hit.point, direction))
  }

  /** The normal Dielectric::Scatter refracts about: flipped when the ray leaves the body. */
  function OutwardNormal(direction: Vec3, normal: Vec3): Vec3 {
    if Dot(direction, normal) > 0.0 then Neg(normal) else normal
  }

  /** `ni_over_nt`: the index when the ray leaves the body, its inverse when it enters. */
  function RefractionRatio(direction: Vec3, normal: Vec3, refractiveIndex: real): real
    requires refractiveIndex != 0.0
  {
    if Dot(direction, normal) > 0.0 then refractiveIndex else 1.0 / refractiveIndex
  }

  /** Dielectric::Scatter: attenuation `(1, 1, 1)`; the refracted ray when `Refract`
      succeeds, otherwise the mirror ray about the hit normal and a `false` result. */
  function DielectricScatter(refractiveIndex: real, rayIn: Ray, hit: HitResult<Material>,
                             refract: (Vec3, Vec3, real) -> Option<Vec3>): Scattering
    requires refractiveIndex != 0.0
  {
    var d := rayIn.direction;
    var reflected := Reflect(d, hit.normal);
    match refract(d, OutwardNormal(d, hit.normal), RefractionRatio(d, hit.normal, refractiveIndex))
    case Some(refracted) => Scattering(true, Vec3(1.0, 1.0, 1.0), Ray(hit.point, refracted))
    case None => Scattering(false, Vec3(1.0, 1.0, 1.0), Ray(hit.point, reflected))
  }

  /** The virtual `Material::Scatter`, dispatched on the material. What every override
      promises: the scattered ray starts at the hit point; Lambertian always goes on with
      its albedo along `normal + sample`; Metal keeps its albedo, reflects the normalised
      direction (perturbed by `fuzz * sample` when the fuzz is positive) and goes on
      exactly when the scattered direction leaves the surface; Dielectric attenuates by
      `(1, 1, 1)`. */
  function Scatter(m: Material, rayIn: Ray, hit: HitResult<Material>, sample: Vec3,
                   sqrt: real -> real, refract: (Vec3, Vec3, real) -> Option<Vec3>): (s: Scattering)
    requires IsSqrt(sqrt) && HasRealRatio(m)
    ensures s.scattered.point == hit.point
    ensures m.Lambertian? ==> s.ok && s.attenuation == m.albedo
    ensures m.Lambertian? ==> s.scattered.direction == Add(hit.normal, sample)
    ensures m.Metal? && m.fuzz <= 0.0 ==>
      s.scattered.direction == Reflect(Normalized(rayIn.direction, sqrt), hit.normal)
    ensures m.Metal? && m.fuzz > 0.0 ==>
      s.scattered.direction == Add(Reflect(Normalized(rayIn.direction, sqrt), hit.normal), Scale(m.fuzz, sample))
    ensures m.Metal? ==> s.attenuation == m.albedo
    ensures m.Metal? ==> (s.ok <==> Dot(s.scattered.direction, hit.normal) > 0.0)
    ensures m.Dielectric? ==> s.attenuation == Vec3(1.0, 1.0, 1.0)
  {
    match m
    case Lambertian(albedo) => LambertianScatter(albedo, hit, sample)
    case Metal(albedo, fuzz) => MetalScatter(albedo, fuzz, rayIn, hit, sample, sqrt)
    case Dielectric(index, _) => DielectricScatter(index, rayIn, hit, refract)
  }

  /**
    * With a unit normal and a sample strictly inside the unit sphere, the Lambertian
    * direction `normal + sample` points out of the surface.
    */
  lemma LambertianLeavesSurface(albedo: Vec3, hit: HitResult<Material>, sample: Vec3)
    requires SquaredNorm(hit.normal) == 1.0 && InUnitSphere(sample)
    ensures Dot(LambertianScatter(albedo, hit, sample).scattered.direction, hit.normal) > 0.0
  {
    var n := hit.normal;
    var k := Dot(sample, n);
    CauchySchwarz(sample, n);
    assert k * k <= SquaredNorm(sample) * 1.0;
    SquareBelowOne(k);
    DotAddLeft(n, sample, n);
  }

  /**
    * A Metal without fuzz reflects the normalised direction exactly, and with a unit
    * normal and a non-zero incoming direction it goes on exactly when the incoming ray
    * comes against the normal (`dot(d, n) < 0`).
    */
  lemma MetalWithoutFuzzReflects(albedo: Vec3, rayIn: Ray, hit: HitResult<Material>,
                                 sample: Vec3, sqrt: real -> real)
    requires IsSqrt(sqrt)
    requires SquaredNorm(hit.normal) == 1.0 && SquaredNorm(rayIn.direction) > 0.0
    ensures var s := MetalScatter(albedo, 0.0, rayIn, hit, sample, sqrt);
      && s.scattered.direction == Reflect(Normalized(rayIn.direction, sqrt), hit.normal)
      && (s.ok <==> Dot(rayIn.direction, hit.normal) < 0.0)
  {
    var d := rayIn.direction;
    var n := hit.normal;
    var u := Normalized(d, sqrt);
    var len := sqrt(SquaredNorm(d));
    ReflectFlipsNormalComponent(u, n);
    DotScaleLeft(len, u, n);
    assert Dot(d, n) == len * Dot(u, n);
    PositiveFactorKeepsSign(len, Dot(u, n));
  }

  /**
    * Dielectric side selection: the outward normal never points along the incoming
    * direction, it is the hit normal up to sign, and the ratio is the index when the
    * ray leaves the body and its inverse when it enters.
    */
  lemma DielectricSide(direction: Vec3, normal: Vec3, refractiveIndex: real)
    requires refractiveIndex != 0.0
    ensures Dot(direction, OutwardNormal(direction, normal)) <= 0.0
    ensures Dot(direction, normal) > 0.0 ==> OutwardNormal(direction, normal) == Neg(normal)
    ensures Dot(direction, normal) <= 0.0 ==> OutwardNormal(direction, normal) == normal
    ensures Dot(direction, normal) > 0.0 ==>
      RefractionRatio(direction, normal, refractiveIndex) == refractiveIndex
    ensures Dot(direction, normal) <= 0.0 ==>
      RefractionRatio(direction, normal, refractiveIndex) * refractiveIndex == 1.0
  {
  }

  /**
    * Dielectric::Scatter goes on exactly when `Refract` succeeds, along the refracted
    * direction; otherwise it reports failure with the mirror direction of the
    * unnormalised incoming direction, which is the same about either side of the normal.
    */
  lemma DielectricScatterOutcome(refractiveIndex: real, rayIn: Ray, hit: HitResult<Material>,
                                 refract: (Vec3, Vec3, real) -> Option<Vec3>)
    requires refractiveIndex != 0.0
    ensures var d := rayIn.direction;
            var s := DielectricScatter(refractiveIndex, rayIn, hit, refract);
            var r := refract(d, OutwardNormal(d, hit.normal), RefractionRatio(d, hit.normal, refractiveIndex));
      && (s.ok <==> r.Some?)
      && (s.ok ==> s.scattered.direction == r.value)
      && (!s.ok ==> s.scattered.direction == Reflect(d, hit.normal)
                    && s.scattered.direction == Reflect(d, OutwardNormal(d, hit.normal)))
  {
    var d := rayIn.direction;
    var n := hit.normal;
    assert Scale(2.0 * Dot(d, Neg(n)), Neg(n)) == Scale(2.0 * Dot(d, n), n);
  }
}
