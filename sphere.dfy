/**
  * sphere.h: ray-sphere intersection. Points on the ray at parameter `t` lie on the
  * sphere exactly when `a t^2 + 2 b t + c = 0` with
  *   a = d.d,  b = (p - center).d,  c = (p - center).(p - center) - radius^2
  * for ray origin `p` and direction `d`. The smaller root is tried first; a root is
  * accepted only strictly inside `(t_min, t_max)`.
  */
module Spheres {
  import opened Options
  import opened RealArith
  import opened Vectors
  import opened Rays
  import opened Hits

  function QuadA(ray: Ray): real {
    Dot(ray.direction, ray.direction)
  }

  function QuadB(ray: Ray, center: Vec3): real {
    Dot(Sub(ray.point, center), ray.direction)
  }

  function QuadC(ray: Ray, center: Vec3, radius: real): real {
    Dot(Sub(ray.point, center), Sub(ray.point, center)) - radius * radius
  }

  /** The quarter-discriminant `b^2 - a c` of the quadratic. */
  function Discriminant(ray: Ray, center: Vec3, radius: real): real {
    QuadB(ray, center) * QuadB(ray, center) - QuadA(ray) * QuadC(ray, center, radius)
  }

  /** The point at parameter `t` lies on the sphere. */
  ghost predicate OnSphere(ray: Ray, center: Vec3, radius: real, t: real) {
    SquaredNorm(Sub(ray.GetPointAtParameter(t), center)) == radius * radius
  }

  /** A zero direction (`a = 0`) or a zero radius makes the discriminant non-positive,
      so neither division in ComputeSphereHit is ever reached with a zero divisor. */
  lemma DegenerateNeverHits(ray: Ray, center: Vec3, radius: real)
    ensures QuadA(ray) >= 0.0
    ensures QuadA(ray) == 0.0 || radius == 0.0 ==> Discriminant(ray, center, radius) <= 0.0
  {
    var poc := Sub(ray.point, center);
    var b := QuadB(ray, center);
    SquaredNormNonNegative(ray.direction);
    CauchySchwarz(poc, ray.direction);
    if QuadA(ray) == 0.0 {
      calc {
        Discriminant(ray, center, radius);
        b * b - 0.0 * QuadC(ray, center, radius);
        b * b;
      <=
        SquaredNorm(poc) * SquaredNorm(ray.direction);
        SquaredNorm(poc) * 0.0;
        0.0;
      }
    } else if radius == 0.0 {
      calc {
        Discriminant(ray, center, radius);
        b * b - QuadA(ray) * SquaredNorm(poc);
        b * b - SquaredNorm(poc) * SquaredNorm(ray.direction);
      <=
        0.0;
      }
    }
  }

  /** With a positive discriminant both the direction and the radius are non-zero. */
  lemma PositiveDiscriminant(ray: Ray, center: Vec3, radius: real)
    requires Discriminant(ray, center, radius) > 0.0
    ensures QuadA(ray) > 0.0 && radius != 0.0
  {
    DegenerateNeverHits(ray, center, radius);
  }

  /** `(-b - sqrt(disc)) / a`, the root tried first. */
  function SmallerRoot(ray: Ray, center: Vec3, radius: real, sqrt: real -> real): real
    requires Discriminant(ray, center, radius) > 0.0
  {
    PositiveDiscriminant(ray, center, radius);
    (-QuadB(ray, center) - sqrt(Discriminant(ray, center, radius))) / QuadA(ray)
  }

  /** `(-b + sqrt(disc)) / a`, the root tried second. */
  function LargerRoot(ray: Ray, center: Vec3, radius: real, sqrt: real -> real): real
    requires Discriminant(ray, center, radius) > 0.0
  {
    PositiveDiscriminant(ray, center, radius);
    (-QuadB(ray, center) + sqrt(Discriminant(ray, center, radius))) / QuadA(ray)
  }

  /** The record written on acceptance at parameter `t`: `t`, the point on the ray and
      `(point - center) / radius` as the normal; the material is left as it was. */
  function HitAt<M>(ray: Ray, center: Vec3, radius: real, t: real, result: HitResult<M>): HitResult<M>
    requires radius != 0.0
  {
    var point := ray.GetPointAtParameter(t);
    result.(t := t, point := point, normal := Div(Sub(point, center), radius))
  }

  /**
    * ComputeSphereHit. `result` is what `*result` held before the call; `Some(h)` means the
    * function returned true and left `h` in `*result`, `None` that it returned false and
    * left `*result` untouched. (The C++ declares the return type `float` but only ever
    * returns true or false.)
    */
  function ComputeSphereHit<M>(ray: Ray, tMin: real, tMax: real, center: Vec3, radius: real,
                               result: HitResult<M>, sqrt: real -> real): (r: Option<HitResult<M>>)
    ensures Discriminant(ray, center, radius) <= 0.0 ==> r.None?
    ensures r.Some? ==> tMin < r.value.t < tMax
    ensures r.Some? ==> r.value.point == ray.GetPointAtParameter(r.value.t)
    ensures r.Some? ==> r.value.material == result.material
  {
    if Discriminant(ray, center, radius) > 0.0 then
      PositiveDiscriminant(ray, center, radius);
      var near := SmallerRoot(ray, center, radius, sqrt);
      if near < tMax && near > tMin then
        Some(HitAt(ray, center, radius, near, result))
      else
        var far := LargerRoot(ray, center, radius, sqrt);
        if far < tMax && far > tMin then
          Some(HitAt(ray, center, radius, far, result))
        else
          None
    else
      None
  }

  /** The roots of `a t^2 + 2 b t + c` when `s` is the square root of the discriminant:
      exactly the two values ComputeSphereHit tries, the first never above the second. */
  lemma QuadraticRoots(a: real, b: real, c: real, s: real, t: real)
    requires a > 0.0 && 0.0 <= s && s * s == b * b - a * c
    ensures a * t * t + 2.0 * b * t + c == 0.0 <==> (t == (-b - s) / a || t == (-b + s) / a)
    ensures (-b - s) / a <= (-b + s) / a
  {
    var q := a * t * t + 2.0 * b * t + c;
    QuadraticFactor(a, b, c, s, t);
    ZeroProduct(a, q);
    ZeroProduct(a * t + b - s, a * t + b + s);
    DivIff(a, t, -b + s);
    DivIff(a, t, -b - s);
    DivMono(-b - s, -b + s, a);
  }

  /** With a negative discriminant the quadratic has no root at all. */
  lemma NoRealRoots(a: real, b: real, c: real, t: real)
    requires a >= 0.0 && b * b - a * c < 0.0
    ensures a * t * t + 2.0 * b * t + c != 0.0
  {
    var u := a * t + b;
    SquareNonNegative(b);
    SquareNonNegative(u);
    assert a != 0.0;
    assert a * (a * t * t + 2.0 * b * t + c) == u * u - (b * b - a * c);
  }

  /** On the ray, lying on the sphere is the quadratic having `t` as a root. */
  lemma OnSphereIffRoot(ray: Ray, center: Vec3, radius: real, t: real)
    ensures OnSphere(ray, center, radius, t)
        <==> QuadA(ray) * t * t + 2.0 * QuadB(ray, center) * t + QuadC(ray, center, radius) == 0.0
  {
    var p, d := Sub(ray.point, center), ray.direction;
    assert Sub(ray.GetPointAtParameter(t), center) == Add(p, Scale(t, d));
    ExpandSquaredNorm(p.x, p.y, p.z, d.x, d.y, d.z, t, radius);
  }

  lemma ExpandSquaredNorm(px: real, py: real, pz: real, dx: real, dy: real, dz: real, t: real, r: real)
    ensures (px + t * dx) * (px + t * dx) + (py + t * dy) * (py + t * dy) + (pz + t * dz) * (pz + t * dz) - r * r
         == (dx * dx + dy * dy + dz * dz) * t * t + 2.0 * (px * dx + py * dy + pz * dz) * t
            + ((px * px + py * py + pz * pz) - r * r)
  {
  }

  /** Over the reals the two values tried are exactly the parameters at which the ray
      meets the sphere, the first never above the second. */
  lemma RootsOfSphere(ray: Ray, center: Vec3, radius: real, sqrt: real -> real, t: real)
    requires IsSqrt(sqrt) && Discriminant(ray, center, radius) > 0.0
    ensures SmallerRoot(ray, center, radius, sqrt) <= LargerRoot(ray, center, radius, sqrt)
    ensures OnSphere(ray, center, radius, t)
        <==> (t == SmallerRoot(ray, center, radius, sqrt) || t == LargerRoot(ray, center, radius, sqrt))
  {
    var disc := Discriminant(ray, center, radius);
    PositiveDiscriminant(ray, center, radius);
    assert 0.0 <= sqrt(disc) && sqrt(disc) * sqrt(disc) == disc;
    QuadraticRoots(QuadA(ray), QuadB(ray, center), QuadC(ray, center, radius), sqrt(disc), t);
    OnSphereIffRoot(ray, center, radius, t);
  }

  /** Dividing a vector of length `|radius|` by `radius` gives a unit vector whose dot
      product with the original is `radius`: its sign follows the radius. */
  lemma DivByRadius(v: Vec3, radius: real)
    requires radius != 0.0 && SquaredNorm(v) == radius * radius
    ensures SquaredNorm(Div(v, radius)) == 1.0
    ensures Dot(Div(v, radius), v) == radius
  {
    var k := 1.0 / radius;
    assert Div(v, radius) == Scale(k, v);
    assert k * radius == 1.0;
    SquaredNormScale(k, v);
    calc {
      SquaredNorm(Div(v, radius));
      (k * k) * (radius * radius);
      (k * radius) * (k * radius);
      1.0;
    }
    calc {
      Dot(Scale(k, v), v);
      k * SquaredNorm(v);
      k * (radius * radius);
      (k * radius) * radius;
      radius;
    }
  }

  /** An accepted hit lies on the sphere, and its normal has unit length with
      `normal . (point - center) == radius`, so it points outward for a positive radius
      and inward for a negative one. */
  lemma SphereHitGeometry<M>(ray: Ray, tMin: real, tMax: real, center: Vec3, radius: real,
                             result: HitResult<M>, sqrt: real -> real)
    requires IsSqrt(sqrt)
    requires ComputeSphereHit(ray, tMin, tMax, center, radius, result, sqrt).Some?
    ensures var h := ComputeSphereHit(ray, tMin, tMax, center, radius, result, sqrt).value;
      && OnSphere(ray, center, radius, h.t)
      && SquaredNorm(Sub(h.point, center)) == radius * radius
      && SquaredNorm(h.normal) == 1.0
      && Dot(h.normal, Sub(h.point, center)) == radius
  {
    var h := ComputeSphereHit(ray, tMin, tMax, center, radius, result, sqrt).value;
    PositiveDiscriminant(ray, center, radius);
    RootsOfSphere(ray, center, radius, sqrt, h.t);
    assert h == HitAt(ray, center, radius, h.t, result);
    DivByRadius(Sub(h.point, center), radius);
  }

  /**
    * The hit reported is the nearest intersection of the ray with the sphere inside
    * `(t_min, t_max)`: no intersection lies strictly between `t_min` and it. A miss means
    * no intersection inside the interval, except a tangent touch (zero discriminant),
    * which the strict test `discriminant > 0` does not report.
    */
  lemma SphereHitIsNearest<M>(ray: Ray, tMin: real, tMax: real, center: Vec3, radius: real,
                              result: HitResult<M>, sqrt: real -> real)
    requires IsSqrt(sqrt)
    ensures var r := ComputeSphereHit(ray, tMin, tMax, center, radius, result, sqrt);
      && (r.Some? ==> OnSphere(ray, center, radius, r.value.t))
      && (r.Some? ==> forall t :: tMin < t < r.value.t ==> !OnSphere(ray, center, radius, t))
      && (r.None? ==> forall t :: tMin < t < tMax && OnSphere(ray, center, radius, t) ==>
                                  Discriminant(ray, center, radius) == 0.0)
  {
    var r := ComputeSphereHit(ray, tMin, tMax, center, radius, result, sqrt);
    var disc := Discriminant(ray, center, radius);
    if disc > 0.0 {
      var near, far := SmallerRoot(ray, center, radius, sqrt), LargerRoot(ray, center, radius, sqrt);
      RootsOfSphere(ray, center, radius, sqrt, near);
      forall t | tMin < t < tMax
        ensures OnSphere(ray, center, radius, t) <==> (t == near || t == far)
      {
        RootsOfSphere(ray, center, radius, sqrt, t);
      }
      if r.Some? {
        RootsOfSphere(ray, center, radius, sqrt, r.value.t);
      }
    } else {
      forall t | OnSphere(ray, center, radius, t)
        ensures disc == 0.0
      {
        OnSphereIffRoot(ray, center, radius, t);
        DegenerateNeverHits(ray, center, radius);
        if disc < 0.0 {
          NoRealRoots(QuadA(ray), QuadB(ray, center), QuadC(ray, center, radius), t);
        }
      }
    }
  }

  /** A sphere: center, radius and material. A negative radius is deliberate: it flips
      the normal so that the sphere is the inner surface of a shell. */
  datatype Sphere<M> = Sphere(center: Vec3, radius: real, material: M) {

    /** Sphere::ComputeHit: the outcome of ComputeSphereHit, with the sphere's material
        written into the record only when the hit is accepted. */
    function ComputeHit(ray: Ray, tMin: real, tMax: real, result: HitResult<M>, sqrt: real -> real)
      : (r: Option<HitResult<M>>)
      ensures r.Some? <==> ComputeSphereHit(ray, tMin, tMax, center, radius, result, sqrt).Some?
      ensures r.Some? ==> r.value.material == material
      ensures r.Some? ==> r.value.(material := result.material)
                          == ComputeSphereHit(ray, tMin, tMax, center, radius, result, sqrt).value
    {
      match ComputeSphereHit(ray, tMin, tMax, center, radius, result, sqrt)
      case Some(h) => Some(h.(material := material))
      case None => None
    }
  }

  /** Every field of the record is written on acceptance, so what `*result` held before
      the call never shows in the outcome. */
  lemma ComputeHitIgnoresPriorRecord<M>(s: Sphere<M>, ray: Ray, tMin: real, tMax: real,
                                        r1: HitResult<M>, r2: HitResult<M>, sqrt: real -> real)
    ensures s.ComputeHit(ray, tMin, tMax, r1, sqrt) == s.ComputeHit(ray, tMin, tMax, r2, sqrt)
  {
  }

  /**
    * The sphere reports its least intersection in the interval, so shrinking the upper
    * bound to `bound` keeps the same hit when it still lies below `bound` and loses it
    * otherwise; a miss stays a miss.
    */
  lemma SphereHitShrink<M>(s: Sphere<M>, ray: Ray, tMin: real, tMax: real, bound: real,
                           result: HitResult<M>, sqrt: real -> real)
    requires IsSqrt(sqrt) && bound <= tMax
    ensures s.ComputeHit(ray, tMin, bound, result, sqrt)
         == match s.ComputeHit(ray, tMin, tMax, result, sqrt)
            case Some(h) => if h.t < bound then Some(h) else None
            case None => None
  {
    if Discriminant(ray, s.center, s.radius) > 0.0 {
      RootsOfSphere(ray, s.center, s.radius, sqrt, tMin);
    }
  }
}
