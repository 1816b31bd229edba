/** ray.h: a ray is an origin point and a direction that need not be unit length. */
module Rays {
  import opened Vectors

  /** `point()` and `direction()` are the two fields, returned exactly as constructed. */
  datatype Ray = Ray(point: Vec3, direction: Vec3) {

    /** The point `point + t * direction` at parameter `t` along the ray. */
    function GetPointAtParameter(t: real): Vec3 {
      Add(point, Scale(t, direction))
    }
  }

  /** The parameterisation is affine: it starts at the origin, reaches `point + direction`
      at 1, and moving the parameter by `s` moves the point by `s` directions. The
      direction is used as given, never normalised. */
  lemma GetPointAtParameterIsAffine(ray: Ray, t: real, s: real)
    ensures ray.GetPointAtParameter(0.0) == ray.point
    ensures ray.GetPointAtParameter(1.0) == Add(ray.point, ray.direction)
    ensures ray.GetPointAtParameter(t + s) == Add(ray.GetPointAtParameter(t), Scale(s, ray.direction))
  {
  }
}
