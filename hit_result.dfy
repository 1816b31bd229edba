/** hitable.h: the record a surface fills in when it accepts a hit. The material is an
    opaque reference here (`Material*` is only forward-declared in hitable.h), so the
    record is generic in its type. */
module Hits {
  import opened Vectors

  /** `t` is the ray parameter of the hit, `point` the hit point, `normal` the surface
      normal there (unit length by convention) and `material` the surface's material. */
  datatype HitResult<M> = HitResult(t: real, point: Vec3, normal: Vec3, material: M)
}
