/** camera.h: the fixed pinhole camera. Its image plane spans `[-2, 2] x [-1, 1]` at
    `z = -1`, and it looks from the origin. */
module Cameras {
  import opened Vectors
  import opened Rays

  datatype Camera = Camera(origin: Vec3, lowerLeftCorner: Vec3, horizontal: Vec3, vertical: Vec3) {

    /** GetRay(u, v): from the origin towards `lower_left_corner + u horizontal + v vertical`.
        A value method, so the camera is unchanged. */
    function GetRay(u: real, v: real): Ray {
      Ray(origin, Sub(ImagePoint(u, v), origin))
    }

    /** The point `(u, v)` of the image plane. */
    function ImagePoint(u: real, v: real): Vec3 {
      Add(Add(lowerLeftCorner, Scale(u, horizontal)), Scale(v, vertical))
    }
  }

  /** The default constructor `Camera()`. */
  function DefaultCamera(): Camera {
    Camera(Vec3(0.0, 0.0, 0.0), Vec3(-2.0, -1.0, -1.0), Vec3(4.0, 0.0, 0.0), Vec3(0.0, 2.0, 0.0))
  }

  /** For any camera, the ray for `(u, v)` starts at the camera origin and reaches the
      image-plane point `(u, v)` at parameter 1. */
  lemma GetRayReachesImagePlane(cam: Camera, u: real, v: real)
    ensures cam.GetRay(u, v).point == cam.origin
    ensures cam.GetRay(u, v).GetPointAtParameter(1.0) == cam.ImagePoint(u, v)
  {
    var p := cam.ImagePoint(u, v);
    assert Add(cam.origin, Scale(1.0, Sub(p, cam.origin))) == p;
  }

  /** The default camera's rays start at the origin with direction
      `(-2 + 4u, -1 + 2v, -1)`: an affine map of `(u, v)` whose depth is always -1. */
  lemma DefaultGetRay(u: real, v: real)
    ensures DefaultCamera().GetRay(u, v).point == Zero
    ensures DefaultCamera().GetRay(u, v).direction == Vec3(-2.0 + 4.0 * u, -1.0 + 2.0 * v, -1.0)
  {
  }

  /** The corners and the centre of the default image plane. */
  lemma DefaultGetRayLandmarks()
    ensures DefaultCamera().GetRay(0.0, 0.0).direction == DefaultCamera().lowerLeftCorner
    ensures DefaultCamera().GetRay(1.0, 1.0).direction == Vec3(2.0, 1.0, -1.0)
    ensures DefaultCamera().GetRay(0.5, 0.5).direction == Vec3(0.0, 0.0, -1.0)
  {
    DefaultGetRay(0.0, 0.0);
    DefaultGetRay(1.0, 1.0);
    DefaultGetRay(0.5, 0.5);
  }
}
