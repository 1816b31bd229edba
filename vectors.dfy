/**
  * Exact-real stand-in for Eigen's `Vector3f`: points, directions and colours alike.
  * Float rounding is not modelled; the square root is an explicit parameter that is
  * assumed to be the exact non-negative square root (`IsSqrt`).
  */
module Vectors {
  import opened RealArith

  datatype Vec3 = Vec3(x: real, y: real, z: real)

  const Zero := Vec3(0.0, 0.0, 0.0)

  function Add(a: Vec3, b: Vec3): Vec3 { Vec3(a.x + b.x, a.y + b.y, a.z + b.z) }

  function Sub(a: Vec3, b: Vec3): Vec3 { Vec3(a.x - b.x, a.y - b.y, a.z - b.z) }

  function Neg(a: Vec3): Vec3 { Vec3(-a.x, -a.y, -a.z) }

  /** `k * a` */
  function Scale(k: real, a: Vec3): Vec3 { Vec3(k * a.x, k * a.y, k * a.z) }

  /** `a / k` */
  function Div(a: Vec3, k: real): Vec3
    requires k != 0.0
  {
    Vec3(a.x / k, a.y / k, a.z / k)
  }

  function Dot(a: Vec3, b: Vec3): real { a.x * b.x + a.y * b.y + a.z * b.z }

  /** Eigen's `cwiseProduct`: channel-by-channel product of two colours. */
  function CwiseProduct(a: Vec3, b: Vec3): Vec3 { Vec3(a.x * b.x, a.y * b.y, a.z * b.z) }

  function SquaredNorm(a: Vec3): real { Dot(a, a) }

  /** `sqrt` is the exact square root on the non-negative reals. */
  ghost predicate IsSqrt(sqrt: real -> real) {
    forall x :: 0.0 <= x ==> 0.0 <= sqrt(x) && sqrt(x) * sqrt(x) == x
  }

  /**
    * Eigen's `normalized()`: divides by the length when the squared norm is positive and
    * returns the vector unchanged otherwise. The result is a positive rescaling of `v`
    * to unit length.
    */
  function Normalized(v: Vec3, sqrt: real -> real): (r: Vec3)
    requires IsSqrt(sqrt)
    ensures SquaredNorm(v) == 0.0 ==> r == v
    ensures SquaredNorm(v) > 0.0 ==> SquaredNorm(r) == 1.0
    ensures SquaredNorm(v) > 0.0 ==> 0.0 < sqrt(SquaredNorm(v)) && Scale(sqrt(SquaredNorm(v)), r) == v
  {
    var n2 := SquaredNorm(v);
    SquaredNormNonNegative(v);
    if n2 > 0.0 then
      var len := sqrt(n2);
      assert len * len == n2;
      DivSquaredNorm(v, len);
      Div(v, len)
    else
      v
  }

  /** A vector of positive length is normalised by dividing by its length. */
  lemma NormalizedDividesByLength(v: Vec3, sqrt: real -> real)
    requires IsSqrt(sqrt) && SquaredNorm(v) > 0.0
    ensures sqrt(SquaredNorm(v)) > 0.0
    ensures Normalized(v, sqrt) == Div(v, sqrt(SquaredNorm(v)))
  {
  }

  lemma SquaredNormNonNegative(a: Vec3)
    ensures SquaredNorm(a) >= 0.0
  {
    SquareNonNegative(a.x);
    SquareNonNegative(a.y);
    SquareNonNegative(a.z);
  }

  lemma SquaredNormScale(k: real, a: Vec3)
    ensures SquaredNorm(Scale(k, a)) == (k * k) * SquaredNorm(a)
  {
  }

  /** Dividing by a length whose square is the squared norm gives a unit vector. */
  lemma DivSquaredNorm(v: Vec3, len: real)
    requires len > 0.0 && len * len == SquaredNorm(v)
    ensures SquaredNorm(Div(v, len)) == 1.0
    ensures Scale(len, Div(v, len)) == v
  {
    var u := Div(v, len);
    assert Scale(len, u) == v;
    calc {
      SquaredNorm(u) * (len * len);
      (len * len) * SquaredNorm(u);
    == { SquaredNormScale(len, u); }
      SquaredNorm(Scale(len, u));
      len * len;
    }
    CancelSquare(SquaredNorm(u), len);
  }

  lemma DotSymmetric(a: Vec3, b: Vec3)
    ensures Dot(a, b) == Dot(b, a)
  {
  }

  lemma DotAddLeft(a: Vec3, b: Vec3, n: Vec3)
    ensures Dot(Add(a, b), n) == Dot(a, n) + Dot(b, n)
  {
  }

  lemma DotScaleLeft(k: real, a: Vec3, n: Vec3)
    ensures Dot(Scale(k, a), n) == k * Dot(a, n)
  {
  }

  lemma DotSubScale(a: Vec3, b: Vec3, k: real, n: Vec3)
    ensures Dot(Sub(a, Scale(k, b)), n) == Dot(a, n) - k * Dot(b, n)
  {
  }

  /** Lagrange's identity in three dimensions gives Cauchy-Schwarz: `(a.b)^2 <= |a|^2 |b|^2`. */
  lemma CauchySchwarz(a: Vec3, b: Vec3)
    ensures Dot(a, b) * Dot(a, b) <= SquaredNorm(a) * SquaredNorm(b)
  {
    var cx := a.y * b.z - a.z * b.y;
    var cy := a.z * b.x - a.x * b.z;
    var cz := a.x * b.y - a.y * b.x;
    assert SquaredNorm(a) * SquaredNorm(b) - Dot(a, b) * Dot(a, b) == cx * cx + cy * cy + cz * cz;
    SquareNonNegative(cx);
    SquareNonNegative(cy);
    SquareNonNegative(cz);
  }
}
