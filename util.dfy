/** util.h: mirror reflection about a normal, and the rejection sampler for a random
    point inside the unit sphere. */
module Util {
  import opened Options
  import opened Vectors

  /** `direction - 2 (direction . normal) normal` */
  function Reflect(direction: Vec3, normal: Vec3): Vec3 {
    Sub(direction, Scale(2.0 * Dot(direction, normal), normal))
  }

  /** Reflecting about a unit normal negates the component along the normal. */
  lemma ReflectFlipsNormalComponent(d: Vec3, n: Vec3)
    requires SquaredNorm(n) == 1.0
    ensures Dot(Reflect(d, n), n) == -Dot(d, n)
  {
    var k := Dot(d, n);
    calc {
      Dot(Reflect(d, n), n);
    == { DotSubScale(d, n, 2.0 * k, n); }
      k - (2.0 * k) * Dot(n, n);
      k - (2.0 * k) * 1.0;
      -k;
    }
  }

  /** Reflecting twice about the same unit normal gives back the original direction. */
  lemma ReflectIsInvolution(d: Vec3, n: Vec3)
    requires SquaredNorm(n) == 1.0
    ensures Reflect(Reflect(d, n), n) == d
  {
    var k := Dot(d, n);
    var r := Reflect(d, n);
    ReflectFlipsNormalComponent(d, n);
    assert Dot(r, n) == -k;
    assert Reflect(r, n) == Sub(r, Scale(-2.0 * k, n));
  }

  /** Reflecting about a unit normal preserves length. */
  lemma ReflectPreservesLength(d: Vec3, n: Vec3)
    requires SquaredNorm(n) == 1.0
    ensures SquaredNorm(Reflect(d, n)) == SquaredNorm(d)
  {
    var k := Dot(d, n);
    var r := Reflect(d, n);
    calc {
      SquaredNorm(r);
    == { DotSubScale(d, n, 2.0 * k, r); }
      Dot(d, r) - (2.0 * k) * Dot(n, r);
    == { DotSymmetric(d, r); DotSymmetric(n, r); DotSubScale(d, n, 2.0 * k, d); ReflectFlipsNormalComponent(d, n); }
      (SquaredNorm(d) - (2.0 * k) * Dot(n, d)) - (2.0 * k) * (-k);
    == { DotSymmetric(n, d); }
      SquaredNorm(d) - (2.0 * k) * k + (2.0 * k) * k;
      SquaredNorm(d);
    }
  }

  /** A direction with no component along the normal is its own reflection. */
  lemma ReflectTangent(d: Vec3, n: Vec3)
    requires Dot(d, n) == 0.0
    ensures Reflect(d, n) == d
  {
  }

  /** The `k`-th candidate of the sampler: `2 (r0, r1, r2) - (1, 1, 1)` built from the
      `k`-th triple of uniform draws. The three `drand48()` calls are arguments of one
      constructor call, whose evaluation order C++ leaves unspecified; taking the first
      draw of the triple as x is a choice, and every property proved here is symmetric
      in the three components. */
  function Candidate(draws: seq<real>, k: nat): Vec3
    requires 3 * k + 3 <= |draws|
  {
    Sub(Scale(2.0, Vec3(draws[3 * k], draws[3 * k + 1], draws[3 * k + 2])), Vec3(1.0, 1.0, 1.0))
  }

  predicate InUnitSphere(p: Vec3) {
    SquaredNorm(p) < 1.0
  }

  /** Every draw is in `[0, 1)`, as `drand48` promises. */
  predicate UnitDraws(draws: seq<real>) {
    forall i :: 0 <= i < |draws| ==> 0.0 <= draws[i] < 1.0
  }

  /** With draws in `[0, 1)` every candidate lies in the cube `[-1, 1)^3`. */
  lemma CandidateInCube(draws: seq<real>, k: nat)
    requires 3 * k + 3 <= |draws| && UnitDraws(draws)
    ensures var p := Candidate(draws, k);
      -1.0 <= p.x < 1.0 && -1.0 <= p.y < 1.0 && -1.0 <= p.z < 1.0
  {
    assert 0.0 <= draws[3 * k] < 1.0;
    assert 0.0 <= draws[3 * k + 1] < 1.0;
    assert 0.0 <= draws[3 * k + 2] < 1.0;
  }

  /**
    * GetRandomVecInUnitSphere: draw candidates until one falls strictly inside the unit
    * sphere. The global `drand48` stream is the explicit, finite sequence `draws`, three
    * draws per attempt; `None` means the stream ran out before a candidate was accepted.
    * The result is the first accepted candidate, and `attempts` is how many were drawn.
    */
  method GetRandomVecInUnitSphere(draws: seq<real>) returns (p: Option<Vec3>, attempts: nat)
    ensures 3 * attempts <= |draws|
    ensures p.Some? ==> 1 <= attempts && p.value == Candidate(draws, attempts - 1) && InUnitSphere(p.value)
    ensures p.None? ==> attempts == |draws| / 3
    ensures forall k :: 0 <= k < attempts && (p.None? || k < attempts - 1) ==> !InUnitSphere(Candidate(draws, k))
  {
    attempts := 0;
    while 3 * attempts + 3 <= |draws|
      invariant 3 * attempts <= |draws|
      invariant forall k :: 0 <= k < attempts ==> !InUnitSphere(Candidate(draws, k))
    {
      var candidate := Candidate(draws, attempts);
      attempts := attempts + 1;
      if InUnitSphere(candidate) {
        return Some(candidate), attempts;
      }
    }
    return None, attempts;
  }
}
