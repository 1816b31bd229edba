/**
  * hitable.h: HitableList, the scene aggregate. Its ComputeHit walks the surfaces in
  * order, asking each for a hit below the closest one found so far. Spheres are the
  * only concrete surface, so the list holds spheres.
  */
module HitableLists {
  import opened Options
  import opened Vectors
  import opened Rays
  import opened Hits
  import opened Spheres

  /** What the loop has found after the surfaces in `list`: the last hit accepted, each
      surface being asked for a hit below the previous acceptance (or below `tMax`). */
  function Nearest<M>(list: seq<Sphere<M>>, ray: Ray, tMin: real, tMax: real,
                      result: HitResult<M>, sqrt: real -> real): (r: Option<HitResult<M>>)
    ensures r.Some? ==> tMin < r.value.t < tMax
    decreases |list|
  {
    if list == [] then
      None
    else
      var prev := Nearest(list[..|list| - 1], ray, tMin, tMax, result, sqrt);
      var closest := if prev.Some? then prev.value.t else tMax;
      match list[|list| - 1].ComputeHit(ray, tMin, closest, result, sqrt)
      case Some(h) => Some(h)
      case None => prev
  }

  /** Surface `j` hits at `h` over the whole interval, no surface hits below `h.t`, and
      every surface before `j` either misses or hits strictly later. */
  ghost predicate IsNearestHit<M>(list: seq<Sphere<M>>, ray: Ray, tMin: real, tMax: real,
                                  result: HitResult<M>, sqrt: real -> real, j: int, h: HitResult<M>)
  {
    && 0 <= j < |list|
    && list[j].ComputeHit(ray, tMin, tMax, result, sqrt) == Some(h)
    && forall k :: 0 <= k < |list| && list[k].ComputeHit(ray, tMin, tMax, result, sqrt).Some? ==>
         && h.t <= list[k].ComputeHit(ray, tMin, tMax, result, sqrt).value.t
         && (k < j ==> h.t < list[k].ComputeHit(ray, tMin, tMax, result, sqrt).value.t)
  }

  /**
    * The aggregate reports the nearest hit over all surfaces, whatever their order: it
    * misses exactly when every surface misses, and otherwise returns the hit of a surface
    * whose hit parameter is the minimum over the list, the earliest such surface on a tie.
    */
  lemma {:induction false} NearestIsClosest<M>(list: seq<Sphere<M>>, ray: Ray, tMin: real, tMax: real,
                                              result: HitResult<M>, sqrt: real -> real)
    requires IsSqrt(sqrt)
    ensures var r := Nearest(list, ray, tMin, tMax, result, sqrt);
      && (r.None? <==> forall k :: 0 <= k < |list| ==> list[k].ComputeHit(ray, tMin, tMax, result, sqrt).None?)
      && (r.Some? ==> exists j :: IsNearestHit(list, ray, tMin, tMax, result, sqrt, j, r.value))
    decreases |list|
  {
    if list != [] {
      var n := |list| - 1;
      var pre := list[..n];
      var prev := Nearest(pre, ray, tMin, tMax, result, sqrt);
      NearestIsClosest(pre, ray, tMin, tMax, result, sqrt);
      var last := list[n].ComputeHit(ray, tMin, tMax, result, sqrt);
      assert forall k :: 0 <= k < n ==> pre[k] == list[k];
      if prev.None? {
        if last.Some? {
          assert IsNearestHit(list, ray, tMin, tMax, result, sqrt, n, last.value);
        }
      } else {
        var p := prev.value;
        var j :| IsNearestHit(pre, ray, tMin, tMax, result, sqrt, j, p);
        SphereHitShrink(list[n], ray, tMin, tMax, p.t, result, sqrt);
        if last.Some? && last.value.t < p.t {
          assert IsNearestHit(list, ray, tMin, tMax, result, sqrt, n, last.value);
        } else {
          assert IsNearestHit(list, ray, tMin, tMax, result, sqrt, j, p);
        }
      }
    }
  }

  /** One more surface never takes the closest hit found so far further away: a hit
      survives, and when it changes, the new parameter is strictly smaller. */
  lemma NearestStep<M>(list: seq<Sphere<M>>, i: nat, ray: Ray, tMin: real, tMax: real,
                       result: HitResult<M>, sqrt: real -> real)
    requires i < |list|
    ensures var p := Nearest(list[..i], ray, tMin, tMax, result, sqrt);
            var q := Nearest(list[..i + 1], ray, tMin, tMax, result, sqrt);
      && (p.Some? ==> q.Some? && q.value.t <= p.value.t)
      && (p.Some? && q != p ==> q.value.t < p.value.t)
  {
    assert list[..i + 1][..i] == list[..i];
  }

  /** `closest_so_far` never increases along the loop. */
  lemma {:induction false} ClosestNeverIncreases<M>(list: seq<Sphere<M>>, i: nat, j: nat, ray: Ray,
                                                   tMin: real, tMax: real, result: HitResult<M>,
                                                   sqrt: real -> real)
    requires i <= j <= |list|
    requires Nearest(list[..i], ray, tMin, tMax, result, sqrt).Some?
    ensures Nearest(list[..j], ray, tMin, tMax, result, sqrt).Some?
    ensures Nearest(list[..j], ray, tMin, tMax, result, sqrt).value.t
         <= Nearest(list[..i], ray, tMin, tMax, result, sqrt).value.t
    decreases j - i
  {
    if i < j {
      NearestStep(list, i, ray, tMin, tMax, result, sqrt);
      ClosestNeverIncreases(list, i + 1, j, ray, tMin, tMax, result, sqrt);
    }
  }

  /** The initial contents of `*result` never show in the fold's outcome, so the
      uninitialised record of a caller is harmless. */
  lemma {:induction false} NearestIgnoresPriorRecord<M>(list: seq<Sphere<M>>, ray: Ray, tMin: real, tMax: real,
                                                       r1: HitResult<M>, r2: HitResult<M>, sqrt: real -> real)
    ensures Nearest(list, ray, tMin, tMax, r1, sqrt) == Nearest(list, ray, tMin, tMax, r2, sqrt)
    decreases |list|
  {
    if list != [] {
      var n := |list| - 1;
      NearestIgnoresPriorRecord(list[..n], ray, tMin, tMax, r1, r2, sqrt);
      var prev := Nearest(list[..n], ray, tMin, tMax, r1, sqrt);
      var closest := if prev.Some? then prev.value.t else tMax;
      ComputeHitIgnoresPriorRecord(list[n], ray, tMin, closest, r1, r2, sqrt);
    }
  }

  /** A reported hit carries the material of one of the surfaces in the list. */
  lemma {:induction false} NearestMaterialFromList<M>(list: seq<Sphere<M>>, ray: Ray, tMin: real, tMax: real,
                                                     result: HitResult<M>, sqrt: real -> real)
    ensures var r := Nearest(list, ray, tMin, tMax, result, sqrt);
      r.Some? ==> exists j :: 0 <= j < |list| && list[j].material == r.value.material
    decreases |list|
  {
    if list != [] {
      var n := |list| - 1;
      NearestMaterialFromList(list[..n], ray, tMin, tMax, result, sqrt);
      var prev := Nearest(list[..n], ray, tMin, tMax, result, sqrt);
      var r := Nearest(list, ray, tMin, tMax, result, sqrt);
      if r.Some? && r != prev {
        assert list[n].material == r.value.material;
      } else if r.Some? {
        var j :| 0 <= j < n && list[..n][j].material == r.value.material;
        assert list[j].material == r.value.material;
      }
    }
  }

  /** A one-surface list reports exactly that surface's hit. */
  lemma NearestSingleton<M>(s: Sphere<M>, ray: Ray, tMin: real, tMax: real,
                            result: HitResult<M>, sqrt: real -> real)
    ensures Nearest([s], ray, tMin, tMax, result, sqrt) == s.ComputeHit(ray, tMin, tMax, result, sqrt)
  {
    assert [s][..0] == [];
  }

  /** The aggregate owns its surfaces in order (`list_` and `list_size_` together). */
  datatype HitableList<M> = HitableList(list: seq<Sphere<M>>) {

    /**
      * HitableList::ComputeHit. `result` is what `*result` held before the call; the
      * method returns `hit_anything` and what `*result` holds afterwards, which is the
      * fold `Nearest` on a hit and the untouched record on a miss.
      */
    method ComputeHit(ray: Ray, tMin: real, tMax: real, result: HitResult<M>, sqrt: real -> real)
      returns (hitAnything: bool, record: HitResult<M>)
      ensures hitAnything <==> Nearest(list, ray, tMin, tMax, result, sqrt).Some?
      ensures hitAnything ==> record == Nearest(list, ray, tMin, tMax, result, sqrt).value
      ensures !hitAnything ==> record == result
      ensures hitAnything ==> tMin < record.t < tMax
    {
      // temp_result is uninitialised in the C++; a surface overwrites every field before
      // the record is copied out, so its starting value never shows.
      var tempResult := result;
      hitAnything := false;
      record := result;
      var closestSoFar := tMax;
      for i := 0 to |list|
        invariant hitAnything <==> Nearest(list[..i], ray, tMin, tMax, result, sqrt).Some?
        invariant hitAnything ==> record == Nearest(list[..i], ray, tMin, tMax, result, sqrt).value
        invariant !hitAnything ==> record == result
        invariant closestSoFar == if hitAnything then record.t else tMax
        invariant tempResult == record
      {
        assert list[..i + 1][..i] == list[..i];
        ComputeHitIgnoresPriorRecord(list[i], ray, tMin, closestSoFar, tempResult, result, sqrt);
        var hit := list[i].ComputeHit(ray, tMin, closestSoFar, tempResult, sqrt);
        if hit.Some? {
          hitAnything := true;
          tempResult := hit.value;
          closestSoFar := tempResult.t;
          record := tempResult;
        }
      }
      assert list[..|list|] == list;
    }
  }
}
