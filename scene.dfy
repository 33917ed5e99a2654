/** The scene: an ordered list of surfaces and nearest-hit resolution over it. */
module Scenes {
  import opened Wrappers
  import opened Vectors
  import opened Surfaces

  /** Largest finite single-precision float: the initial value of `t_min`. */
  const FltMax: real := 340282346638528859811704183484516925440.0

  /** The four out-parameters of `Scene::intersect`. */
  datatype HitRecord = HitRecord(hitColor: Vec3, hitNormal: Vec3, hitMaterial: Material, hitPos: Vec3)

  /**
   * Stand-in for the caller's uninitialised out-variables; it is only ever
   * read back when the scan finds nothing.
   */
  const Unset: HitRecord := HitRecord(Zero, Zero, Material(Zero, Zero, Zero, 0.0), Zero)

  /** A surface takes part in the running minimum when it reports a hit below the sentinel. */
  predicate Reports(s: Surface, ray: Ray, lib: MathLib) {
    var h := s.Intersect(ray, lib);
    h.Some? && h.value.t < FltMax
  }

  /** The parameter a reporting surface reports. */
  function HitT(s: Surface, ray: Ray, lib: MathLib): real
    requires Reports(s, ray, lib)
  {
    s.Intersect(ray, lib).value.t
  }

  /** What the scan copies out of the winning surface. */
  function RecordOf(s: Surface, ray: Ray, h: Hit): HitRecord {
    HitRecord(s.material.kd, h.normal, s.material, s.GetPosition(ray, h.t))
  }

  /**
   * Among the first `n` surfaces, `w` reports a hit whose parameter is no
   * larger than any other reported one and strictly smaller than that of
   * every reporting surface inserted before it.
   */
  ghost predicate IsFirstNearest(objects: seq<Surface>, n: nat, ray: Ray, lib: MathLib, w: nat)
    requires n <= |objects|
  {
    w < n && Reports(objects[w], ray, lib) &&
    forall k :: 0 <= k < n && Reports(objects[k], ray, lib) ==>
      HitT(objects[w], ray, lib) <= HitT(objects[k], ray, lib) &&
      (k < w ==> HitT(objects[w], ray, lib) < HitT(objects[k], ray, lib))
  }

  /**
   * Reference definition of the surface the scan selects, computed from the
   * back of the list: the head wins when it is at least as near as the best
   * of the rest.
   */
  function NearestIndex(objects: seq<Surface>, ray: Ray, lib: MathLib): (r: Option<nat>)
    ensures r.Some? ==> r.value < |objects| && Reports(objects[r.value], ray, lib)
    decreases |objects|
  {
    if |objects| == 0 then None
    else
      var rest := NearestIndex(objects[1..], ray, lib);
      if Reports(objects[0], ray, lib) &&
         (rest.None? || HitT(objects[0], ray, lib) <= HitT(objects[rest.value + 1], ray, lib))
      then Some(0)
      else if rest.Some? then Some(rest.value + 1)
      else None
  }

  /**
   * NearestIndex finds the first nearest surface, and finds nothing exactly
   * when no surface reports a hit.
   */
  lemma {:induction false} NearestIndexCorrect(objects: seq<Surface>, ray: Ray, lib: MathLib)
    ensures NearestIndex(objects, ray, lib).None? <==>
      forall k :: 0 <= k < |objects| ==> !Reports(objects[k], ray, lib)
    ensures NearestIndex(objects, ray, lib).Some? ==>
      IsFirstNearest(objects, |objects|, ray, lib, NearestIndex(objects, ray, lib).value)
    decreases |objects|
  {
    if |objects| > 0 {
      var tail := objects[1..];
      NearestIndexCorrect(tail, ray, lib);
      var rest := NearestIndex(tail, ray, lib);
      forall k | 1 <= k < |objects|
        ensures objects[k] == tail[k - 1]
      {
      }
      var r := NearestIndex(objects, ray, lib);
      if r.Some? {
        var w := r.value;
        forall k | 0 <= k < |objects| && Reports(objects[k], ray, lib)
          ensures HitT(objects[w], ray, lib) <= HitT(objects[k], ray, lib)
          ensures k < w ==> HitT(objects[w], ray, lib) < HitT(objects[k], ray, lib)
        {
          if k > 0 {
            assert Reports(tail[k - 1], ray, lib);
          }
        }
      }
    }
  }

  /** There is at most one first nearest surface. */
  lemma FirstNearestUnique(objects: seq<Surface>, n: nat, ray: Ray, lib: MathLib, w1: nat, w2: nat)
    requires n <= |objects|
    requires IsFirstNearest(objects, n, ray, lib, w1) && IsFirstNearest(objects, n, ray, lib, w2)
    ensures w1 == w2
  {
  }

  /**
   * Tie-break: of two surfaces reporting the same parameter, the later one is
   * never selected.
   */
  lemma TieKeepsEarliest(objects: seq<Surface>, ray: Ray, lib: MathLib, i: nat, j: nat)
    requires i < j < |objects|
    requires Reports(objects[i], ray, lib) && Reports(objects[j], ray, lib)
    requires HitT(objects[i], ray, lib) == HitT(objects[j], ray, lib)
    ensures NearestIndex(objects, ray, lib) != Some(j)
  {
    NearestIndexCorrect(objects, ray, lib);
  }

  /**
   * The result of nearest-hit resolution: the record copied from the first
   * nearest surface, or nothing.
   */
  function SceneHit(objects: seq<Surface>, ray: Ray, lib: MathLib): Option<HitRecord> {
    match NearestIndex(objects, ray, lib)
    case None => None
    case Some(w) => Some(RecordOf(objects[w], ray, objects[w].Intersect(ray, lib).value))
  }

  /**
   * Nearest-hit resolution succeeds exactly when some surface reports a hit
   * below the sentinel, whatever its distance; on success the record is that
   * of the first nearest surface.
   */
  lemma {:induction false} SceneHitSpec(objects: seq<Surface>, ray: Ray, lib: MathLib)
    ensures SceneHit(objects, ray, lib).Some? <==>
      exists k :: 0 <= k < |objects| && Reports(objects[k], ray, lib)
    ensures SceneHit(objects, ray, lib).Some? ==>
      exists w: nat :: IsFirstNearest(objects, |objects|, ray, lib, w) &&
        SceneHit(objects, ray, lib).value == RecordOf(objects[w], ray, objects[w].Intersect(ray, lib).value)
  {
    NearestIndexCorrect(objects, ray, lib);
  }

  /**
   * The scene owns its surfaces in insertion order; insertion order only
   * matters as the tie-break of nearest-hit resolution.
   */
  class Scene {
    var objects: seq<Surface>

    constructor ()
      ensures objects == []
    {
      objects := [];
    }

    /** `addObject`: append a surface. */
    method AddObject(s: Surface)
      modifies this
      ensures objects == old(objects) + [s]
    {
      objects := objects + [s];
    }

    /**
     * `Scene::intersect`: a linear scan keeping a running minimum `t_min`
     * under a strict comparison. On success the out-parameters are copied
     * from the first nearest surface; otherwise they keep their values.
     */
    method Intersect(ray: Ray, lib: MathLib, prior: HitRecord) returns (hit: bool, rec: HitRecord)
      ensures hit <==> exists k :: 0 <= k < |objects| && Reports(objects[k], ray, lib)
      ensures !hit ==> rec == prior
      ensures hit ==> SceneHit(objects, ray, lib) == Some(rec)
      ensures !hit ==> SceneHit(objects, ray, lib).None?
      ensures hit && lib.SqrtLaw() ==> exists k :: 0 <= k < |objects| && objects[k].OnSurface(rec.hitPos)
    {
      var tMin := FltMax;
      hit := false;
      rec := prior;
      ghost var w: nat := 0;
      for k := 0 to |objects|
        invariant hit <==> exists q :: 0 <= q < k && Reports(objects[q], ray, lib)
        invariant !hit ==> tMin == FltMax && rec == prior
        invariant hit ==> IsFirstNearest(objects, k, ray, lib, w)
        invariant hit ==> tMin == HitT(objects[w], ray, lib)
        invariant hit ==> rec == RecordOf(objects[w], ray, objects[w].Intersect(ray, lib).value)
      {
        var surface := objects[k];
        var h := surface.Intersect(ray, lib);
        if h.Some? && h.value.t < tMin {
          tMin := h.value.t;
          rec := HitRecord(surface.material.kd, h.value.normal, surface.material, surface.GetPosition(ray, h.value.t));
          hit := true;
          w := k;
        }
      }
      NearestIndexCorrect(objects, ray, lib);
      if hit {
        FirstNearestUnique(objects, |objects|, ray, lib, w, NearestIndex(objects, ray, lib).value);
        if lib.SqrtLaw() {
          HitPositionOnSurface(objects[w], ray, lib);
        }
      }
    }
  }
}
