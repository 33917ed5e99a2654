/**
 * Local illumination with a single point light and hard shadows, the colour
 * post-processing (clamp and gamma), and the output pixel buffer.
 */
module Shading {
  import opened Wrappers
  import opened Vectors
  import opened Surfaces
  import opened Scenes

  /** Image size in pixels. */
  const Width: nat := 512
  const Height: nat := 512

  /** The point light, the ambient light and the light intensity. */
  const LightPos: Vec3 := Vec3(-4.0, 4.0, -3.0)
  const Ia: Vec3 := Splat(1.0)
  const Il: Vec3 := Splat(1.0)

  /** Offset along the light direction that starts a shadow ray off the surface. */
  const ShadowEpsilon: real := 0.001

  function Max(a: real, b: real): real { if a < b then b else a }

  /** glm `clamp(x, 0, 1)` on one channel. */
  function Clamp(a: real): (r: real)
    ensures 0.0 <= r <= 1.0
    ensures 0.0 <= a <= 1.0 ==> r == a
    ensures a < 0.0 ==> r == 0.0
    ensures 1.0 < a ==> r == 1.0
  {
    if a < 0.0 then 0.0 else if a > 1.0 then 1.0 else a
  }

  /** Component-wise clamp of a colour to [0,1]. */
  function ClampColor(c: Vec3): (r: Vec3)
    ensures InUnit(r)
    ensures InUnit(c) ==> r == c
  {
    Vec3(Clamp(c.x), Clamp(c.y), Clamp(c.z))
  }

  /** Raise every channel to the power `1/gamma`. */
  function GammaCorrect(c: Vec3, lib: MathLib): Vec3 {
    Vec3(lib.pow(c.x, InvGamma), lib.pow(c.y, InvGamma), lib.pow(c.z, InvGamma))
  }

  /** Gamma correction keeps a colour in [0,1] and keeps black black. */
  lemma GammaKeepsUnit(c: Vec3, lib: MathLib)
    requires lib.GammaLaw()
    ensures InUnit(c) ==> InUnit(GammaCorrect(c, lib))
    ensures c == Zero ==> GammaCorrect(c, lib) == Zero
  {
  }

  /** Direction from a hit point towards the light. */
  function LightDir(hitPos: Vec3, lib: MathLib): Vec3 {
    lib.normalize(Sub(LightPos, hitPos))
  }

  /** The shadow ray starts a little off the surface, towards the light. */
  function ShadowRay(hitPos: Vec3, lightDir: Vec3, lib: MathLib): Ray {
    MakeRay(Add(hitPos, Scale(ShadowEpsilon, lightDir)), lightDir, lib)
  }

  /**
   * A point is in shadow when nearest-hit resolution succeeds on its shadow
   * ray; the distance to the light plays no part.
   */
  function InShadow(objects: seq<Surface>, hitPos: Vec3, lightDir: Vec3, lib: MathLib): bool {
    SceneHit(objects, ShadowRay(hitPos, lightDir, lib), lib).Some?
  }

  /** In shadow exactly when some surface reports a hit along the shadow ray, however far away. */
  lemma ShadowIffOccluder(objects: seq<Surface>, hitPos: Vec3, lightDir: Vec3, lib: MathLib)
    ensures InShadow(objects, hitPos, lightDir, lib) <==>
      exists k :: 0 <= k < |objects| && Reports(objects[k], ShadowRay(hitPos, lightDir, lib), lib)
  {
    SceneHitSpec(objects, ShadowRay(hitPos, lightDir, lib), lib);
  }

  /**
   * Ambient + diffuse + specular at a hit. `V` looks back along the primary
   * ray, `R` reflects the light direction about the normal. In shadow only
   * the ambient term remains.
   */
  function ShadeHit(rec: HitRecord, lightDir: Vec3, inShadow: bool, rayDir: Vec3, lib: MathLib): (r: Vec3)
    ensures inShadow ==> r == Mul(rec.hitMaterial.ka, Ia)
  {
    var n, mat := rec.hitNormal, rec.hitMaterial;
    var V := lib.normalize(Neg(rayDir));
    var R := lib.normalize(Sub(Scale(2.0 * Dot(n, lightDir), n), lightDir));
    var ambient := Mul(mat.ka, Ia);
    var diffuse := if !inShadow then Scale(Max(Dot(n, lightDir), 0.0), Mul(mat.kd, Il)) else Zero;
    var specular := if !inShadow then Scale(lib.pow(Max(Dot(R, V), 0.0), mat.specPower), Mul(mat.ks, Il)) else Zero;
    Add(Add(ambient, diffuse), specular)
  }

  /**
   * A light behind the surface (`n . L <= 0`) adds nothing to a material
   * without a specular part: the lit point looks as if it were in shadow.
   */
  lemma BackLitMatteIsAmbient(rec: HitRecord, lightDir: Vec3, rayDir: Vec3, lib: MathLib)
    requires Dot(rec.hitNormal, lightDir) <= 0.0 && rec.hitMaterial.ks == Zero
    ensures ShadeHit(rec, lightDir, false, rayDir, lib) == Mul(rec.hitMaterial.ka, Ia)
  {
    var n, mat := rec.hitNormal, rec.hitMaterial;
    var V := lib.normalize(Neg(rayDir));
    var R := lib.normalize(Sub(Scale(2.0 * Dot(n, lightDir), n), lightDir));
    assert Max(Dot(n, lightDir), 0.0) == 0.0;
    ScaleByZero(Mul(mat.kd, Il));
    ZeroScaled(lib.pow(Max(Dot(R, V), 0.0), mat.specPower));
    assert Mul(mat.ks, Il) == Zero;
  }

  lemma ScaleByZero(c: Vec3)
    ensures Scale(0.0, c) == Zero
  {
  }

  lemma ZeroScaled(s: real)
    ensures Scale(s, Zero) == Zero
  {
  }

  /** No channel is negative. */
  predicate NonNegative(c: Vec3) {
    0.0 <= c.x && 0.0 <= c.y && 0.0 <= c.z
  }

  /**
   * With non-negative reflectances and a `pow` that is non-negative on
   * non-negative bases, a lit point is never darker, channel by channel,
   * than the same point in shadow.
   */
  lemma {:induction false} LitNoDarkerThanShadowed(rec: HitRecord, lightDir: Vec3, rayDir: Vec3, lib: MathLib)
    requires NonNegative(rec.hitMaterial.kd) && NonNegative(rec.hitMaterial.ks)
    requires lib.PowNonNegative(rec.hitMaterial.specPower)
    ensures var lit, dark := ShadeHit(rec, lightDir, false, rayDir, lib), ShadeHit(rec, lightDir, true, rayDir, lib);
      dark.x <= lit.x && dark.y <= lit.y && dark.z <= lit.z
  {
    var n, mat := rec.hitNormal, rec.hitMaterial;
    var V := lib.normalize(Neg(rayDir));
    var R := lib.normalize(Sub(Scale(2.0 * Dot(n, lightDir), n), lightDir));
    var kDiff := Max(Dot(n, lightDir), 0.0);
    var kSpec := lib.pow(Max(Dot(R, V), 0.0), mat.specPower);
    assert 0.0 <= kSpec;
    ScaleNonNegative(kDiff, Mul(mat.kd, Il));
    ScaleNonNegative(kSpec, Mul(mat.ks, Il));
  }

  lemma ScaleNonNegative(s: real, c: Vec3)
    requires 0.0 <= s && NonNegative(c)
    ensures NonNegative(Scale(s, c))
  {
    MulMono(0.0, s, c.x);
    MulMono(0.0, s, c.y);
    MulMono(0.0, s, c.z);
  }

  /**
   * Unclamped colour seen along a primary ray: black on a miss, otherwise the
   * shading of the nearest hit with its own shadow test.
   */
  function Shade(objects: seq<Surface>, ray: Ray, lib: MathLib): Vec3 {
    match SceneHit(objects, ray, lib)
    case None => Zero
    case Some(rec) =>
      var lightDir := LightDir(rec.hitPos, lib);
      ShadeHit(rec, lightDir, InShadow(objects, rec.hitPos, lightDir, lib), ray.direction, lib)
  }

  /** A primary ray that no surface reports a hit for is shaded black. */
  lemma {:induction false} MissIsBlack(objects: seq<Surface>, ray: Ray, lib: MathLib)
    requires forall k :: 0 <= k < |objects| ==> !Reports(objects[k], ray, lib)
    ensures SceneHit(objects, ray, lib).None?
    ensures Shade(objects, ray, lib) == Zero
  {
    SceneHitSpec(objects, ray, lib);
  }

  // -------------------------------------------------------- pixel buffer

  /** Interleave colours into R, G, B floats, first colour first. */
  function Flatten(pixels: seq<Vec3>): seq<real>
    decreases |pixels|
  {
    if |pixels| == 0 then []
    else
      var last := pixels[|pixels| - 1];
      Flatten(pixels[..|pixels| - 1]) + [last.x, last.y, last.z]
  }

  /** A flattened buffer holds 3 floats per colour, channel `k` of colour `q` at `3q + k`. */
  lemma {:induction false} FlattenAt(pixels: seq<Vec3>)
    ensures |Flatten(pixels)| == 3 * |pixels|
    ensures forall q, k :: 0 <= q < |pixels| && 0 <= k < 3 ==>
      Flatten(pixels)[3 * q + k] == Channel(pixels[q], k)
    decreases |pixels|
  {
    if |pixels| > 0 {
      var init := pixels[..|pixels| - 1];
      FlattenAt(init);
      forall q, k | 0 <= q < |pixels| && 0 <= k < 3
        ensures Flatten(pixels)[3 * q + k] == Channel(pixels[q], k)
      {
        if q < |pixels| - 1 {
          assert pixels[q] == init[q];
        }
      }
    }
  }

  /** Flattening one more colour appends its three channels. */
  lemma FlattenSnoc(pixels: seq<Vec3>, p: nat)
    requires p < |pixels|
    ensures Flatten(pixels[..p + 1]) == Flatten(pixels[..p]) + [pixels[p].x, pixels[p].y, pixels[p].z]
  {
    assert pixels[..p + 1][..p] == pixels[..p];
  }

  /** Every float of a buffer of in-range colours is in [0,1]. */
  lemma {:induction false} FlattenInUnit(pixels: seq<Vec3>)
    requires forall q :: 0 <= q < |pixels| ==> InUnit(pixels[q])
    ensures forall n :: 0 <= n < |Flatten(pixels)| ==> 0.0 <= Flatten(pixels)[n] <= 1.0
  {
    FlattenAt(pixels);
    forall n | 0 <= n < |Flatten(pixels)|
      ensures 0.0 <= Flatten(pixels)[n] <= 1.0
    {
      var q, k := n / 3, n % 3;
      assert n == 3 * q + k;
      assert Flatten(pixels)[3 * q + k] == Channel(pixels[q], k);
      assert InUnit(pixels[q]);
    }
  }

  /** Row-major pixel numbering: pixel `p = j * Width + i` is column `i` of row `j`. */
  lemma RowMajor(i: int, j: int)
    requires 0 <= i < Width && 0 <= j
    ensures (j * Width + i) % Width == i && (j * Width + i) / Width == j
  {
  }

  /** The pixels before row `j + 1` are those before row `j` and the whole of row `j`. */
  lemma NextRow(j: nat)
    ensures j * Width + Width == (j + 1) * Width
  {
  }

  /** The global `OutputImage` vector: cleared, then appended to. */
  class OutputImage {
    var data: seq<real>

    constructor ()
      ensures data == []
    {
      data := [];
    }

    method Clear()
      modifies this
      ensures data == []
    {
      data := [];
    }

    method PushBack(x: real)
      modifies this
      ensures data == old(data) + [x]
    {
      data := data + [x];
    }
  }
}
