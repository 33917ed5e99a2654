/** The pinhole camera that maps integer pixels to primary rays. */
module Cameras {
  import opened Vectors

  /**
   * Eye position, orthonormal basis (u, v, w), image-plane bounds l, r, b, t,
   * focal distance d and resolution nx by ny.
   */
  datatype Camera = Camera(
    eye: Vec3, u: Vec3, v: Vec3, w: Vec3,
    l: real, r: real, b: real, t: real, d: real,
    nx: int, ny: int)
  {
    /** A camera whose resolution can be divided by. */
    predicate Valid() { nx > 0 && ny > 0 }

    /** Horizontal image-plane coordinate of the centre of pixel column `i`. */
    function UCoord(i: int): real
      requires nx > 0
    {
      l + (r - l) * (i as real + 0.5) / (nx as real)
    }

    /** Vertical image-plane coordinate of the centre of pixel row `j`. */
    function VCoord(j: int): real
      requires ny > 0
    {
      b + (t - b) * (j as real + 0.5) / (ny as real)
    }

    /**
     * `generateRay(i, j)`: the ray from the eye through the image-plane point
     * (UCoord(i), VCoord(j)) at distance d along -w. The direction is
     * normalized once here and once more by the Ray constructor.
     */
    function GenerateRay(i: int, j: int, lib: MathLib): (ray: Ray)
      requires Valid()
      ensures ray.origin == eye
    {
      var dir := lib.normalize(Sub(Add(Scale(UCoord(i), u), Scale(VCoord(j), v)), Scale(d, w)));
      MakeRay(eye, dir, lib)
    }
  }

  /**
   * A pixel coordinate inside the resolution maps strictly inside the
   * image-plane interval: the pixel centre never lies on the border.
   */
  lemma {:induction false} CentreInside(lo: real, hi: real, i: int, n: int, x: real)
    requires 0 <= i < n && lo < hi
    requires x == lo + (hi - lo) * (i as real + 0.5) / (n as real)
    ensures lo < x < hi
  {
    var a, len, m := i as real + 0.5, hi - lo, n as real;
    FractionInUnit(a, m);
    ScaledInside(len, a / m);
    ProductOverQuotient(len, a, m);
  }

  /** A positive value below `m` divided by `m` is strictly between 0 and 1. */
  lemma FractionInUnit(a: real, m: real)
    requires 0.0 < a < m
    ensures 0.0 < a / m < 1.0
  {
    var f := a / m;
    assert f * m == a;
    if f <= 0.0 { MulMono(f, 0.0, m); }
    if f >= 1.0 { MulMono(1.0, f, m); }
  }

  /** A fraction strictly between 0 and 1 of a positive length lies strictly inside it. */
  lemma ScaledInside(len: real, f: real)
    requires 0.0 < len && 0.0 < f < 1.0
    ensures 0.0 < len * f < len
  {
    MulPos(len, f);
    MulPos(len, 1.0 - f);
  }

  lemma ProductOverQuotient(len: real, a: real, m: real)
    requires m != 0.0
    ensures len * a / m == len * (a / m)
  {
  }

  /** Every in-range column lands strictly between l and r, every row strictly between b and t. */
  lemma {:induction false} PixelCentreInsideImagePlane(cam: Camera, i: int, j: int)
    requires cam.Valid()
    requires 0 <= i < cam.nx && 0 <= j < cam.ny
    requires cam.l < cam.r && cam.b < cam.t
    ensures cam.l < cam.UCoord(i) < cam.r
    ensures cam.b < cam.VCoord(j) < cam.t
  {
    CentreInside(cam.l, cam.r, i, cam.nx, cam.UCoord(i));
    CentreInside(cam.b, cam.t, j, cam.ny, cam.VCoord(j));
  }

  /**
   * The direction of a primary ray is normalized twice, once in
   * `generateRay` and once by the `Ray` constructor; with an idempotent
   * `normalize` that is the same as normalizing once.
   */
  lemma DoubleNormalizeHarmless(cam: Camera, i: int, j: int, lib: MathLib)
    requires cam.Valid() && lib.NormalizeIdempotent()
    ensures cam.GenerateRay(i, j, lib).direction ==
      lib.normalize(Sub(Add(Scale(cam.UCoord(i), cam.u), Scale(cam.VCoord(j), cam.v)), Scale(cam.d, cam.w)))
  {
    var dir := lib.normalize(Sub(Add(Scale(cam.UCoord(i), cam.u), Scale(cam.VCoord(j), cam.v)), Scale(cam.d, cam.w)));
    assert lib.normalize(dir) == dir;
  }
}
