/**
 * The antialiased renderer: 64 jittered samples per pixel, each clamped and
 * gamma corrected, then averaged.
 */
module SupersampledRender {
  import opened Vectors
  import opened Cameras
  import opened Surfaces
  import opened Scenes
  import opened Shading

  /** Samples per pixel. */
  const Samples: nat := 64

  /** Conversion of a float to `int`, which truncates toward zero. */
  function Truncate(x: real): int {
    if x >= 0.0 then x.Floor else -((-x).Floor)
  }

  /** Truncation never moves a value away from zero by a whole unit or more. */
  lemma TruncateBounds(x: real)
    ensures x >= 0.0 ==> 0 <= Truncate(x) && Truncate(x) as real <= x < Truncate(x) as real + 1.0
    ensures x < 0.0 ==> Truncate(x) <= 0 && Truncate(x) as real - 1.0 < x <= Truncate(x) as real
  {
  }

  /**
   * The pixel index a jittered sample actually uses: `i + r - 0.5` passed to
   * `generateRay(int, int)` is truncated toward zero.
   */
  function JitterIndex(i: int, r: real): int {
    Truncate(i as real + r - 0.5)
  }

  /**
   * For a draw `r` in [0,1] the jittered index is `i - 1` or `i`, never a
   * fractional position, and always 0 for `i = 0`; so it stays in [0, n) for
   * `i` in [0, n).
   */
  lemma {:induction false} JitterIndexRange(i: int, r: real)
    requires 0 <= i && 0.0 <= r <= 1.0
    ensures JitterIndex(i, r) == i - 1 || JitterIndex(i, r) == i
    ensures i == 0 ==> JitterIndex(i, r) == 0
    ensures 0 <= JitterIndex(i, r) <= i
  {
    TruncateBounds(i as real + r - 0.5);
  }

  /** Both coordinates of every sample of an in-frame pixel stay in the frame. */
  lemma JitterStaysInFrame(i: int, j: int, rx: real, ry: real)
    requires 0 <= i < Width && 0 <= j < Height
    requires 0.0 <= rx <= 1.0 && 0.0 <= ry <= 1.0
    ensures 0 <= JitterIndex(i, rx) < Width && 0 <= JitterIndex(j, ry) < Height
  {
    JitterIndexRange(i, rx);
    JitterIndexRange(j, ry);
  }

  /**
   * Position in the `rand()` stream of the x draw of sample `s` of pixel
   * (i, j); the y draw follows it. Each sample draws twice, pixels in
   * row-major order.
   */
  function DrawIndex(i: nat, j: nat, s: nat): nat {
    2 * ((j * Width + i) * Samples + s)
  }

  /** The primary ray of sample `s` of pixel (i, j), jittered by its two draws. */
  function SampleRay(camera: Camera, lib: MathLib, rand: nat -> real, i: nat, j: nat, s: nat): Ray
    requires camera.Valid()
  {
    var rx := rand(DrawIndex(i, j, s));
    var ry := rand(DrawIndex(i, j, s) + 1);
    camera.GenerateRay(JitterIndex(i, rx), JitterIndex(j, ry), lib)
  }

  /** The colour of one sample: shaded, clamped, then gamma corrected, hit or miss. */
  function SampleColor(camera: Camera, objects: seq<Surface>, lib: MathLib, rand: nat -> real, i: nat, j: nat, s: nat): Vec3
    requires camera.Valid()
  {
    GammaCorrect(ClampColor(Shade(objects, SampleRay(camera, lib, rand, i, j, s), lib)), lib)
  }

  /** A sample that hits nothing is black once `pow` fixes 0. */
  lemma {:induction false} MissSampleIsBlack(camera: Camera, objects: seq<Surface>, lib: MathLib, rand: nat -> real, i: nat, j: nat, s: nat)
    requires camera.Valid() && lib.GammaLaw()
    requires forall k :: 0 <= k < |objects| ==> !Reports(objects[k], SampleRay(camera, lib, rand, i, j, s), lib)
    ensures SampleColor(camera, objects, lib, rand, i, j, s) == Zero
  {
    MissIsBlack(objects, SampleRay(camera, lib, rand, i, j, s), lib);
    GammaKeepsUnit(Zero, lib);
  }

  /** Sum of the first `n` samples of pixel (i, j). */
  function SampleSum(camera: Camera, objects: seq<Surface>, lib: MathLib, rand: nat -> real, i: nat, j: nat, n: nat): Vec3
    requires camera.Valid()
  {
    if n == 0 then Zero
    else Add(SampleSum(camera, objects, lib, rand, i, j, n - 1), SampleColor(camera, objects, lib, rand, i, j, n - 1))
  }

  /** Pixel colour: the average of its gamma-corrected samples. */
  function PixelColor(camera: Camera, objects: seq<Surface>, lib: MathLib, rand: nat -> real, i: nat, j: nat): Vec3
    requires camera.Valid()
  {
    Div(SampleSum(camera, objects, lib, rand, i, j, Samples), Samples as real)
  }

  /** Each channel of a sum of `n` colours in [0,1] lies in [0, n]. */
  lemma {:induction false} SampleSumBounds(camera: Camera, objects: seq<Surface>, lib: MathLib, rand: nat -> real, i: nat, j: nat, n: nat)
    requires camera.Valid() && lib.GammaLaw()
    ensures var c := SampleSum(camera, objects, lib, rand, i, j, n);
      0.0 <= c.x <= n as real && 0.0 <= c.y <= n as real && 0.0 <= c.z <= n as real
  {
    if n > 0 {
      SampleSumBounds(camera, objects, lib, rand, i, j, n - 1);
      SampleInUnit(camera, objects, lib, rand, i, j, n - 1);
    }
  }

  /** Clamping then gamma-correcting keeps every sample in [0,1]. */
  lemma SampleInUnit(camera: Camera, objects: seq<Surface>, lib: MathLib, rand: nat -> real, i: nat, j: nat, s: nat)
    requires camera.Valid() && lib.GammaLaw()
    ensures InUnit(SampleColor(camera, objects, lib, rand, i, j, s))
  {
    GammaKeepsUnit(ClampColor(Shade(objects, SampleRay(camera, lib, rand, i, j, s), lib)), lib);
  }

  /** The average of in-range samples is in range. */
  lemma {:induction false} PixelColorInUnit(camera: Camera, objects: seq<Surface>, lib: MathLib, rand: nat -> real, i: nat, j: nat)
    requires camera.Valid() && lib.GammaLaw()
    ensures InUnit(PixelColor(camera, objects, lib, rand, i, j))
  {
    SampleSumBounds(camera, objects, lib, rand, i, j, Samples);
    var c := SampleSum(camera, objects, lib, rand, i, j, Samples);
    AverageInUnit(c.x, Samples as real);
    AverageInUnit(c.y, Samples as real);
    AverageInUnit(c.z, Samples as real);
  }

  lemma AverageInUnit(a: real, n: real)
    requires 0.0 < n && 0.0 <= a <= n
    ensures 0.0 <= a / n <= 1.0
  {
  }

  /** All pixels in row-major order: pixel `p` is column `p % Width` of row `p / Width`. */
  function Pixels(camera: Camera, objects: seq<Surface>, lib: MathLib, rand: nat -> real): seq<Vec3>
    requires camera.Valid()
  {
    seq(Width * Height, p requires 0 <= p < Width * Height =>
      PixelColor(camera, objects, lib, rand, p % Width, p / Width))
  }

  /** The buffer `render` leaves behind for a given stream of `rand()` draws. */
  function Image(camera: Camera, objects: seq<Surface>, lib: MathLib, rand: nat -> real): seq<real>
    requires camera.Valid()
  {
    Flatten(Pixels(camera, objects, lib, rand))
  }

  /**
   * The image holds `Width * Height * 3` floats, and float `3 * (j * Width + i) + k`
   * is channel k of pixel (i, j).
   */
  lemma {:induction false} ImageLayout(camera: Camera, objects: seq<Surface>, lib: MathLib, rand: nat -> real, i: nat, j: nat, k: nat)
    requires camera.Valid()
    requires i < Width && j < Height && k < 3
    ensures |Image(camera, objects, lib, rand)| == Width * Height * 3
    ensures Image(camera, objects, lib, rand)[3 * (j * Width + i) + k] == Channel(PixelColor(camera, objects, lib, rand, i, j), k)
  {
    var pixels := Pixels(camera, objects, lib, rand);
    FlattenAt(pixels);
    RowMajor(i, j);
    assert pixels[j * Width + i] == PixelColor(camera, objects, lib, rand, i, j);
  }

  /** With a lawful `pow`, every float of the image lies in [0,1], whatever the draws. */
  lemma {:induction false} ImageInUnit(camera: Camera, objects: seq<Surface>, lib: MathLib, rand: nat -> real)
    requires camera.Valid() && lib.GammaLaw()
    ensures forall n :: 0 <= n < |Image(camera, objects, lib, rand)| ==> 0.0 <= Image(camera, objects, lib, rand)[n] <= 1.0
  {
    var pixels := Pixels(camera, objects, lib, rand);
    forall q | 0 <= q < |pixels|
      ensures InUnit(pixels[q])
    {
      PixelColorInUnit(camera, objects, lib, rand, q % Width, q / Width);
    }
    FlattenInUnit(pixels);
  }

  /**
   * The body of the sample loop: draw `rx` and `ry` (positions `next` and
   * `next + 1` of the stream), cast the jittered primary ray, shade, clamp
   * and gamma-correct.
   */
  method RenderSample(camera: Camera, scene: Scene, lib: MathLib, rand: nat -> real, i: nat, j: nat, s: nat, next: nat)
    returns (gammaCorrected: Vec3)
    requires camera.Valid()
    requires next == DrawIndex(i, j, s)
    ensures gammaCorrected == SampleColor(camera, scene.objects, lib, rand, i, j, s)
  {
    var rx := rand(next);
    var ry := rand(next + 1);
    var ray := camera.GenerateRay(JitterIndex(i, rx), JitterIndex(j, ry), lib);
    var hit, rec := scene.Intersect(ray, lib, Unset);
    var pixelColor := Zero;
    if hit {
      var lightDir := lib.normalize(Sub(LightPos, rec.hitPos));
      var shadowRay := MakeRay(Add(rec.hitPos, Scale(ShadowEpsilon, lightDir)), lightDir, lib);
      var inShadow, _ := scene.Intersect(shadowRay, lib, Unset);
      pixelColor := ShadeHit(rec, lightDir, inShadow, ray.direction, lib);
    }
    assert ray == SampleRay(camera, lib, rand, i, j, s);
    assert pixelColor == Shade(scene.objects, ray, lib);
    pixelColor := ClampColor(pixelColor);
    gammaCorrected := Vec3(
      lib.pow(pixelColor.x, 1.0 / Gamma),
      lib.pow(pixelColor.y, 1.0 / Gamma),
      lib.pow(pixelColor.z, 1.0 / Gamma));
  }

  /**
   * The sample loop of one pixel: accumulate the 64 gamma-corrected samples,
   * consuming two draws each, and divide by 64.
   */
  method RenderPixel(camera: Camera, scene: Scene, lib: MathLib, rand: nat -> real, i: nat, j: nat, start: nat)
    returns (finalColor: Vec3, next: nat)
    requires camera.Valid()
    requires start == DrawIndex(i, j, 0)
    ensures finalColor == PixelColor(camera, scene.objects, lib, rand, i, j)
    ensures next == start + 2 * Samples
  {
    next := start;
    var accumulatedColor := Zero;
    for s := 0 to Samples
      invariant accumulatedColor == SampleSum(camera, scene.objects, lib, rand, i, j, s)
      invariant next == DrawIndex(i, j, s)
    {
      var gammaCorrected := RenderSample(camera, scene, lib, rand, i, j, s, next);
      next := next + 2;
      accumulatedColor := Add(accumulatedColor, gammaCorrected);
    }
    finalColor := Div(accumulatedColor, Samples as real);
  }

  /**
   * Pixel number `p` in row-major order starts at draw `2 * Samples * p`: the
   * draws of consecutive pixels follow each other, across row ends too.
   */
  lemma PixelDraws(i: nat, j: nat, p: nat)
    requires p == j * Width + i
    ensures DrawIndex(i, j, 0) == 2 * Samples * p
    ensures DrawIndex(i, j, 0) + 2 * Samples == 2 * Samples * (p + 1)
  {
  }

  /** Row `j` of the pixel sequence holds the colours of the pixels (0, j) to (Width - 1, j). */
  lemma PixelsRow(camera: Camera, objects: seq<Surface>, lib: MathLib, rand: nat -> real, j: nat)
    requires camera.Valid() && j < Height
    ensures var pixels := Pixels(camera, objects, lib, rand);
      |pixels| == Width * Height &&
      forall i :: 0 <= i < Width ==> pixels[j * Width + i] == PixelColor(camera, objects, lib, rand, i, j)
  {
    var pixels := Pixels(camera, objects, lib, rand);
    forall i | 0 <= i < Width
      ensures pixels[j * Width + i] == PixelColor(camera, objects, lib, rand, i, j)
    {
      RowMajor(i, j);
    }
  }

  /**
   * One row of `render`: for each column i compute the averaged pixel colour
   * and append its three channels, continuing the stream of draws. `pixels`
   * is the whole image, of which only row `j` is needed here.
   */
  method RenderRow(output: OutputImage, camera: Camera, scene: Scene, lib: MathLib, rand: nat -> real, j: nat, start: nat,
                   ghost pixels: seq<Vec3>)
    returns (next: nat)
    requires camera.Valid() && j < Height && |pixels| == Width * Height
    requires forall i :: 0 <= i < Width ==> pixels[j * Width + i] == PixelColor(camera, scene.objects, lib, rand, i, j)
    requires start == 2 * Samples * (j * Width)
    requires output.data == Flatten(pixels[..j * Width])
    modifies output
    ensures next == 2 * Samples * ((j + 1) * Width)
    ensures output.data == Flatten(pixels[..(j + 1) * Width])
  {
    ghost var p: nat := j * Width;
    next := start;
    for i := 0 to Width
      invariant p == j * Width + i
      invariant output.data == Flatten(pixels[..p])
      invariant next == 2 * Samples * p
    {
      var finalColor;
      PixelDraws(i, j, p);
      finalColor, next := RenderPixel(camera, scene, lib, rand, i, j, next);
      assert pixels[p] == finalColor;
      FlattenSnoc(pixels, p);
      output.PushBack(finalColor.x);
      output.PushBack(finalColor.y);
      output.PushBack(finalColor.z);
      p := p + 1;
    }
    NextRow(j);
  }

  /**
   * `render`: clear the output, then render the rows top to bottom. The
   * draws are consumed in the same row-major order as the pixels.
   */
  method Render(output: OutputImage, camera: Camera, scene: Scene, lib: MathLib, rand: nat -> real)
    requires camera.Valid()
    modifies output
    ensures output.data == Image(camera, scene.objects, lib, rand)
  {
    output.Clear();
    ghost var pixels := Pixels(camera, scene.objects, lib, rand);
    var next: nat := 0;
    for j := 0 to Height
      invariant output.data == Flatten(pixels[..j * Width])
      invariant next == 2 * Samples * (j * Width)
    {
      PixelsRow(camera, scene.objects, lib, rand, j);
      next := RenderRow(output, camera, scene, lib, rand, j, next, pixels);
    }
    assert pixels[..Height * Width] == pixels;
  }
}
