/**
 * The single-sample renderer: one primary ray through each pixel centre,
 * gamma correction applied only when the ray hits something.
 */
module SingleSampleRender {
  import opened Vectors
  import opened Cameras
  import opened Surfaces
  import opened Scenes
  import opened Shading

  /**
   * Colour of pixel (i, j): black when the primary ray misses every surface,
   * otherwise the shaded colour, clamped, then gamma corrected.
   */
  function PixelColor(camera: Camera, objects: seq<Surface>, lib: MathLib, i: int, j: int): Vec3
    requires camera.Valid()
  {
    var ray := camera.GenerateRay(i, j, lib);
    if SceneHit(objects, ray, lib).None? then Zero
    else GammaCorrect(ClampColor(Shade(objects, ray, lib)), lib)
  }

  /** All pixels in row-major order: pixel `p` is column `p % Width` of row `p / Width`. */
  function Pixels(camera: Camera, objects: seq<Surface>, lib: MathLib): seq<Vec3>
    requires camera.Valid()
  {
    seq(Width * Height, p requires 0 <= p < Width * Height =>
      PixelColor(camera, objects, lib, p % Width, p / Width))
  }

  /** The buffer `render` leaves behind. */
  function Image(camera: Camera, objects: seq<Surface>, lib: MathLib): seq<real>
    requires camera.Valid()
  {
    Flatten(Pixels(camera, objects, lib))
  }

  /**
   * The image holds `Width * Height * 3` floats, and float `3 * (j * Width + i) + k`
   * is channel k of pixel (i, j).
   */
  lemma {:induction false} ImageLayout(camera: Camera, objects: seq<Surface>, lib: MathLib, i: int, j: int, k: nat)
    requires camera.Valid()
    requires 0 <= i < Width && 0 <= j < Height && k < 3
    ensures |Image(camera, objects, lib)| == Width * Height * 3
    ensures Image(camera, objects, lib)[3 * (j * Width + i) + k] == Channel(PixelColor(camera, objects, lib, i, j), k)
  {
    var pixels := Pixels(camera, objects, lib);
    FlattenAt(pixels);
    RowMajor(i, j);
    assert pixels[j * Width + i] == PixelColor(camera, objects, lib, i, j);
  }

  /** With a lawful `pow`, every float of the image lies in [0,1]. */
  lemma {:induction false} ImageInUnit(camera: Camera, objects: seq<Surface>, lib: MathLib)
    requires camera.Valid() && lib.GammaLaw()
    ensures forall n :: 0 <= n < |Image(camera, objects, lib)| ==> 0.0 <= Image(camera, objects, lib)[n] <= 1.0
  {
    var pixels := Pixels(camera, objects, lib);
    forall q | 0 <= q < |pixels|
      ensures InUnit(pixels[q])
    {
      var ray := camera.GenerateRay(q % Width, q / Width, lib);
      GammaKeepsUnit(ClampColor(Shade(objects, ray, lib)), lib);
    }
    FlattenInUnit(pixels);
  }

  /**
   * A pixel whose primary ray no surface reports a hit for is written as
   * exactly (0, 0, 0), whatever `pow` does: gamma is applied only on a hit.
   */
  lemma {:induction false} MissPixelIsBlack(camera: Camera, objects: seq<Surface>, lib: MathLib, i: int, j: int)
    requires camera.Valid()
    requires 0 <= i < Width && 0 <= j < Height
    requires forall k :: 0 <= k < |objects| ==> !Reports(objects[k], camera.GenerateRay(i, j, lib), lib)
    ensures var image, n := Image(camera, objects, lib), 3 * (j * Width + i);
      |image| == Width * Height * 3 && image[n] == 0.0 && image[n + 1] == 0.0 && image[n + 2] == 0.0
  {
    MissIsBlack(objects, camera.GenerateRay(i, j, lib), lib);
    ImageLayout(camera, objects, lib, i, j, 0);
    ImageLayout(camera, objects, lib, i, j, 1);
    ImageLayout(camera, objects, lib, i, j, 2);
  }

  /**
   * The body of the pixel loop up to the three `push_back`s: the colour
   * written for pixel (i, j).
   */
  method RenderPixel(camera: Camera, scene: Scene, lib: MathLib, i: int, j: int) returns (pixelColor: Vec3)
    requires camera.Valid()
    ensures pixelColor == PixelColor(camera, scene.objects, lib, i, j)
  {
    var ray := camera.GenerateRay(i, j, lib);
    var hit, rec := scene.Intersect(ray, lib, Unset);
    pixelColor := Zero;
    if hit {
      var lightDir := lib.normalize(Sub(LightPos, rec.hitPos));
      var shadowRay := MakeRay(Add(rec.hitPos, Scale(ShadowEpsilon, lightDir)), lightDir, lib);
      var inShadow, _ := scene.Intersect(shadowRay, lib, Unset);
      pixelColor := ShadeHit(rec, lightDir, inShadow, ray.direction, lib);
      pixelColor := ClampColor(pixelColor);
      pixelColor := pixelColor.(x := lib.pow(pixelColor.x, 1.0 / Gamma));
      pixelColor := pixelColor.(y := lib.pow(pixelColor.y, 1.0 / Gamma));
      pixelColor := pixelColor.(z := lib.pow(pixelColor.z, 1.0 / Gamma));
    }
  }

  /** Row `j` of the pixel sequence holds the colours of the pixels (0, j) to (Width - 1, j). */
  lemma PixelsRow(camera: Camera, objects: seq<Surface>, lib: MathLib, j: nat)
    requires camera.Valid() && j < Height
    ensures var pixels := Pixels(camera, objects, lib);
      |pixels| == Width * Height &&
      forall i :: 0 <= i < Width ==> pixels[j * Width + i] == PixelColor(camera, objects, lib, i, j)
  {
    var pixels := Pixels(camera, objects, lib);
    forall i | 0 <= i < Width
      ensures pixels[j * Width + i] == PixelColor(camera, objects, lib, i, j)
    {
      RowMajor(i, j);
    }
  }

  /**
   * One row of `render`: for each column i compute the pixel colour and
   * append its three channels. `pixels` is the whole image, of which only
   * row `j` is needed here.
   */
  method RenderRow(output: OutputImage, camera: Camera, scene: Scene, lib: MathLib, j: nat, ghost pixels: seq<Vec3>)
    requires camera.Valid() && j < Height && |pixels| == Width * Height
    requires forall i :: 0 <= i < Width ==> pixels[j * Width + i] == PixelColor(camera, scene.objects, lib, i, j)
    requires output.data == Flatten(pixels[..j * Width])
    modifies output
    ensures output.data == Flatten(pixels[..(j + 1) * Width])
  {
    ghost var p: nat := j * Width;
    for i := 0 to Width
      invariant p == j * Width + i
      invariant output.data == Flatten(pixels[..p])
    {
      var pixelColor := RenderPixel(camera, scene, lib, i, j);
      assert pixels[p] == pixelColor;
      FlattenSnoc(pixels, p);
      output.PushBack(pixelColor.x);
      output.PushBack(pixelColor.y);
      output.PushBack(pixelColor.z);
      p := p + 1;
    }
    NextRow(j);
  }

  /**
   * `render`: clear the output, then render the rows top to bottom. No
   * randomness is involved, so the buffer is a function of camera and scene.
   */
  method Render(output: OutputImage, camera: Camera, scene: Scene, lib: MathLib)
    requires camera.Valid()
    modifies output
    ensures output.data == Image(camera, scene.objects, lib)
  {
    output.Clear();
    ghost var pixels := Pixels(camera, scene.objects, lib);
    for j := 0 to Height
      invariant output.data == Flatten(pixels[..j * Width])
    {
      PixelsRow(camera, scene.objects, lib, j);
      RenderRow(output, camera, scene, lib, j, pixels);
    }
    assert pixels[..Height * Width] == pixels;
  }
}
