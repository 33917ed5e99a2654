# Ray caster rendering core, modelled in Dafny

This project models the rendering core of a small C++ ray caster. The
repository holds two near-identical variants of it:

- `Q2_assignment/Q2/main.cpp` casts one primary ray through each pixel centre.
- `Q3_assignment/Q3/main.cpp` averages 64 jittered samples per pixel.

Both variants share the same entities:

- a `Ray` whose constructor normalizes its direction;
- a pinhole `Camera` that maps an integer pixel `(i, j)` to a primary ray;
- `Material`, and two kinds of `Surface`: a horizontal `Plane` and a `Sphere`;
- a `Scene` that scans its surfaces for the nearest hit, with a strict `<`
  against a running minimum `t_min` that starts at `FLT_MAX`;
- `render`, which shades each pixel and appends three floats per pixel to the
  global `OutputImage`. Shading is ambient, plus diffuse and specular unless a
  shadow ray from the hit point hits anything. The colour is then clamped to
  [0,1] and gamma corrected with exponent `1/2.2`.

The modules follow that structure:

- `Vectors` (`vectors.dfy`): vectors, rays, and `MathLib`. `sqrtf`, `pow` and
  glm's `normalize` are function values passed in a `MathLib`. The only facts
  assumed about them are the laws `SqrtLaw`, `GammaLaw`, `PowNonNegative` and
  `NormalizeIdempotent`, stated as hypotheses of the lemmas that need them.
- `Cameras` (`camera.dfy`): the camera.
- `Surfaces` (`surfaces.dfy`): the two surfaces and their intersection tests.
- `Scenes` (`scene.dfy`): nearest-hit resolution. `Scene` is a class, and
  `Scene.Intersect` is its loop, proved against the reference function
  `NearestIndex`.
- `Shading` (`shading.dfy`): lighting, clamp and gamma, the row-major
  `Flatten` of pixels into floats, and the `OutputImage` buffer as a class.
- `SingleSampleRender` (`render_single.dfy`): the Q2 `render`.
- `SupersampledRender` (`render_supersampled.dfy`): the Q3 `render`. The
  stream of `rand() / RAND_MAX` values is a caller-supplied function
  `rand: nat -> real`. Sample `s` of pixel `(i, j)` consumes draws
  `DrawIndex(i, j, s)` and `DrawIndex(i, j, s) + 1`.

Each `Render` method is proved to leave exactly the buffer given by the
function `Image`. So the buffer depends only on its inputs, and two calls with
the same camera, scene and draws produce the same buffer.

The Q3 renderer passes the float `i + rx - 0.5` to `generateRay(int, int)`.
This conversion truncates toward zero (`Truncate`, `JitterIndex`), and the
model keeps it as written. `JitterIndexRange` proves the consequence: every
sample of column `i` is cast through the centre of column `i - 1` or of
column `i`, never through a point in between, and every sample of column 0
is cast through column 0.

## Model

| member | source | states |
|---|---|---|
| Vectors.MakeRay | Q3_assignment/Q3/main.cpp:35 | the ray starts at the given origin; under the idempotence law of `normalize`, its direction is already normalized |
| Cameras.Camera.GenerateRay | Q3_assignment/Q3/main.cpp:49-54 | the primary ray starts at the eye |
| Cameras.DoubleNormalizeHarmless | Q3_assignment/Q3/main.cpp:52-53 | under the idempotence law of `normalize`, normalizing twice (in `generateRay` and again in the `Ray` constructor) gives the normalized direction `u*u_coord + v*v_coord - w*d` |
| Cameras.PixelCentreInsideImagePlane | Q2_assignment/Q2/main.cpp:51-55 | for `0 <= i < nx` and `l < r`, `u_coord` lies strictly between `l` and `r`; likewise `v_coord` between `b` and `t` |
| Surfaces.Surface.Intersect | Q3_assignment/Q3/main.cpp:66 | the virtual `intersect`, dispatched to the plane or the sphere: a reported hit has `t >= 0`, and a plane reports the normal `(0,1,0)` |
| Surfaces.HitPositionOnSurface | Q3_assignment/Q3/main.cpp:119-121 | the position `Surface.GetPosition` (`getPosition`, `origin + t*direction`) computes at a reported `t` lies on the surface that reported it: at height `y` for a plane, at distance `radius` from the centre for a sphere (with a true square root) |
| Surfaces.PlaneIntersect | Q3_assignment/Q3/main.cpp:80-86 | no hit when `direction.y == 0`; a hit has `t >= 0`, normal `(0,1,0)`, and its point lies on the plane |
| Surfaces.PlaneHitIffCrossingAhead | Q2_assignment/Q2/main.cpp:84-90 | for a non-parallel ray, the plane reports `(t, Up)` exactly when the ray meets the plane at `t` and `t >= 0` |
| Surfaces.PlaneBelowOriginScenario | Q3_assignment/Q3/main.cpp:81-85 | a downward ray from height 0 meets the plane `y = -2` at `t = 2` |
| Surfaces.SphereIntersect | Q3_assignment/Q3/main.cpp:102-117 | a hit is reported exactly when the discriminant is non-negative, `a != 0` and the near root is non-negative; a hit has `t` equal to the near root and the normal is the normalized vector from the centre to the hit point |
| Surfaces.QuadraticIsDistance | Q2_assignment/Q2/main.cpp:108-112 | `a t^2 + b t + c` is the squared distance from the centre to the point at `t`, minus `r^2` |
| Surfaces.SphereHitOnSurface | Q2_assignment/Q2/main.cpp:113-119 | with a true square root, a reported hit lies on the sphere and is not beyond the far root |
| Surfaces.InsideSphereNoHit | Q3_assignment/Q3/main.cpp:103-111 | for `c < 0` and `a > 0`: `sqrt(disc) > abs(b)`, the near root is negative, and there is no hit |
| Surfaces.CentreOriginInside | Q3_assignment/Q3/main.cpp:103-106 | from the centre of a sphere of positive radius, `c < 0` |
| Surfaces.CentreOriginNoHit | Q3_assignment/Q3/main.cpp:102-111 | a ray cast from the centre of a sphere of positive radius, of any material, does not hit it |
| Scenes.NearestIndex | Q3_assignment/Q3/main.cpp:138-154 | a selected index is in range and its surface reports a hit below the sentinel |
| Scenes.NearestIndexCorrect | Q3_assignment/Q3/main.cpp:139-153 | nothing is selected exactly when no surface reports; otherwise the selection has the least `t`, strictly less than every earlier reporting surface |
| Scenes.FirstNearestUnique | Q2_assignment/Q2/main.cpp:140-155 | at most one surface is the first nearest one |
| Scenes.TieKeepsEarliest | Q2_assignment/Q2/main.cpp:145 | of two surfaces reporting the same `t`, the later one is never selected |
| Scenes.SceneHitSpec | Q2_assignment/Q2/main.cpp:140-155 | there is a hit exactly when some surface reports one, and the hit record is the first nearest surface's |
| Scenes.Scene.constructor | Q3_assignment/Q3/main.cpp:124-126 | a new scene has no surfaces |
| Scenes.Scene.AddObject | Q3_assignment/Q3/main.cpp:134-136 | appends the surface after the existing ones |
| Scenes.Scene.Intersect | Q3_assignment/Q3/main.cpp:138-154 | returns true exactly when some surface reports a hit below `FLT_MAX`; the record is then `kd`, the normal, the material and `origin + t*direction` of the first nearest surface, and with a true square root that position lies on a surface of the scene; on false the out-parameters keep their values |
| Shading.Clamp | Q3_assignment/Q3/main.cpp:208 | the result is in [0,1], equals the input inside [0,1], and is 0 below and 1 above |
| Shading.ClampColor | Q2_assignment/Q2/main.cpp:191 | every channel of the result is in [0,1], and a colour already in range is unchanged |
| Shading.GammaKeepsUnit | Q2_assignment/Q2/main.cpp:193-196 | under the `pow` law, gamma correction keeps [0,1] and keeps black black |
| Shading.ShadowIffOccluder | Q2_assignment/Q2/main.cpp:175-178 | a point is in shadow exactly when some surface reports a hit on its shadow ray, at any distance |
| Shading.ShadeHit | Q3_assignment/Q3/main.cpp:190-204 | a point in shadow gets the ambient term `ka * Ia` alone |
| Shading.BackLitMatteIsAmbient | Q2_assignment/Q2/main.cpp:185-187 | a lit point facing away from the light on a surface with `ks = 0` also gets the ambient term alone, since `max(dot(n, L), 0)` is 0 |
| Shading.LitNoDarkerThanShadowed | Q3_assignment/Q3/main.cpp:195-204 | with non-negative `kd` and `ks`, and `pow` non-negative on non-negative bases (`PowNonNegative`), each channel of a lit point is at least that of the same point in shadow |
| Shading.MissIsBlack | Q3_assignment/Q3/main.cpp:180-182 | a ray no surface reports a hit for has no hit and is shaded black |
| Shading.FlattenAt | Q3_assignment/Q3/main.cpp:220-222 | a buffer of `n` colours has `3n` floats, and float `3q + k` is channel `k` of colour `q` |
| Shading.FlattenSnoc | Q2_assignment/Q2/main.cpp:199-201 | one more pixel appends its red, green and blue channels |
| Shading.FlattenInUnit | Q3_assignment/Q3/main.cpp:218-222 | a buffer of in-range colours holds only floats in [0,1] |
| Shading.RowMajor | Q2_assignment/Q2/main.cpp:166-167 | pixel number `j * Width + i` is column `i` of row `j` |
| Shading.OutputImage.constructor | Q3_assignment/Q3/main.cpp:27 | the buffer starts empty |
| Shading.OutputImage.Clear | Q3_assignment/Q3/main.cpp:158 | the buffer is emptied |
| Shading.OutputImage.PushBack | Q3_assignment/Q3/main.cpp:220 | appends one float |
| SingleSampleRender.ImageLayout | Q2_assignment/Q2/main.cpp:166-168 | the image has `Width*Height*3` floats, and float `3*(j*Width+i)+k` is channel `k` of pixel `(i, j)` |
| SingleSampleRender.ImageInUnit | Q2_assignment/Q2/main.cpp:191-196 | under the `pow` law every float of the image is in [0,1] |
| SingleSampleRender.MissPixelIsBlack | Q2_assignment/Q2/main.cpp:171-173 | a pixel whose primary ray no surface hits is written as exactly `(0, 0, 0)`, with no law on `pow` |
| SingleSampleRender.PixelsRow | Q2_assignment/Q2/main.cpp:166-168 | entries `j*Width` to `j*Width + Width - 1` of the pixel sequence are the pixels of row `j`, left to right |
| SingleSampleRender.RenderPixel | Q2_assignment/Q2/main.cpp:168-197 | computes the colour the image specification gives pixel `(i, j)` |
| SingleSampleRender.RenderRow | Q2_assignment/Q2/main.cpp:167-202 | one pass of the column loop extends the buffer from the pixels of the rows above to those of row `j` as well |
| SingleSampleRender.Render | Q2_assignment/Q2/main.cpp:159-204 | clears the buffer and leaves exactly the image: three floats per pixel, rows outer, columns inner |
| SupersampledRender.TruncateBounds | Q3_assignment/Q3/main.cpp:176 | float-to-int truncation moves a value toward zero by less than one |
| SupersampledRender.JitterIndexRange | Q3_assignment/Q3/main.cpp:172-176 | for a draw in [0,1], the jittered index is `i - 1` or `i`, lies in `[0, i]`, and is 0 when `i = 0` |
| SupersampledRender.JitterStaysInFrame | Q3_assignment/Q3/main.cpp:49 | every sample of an in-frame pixel uses an in-frame column and row |
| SupersampledRender.MissSampleIsBlack | Q3_assignment/Q3/main.cpp:180-213 | under the `pow` law a sample that hits nothing contributes black |
| SupersampledRender.SampleInUnit | Q3_assignment/Q3/main.cpp:207-213 | under the `pow` law every clamped, gamma-corrected sample is in [0,1] |
| SupersampledRender.SampleSumBounds | Q3_assignment/Q3/main.cpp:168-216 | under the `pow` law each channel of the sum of `n` samples lies in `[0, n]` |
| SupersampledRender.PixelColorInUnit | Q3_assignment/Q3/main.cpp:218-219 | under the `pow` law the average over 64 samples is in [0,1] |
| SupersampledRender.ImageLayout | Q3_assignment/Q3/main.cpp:166-167 | the image has `Width*Height*3` floats, and float `3*(j*Width+i)+k` is channel `k` of pixel `(i, j)` |
| SupersampledRender.ImageInUnit | Q3_assignment/Q3/main.cpp:207-222 | under the `pow` law every float of the image is in [0,1], whatever the draws |
| SupersampledRender.RenderSample | Q3_assignment/Q3/main.cpp:172-213 | computes the colour the image specification gives sample `s` of pixel `(i, j)` |
| SupersampledRender.RenderPixel | Q3_assignment/Q3/main.cpp:168-219 | computes the pixel's average over its 64 samples and consumes exactly 128 draws |
| SupersampledRender.PixelDraws | Q3_assignment/Q3/main.cpp:166-173 | pixel number `p` in row-major order starts at draw `128 p`, so consecutive pixels consume consecutive draws, across row ends too |
| SupersampledRender.PixelsRow | Q3_assignment/Q3/main.cpp:166-167 | entries `j*Width` to `j*Width + Width - 1` of the pixel sequence are the pixels of row `j`, left to right |
| SupersampledRender.RenderRow | Q3_assignment/Q3/main.cpp:167-223 | one pass of the column loop extends the buffer from the pixels of the rows above to those of row `j` as well, and leaves the draw counter at the first draw of the next row |
| SupersampledRender.Render | Q3_assignment/Q3/main.cpp:157-225 | clears the buffer and leaves exactly the image for the given draws: three floats per pixel, rows outer, columns inner |

## Left out

- Floating point: all arithmetic is over `real`. Rounding, overflow and NaN
  are not modelled. `FLT_MAX` is kept as the exact value of the initial
  `t_min`, so hits at or beyond it are never selected.
- Surfaces.SphereIntersect: a zero-length direction (`a = 0`) is modelled as
  no hit. In floats the division gives NaN, the sphere reports a hit at
  `t = NaN`, and `NaN < t_min` is false, so the scene never selects it. The
  model has the same effect at the level of `Scene::intersect`.
- `sqrtf`, `pow` and glm's `normalize` are not part of this model. Their
  bodies are foreign; only the laws `SqrtLaw`, `GammaLaw`,
  `PowNonNegative` and `NormalizeIdempotent` are assumed, and only where
  stated. `normalize` of a zero vector is left unconstrained.
- Cameras.Camera.GenerateRay: its contract states only the origin. The
  direction is whatever `normalize` yields, applied once in `generateRay` and
  once more in the `Ray` constructor; `DoubleNormalizeHarmless` states the
  direction under the idempotence law of `normalize`.
- `rand()` is not modelled. Its values `rand() / RAND_MAX` are the
  caller-supplied stream `rand`. The range facts assume draws in [0,1].
- The out-parameters the caller leaves uninitialised are the fixed record
  `Unset`. `Scene::intersect` writes them only on success, and the renderers
  read them only then.
- GLFW and GLEW window creation, `resize_callback`, `glDrawPixels`, the key
  polling loop and `main` are not part of this model: they are display I/O.
- The scene and material constants set up in `main` are not part of this
  model.
- `~Scene` and the raw-pointer ownership of surfaces: memory management only.
  The scene holds surfaces by value.
- `Width` and `Height` are fixed at 512, as in the source.
