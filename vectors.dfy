/** Option type used for "hit / no hit" results. */
module Wrappers {
  datatype Option<+T> = None | Some(value: T)
}

/**
 * Three-component vectors over the reals (positions, directions and RGB
 * colours), rays, and the foreign maths routines the renderer calls.
 */
module Vectors {

  datatype Vec3 = Vec3(x: real, y: real, z: real)

  const Zero: Vec3 := Vec3(0.0, 0.0, 0.0)

  /** `vec3(s)`: all three components equal to `s`. */
  function Splat(s: real): Vec3 { Vec3(s, s, s) }

  function Add(a: Vec3, b: Vec3): Vec3 { Vec3(a.x + b.x, a.y + b.y, a.z + b.z) }

  function Sub(a: Vec3, b: Vec3): Vec3 { Vec3(a.x - b.x, a.y - b.y, a.z - b.z) }

  function Neg(a: Vec3): Vec3 { Vec3(-a.x, -a.y, -a.z) }

  /** Scalar times vector. */
  function Scale(s: real, a: Vec3): Vec3 { Vec3(s * a.x, s * a.y, s * a.z) }

  /** Component-wise product, as `vec3 * vec3` in the shading code. */
  function Mul(a: Vec3, b: Vec3): Vec3 { Vec3(a.x * b.x, a.y * b.y, a.z * b.z) }

  /** Vector divided by a scalar. */
  function Div(a: Vec3, s: real): Vec3
    requires s != 0.0
  {
    Vec3(a.x / s, a.y / s, a.z / s)
  }

  function Dot(a: Vec3, b: Vec3): real { a.x * b.x + a.y * b.y + a.z * b.z }

  /** Channel `k` (0 = red/x, 1 = green/y, 2 = blue/z) of a colour. */
  function Channel(c: Vec3, k: nat): real
    requires k < 3
  {
    if k == 0 then c.x else if k == 1 then c.y else c.z
  }

  /** Every channel lies in [0,1]. */
  predicate InUnit(c: Vec3) {
    0.0 <= c.x <= 1.0 && 0.0 <= c.y <= 1.0 && 0.0 <= c.z <= 1.0
  }

  /** Monotonicity of multiplication by a non-negative factor. */
  lemma MulMono(x: real, y: real, z: real)
    requires x <= y && 0.0 <= z
    ensures x * z <= y * z
  {
  }

  lemma MulPos(x: real, y: real)
    requires 0.0 < x && 0.0 < y
    ensures 0.0 < x * y
  {
  }

  /** The display gamma and the exponent `1/gamma` used for correction. */
  const Gamma: real := 2.2
  const InvGamma: real := 1.0 / Gamma

  /**
   * The library routines the renderer calls but whose bodies are not part of
   * this model: `sqrtf`, `pow` and glm's `normalize`. They are passed around
   * as values; the laws below are the only facts the proofs use about them.
   */
  datatype MathLib = MathLib(
    sqrt: real -> real,
    pow: (real, real) -> real,
    normalize: Vec3 -> Vec3)
  {
    /** `sqrt` is the non-negative square root on non-negative inputs. */
    ghost predicate SqrtLaw() {
      forall x :: 0.0 <= x ==> 0.0 <= sqrt(x) && sqrt(x) * sqrt(x) == x
    }

    /** Normalizing an already normalized vector changes nothing. */
    ghost predicate NormalizeIdempotent() {
      forall a :: normalize(normalize(a)) == normalize(a)
    }

    /** `pow(_, e)` is non-negative on non-negative bases. */
    ghost predicate PowNonNegative(e: real) {
      forall x :: 0.0 <= x ==> 0.0 <= pow(x, e)
    }

    /** `pow(_, 1/gamma)` maps [0,1] into [0,1] and fixes 0. */
    ghost predicate GammaLaw() {
      (forall x :: 0.0 <= x <= 1.0 ==> 0.0 <= pow(x, InvGamma) <= 1.0) &&
      pow(0.0, InvGamma) == 0.0
    }
  }

  /** A ray; its direction is whatever `normalize` made of the given one. */
  datatype Ray = Ray(origin: Vec3, direction: Vec3)

  /**
   * The `Ray(o, d)` constructor, which normalizes `d`: the ray starts at `o`,
   * and with an idempotent `normalize` its direction is already normalized.
   */
  function MakeRay(o: Vec3, d: Vec3, lib: MathLib): (r: Ray)
    ensures r.origin == o
    ensures lib.NormalizeIdempotent() ==> lib.normalize(r.direction) == r.direction
  {
    Ray(o, lib.normalize(d))
  }

  /** `origin + t * direction`. */
  function PointAt(ray: Ray, t: real): Vec3 {
    Add(ray.origin, Scale(t, ray.direction))
  }
}
