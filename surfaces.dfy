/** Materials and the two kinds of surface: a horizontal plane and a sphere. */
module Surfaces {
  import opened Wrappers
  import opened Vectors

  /** Ambient, diffuse and specular reflectance and the specular exponent. */
  datatype Material = Material(ka: Vec3, kd: Vec3, ks: Vec3, specPower: real)

  /** What a successful `intersect` writes to its out-parameters. */
  datatype Hit = Hit(t: real, normal: Vec3)

  /** The fixed upward normal of every plane. */
  const Up: Vec3 := Vec3(0.0, 1.0, 0.0)

  /** A surface owns its material by value. */
  datatype Surface =
    | Plane(y: real, material: Material)
    | Sphere(center: Vec3, radius: real, material: Material)
  {
    /**
     * Virtual dispatch of `intersect`. Every surface reports only hits ahead
     * of the ray origin; a plane always reports the upward normal.
     */
    function Intersect(ray: Ray, lib: MathLib): (r: Option<Hit>)
      ensures r.Some? ==> 0.0 <= r.value.t
      ensures r.Some? && Plane? ==> r.value.normal == Up
    {
      match this
      case Plane(y, _) => PlaneIntersect(y, ray)
      case Sphere(c, rad, _) => SphereIntersect(c, rad, ray, lib)
    }

    /** The point `p` lies on this surface: at height `y`, or at distance `radius` from the centre. */
    predicate OnSurface(p: Vec3) {
      match this
      case Plane(y, _) => p.y == y
      case Sphere(c, rad, _) => Dot(Sub(p, c), Sub(p, c)) == rad * rad
    }

    /** `getPosition`: both variants return `origin + t * direction`. */
    function GetPosition(ray: Ray, t: real): Vec3 {
      PointAt(ray, t)
    }
  }

  // ---------------------------------------------------------------- plane

  /**
   * `Plane::intersect` for the plane at height `y`: no hit for a ray parallel
   * to the plane or for a crossing behind the origin; otherwise the crossing
   * parameter with the upward normal.
   */
  function PlaneIntersect(y: real, ray: Ray): (r: Option<Hit>)
    ensures ray.direction.y == 0.0 ==> r.None?
    ensures r.Some? ==> 0.0 <= r.value.t && r.value.normal == Up
    ensures r.Some? ==> PointAt(ray, r.value.t).y == y
  {
    if ray.direction.y == 0.0 then None
    else
      var t := (y - ray.origin.y) / ray.direction.y;
      if t < 0.0 then None
      else Some(Hit(t, Up))
  }

  /**
   * The plane reports a hit exactly when the ray meets the plane at some
   * non-negative parameter, and it then reports that parameter.
   */
  lemma PlaneHitIffCrossingAhead(y: real, ray: Ray, t: real)
    requires ray.direction.y != 0.0
    ensures PointAt(ray, t).y == y && 0.0 <= t <==> PlaneIntersect(y, ray) == Some(Hit(t, Up))
  {
    var dy := ray.direction.y;
    if PointAt(ray, t).y == y {
      assert t * dy == y - ray.origin.y;
      assert t == (y - ray.origin.y) / dy;
    }
  }

  /** A ray at height 0 pointing straight down meets the plane y = -2 at t = 2. */
  lemma PlaneBelowOriginScenario(mat: Material, lib: MathLib)
    ensures Plane(-2.0, mat).Intersect(Ray(Zero, Vec3(0.0, -1.0, 0.0)), lib) == Some(Hit(2.0, Up))
  {
    var ray := Ray(Zero, Vec3(0.0, -1.0, 0.0));
    assert PointAt(ray, 2.0).y == -2.0;
    PlaneHitIffCrossingAhead(-2.0, ray, 2.0);
  }

  // --------------------------------------------------------------- sphere

  /** Coefficients of the quadratic `a t^2 + b t + c = 0` for the ray hitting the sphere. */
  function QuadA(ray: Ray): real { Dot(ray.direction, ray.direction) }

  function QuadB(center: Vec3, ray: Ray): real {
    2.0 * Dot(Sub(ray.origin, center), ray.direction)
  }

  function QuadC(center: Vec3, radius: real, ray: Ray): real {
    var oc := Sub(ray.origin, center);
    Dot(oc, oc) - radius * radius
  }

  function Discriminant(center: Vec3, radius: real, ray: Ray): real {
    var b := QuadB(center, ray);
    b * b - 4.0 * QuadA(ray) * QuadC(center, radius, ray)
  }

  /** The smaller root `(-b - sqrt(disc)) / 2a`, the only one the source tests. */
  function NearRoot(center: Vec3, radius: real, ray: Ray, lib: MathLib): real
    requires QuadA(ray) != 0.0
  {
    (-QuadB(center, ray) - lib.sqrt(Discriminant(center, radius, ray))) / (2.0 * QuadA(ray))
  }

  /**
   * `Sphere::intersect`: no hit for a negative discriminant or a negative
   * near root; otherwise the near root with the normalized outward normal.
   * A zero-length direction (a = 0) is reported as no hit.
   */
  function SphereIntersect(center: Vec3, radius: real, ray: Ray, lib: MathLib): (r: Option<Hit>)
    ensures r.Some? <==>
      Discriminant(center, radius, ray) >= 0.0 && QuadA(ray) != 0.0 && NearRoot(center, radius, ray, lib) >= 0.0
    ensures r.Some? ==> QuadA(ray) != 0.0 && 0.0 <= r.value.t
    ensures r.Some? ==> r.value.t == NearRoot(center, radius, ray, lib)
    ensures r.Some? ==>
      r.value.normal == lib.normalize(Sub(PointAt(ray, r.value.t), center))
  {
    var disc := Discriminant(center, radius, ray);
    if disc < 0.0 then None
    else if QuadA(ray) == 0.0 then None
    else
      var temp := (-QuadB(center, ray) - lib.sqrt(disc)) / (2.0 * QuadA(ray));
      if temp < 0.0 then None
      else Some(Hit(temp, lib.normalize(Sub(PointAt(ray, temp), center))))
  }

  /** Squared distance from the sphere centre to the ray point at `t`, minus r^2, is the quadratic. */
  lemma QuadraticIsDistance(center: Vec3, radius: real, ray: Ray, t: real)
    ensures var q := Sub(PointAt(ray, t), center);
      Dot(q, q) - radius * radius
        == QuadA(ray) * t * t + QuadB(center, ray) * t + QuadC(center, radius, ray)
  {
  }

  /**
   * With a true square root, a reported hit lies on the sphere and is the
   * nearer of the two roots.
   */
  lemma {:induction false} SphereHitOnSurface(center: Vec3, radius: real, ray: Ray, lib: MathLib)
    requires lib.SqrtLaw()
    ensures var r := SphereIntersect(center, radius, ray, lib);
      r.Some? ==>
        var q := Sub(PointAt(ray, r.value.t), center);
        Dot(q, q) == radius * radius &&
        r.value.t <= (-QuadB(center, ray) + lib.sqrt(Discriminant(center, radius, ray))) / (2.0 * QuadA(ray))
  {
    var r := SphereIntersect(center, radius, ray, lib);
    if r.Some? {
      var disc := Discriminant(center, radius, ray);
      assert disc >= 0.0 && QuadA(ray) != 0.0;
      assert r.value.t == NearRoot(center, radius, ray, lib);
      var s := lib.sqrt(disc);
      assert 0.0 <= s && s * s == disc;
      NearRootOnSphere(center, radius, ray, s, r.value.t);
    }
  }

  /** The near root, taken with a true square root of the discriminant, lies on the sphere. */
  lemma NearRootOnSphere(center: Vec3, radius: real, ray: Ray, s: real, t: real)
    requires QuadA(ray) != 0.0
    requires 0.0 <= s && s * s == Discriminant(center, radius, ray)
    requires t == (-QuadB(center, ray) - s) / (2.0 * QuadA(ray))
    ensures var q := Sub(PointAt(ray, t), center);
      Dot(q, q) == radius * radius && t <= (-QuadB(center, ray) + s) / (2.0 * QuadA(ray))
  {
    var a, b, c := QuadA(ray), QuadB(center, ray), QuadC(center, radius, ray);
    QuadANonNegative(ray);
    NearRootIsRoot(a, b, c, s);
    QuadraticIsDistance(center, radius, ray, t);
  }

  /** `a` is a squared length. */
  lemma QuadANonNegative(ray: Ray)
    ensures QuadA(ray) >= 0.0
  {
    var d := ray.direction;
    SquareNonNegative(d.x);
    SquareNonNegative(d.y);
    SquareNonNegative(d.z);
  }

  lemma SquareNonNegative(x: real)
    ensures x * x >= 0.0
  {
    if x < 0.0 { MulPos(-x, -x); } else if x > 0.0 { MulPos(x, x); }
  }

  /** `(-b - s) / 2a` with `s^2` the discriminant solves the quadratic and is the smaller root. */
  lemma NearRootIsRoot(a: real, b: real, c: real, s: real)
    requires a != 0.0 && 0.0 <= s && s * s == b * b - 4.0 * a * c
    ensures var t := (-b - s) / (2.0 * a);
      a * t * t + b * t + c == 0.0 &&
      (a > 0.0 ==> t <= (-b + s) / (2.0 * a))
  {
    var t := (-b - s) / (2.0 * a);
    assert 2.0 * a * t == -b - s;
    assert (2.0 * a * t + b) * (2.0 * a * t + b) == s * s;
    assert 4.0 * a * (a * t * t + b * t + c) == 0.0;
  }

  /**
   * Near-root-only policy: when the ray starts strictly inside the sphere
   * (c < 0) with a non-degenerate direction, sqrt(disc) exceeds |b|, the near
   * root is negative and the sphere reports no hit.
   */
  lemma {:induction false} InsideSphereNoHit(center: Vec3, radius: real, ray: Ray, lib: MathLib)
    requires lib.SqrtLaw()
    requires QuadC(center, radius, ray) < 0.0 && QuadA(ray) > 0.0
    ensures var b := QuadB(center, ray);
      lib.sqrt(Discriminant(center, radius, ray)) > (if b < 0.0 then -b else b)
    ensures NearRoot(center, radius, ray, lib) < 0.0
    ensures SphereIntersect(center, radius, ray, lib).None?
  {
    var a, b, c := QuadA(ray), QuadB(center, ray), QuadC(center, radius, ray);
    var disc := Discriminant(center, radius, ray);
    var s := lib.sqrt(disc);
    var ab := if b < 0.0 then -b else b;
    assert 4.0 * a * c < 0.0 by { assert a * c < 0.0; }
    assert disc > b * b;
    assert 0.0 <= s && s * s == disc;
    assert s > ab by { SquaresOrdered(ab, s); }
    assert -b - s < 0.0;
  }

  /** For non-negative reals, squaring preserves a strict order in reverse. */
  lemma SquaresOrdered(x: real, s: real)
    requires 0.0 <= x && 0.0 <= s && x * x < s * s
    ensures x < s
  {
    if s <= x {
      MulMono(s, x, s);
      MulMono(s, x, x);
    }
  }

  /** From the centre, the constant coefficient is -r^2 < 0. */
  lemma CentreOriginInside(center: Vec3, radius: real, ray: Ray)
    requires ray.origin == center && radius > 0.0
    ensures QuadC(center, radius, ray) < 0.0
  {
    CentreOffsetIsZero(center, ray.origin);
    SubProductNegative(Dot(Sub(ray.origin, center), Sub(ray.origin, center)), radius, radius);
  }

  lemma CentreOffsetIsZero(center: Vec3, origin: Vec3)
    requires origin == center
    ensures Dot(Sub(origin, center), Sub(origin, center)) == 0.0
  {
  }

  /** Kept over two factors: the solver handles `r * s` more reliably than `r * r` here. */
  lemma SubProductNegative(d: real, r: real, s: real)
    requires d <= 0.0 && 0.0 < r && 0.0 < s
    ensures d - r * s < 0.0
  {
    assert 0.0 < r * s;
  }

  /** A ray whose origin is the centre of a sphere of positive radius does not hit it. */
  lemma CentreOriginNoHit(center: Vec3, radius: real, mat: Material, ray: Ray, lib: MathLib)
    requires lib.SqrtLaw()
    requires ray.origin == center && radius > 0.0 && QuadA(ray) > 0.0
    ensures Sphere(center, radius, mat).Intersect(ray, lib).None?
  {
    CentreOriginInside(center, radius, ray);
    InsideSphereNoHit(center, radius, ray, lib);
    SphereDispatch(center, radius, mat, ray, lib);
  }

  /** A sphere's material plays no part in whether it is hit. */
  lemma SphereDispatch(center: Vec3, radius: real, mat: Material, ray: Ray, lib: MathLib)
    ensures Sphere(center, radius, mat).Intersect(ray, lib) == SphereIntersect(center, radius, ray, lib)
  {
  }

  /**
   * The position `getPosition` computes for a reported hit lies on the
   * surface that reported it (for a sphere, given a true square root).
   */
  lemma {:induction false} HitPositionOnSurface(s: Surface, ray: Ray, lib: MathLib)
    requires lib.SqrtLaw()
    ensures s.Intersect(ray, lib).Some? ==> s.OnSurface(s.GetPosition(ray, s.Intersect(ray, lib).value.t))
  {
    match s
    case Plane(y, _) =>
    case Sphere(c, rad, _) => SphereHitOnSurface(c, rad, ray, lib);
  }
}
