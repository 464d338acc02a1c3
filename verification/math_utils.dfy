/** Rays, the optical primitives (mirror reflection, Snell refraction, Fresnel
    reflectance), the unit-ball rejection sampler and linear interpolation. */
module MathUtils {
  import opened Vectors
  import opened Optional

  /** Below this magnitude a direction component counts as zero. */
  const EPSILON: real := 0.000001

  /** The floating-point primitives the model does not interpret. They are passed in,
      so that every result stays a function of its inputs. */
  datatype Transcendental = Transcendental(
    sqrt: real -> real,
    sin: real -> real,
    cos: real -> real,
    tan: real -> real,
    normalize: Vec3 -> Vec3)

  /** `sqrt` returns the non-negative square root of every non-negative argument. */
  ghost predicate IsSqrt(sqrt: real -> real) {
    forall x: real :: 0.0 <= x ==> 0.0 <= sqrt(x) && sqrt(x) * sqrt(x) == x
  }

  /** The assumptions some properties need about the primitives: `sqrt` is a square
      root and `normalize` yields unit vectors. */
  ghost predicate Sound(tr: Transcendental) {
    && IsSqrt(tr.sqrt)
    && forall v: Vec3 :: IsUnit(tr.normalize(v))
  }

  /** A square root of a positive number is positive. */
  lemma SqrtPositive(sqrt: real -> real, x: real)
    requires IsSqrt(sqrt) && 0.0 < x
    ensures 0.0 < sqrt(x)
  {
    assert 0.0 <= sqrt(x) && sqrt(x) * sqrt(x) == x;
  }

  /** A square root of a number below one is below one. */
  lemma SqrtBelowOne(sqrt: real -> real, x: real)
    requires IsSqrt(sqrt) && 0.0 <= x < 1.0
    ensures 0.0 <= sqrt(x) < 1.0
  {
    var s := sqrt(x);
    assert 0.0 <= s && s * s == x;
    SquareStrictlyMonotone(1.0, s);
  }

  /** Squaring is monotone on non-negative reals. */
  lemma SquareStrictlyMonotone(a: real, b: real)
    ensures 0.0 <= a < b ==> a * a < b * b
  {
    if 0.0 <= a < b {
      ProductSigns(b - a, b + a);
      assert (b - a) * (b + a) == b * b - a * a;
    }
  }

  lemma ProductSigns(x: real, y: real)
    ensures x >= 0.0 && y >= 0.0 ==> x * y >= 0.0
    ensures x > 0.0 && y > 0.0 ==> x * y > 0.0
    ensures x < 0.0 && y > 0.0 ==> x * y < 0.0
  {
  }

  /** Mirror reflection `incident - 2 (incident . normal) normal`. For a unit normal the
      normal component of the incident vector is negated. */
  function Reflect(incident: Vec3, normal: Vec3): (r: Vec3)
    ensures IsUnit(normal) ==> Dot(r, normal) == -Dot(incident, normal)
  {
    var r := Sub(incident, Scale(2.0 * Dot(incident, normal), normal));
    DotSubScale(incident, 2.0 * Dot(incident, normal), normal);
    r
  }

  /** Reflecting twice about the same unit normal gives back the incident vector. */
  lemma ReflectInvolution(incident: Vec3, normal: Vec3)
    requires IsUnit(normal)
    ensures Reflect(Reflect(incident, normal), normal) == incident
  {
    var k := Dot(incident, normal);
    var r := Reflect(incident, normal);
    assert Dot(r, normal) == -k;
    assert Reflect(r, normal) == Sub(r, Scale(-2.0 * k, normal));
  }

  /** Squared sine of the transmitted angle, `eta^2 (1 - cos_i^2)`. */
  function SinT2(cosI: real, eta: real): real {
    eta * eta * (1.0 - cosI * cosI)
  }

  /** Snell refraction with relative index `eta`; `None` signals total internal
      reflection, which happens exactly when `sin_t^2 >= 1`. */
  function Refract(incident: Vec3, normal: Vec3, eta: real, sqrt: real -> real): (r: Option<Vec3>)
    ensures r.None? <==> SinT2(-Dot(incident, normal), eta) >= 1.0
  {
    var cosI := -Dot(incident, normal);
    var sinT2 := SinT2(cosI, eta);
    if sinT2 >= 1.0 then None
    else
      var cosT := sqrt(1.0 - sinT2);
      Some(Add(Scale(eta, incident), Scale(eta * cosI - cosT, normal)))
  }

  /** The square of a difference quotient of two non-negative numbers is at most one. */
  lemma QuotientSquareAtMostOne(a: real, b: real)
    requires 0.0 <= a && 0.0 <= b && 0.0 < a + b
    ensures 0.0 <= ((a - b) / (a + b)) * ((a - b) / (a + b)) <= 1.0
  {
    var d := a + b;
    var q := (a - b) / d;
    assert q * d == a - b;
    assert (q - 1.0) * d == -2.0 * b;
    assert (q + 1.0) * d == 2.0 * a;
    ProductSigns(q - 1.0, d);
    ProductSigns(q + 1.0, d);
    assert -1.0 <= q <= 1.0;
    ProductSigns(1.0 - q, 1.0 + q);
    assert (1.0 - q) * (1.0 + q) == 1.0 - q * q;
    ProductSigns(q, q);
  }

  /** Exact dielectric reflectance: the mean of the squared parallel and perpendicular
      amplitude ratios, or 1 under total internal reflection. The caller passes
      `|cos_i|` and a positive relative index. */
  function Fresnel(cosI: real, eta: real, sqrt: real -> real): (r: real)
    requires 0.0 <= cosI && 0.0 < eta
    requires IsSqrt(sqrt)
    ensures SinT2(cosI, eta) >= 1.0 ==> r == 1.0
    ensures 0.0 <= r <= 1.0
  {
    var sinT2 := SinT2(cosI, eta);
    if sinT2 >= 1.0 then 1.0
    else
      var cosT := sqrt(1.0 - sinT2);
      SqrtPositive(sqrt, 1.0 - sinT2);
      assert 0.0 <= eta * cosI && 0.0 < eta * cosT;
      var rParallel := (eta * cosI - cosT) / (eta * cosI + cosT);
      var rPerpendicular := (cosI - eta * cosT) / (cosI + eta * cosT);
      QuotientSquareAtMostOne(eta * cosI, cosT);
      QuotientSquareAtMostOne(cosI, eta * cosT);
      0.5 * (rParallel * rParallel + rPerpendicular * rPerpendicular)
  }

  /** At normal incidence between matched media both polarisation terms vanish. */
  lemma FresnelNormalIncidence(sqrt: real -> real)
    requires IsSqrt(sqrt)
    ensures Fresnel(1.0, 1.0, sqrt) == 0.0
  {
    var s := sqrt(1.0);
    assert 0.0 <= s && s * s == 1.0;
    SquareStrictlyMonotone(s, 1.0);
    SquareStrictlyMonotone(1.0, s);
    assert s == 1.0;
    assert SinT2(1.0, 1.0) == 0.0;
  }

  /** Whenever refraction fails, the reflectance is total: the two optical
      primitives agree on the total-internal-reflection condition. */
  lemma RefractFailsOnlyWhenFresnelIsOne(incident: Vec3, normal: Vec3, eta: real, sqrt: real -> real)
    requires 0.0 < eta && IsSqrt(sqrt)
    ensures Refract(incident, normal, eta, sqrt).None? <==>
            Fresnel(Abs(-Dot(incident, normal)), eta, sqrt) == 1.0 && SinT2(-Dot(incident, normal), eta) >= 1.0
  {
    var c := -Dot(incident, normal);
    assert Abs(c) * Abs(c) == c * c;
    assert SinT2(Abs(c), eta) == SinT2(c, eta);
  }

  /** A ray; `direction` is whatever `normalize` made of the requested direction. */
  datatype Ray = Ray(origin: Vec3, direction: Vec3)

  /** `Ray::new`: keeps the origin and normalises the direction. */
  function MakeRay(origin: Vec3, direction: Vec3, tr: Transcendental): (r: Ray)
    ensures r.origin == origin
    ensures Sound(tr) ==> IsUnit(r.direction)
  {
    Ray(origin, tr.normalize(direction))
  }

  /** The point at parameter `t` along the ray. */
  function At(ray: Ray, t: real): Vec3 {
    Add(ray.origin, Scale(t, ray.direction))
  }

  /** Points along a ray are affine in the parameter: the ray starts at its origin at
      parameter 0, and moving from `s` to `t` travels `(t - s)` times the direction. */
  lemma AtDifference(ray: Ray, s: real, t: real)
    ensures At(ray, 0.0) == ray.origin
    ensures Sub(At(ray, t), At(ray, s)) == Scale(t - s, ray.direction)
  {
    var d := ray.direction;
    assert t * d.x - s * d.x == (t - s) * d.x;
    assert t * d.y - s * d.y == (t - s) * d.y;
    assert t * d.z - s * d.z == (t - s) * d.z;
  }

  function MagnitudeSquared(v: Vec3): real { Dot(v, v) }

  /** Every candidate lies on or outside the unit sphere. */
  predicate AllRejected(candidates: seq<Vec3>) {
    forall i :: 0 <= i < |candidates| ==> MagnitudeSquared(candidates[i]) >= 1.0
  }

  /** `p` is the first candidate strictly inside the unit ball. */
  predicate FirstAccepted(candidates: seq<Vec3>, p: Vec3) {
    exists i :: 0 <= i < |candidates| && candidates[i] == p && AllRejected(candidates[..i])
  }

  /** A rejected head does not change which candidate comes first. */
  lemma RejectedHead(candidates: seq<Vec3>, r: Option<Vec3>)
    requires |candidates| > 0 && MagnitudeSquared(candidates[0]) >= 1.0
    requires r.Some? ==> FirstAccepted(candidates[1..], r.value)
    requires r.None? <==> AllRejected(candidates[1..])
    ensures r.Some? ==> FirstAccepted(candidates, r.value)
    ensures r.None? <==> AllRejected(candidates)
  {
    var tail := candidates[1..];
    if r.Some? {
      var i :| 0 <= i < |tail| && tail[i] == r.value && AllRejected(tail[..i]);
      assert candidates[..i + 1] == [candidates[0]] + tail[..i];
      assert candidates[i + 1] == r.value;
    }
    if AllRejected(tail) {
      forall i | 0 <= i < |candidates|
        ensures MagnitudeSquared(candidates[i]) >= 1.0
      {
        if i > 0 { assert candidates[i] == tail[i - 1]; }
      }
    }
  }

  /** `random_in_unit_sphere` with its draws made explicit: the rejection loop returns
      the first candidate strictly inside the unit ball, and `None` stands for a draw
      sequence that never produces one. */
  function RandomInUnitSphere(candidates: seq<Vec3>): (r: Option<Vec3>)
    ensures r.Some? ==> MagnitudeSquared(r.value) < 1.0
    ensures r.Some? ==> FirstAccepted(candidates, r.value)
    ensures r.None? <==> AllRejected(candidates)
  {
    if |candidates| == 0 then None
    else if MagnitudeSquared(candidates[0]) < 1.0 then
      assert candidates[..0] == [];
      Some(candidates[0])
    else
      var r := RandomInUnitSphere(candidates[1..]);
      RejectedHead(candidates, r);
      r
  }

  /** `Lerp`: `a (1 - t) + b t`; the end points are reproduced exactly. */
  function Lerp(a: Color, b: Color, t: real): (r: Color)
    ensures t == 0.0 ==> r == a
    ensures t == 1.0 ==> r == b
    ensures a == b ==> r == a
  {
    Add(Scale(1.0 - t, a), Scale(t, b))
  }
}
