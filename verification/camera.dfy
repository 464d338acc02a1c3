/** The orbiting pinhole camera: spherical placement around a target, rotation and
    zoom with clamping, and primary-ray generation through the image plane. */
module Cameras {
  import opened Vectors
  import opened MathUtils

  /** `std::f32::consts::PI`, as the real number it approximates. */
  const PI: real := 3.141592653589793

  datatype Camera = Camera(
    position: Vec3,
    target: Vec3,
    up: Vec3,
    fov: real,
    aspectRatio: real,
    near: real,
    far: real,
    distance: real,
    theta: real,
    phi: real,
    minDistance: real,
    maxDistance: real)

  /** `sin` and `cos` satisfy the Pythagorean identity. */
  ghost predicate Pythagorean(tr: Transcendental) {
    forall x: real :: tr.sin(x) * tr.sin(x) + tr.cos(x) * tr.cos(x) == 1.0
  }

  /** The offset from the target of the point at spherical coordinates
      `(distance, theta, phi)`, with `phi` measured from the `+y` axis. */
  function OrbitOffset(distance: real, theta: real, phi: real, tr: Transcendental): Vec3 {
    Vec3(distance * tr.sin(phi) * tr.cos(theta),
         distance * tr.cos(phi),
         distance * tr.sin(phi) * tr.sin(theta))
  }

  /** The camera sits at its spherical coordinates around its target. */
  predicate OnOrbit(c: Camera, tr: Transcendental) {
    c.position == Add(c.target, OrbitOffset(c.distance, c.theta, c.phi, tr))
  }

  /** With a Pythagorean `sin`/`cos`, the orbit offset has length `|distance|`: the
      camera lies on the sphere of that radius about its target. */
  lemma OrbitRadius(distance: real, theta: real, phi: real, tr: Transcendental)
    ensures Pythagorean(tr) ==> MagnitudeSquared(OrbitOffset(distance, theta, phi, tr)) == distance * distance
  {
    if Pythagorean(tr) {
      var sp, cp, st, ct := tr.sin(phi), tr.cos(phi), tr.sin(theta), tr.cos(theta);
      assert sp * sp + cp * cp == 1.0;
      assert st * st + ct * ct == 1.0;
      var d := distance;
      calc {
        MagnitudeSquared(OrbitOffset(distance, theta, phi, tr));
        (d * sp * ct) * (d * sp * ct) + (d * cp) * (d * cp) + (d * sp * st) * (d * sp * st);
        { assert (d * sp * ct) * (d * sp * ct) + (d * sp * st) * (d * sp * st) == d * d * (sp * sp) * (st * st + ct * ct); }
        d * d * (sp * sp) * (st * st + ct * ct) + d * d * (cp * cp);
        d * d * (sp * sp + cp * cp);
      }
    }
  }

  /** `update_position`: moves the camera onto its orbit, changing nothing else. */
  function UpdatePosition(c: Camera, tr: Transcendental): (r: Camera)
    ensures OnOrbit(r, tr)
    ensures r == c.(position := r.position)
    ensures Pythagorean(tr) ==> MagnitudeSquared(Sub(r.position, r.target)) == r.distance * r.distance
  {
    var r := c.(position := Add(c.target, OrbitOffset(c.distance, c.theta, c.phi, tr)));
    OrbitRadius(c.distance, c.theta, c.phi, tr);
    assert Sub(r.position, r.target) == OrbitOffset(c.distance, c.theta, c.phi, tr);
    r
  }

  /** `Camera::new`: the given target, distance, field of view and aspect ratio, the
      default orientation (`theta = 0`, `phi = PI / 4`, up `+y`), clip planes 0.1 and
      1000 and zoom range `[2, 50]`, placed on its orbit. The distance is stored as
      given, even outside the zoom range. */
  function New(target: Vec3, distance: real, fov: real, aspectRatio: real, tr: Transcendental): (r: Camera)
    ensures r.target == target && r.distance == distance
    ensures r.fov == fov && r.aspectRatio == aspectRatio
    ensures r.up == Vec3(0.0, 1.0, 0.0) && r.near == 0.1 && r.far == 1000.0
    ensures r.theta == 0.0 && r.phi == PI * 0.25
    ensures r.minDistance == 2.0 && r.maxDistance == 50.0
    ensures OnOrbit(r, tr)
  {
    UpdatePosition(
      Camera(Vec3(0.0, 0.0, 0.0), target, Vec3(0.0, 1.0, 0.0), fov, aspectRatio, 0.1, 1000.0,
             distance, 0.0, PI * 0.25, 2.0, 50.0),
      tr)
  }

  /** `f32::clamp`, which the source only calls with `lo <= hi` (it panics otherwise). */
  function Clamp(x: real, lo: real, hi: real): (r: real)
    requires lo <= hi
    ensures lo <= r <= hi
    ensures lo <= x <= hi ==> r == x
    ensures x < lo ==> r == lo
    ensures hi < x ==> r == hi
  {
    if x < lo then lo else if hi < x then hi else x
  }

  /** The polar angle stays this far from the poles. */
  const PHI_MARGIN: real := 0.1

  /** `rotate`: adds the deltas to the angles, keeps the polar angle within
      `[0.1, PI - 0.1]`, and moves the camera onto its orbit; nothing else changes. */
  function Rotate(c: Camera, deltaTheta: real, deltaPhi: real, tr: Transcendental): (r: Camera)
    ensures r.theta == c.theta + deltaTheta
    ensures PHI_MARGIN <= r.phi <= PI - PHI_MARGIN
    ensures PHI_MARGIN <= c.phi + deltaPhi <= PI - PHI_MARGIN ==> r.phi == c.phi + deltaPhi
    ensures c.phi + deltaPhi < PHI_MARGIN ==> r.phi == PHI_MARGIN
    ensures PI - PHI_MARGIN < c.phi + deltaPhi ==> r.phi == PI - PHI_MARGIN
    ensures r.phi == Clamp(c.phi + deltaPhi, PHI_MARGIN, PI - PHI_MARGIN)
    ensures r == c.(theta := r.theta, phi := r.phi, position := r.position)
    ensures OnOrbit(r, tr)
  {
    UpdatePosition(
      c.(theta := c.theta + deltaTheta, phi := Clamp(c.phi + deltaPhi, PHI_MARGIN, PI - PHI_MARGIN)),
      tr)
  }

  /** `zoom`: adds the delta to the distance, keeps it within the zoom range and
      moves the camera onto its orbit; nothing else changes. The source's `clamp`
      panics on an inverted range, hence the requirement. */
  function Zoom(c: Camera, delta: real, tr: Transcendental): (r: Camera)
    requires c.minDistance <= c.maxDistance
    ensures c.minDistance <= r.distance <= c.maxDistance
    ensures c.minDistance <= c.distance + delta <= c.maxDistance ==> r.distance == c.distance + delta
    ensures c.distance + delta < c.minDistance ==> r.distance == c.minDistance
    ensures c.maxDistance < c.distance + delta ==> r.distance == c.maxDistance
    ensures r.distance == Clamp(c.distance + delta, c.minDistance, c.maxDistance)
    ensures r == c.(distance := r.distance, position := r.position)
    ensures OnOrbit(r, tr)
  {
    UpdatePosition(c.(distance := Clamp(c.distance + delta, c.minDistance, c.maxDistance)), tr)
  }

  /** A rotation by zero leaves a camera on its orbit, with its polar angle already in
      range, exactly as it was. */
  lemma RotateByZero(c: Camera, tr: Transcendental)
    requires OnOrbit(c, tr) && PHI_MARGIN <= c.phi <= PI - PHI_MARGIN
    ensures Rotate(c, 0.0, 0.0, tr) == c
  {
  }

  /** Zooming by zero leaves a camera on its orbit, with its distance already in range,
      exactly as it was. */
  lemma ZoomByZero(c: Camera, tr: Transcendental)
    requires OnOrbit(c, tr) && c.minDistance <= c.distance <= c.maxDistance
    ensures Zoom(c, 0.0, tr) == c
  {
  }

  /** Zooming never leaves the zoom range, however far one zooms, and zooming out to
      the range's end and beyond gives the same camera. */
  lemma ZoomSaturates(c: Camera, d1: real, d2: real, tr: Transcendental)
    requires c.minDistance <= c.maxDistance
    requires c.distance + d1 >= c.maxDistance && c.distance + d2 >= c.maxDistance
    ensures Zoom(c, d1, tr) == Zoom(c, d2, tr)
  {
  }

  /** The camera basis of `get_ray`: `w` points from the target to the eye, `u` to the
      right and `v` up, with the half extents of the image plane at distance one. */
  datatype Frame = Frame(w: Vec3, u: Vec3, v: Vec3, halfWidth: real, halfHeight: real)

  /** The basis for the camera's current pose: `w` is the normalised direction from
      the target to the eye, `u` the normalised `up x w`, and the half height the
      tangent of half the vertical field of view, given in degrees. */
  function FrameOf(c: Camera, tr: Transcendental): (f: Frame)
    ensures f.w == tr.normalize(Sub(c.position, c.target))
    ensures f.u == tr.normalize(Cross(c.up, f.w))
    ensures f.halfHeight == tr.tan(c.fov * PI / 180.0 / 2.0)
    ensures f.halfWidth == c.aspectRatio * f.halfHeight
    ensures f.v == Cross(f.w, f.u)
    ensures Sound(tr) ==> IsUnit(f.w) && IsUnit(f.u)
  {
    var theta := c.fov * PI / 180.0;
    var halfHeight := tr.tan(theta / 2.0);
    var w := tr.normalize(Sub(c.position, c.target));
    var u := tr.normalize(Cross(c.up, w));
    Frame(w, u, Cross(w, u), c.aspectRatio * halfHeight, halfHeight)
  }

  /** The unnormalised direction `get_ray` builds: from the eye through the image-plane
      point at screen coordinates `(s, t)`, measured from the lower-left corner. */
  function RayDirection(c: Camera, s: real, t: real, tr: Transcendental): Vec3 {
    var f := FrameOf(c, tr);
    var lowerLeftCorner := Sub(Sub(Sub(c.position, Scale(f.halfWidth, f.u)), Scale(f.halfHeight, f.v)), f.w);
    var horizontal := Scale(2.0 * f.halfWidth, f.u);
    var vertical := Scale(2.0 * f.halfHeight, f.v);
    Sub(Add(Add(lowerLeftCorner, Scale(s, horizontal)), Scale(t, vertical)), c.position)
  }

  /** The direction with coordinates `(2s - 1) * halfWidth` along `u` and
      `(2t - 1) * halfHeight` along `v`, one unit along `-w`. */
  function InFrame(f: Frame, s: real, t: real): Vec3 {
    Sub(Add(Scale((2.0 * s - 1.0) * f.halfWidth, f.u), Scale((2.0 * t - 1.0) * f.halfHeight, f.v)), f.w)
  }

  /** In the camera's basis, screen coordinate `s` moves the direction across
      `[-halfWidth, halfWidth]` along `u`, `t` across `[-halfHeight, halfHeight]` along
      `v`, and the image plane lies one unit along `-w`. */
  lemma RayDirectionInFrame(c: Camera, s: real, t: real, tr: Transcendental)
    ensures RayDirection(c, s, t, tr) == InFrame(FrameOf(c, tr), s, t)
  {
    ImagePlanePoint(c.position, FrameOf(c, tr), s, t);
  }

  /** The image-plane point of `get_ray`, measured from the eye, in frame coordinates. */
  lemma ImagePlanePoint(eye: Vec3, f: Frame, s: real, t: real)
    ensures var lowerLeftCorner := Sub(Sub(Sub(eye, Scale(f.halfWidth, f.u)), Scale(f.halfHeight, f.v)), f.w);
            Sub(Add(Add(lowerLeftCorner, Scale(s, Scale(2.0 * f.halfWidth, f.u))), Scale(t, Scale(2.0 * f.halfHeight, f.v))), eye)
            == InFrame(f, s, t)
  {
    var a := (2.0 * s - 1.0) * f.halfWidth;
    var b := (2.0 * t - 1.0) * f.halfHeight;
    assert s * (2.0 * f.halfWidth * f.u.x) == (a + f.halfWidth) * f.u.x;
    assert s * (2.0 * f.halfWidth * f.u.y) == (a + f.halfWidth) * f.u.y;
    assert s * (2.0 * f.halfWidth * f.u.z) == (a + f.halfWidth) * f.u.z;
    assert t * (2.0 * f.halfHeight * f.v.x) == (b + f.halfHeight) * f.v.x;
    assert t * (2.0 * f.halfHeight * f.v.y) == (b + f.halfHeight) * f.v.y;
    assert t * (2.0 * f.halfHeight * f.v.z) == (b + f.halfHeight) * f.v.z;
  }

  /** The centre of the screen looks straight along `-w`, from the eye toward the
      target. */
  lemma CenterRayPointsAtTarget(c: Camera, tr: Transcendental)
    ensures RayDirection(c, 0.5, 0.5, tr) == Neg(FrameOf(c, tr).w)
  {
    RayDirectionInFrame(c, 0.5, 0.5, tr);
    var f := FrameOf(c, tr);
    CentreOfFrame(f);
  }

  /** At the screen centre both frame offsets vanish. */
  lemma CentreOfFrame(f: Frame)
    ensures InFrame(f, 0.5, 0.5) == Neg(f.w)
  {
  }

  /** `get_ray`: a ray from the eye along the normalised image-plane direction (which
      `Ray::new` normalises once more). */
  function GetRay(c: Camera, s: real, t: real, tr: Transcendental): (r: Ray)
    ensures r.origin == c.position
    ensures r.direction == tr.normalize(tr.normalize(RayDirection(c, s, t, tr)))
    ensures Sound(tr) ==> IsUnit(r.direction)
  {
    MakeRay(c.position, tr.normalize(RayDirection(c, s, t, tr)), tr)
  }
}
