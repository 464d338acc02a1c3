/** Axis-aligned boxes: the slab intersection test, face and texture-coordinate
    selection, front-face orientation and the scene's closest-hit scan. */
module Boxes {
  import opened Vectors
  import opened Optional
  import opened MathUtils

  datatype HitRecord = HitRecord(
    point: Vec3,
    normal: Vec3,
    t: real,
    u: real,
    v: real,
    materialIndex: nat,
    frontFace: bool)

  /** The outcome of `set_face_normal`. */
  datatype Facing = Facing(frontFace: bool, normal: Vec3)

  /** Orients a face's outward normal against the incoming ray. */
  function SetFaceNormal(direction: Vec3, outward: Vec3): (r: Facing)
    ensures r.frontFace <==> Dot(direction, outward) < 0.0
    ensures r.normal == outward || r.normal == Neg(outward)
    ensures r.normal == outward <== r.frontFace
    ensures r.normal == Neg(outward) <== !r.frontFace
    ensures Dot(direction, r.normal) <= 0.0
  {
    var front := Dot(direction, outward) < 0.0;
    DotNeg(direction, outward);
    Facing(front, if front then outward else Neg(outward))
  }

  datatype Cube = Cube(min: Vec3, max: Vec3, materialIndex: nat)

  /** The box has positive extent on every axis, so its texture coordinates are
      defined. */
  predicate ValidCube(c: Cube) {
    c.min.x < c.max.x && c.min.y < c.max.y && c.min.z < c.max.z
  }

  /** The ray is parallel to the planes of axis `a` (its component there is below
      `EPSILON` in magnitude). */
  predicate Parallel(d: Vec3, a: nat)
    requires a < 3
  {
    Abs(Axis(d, a)) < EPSILON
  }

  predicate AllParallel(d: Vec3) {
    Parallel(d, 0) && Parallel(d, 1) && Parallel(d, 2)
  }

  /** The origin lies outside the slab of axis `a`. */
  predicate Outside(ray: Ray, c: Cube, a: nat)
    requires a < 3
  {
    Axis(ray.origin, a) < Axis(c.min, a) || Axis(ray.origin, a) > Axis(c.max, a)
  }

  /** Parameter at which the ray crosses the min plane of axis `a`. */
  function T1(ray: Ray, c: Cube, a: nat): real
    requires a < 3 && !Parallel(ray.direction, a)
  {
    (Axis(c.min, a) - Axis(ray.origin, a)) / Axis(ray.direction, a)
  }

  /** Parameter at which the ray crosses the max plane of axis `a`. */
  function T2(ray: Ray, c: Cube, a: nat): real
    requires a < 3 && !Parallel(ray.direction, a)
  {
    (Axis(c.max, a) - Axis(ray.origin, a)) / Axis(ray.direction, a)
  }

  /** Where the ray enters the slab of axis `a`. */
  function Entry(ray: Ray, c: Cube, a: nat): real
    requires a < 3 && !Parallel(ray.direction, a)
  {
    if T1(ray, c, a) < T2(ray, c, a) then T1(ray, c, a) else T2(ray, c, a)
  }

  /** Where the ray leaves the slab of axis `a`. */
  function Exit(ray: Ray, c: Cube, a: nat): real
    requires a < 3 && !Parallel(ray.direction, a)
  {
    if T1(ray, c, a) < T2(ray, c, a) then T2(ray, c, a) else T1(ray, c, a)
  }

  /** The face code recorded when axis `a` tightens the entry: `-(a + 1)` when the min
      plane is crossed first, `a + 1` otherwise. */
  function EntryFace(ray: Ray, c: Cube, a: nat): int
    requires a < 3 && !Parallel(ray.direction, a)
  {
    if T1(ray, c, a) < T2(ray, c, a) then -(a as int + 1) else a as int + 1
  }

  /** The axis a non-zero face code designates. */
  function FaceAxis(face: int): int {
    if face < 0 then -face - 1 else face - 1
  }

  /** The running state of the slab loop: `t_near`, `t_far` and `hit_face`. */
  datatype Slab = Slab(near: real, far: Bound, face: int)

  /** One iteration of the slab loop, for axis `a`. `None` is an early exit. */
  function Step(ray: Ray, c: Cube, s: Slab, a: nat): (r: Option<Slab>)
    requires a < 3
    ensures Parallel(ray.direction, a) ==> (r.None? <==> Outside(ray, c, a))
    ensures !Parallel(ray.direction, a) ==>
              (r.None? <==> Exceeds(Max(s.near, Entry(ray, c, a)), Tighten(s.far, Exit(ray, c, a))))
    ensures r.Some? ==> s.near <= r.value.near && BoundLe(r.value.far, s.far)
  {
    if Parallel(ray.direction, a) then
      if Outside(ray, c, a) then None else Some(s)
    else
      var tightens := Entry(ray, c, a) > s.near;
      var near := if tightens then Entry(ray, c, a) else s.near;
      var face := if tightens then EntryFace(ray, c, a) else s.face;
      var far := Tighten(s.far, Exit(ray, c, a));
      if Exceeds(near, far) then None else Some(Slab(near, far, face))
  }

  /** The slab loop from axis `a` on. */
  function SlabsFrom(ray: Ray, c: Cube, s: Slab, a: nat): Option<Slab>
    requires a <= 3
    decreases 3 - a
  {
    if a == 3 then Some(s)
    else
      match Step(ray, c, s, a)
      case None => None
      case Some(s') => SlabsFrom(ray, c, s', a + 1)
  }

  /** The whole slab loop of `Cube::hit` over the window `[tmin, tmax]`. */
  function Slabs(ray: Ray, c: Cube, tmin: real, tmax: Bound): Option<Slab> {
    SlabsFrom(ray, c, Slab(tmin, tmax, 0), 0)
  }

  // Closed form of the slab loop: the intersection of all slab intervals with the
  // window, with no early exits.

  /** The largest of `lo` and the entries of the non-parallel axes from `a` on. */
  function NearFrom(ray: Ray, c: Cube, lo: real, a: nat): real
    requires a <= 3
    decreases 3 - a
  {
    if a == 3 then lo
    else NearFrom(ray, c, if Parallel(ray.direction, a) then lo else Max(lo, Entry(ray, c, a)), a + 1)
  }

  /** The smallest of `hi` and the exits of the non-parallel axes from `a` on. */
  function FarFrom(ray: Ray, c: Cube, hi: Bound, a: nat): Bound
    requires a <= 3
    decreases 3 - a
  {
    if a == 3 then hi
    else FarFrom(ray, c, if Parallel(ray.direction, a) then hi else Meet(hi, Finite(Exit(ray, c, a))), a + 1)
  }

  predicate AllParallelFrom(d: Vec3, a: nat) {
    forall b | a <= b < 3 :: Parallel(d, b)
  }

  /** Being parallel to every axis from 0 on is being parallel to all three. */
  lemma AllParallelFromStart(d: Vec3)
    ensures AllParallel(d) <==> AllParallelFrom(d, 0)
  {
    if AllParallel(d) {
      forall b | 0 <= b < 3
        ensures Parallel(d, b)
      {
        assert b == 0 || b == 1 || b == 2;
      }
    }
  }

  /** Some axis from `a` on is parallel to the ray while the origin lies outside its slab. */
  predicate ParallelMissFrom(ray: Ray, c: Cube, a: nat) {
    exists b | a <= b < 3 :: Parallel(ray.direction, b) && Outside(ray, c, b)
  }

  /** The entry into the intersection of the window and all slabs. */
  function NearOf(ray: Ray, c: Cube, tmin: real): real { NearFrom(ray, c, tmin, 0) }

  /** The exit from the intersection of the window and all slabs. */
  function FarOf(ray: Ray, c: Cube, tmax: Bound): Bound { FarFrom(ray, c, tmax, 0) }

  predicate ParallelMiss(ray: Ray, c: Cube) { ParallelMissFrom(ray, c, 0) }

  lemma {:induction false} NearFromFacts(ray: Ray, c: Cube, lo: real, a: nat)
    requires a <= 3
    ensures lo <= NearFrom(ray, c, lo, a)
    ensures forall b | a <= b < 3 && !Parallel(ray.direction, b) :: Entry(ray, c, b) <= NearFrom(ray, c, lo, a)
    ensures AllParallelFrom(ray.direction, a) ==> NearFrom(ray, c, lo, a) == lo
    decreases 3 - a
  {
    if a < 3 {
      var lo' := if Parallel(ray.direction, a) then lo else Max(lo, Entry(ray, c, a));
      NearFromFacts(ray, c, lo', a + 1);
    }
  }

  lemma {:induction false} FarFromFacts(ray: Ray, c: Cube, hi: Bound, a: nat)
    requires a <= 3
    ensures BoundLe(FarFrom(ray, c, hi, a), hi)
    ensures forall b | a <= b < 3 && !Parallel(ray.direction, b) :: BoundLe(FarFrom(ray, c, hi, a), Finite(Exit(ray, c, b)))
    ensures AllParallelFrom(ray.direction, a) ==> FarFrom(ray, c, hi, a) == hi
    ensures hi.Finite? || !AllParallelFrom(ray.direction, a) ==> FarFrom(ray, c, hi, a).Finite?
    ensures FarFrom(ray, c, hi, a) == Meet(hi, FarFrom(ray, c, Infinite, a))
    decreases 3 - a
  {
    if a < 3 {
      if Parallel(ray.direction, a) {
        FarFromFacts(ray, c, hi, a + 1);
        FarFromFacts(ray, c, Infinite, a + 1);
      } else {
        var x := Finite(Exit(ray, c, a));
        FarFromFacts(ray, c, Meet(hi, x), a + 1);
        FarFromFacts(ray, c, x, a + 1);
        FarFromFacts(ray, c, Infinite, a + 1);
      }
    }
  }

  /** The slab loop computes the intersection of the window with every slab: it exits
      early exactly when a parallel axis misses or that intersection is empty. (When
      every axis is parallel the emptiness of the window itself is never checked.) */
  lemma {:induction false} SlabsFromClosedForm(ray: Ray, c: Cube, s: Slab, a: nat)
    requires a <= 3
    ensures SlabsFrom(ray, c, s, a).None? <==>
              ParallelMissFrom(ray, c, a) ||
              (!AllParallelFrom(ray.direction, a) && Exceeds(NearFrom(ray, c, s.near, a), FarFrom(ray, c, s.far, a)))
    ensures SlabsFrom(ray, c, s, a).Some? ==>
              SlabsFrom(ray, c, s, a).value.near == NearFrom(ray, c, s.near, a) &&
              SlabsFrom(ray, c, s, a).value.far == FarFrom(ray, c, s.far, a)
    decreases 3 - a
  {
    if a < 3 {
      var d := ray.direction;
      if Parallel(d, a) {
        if Outside(ray, c, a) {
          assert Parallel(d, a) && Outside(ray, c, a);
        } else {
          SlabsFromClosedForm(ray, c, s, a + 1);
          assert ParallelMissFrom(ray, c, a) <==> ParallelMissFrom(ray, c, a + 1);
          assert AllParallelFrom(d, a) <==> AllParallelFrom(d, a + 1);
        }
      } else {
        assert !AllParallelFrom(d, a);
        assert ParallelMissFrom(ray, c, a) <==> ParallelMissFrom(ray, c, a + 1);
        var near := Max(s.near, Entry(ray, c, a));
        var far := Meet(s.far, Finite(Exit(ray, c, a)));
        assert Tighten(s.far, Exit(ray, c, a)) == far;
        NearFromFacts(ray, c, near, a + 1);
        FarFromFacts(ray, c, far, a + 1);
        match Step(ray, c, s, a)
        case None =>
        case Some(s') =>
          assert s'.near == near && s'.far == far;
          SlabsFromClosedForm(ray, c, s', a + 1);
      }
    }
  }

  /** Top-level form of `SlabsFromClosedForm`. */
  lemma SlabsClosedForm(ray: Ray, c: Cube, tmin: real, tmax: Bound)
    ensures Slabs(ray, c, tmin, tmax).None? <==>
              ParallelMiss(ray, c) ||
              (!AllParallel(ray.direction) && Exceeds(NearOf(ray, c, tmin), FarOf(ray, c, tmax)))
    ensures Slabs(ray, c, tmin, tmax).Some? ==>
              Slabs(ray, c, tmin, tmax).value.near == NearOf(ray, c, tmin) &&
              Slabs(ray, c, tmin, tmax).value.far == FarOf(ray, c, tmax)
  {
    SlabsFromClosedForm(ray, c, Slab(tmin, tmax, 0), 0);
    AllParallelFromStart(ray.direction);
  }

  /** Axis `b` is the first axis from `a` on whose entry reaches `r.near`, and `r.face`
      is the code that axis records. */
  predicate FirstReaching(ray: Ray, c: Cube, r: Slab, a: nat, b: int) {
    && a <= b < 3
    && !Parallel(ray.direction, b)
    && Entry(ray, c, b) == r.near
    && r.face == EntryFace(ray, c, b)
    && forall k | a <= k < b && !Parallel(ray.direction, k) :: Entry(ray, c, k) < r.near
  }

  /** Either no axis from `a` on tightened the entry, or the face belongs to the first
      axis whose entry equals the final one (later ties do not tighten). */
  lemma {:induction false} SlabsFromFace(ray: Ray, c: Cube, s: Slab, a: nat)
    requires a <= 3 && SlabsFrom(ray, c, s, a).Some?
    ensures var r := SlabsFrom(ray, c, s, a).value;
            (r.near == s.near && r.face == s.face) ||
            (r.near > s.near && FirstReaching(ray, c, r, a, FaceAxis(r.face)))
    decreases 3 - a
  {
    if a < 3 {
      var s' := Step(ray, c, s, a).value;
      SlabsFromFace(ray, c, s', a + 1);
      var r := SlabsFrom(ray, c, s, a).value;
      assert r == SlabsFrom(ray, c, s', a + 1).value;
      if !Parallel(ray.direction, a) && Entry(ray, c, a) > s.near {
        assert s'.face == EntryFace(ray, c, a);
        if r.near == s'.near && r.face == s'.face {
          assert FaceAxis(r.face) == a;
        }
      }
    }
  }

  /** The face-selection rule of the slab test. The face code is zero exactly when no
      axis moved the entry beyond `tmin`; otherwise it names the first axis whose entry
      is the final `t_near`, negative when that axis's min plane is crossed first. */
  lemma FaceIsFirstAxisReachingNear(ray: Ray, c: Cube, tmin: real, tmax: Bound)
    requires Slabs(ray, c, tmin, tmax).Some?
    ensures var s := Slabs(ray, c, tmin, tmax).value;
            (s.face == 0 <==> s.near == tmin) &&
            (forall a | 0 <= a < 3 && !Parallel(ray.direction, a) :: Entry(ray, c, a) <= s.near) &&
            (s.face != 0 ==>
               var a := FaceAxis(s.face);
               && 0 <= a < 3
               && !Parallel(ray.direction, a)
               && tmin < Entry(ray, c, a) == s.near
               && (s.face < 0 <==> T1(ray, c, a) < T2(ray, c, a))
               && forall b | 0 <= b < a && !Parallel(ray.direction, b) :: Entry(ray, c, b) < s.near)
  {
    SlabsFromFace(ray, c, Slab(tmin, tmax, 0), 0);
    SlabsClosedForm(ray, c, tmin, tmax);
    NearFromFacts(ray, c, tmin, 0);
  }

  /** Two runs of the slab loop that start from the same entry and face end with the
      same entry and face whenever both succeed: the window's upper end only decides
      whether the loop exits early. */
  lemma {:induction false} SlabsFromFaceIndependent(ray: Ray, c: Cube, s1: Slab, s2: Slab, a: nat)
    requires a <= 3 && s1.near == s2.near && s1.face == s2.face
    requires SlabsFrom(ray, c, s1, a).Some? && SlabsFrom(ray, c, s2, a).Some?
    ensures SlabsFrom(ray, c, s1, a).value.near == SlabsFrom(ray, c, s2, a).value.near
    ensures SlabsFrom(ray, c, s1, a).value.face == SlabsFrom(ray, c, s2, a).value.face
    decreases 3 - a
  {
    if a < 3 {
      SlabsFromFaceIndependent(ray, c, Step(ray, c, s1, a).value, Step(ray, c, s2, a).value, a + 1);
    }
  }

  /** The face normal and texture coordinates of `get_face_normal_and_uv`. */
  datatype FaceUv = FaceUv(normal: Vec3, u: real, v: real)

  /** `point` lies within the box on every axis. */
  predicate InsideBox(c: Cube, point: Vec3) {
    && c.min.x <= point.x <= c.max.x
    && c.min.y <= point.y <= c.max.y
    && c.min.z <= point.z <= c.max.z
  }

  /** A coordinate within `[lo, hi]` maps into `[0, 1]` relative to the box's size. */
  lemma UnitRatio(n: real, d: real)
    requires 0.0 < d
    ensures 0.0 <= n <= d ==> 0.0 <= n / d <= 1.0
  {
    var q := n / d;
    assert q * d == n;
    ProductSigns(q, d);
    ProductSigns(q - 1.0, d);
    assert (q - 1.0) * d == n - d;
  }

  /** The unit normal along the struck axis (sign from the face code), and texture
      coordinates taken from the two transverse axes relative to the box's size; codes
      other than +-1, +-2, +-3 fall back to `(0, 1, 0)` with `(0, 0)`. */
  function FaceNormalAndUv(c: Cube, point: Vec3, face: int): (r: FaceUv)
    requires ValidCube(c)
    ensures -3 <= face <= 3 && face != 0 ==> r.normal == UnitAxis(FaceAxis(face) as nat, face > 0)
    ensures !(-3 <= face <= 3 && face != 0) ==> r == FaceUv(Vec3(0.0, 1.0, 0.0), 0.0, 0.0)
  {
    var size := Sub(c.max, c.min);
    var relative := Sub(point, c.min);
    var axis := if face < 0 then -face else face;
    if axis == 1 then
      FaceUv(if face > 0 then Vec3(1.0, 0.0, 0.0) else Vec3(-1.0, 0.0, 0.0), relative.z / size.z, relative.y / size.y)
    else if axis == 2 then
      FaceUv(if face > 0 then Vec3(0.0, 1.0, 0.0) else Vec3(0.0, -1.0, 0.0), relative.x / size.x, relative.z / size.z)
    else if axis == 3 then
      FaceUv(if face > 0 then Vec3(0.0, 0.0, 1.0) else Vec3(0.0, 0.0, -1.0), relative.x / size.x, relative.y / size.y)
    else
      FaceUv(Vec3(0.0, 1.0, 0.0), 0.0, 0.0)
  }

  /** On a point of the box, the texture coordinates of every face lie in `[0, 1]`. */
  lemma FaceUvInUnitSquare(c: Cube, point: Vec3, face: int)
    requires ValidCube(c) && InsideBox(c, point)
    ensures var r := FaceNormalAndUv(c, point, face);
            0.0 <= r.u <= 1.0 && 0.0 <= r.v <= 1.0
  {
    var size := Sub(c.max, c.min);
    var relative := Sub(point, c.min);
    UnitRatio(relative.x, size.x);
    UnitRatio(relative.y, size.y);
    UnitRatio(relative.z, size.z);
  }

  /** After a successful slab loop the exit is finite unless every axis is parallel
      and the window is unbounded. */
  lemma SlabsFarFinite(ray: Ray, c: Cube, tmin: real, tmax: Bound)
    ensures Slabs(ray, c, tmin, tmax).Some? && (tmax.Finite? || !AllParallel(ray.direction)) ==>
              Slabs(ray, c, tmin, tmax).value.far.Finite?
  {
    SlabsClosedForm(ray, c, tmin, tmax);
    FarFromFacts(ray, c, tmax, 0);
    AllParallelFromStart(ray.direction);
  }

  /** `Cube::hit`. The returned parameter lies in the window, the point is on the ray
      at that parameter, the record carries the box's material and the normal faces
      against the ray. The requirement on an unbounded window holds for every unit
      direction (see `UnitDirectionNotAllParallel`). */
  function CubeHit(c: Cube, ray: Ray, tmin: real, tmax: Bound): (r: Option<HitRecord>)
    requires ValidCube(c)
    requires tmax.Finite? || !AllParallel(ray.direction)
    ensures r.Some? ==> tmin <= r.value.t && !Exceeds(r.value.t, tmax)
    ensures r.Some? ==> r.value.materialIndex == c.materialIndex && r.value.point == At(ray, r.value.t)
    ensures r.Some? ==> Dot(ray.direction, r.value.normal) <= 0.0
  {
    SlabsFarFinite(ray, c, tmin, tmax);
    match Slabs(ray, c, tmin, tmax)
    case None => None
    case Some(s) =>
      if Exceeds(s.near, tmax) || BoundBelow(s.far, tmin) then None
      else
        var t := if s.near > tmin then s.near else s.far.value;
        if t < tmin || Exceeds(t, tmax) then None
        else
          Some(RecordAt(c, ray, t, s.face))
  }

  /** The record `Cube::hit` builds for parameter `t` and face code `face`: the point
      on the ray and the box's material, with a normal facing against the ray. */
  function RecordAt(c: Cube, ray: Ray, t: real, face: int): (r: HitRecord)
    requires ValidCube(c)
    ensures r.t == t && r.materialIndex == c.materialIndex && r.point == At(ray, t)
    ensures Dot(ray.direction, r.normal) <= 0.0
  {
    var point := At(ray, t);
    var uv := FaceNormalAndUv(c, point, face);
    var facing := SetFaceNormal(ray.direction, uv.normal);
    HitRecord(point, facing.normal, t, uv.u, uv.v, c.materialIndex, facing.frontFace)
  }

  /** The record takes the face's texture coordinates, and the face's normal or its
      opposite. A face code names an axis, whose unit vector (or its opposite) becomes
      the normal; code 0 falls back to `+-(0, 1, 0)` and texture coordinates `(0, 0)`. */
  lemma RecordAtFace(c: Cube, ray: Ray, t: real, face: int)
    requires ValidCube(c)
    ensures var r := RecordAt(c, ray, t, face);
            var uv := FaceNormalAndUv(c, At(ray, t), face);
            && (r.normal == uv.normal || r.normal == Neg(uv.normal))
            && r.u == uv.u && r.v == uv.v
            && (-3 <= face <= 3 && face != 0 ==>
                  r.normal == UnitAxis(FaceAxis(face) as nat, face > 0) ||
                  r.normal == Neg(UnitAxis(FaceAxis(face) as nat, face > 0)))
            && (face == 0 ==>
                  r.u == 0.0 && r.v == 0.0 &&
                  (r.normal == Vec3(0.0, 1.0, 0.0) || r.normal == Vec3(0.0, -1.0, 0.0)))
  {
    var uv := FaceNormalAndUv(c, At(ray, t), face);
    assert Neg(Vec3(0.0, 1.0, 0.0)) == Vec3(0.0, -1.0, 0.0);
    assert face == 0 ==> uv == FaceUv(Vec3(0.0, 1.0, 0.0), 0.0, 0.0);
  }

  /** A unit direction has a component of magnitude at least `EPSILON`, so it is never
      parallel to all three slabs. */
  lemma UnitDirectionNotAllParallel(d: Vec3)
    requires IsUnit(d)
    ensures !AllParallel(d)
  {
    SmallSquare(d.x);
    SmallSquare(d.y);
    SmallSquare(d.z);
  }

  lemma SmallSquare(x: real)
    ensures Abs(x) < EPSILON ==> x * x < EPSILON
  {
    if Abs(x) < EPSILON {
      ProductSigns(EPSILON - Abs(x), EPSILON + Abs(x));
      assert (EPSILON - Abs(x)) * (EPSILON + Abs(x)) == EPSILON * EPSILON - Abs(x) * Abs(x);
      assert Abs(x) * Abs(x) == x * x;
    }
  }

  /** When the parallel test holds on some axis and the origin lies outside that
      axis's slab, the box is missed whatever the window. */
  lemma ParallelOutsideMisses(c: Cube, ray: Ray, tmin: real, tmax: Bound, a: nat)
    requires ValidCube(c) && (tmax.Finite? || !AllParallel(ray.direction))
    requires a < 3 && Parallel(ray.direction, a) && Outside(ray, c, a)
    ensures CubeHit(c, ray, tmin, tmax).None?
  {
    SlabsClosedForm(ray, c, tmin, tmax);
    assert Parallel(ray.direction, a) && Outside(ray, c, a);
  }

  /** The box is hit exactly when no parallel axis misses and the intersection of the
      window with the slabs is non-empty; the hit parameter is that intersection's
      entry when it lies beyond `tmin` (the ray starts outside), and its exit otherwise
      (the ray starts inside). */
  lemma CubeHitClosedForm(c: Cube, ray: Ray, tmin: real, tmax: Bound)
    requires ValidCube(c) && (tmax.Finite? || !AllParallel(ray.direction))
    requires !Exceeds(tmin, tmax)
    ensures CubeHit(c, ray, tmin, tmax).Some? <==>
              !ParallelMiss(ray, c) && !Exceeds(NearOf(ray, c, tmin), FarOf(ray, c, tmax))
    ensures CubeHit(c, ray, tmin, tmax).Some? ==>
              FarOf(ray, c, tmax).Finite? &&
              CubeHit(c, ray, tmin, tmax).value.t ==
                (if NearOf(ray, c, tmin) > tmin then NearOf(ray, c, tmin) else FarOf(ray, c, tmax).value)
  {
    SlabsClosedForm(ray, c, tmin, tmax);
    SlabsFarFinite(ray, c, tmin, tmax);
    NearFromFacts(ray, c, tmin, 0);
    FarFromFacts(ray, c, tmax, 0);
    AllParallelFromStart(ray.direction);
  }

  /** A coordinate of a point on the ray. */
  lemma AxisAt(ray: Ray, t: real, a: nat)
    requires a < 3
    ensures Axis(At(ray, t), a) == Axis(ray.origin, a) + t * Axis(ray.direction, a)
  {
  }

  /** The record of a hit is built from its parameter and the slab loop's face code. */
  lemma CubeHitRecord(c: Cube, ray: Ray, tmin: real, tmax: Bound)
    requires ValidCube(c) && (tmax.Finite? || !AllParallel(ray.direction))
    requires CubeHit(c, ray, tmin, tmax).Some?
    ensures Slabs(ray, c, tmin, tmax).Some?
    ensures CubeHit(c, ray, tmin, tmax).value ==
              RecordAt(c, ray, CubeHit(c, ray, tmin, tmax).value.t, Slabs(ray, c, tmin, tmax).value.face)
  {
  }

  /** The exit of the slab intersection is the smaller of the window's end and the
      exit of the slabs alone. */
  lemma FarOfMeet(ray: Ray, c: Cube, hi: Bound)
    ensures FarOf(ray, c, hi) == Meet(hi, FarOf(ray, c, Infinite))
    ensures AllParallel(ray.direction) ==> FarOf(ray, c, Infinite) == Infinite
    ensures !AllParallel(ray.direction) ==> FarOf(ray, c, Infinite).Finite?
  {
    FarFromFacts(ray, c, hi, 0);
    FarFromFacts(ray, c, Infinite, 0);
    AllParallelFromStart(ray.direction);
  }

  /** The hit parameter is the slab intersection's entry when that lies beyond `tmin`
      (the ray starts outside), and its exit otherwise (the ray starts inside). */
  lemma HitParameter(c: Cube, ray: Ray, tmin: real, tmax: Bound)
    requires ValidCube(c) && (tmax.Finite? || !AllParallel(ray.direction))
    requires CubeHit(c, ray, tmin, tmax).Some?
    ensures !ParallelMiss(ray, c)
    ensures NearOf(ray, c, tmin) <= CubeHit(c, ray, tmin, tmax).value.t
    ensures FarOf(ray, c, tmax).Finite? && CubeHit(c, ray, tmin, tmax).value.t <= FarOf(ray, c, tmax).value
    ensures CubeHit(c, ray, tmin, tmax).value.t ==
              (if NearOf(ray, c, tmin) > tmin then NearOf(ray, c, tmin) else FarOf(ray, c, tmax).value)
  {
    SlabsClosedForm(ray, c, tmin, tmax);
    SlabsFarFinite(ray, c, tmin, tmax);
    NearFromFacts(ray, c, tmin, 0);
    FarFromFacts(ray, c, tmax, 0);
    AllParallelFromStart(ray.direction);
  }

  /** When the ray starts inside the box (no slab entry beyond `tmin`), the hit is at
      the slab intersection's exit and carries the fallback normal `+-(0, 1, 0)` with
      texture coordinates `(0, 0)`. */
  lemma InsideStartHitUsesFallbackFace(c: Cube, ray: Ray, tmin: real, tmax: Bound)
    requires ValidCube(c) && (tmax.Finite? || !AllParallel(ray.direction))
    requires CubeHit(c, ray, tmin, tmax).Some? && NearOf(ray, c, tmin) <= tmin
    ensures var h := CubeHit(c, ray, tmin, tmax).value;
            && FarOf(ray, c, tmax).Finite? && h.t == FarOf(ray, c, tmax).value
            && h.u == 0.0 && h.v == 0.0
            && (h.normal == Vec3(0.0, 1.0, 0.0) || h.normal == Vec3(0.0, -1.0, 0.0))
  {
    CubeHitRecord(c, ray, tmin, tmax);
    HitParameter(c, ray, tmin, tmax);
    SlabsClosedForm(ray, c, tmin, tmax);
    FaceIsFirstAxisReachingNear(ray, c, tmin, tmax);
    RecordAtFace(c, ray, CubeHit(c, ray, tmin, tmax).value.t, Slabs(ray, c, tmin, tmax).value.face);
  }

  /** When the ray starts outside the box, the hit is at the slab intersection's entry,
      the hit point lies on the plane of the struck face (the min plane for a negative
      face code, the max plane for a positive one), and the normal is that axis's unit
      vector, flipped to face the ray. */
  lemma OutsideStartHitIsOnStruckFace(c: Cube, ray: Ray, tmin: real, tmax: Bound)
    requires ValidCube(c) && (tmax.Finite? || !AllParallel(ray.direction))
    requires CubeHit(c, ray, tmin, tmax).Some? && NearOf(ray, c, tmin) > tmin
    ensures Slabs(ray, c, tmin, tmax).Some?
    ensures var h := CubeHit(c, ray, tmin, tmax).value;
            var face := Slabs(ray, c, tmin, tmax).value.face;
            var a := FaceAxis(face);
            && 0 <= a < 3
            && h.t == NearOf(ray, c, tmin)
            && Axis(h.point, a) == (if face < 0 then Axis(c.min, a) else Axis(c.max, a))
            && (h.normal == UnitAxis(a, face > 0) || h.normal == Neg(UnitAxis(a, face > 0)))
  {
    CubeHitRecord(c, ray, tmin, tmax);
    HitParameter(c, ray, tmin, tmax);
    SlabsClosedForm(ray, c, tmin, tmax);
    EntryFacePlane(ray, c, tmin, tmax);
    RecordAtFace(c, ray, CubeHit(c, ray, tmin, tmax).value.t, Slabs(ray, c, tmin, tmax).value.face);
  }

  /** When the slab loop's entry moved beyond `tmin`, its face code names an axis, and
      the ray meets that axis's min plane (negative code) or max plane (positive code)
      at the entry. */
  lemma EntryFacePlane(ray: Ray, c: Cube, tmin: real, tmax: Bound)
    requires Slabs(ray, c, tmin, tmax).Some? && Slabs(ray, c, tmin, tmax).value.near > tmin
    ensures var s := Slabs(ray, c, tmin, tmax).value;
            var a := FaceAxis(s.face);
            && -3 <= s.face <= 3 && s.face != 0 && 0 <= a < 3
            && Axis(At(ray, s.near), a) == (if s.face < 0 then Axis(c.min, a) else Axis(c.max, a))
  {
    FaceIsFirstAxisReachingNear(ray, c, tmin, tmax);
    var s := Slabs(ray, c, tmin, tmax).value;
    PlaneAtEntry(ray, c, FaceAxis(s.face), s.face < 0);
  }

  /** The ray is on the min plane of axis `a` at its entry when it crosses that plane
      first, and on the max plane otherwise. */
  lemma PlaneAtEntry(ray: Ray, c: Cube, a: nat, minFirst: bool)
    requires a < 3 && !Parallel(ray.direction, a)
    requires minFirst <==> T1(ray, c, a) < T2(ray, c, a)
    ensures Axis(At(ray, Entry(ray, c, a)), a) == (if minFirst then Axis(c.min, a) else Axis(c.max, a))
  {
    AxisAt(ray, Entry(ray, c, a), a);
    StruckPlane(ray, c, a);
  }

  /** The ray meets the min plane of axis `a` at `T1` and the max plane at `T2`. */
  lemma StruckPlane(ray: Ray, c: Cube, a: nat)
    requires a < 3 && !Parallel(ray.direction, a)
    ensures Axis(ray.origin, a) + T1(ray, c, a) * Axis(ray.direction, a) == Axis(c.min, a)
    ensures Axis(ray.origin, a) + T2(ray, c, a) * Axis(ray.direction, a) == Axis(c.max, a)
  {
  }

  /** Narrowing the window's upper end to any value at or beyond a hit leaves the hit
      unchanged. */
  lemma CubeHitStable(c: Cube, ray: Ray, tmin: real, tmax: Bound, bound: real)
    requires ValidCube(c) && (tmax.Finite? || !AllParallel(ray.direction))
    ensures CubeHit(c, ray, tmin, tmax).Some? && CubeHit(c, ray, tmin, tmax).value.t <= bound &&
            !Exceeds(bound, tmax) ==>
              CubeHit(c, ray, tmin, Finite(bound)) == CubeHit(c, ray, tmin, tmax)
  {
    var h := CubeHit(c, ray, tmin, tmax);
    if h.Some? && h.value.t <= bound && !Exceeds(bound, tmax) {
      HitParameter(c, ray, tmin, tmax);
      CubeHitRecord(c, ray, tmin, tmax);
      FarOfMeet(ray, c, tmax);
      FarOfMeet(ray, c, Finite(bound));
      CubeHitClosedForm(c, ray, tmin, Finite(bound));
      var h' := CubeHit(c, ray, tmin, Finite(bound));
      assert h'.Some?;
      HitParameter(c, ray, tmin, Finite(bound));
      CubeHitRecord(c, ray, tmin, Finite(bound));
      SlabsFromFaceIndependent(ray, c, Slab(tmin, tmax, 0), Slab(tmin, Finite(bound), 0), 0);
      assert h'.value.t == h.value.t;
    }
  }

  /** A hit inside a narrowed window is also a hit of the full window. */
  lemma CubeHitWiden(c: Cube, ray: Ray, tmin: real, tmax: Bound, bound: real)
    requires ValidCube(c) && (tmax.Finite? || !AllParallel(ray.direction))
    ensures CubeHit(c, ray, tmin, Finite(bound)).Some? && !Exceeds(bound, tmax) ==>
              CubeHit(c, ray, tmin, tmax).Some?
  {
    if CubeHit(c, ray, tmin, Finite(bound)).Some? && !Exceeds(bound, tmax) {
      HitParameter(c, ray, tmin, Finite(bound));
      FarOfMeet(ray, c, tmax);
      FarOfMeet(ray, c, Finite(bound));
      CubeHitClosedForm(c, ray, tmin, tmax);
    }
  }

  /** A box hit over a window that ends no later than `tmax` is hit over the window
      ending at `tmax`. */
  lemma HitWithinHitsWider(c: Cube, ray: Ray, tmin: real, tmax: Bound, within: Bound)
    requires ValidCube(c) && (tmax.Finite? || !AllParallel(ray.direction))
    requires BoundLe(within, tmax) && (within.Finite? || !AllParallel(ray.direction))
    requires CubeHit(c, ray, tmin, within).Some?
    ensures CubeHit(c, ray, tmin, tmax).Some?
  {
    if within.Finite? {
      CubeHitWiden(c, ray, tmin, tmax, within.value);
    }
  }

  /** The slab loop for a ray from above the unit box pointing straight down the z
      axis: the x and y slabs contain it, the z slab is entered at 4 through the max
      face and left at 5. */
  lemma UnitCubeSlabs(c: Cube, ray: Ray)
    requires c == Cube(Vec3(0.0, 0.0, 0.0), Vec3(1.0, 1.0, 1.0), 0)
    requires ray == Ray(Vec3(0.5, 0.5, 5.0), Vec3(0.0, 0.0, -1.0))
    ensures Slabs(ray, c, 0.001, Infinite) == Some(Slab(4.0, Finite(5.0), 3))
  {
    var s0 := Slab(0.001, Infinite, 0);
    var s3 := Slab(4.0, Finite(5.0), 3);
    assert Step(ray, c, s0, 0) == Some(s0);
    assert Step(ray, c, s0, 1) == Some(s0);
    assert T1(ray, c, 2) == 5.0 && T2(ray, c, 2) == 4.0;
    assert Step(ray, c, s0, 2) == Some(s3);
    assert SlabsFrom(ray, c, s3, 3) == Some(s3);
    assert SlabsFrom(ray, c, s0, 2) == Some(s3);
    assert SlabsFrom(ray, c, s0, 1) == Some(s3);
  }

  /** The record for that ray at parameter 4 on the top face `z = 1`. */
  lemma UnitCubeRecord(c: Cube, ray: Ray)
    requires c == Cube(Vec3(0.0, 0.0, 0.0), Vec3(1.0, 1.0, 1.0), 0)
    requires ray == Ray(Vec3(0.5, 0.5, 5.0), Vec3(0.0, 0.0, -1.0))
    ensures RecordAt(c, ray, 4.0, 3) == HitRecord(Vec3(0.5, 0.5, 1.0), Vec3(0.0, 0.0, 1.0), 4.0, 0.5, 0.5, 0, true)
  {
    UnitCubeEntryPoint(ray);
    UnitCubeTopFace(c, At(ray, 4.0));
    UnitCubeFacing(ray);
  }

  lemma UnitCubeEntryPoint(ray: Ray)
    requires ray == Ray(Vec3(0.5, 0.5, 5.0), Vec3(0.0, 0.0, -1.0))
    ensures At(ray, 4.0) == Vec3(0.5, 0.5, 1.0)
  {
  }

  lemma UnitCubeTopFace(c: Cube, p: Vec3)
    requires c == Cube(Vec3(0.0, 0.0, 0.0), Vec3(1.0, 1.0, 1.0), 0)
    requires p == Vec3(0.5, 0.5, 1.0)
    ensures FaceNormalAndUv(c, p, 3) == FaceUv(Vec3(0.0, 0.0, 1.0), 0.5, 0.5)
  {
    var r := FaceNormalAndUv(c, p, 3);
    assert r.normal == Vec3(0.0, 0.0, 1.0);
    assert r.u == 0.5;
    assert r.v == 0.5;
  }

  lemma UnitCubeFacing(ray: Ray)
    requires ray == Ray(Vec3(0.5, 0.5, 5.0), Vec3(0.0, 0.0, -1.0))
    ensures SetFaceNormal(ray.direction, Vec3(0.0, 0.0, 1.0)) == Facing(true, Vec3(0.0, 0.0, 1.0))
  {
  }

  /** A ray from above the unit box, pointing straight down the z axis, enters
      through the top face `z = 1` at parameter 4, which faces the ray. */
  lemma UnitCubeScenario()
    ensures var c := Cube(Vec3(0.0, 0.0, 0.0), Vec3(1.0, 1.0, 1.0), 0);
            var ray := Ray(Vec3(0.5, 0.5, 5.0), Vec3(0.0, 0.0, -1.0));
            CubeHit(c, ray, 0.001, Infinite) ==
              Some(HitRecord(Vec3(0.5, 0.5, 1.0), Vec3(0.0, 0.0, 1.0), 4.0, 0.5, 0.5, 0, true))
  {
    var c := Cube(Vec3(0.0, 0.0, 0.0), Vec3(1.0, 1.0, 1.0), 0);
    var ray := Ray(Vec3(0.5, 0.5, 5.0), Vec3(0.0, 0.0, -1.0));
    UnitCubeSlabs(c, ray);
    CubeHitAtEntry(c, ray, 0.001, Infinite, Slab(4.0, Finite(5.0), 3));
    UnitCubeRecord(c, ray);
  }

  /** The slab loop for a ray from the centre of `[-1, 1]^3` along `+x` with the
      window `[0.001, 0.5]`: every slab contains the window, so nothing moves. */
  lemma CenteredSlabs(c: Cube, ray: Ray)
    requires c == Cube(Vec3(-1.0, -1.0, -1.0), Vec3(1.0, 1.0, 1.0), 0)
    requires ray == Ray(Vec3(0.0, 0.0, 0.0), Vec3(1.0, 0.0, 0.0))
    ensures Slabs(ray, c, 0.001, Finite(0.5)) == Some(Slab(0.001, Finite(0.5), 0))
  {
    var s0 := Slab(0.001, Finite(0.5), 0);
    assert T1(ray, c, 0) == -1.0 && T2(ray, c, 0) == 1.0;
    assert Step(ray, c, s0, 0) == Some(s0);
    assert Step(ray, c, s0, 1) == Some(s0);
    assert Step(ray, c, s0, 2) == Some(s0);
    assert SlabsFrom(ray, c, s0, 2) == Some(s0);
    assert SlabsFrom(ray, c, s0, 1) == Some(s0);
  }

  /** The record for that ray at parameter 0.5 with face code 0. */
  lemma CenteredRecord(c: Cube, ray: Ray)
    requires c == Cube(Vec3(-1.0, -1.0, -1.0), Vec3(1.0, 1.0, 1.0), 0)
    requires ray == Ray(Vec3(0.0, 0.0, 0.0), Vec3(1.0, 0.0, 0.0))
    ensures RecordAt(c, ray, 0.5, 0) == HitRecord(Vec3(0.5, 0.0, 0.0), Vec3(0.0, -1.0, 0.0), 0.5, 0.0, 0.0, 0, false)
  {
    CenteredExitPoint(ray);
    CenteredFallbackFace(c, At(ray, 0.5));
    CenteredFacing(ray);
  }

  lemma CenteredExitPoint(ray: Ray)
    requires ray == Ray(Vec3(0.0, 0.0, 0.0), Vec3(1.0, 0.0, 0.0))
    ensures At(ray, 0.5) == Vec3(0.5, 0.0, 0.0)
  {
  }

  lemma CenteredFallbackFace(c: Cube, p: Vec3)
    requires c == Cube(Vec3(-1.0, -1.0, -1.0), Vec3(1.0, 1.0, 1.0), 0)
    requires p == Vec3(0.5, 0.0, 0.0)
    ensures FaceNormalAndUv(c, p, 0) == FaceUv(Vec3(0.0, 1.0, 0.0), 0.0, 0.0)
  {
  }

  lemma CenteredFacing(ray: Ray)
    requires ray == Ray(Vec3(0.0, 0.0, 0.0), Vec3(1.0, 0.0, 0.0))
    ensures SetFaceNormal(ray.direction, Vec3(0.0, 1.0, 0.0)) == Facing(false, Vec3(0.0, -1.0, 0.0))
  {
    assert Dot(ray.direction, Vec3(0.0, 1.0, 0.0)) == 0.0;
    GrazingIsBackFace(ray.direction, Vec3(0.0, 1.0, 0.0));
    assert Neg(Vec3(0.0, 1.0, 0.0)) == Vec3(0.0, -1.0, 0.0);
  }

  /** A ray that grazes a face, perpendicular to its outward normal, is not counted
      as arriving from outside, so the stored normal is flipped. */
  lemma GrazingIsBackFace(direction: Vec3, outward: Vec3)
    requires Dot(direction, outward) == 0.0
    ensures SetFaceNormal(direction, outward) == Facing(false, Neg(outward))
  {
  }

  /** A ray starting at the centre of the box `[-1, 1]^3` with the window cut short at
      0.5 reports a hit at the window's end, at a point strictly inside the box, with
      the fallback normal turned to `(0, -1, 0)` and texture coordinates `(0, 0)`. */
  lemma InsideStartLandsOnWindowBound()
    ensures var c := Cube(Vec3(-1.0, -1.0, -1.0), Vec3(1.0, 1.0, 1.0), 0);
            var ray := Ray(Vec3(0.0, 0.0, 0.0), Vec3(1.0, 0.0, 0.0));
            CubeHit(c, ray, 0.001, Finite(0.5)) ==
              Some(HitRecord(Vec3(0.5, 0.0, 0.0), Vec3(0.0, -1.0, 0.0), 0.5, 0.0, 0.0, 0, false))
  {
    var c := Cube(Vec3(-1.0, -1.0, -1.0), Vec3(1.0, 1.0, 1.0), 0);
    var ray := Ray(Vec3(0.0, 0.0, 0.0), Vec3(1.0, 0.0, 0.0));
    CenteredSlabs(c, ray);
    CubeHitAtExit(c, ray, 0.001, Finite(0.5), Slab(0.001, Finite(0.5), 0));
    CenteredRecord(c, ray);
  }

  /** When the slab loop's entry lies beyond `tmin`, the hit is recorded there. */
  lemma CubeHitAtEntry(c: Cube, ray: Ray, tmin: real, tmax: Bound, s: Slab)
    requires ValidCube(c) && (tmax.Finite? || !AllParallel(ray.direction))
    requires Slabs(ray, c, tmin, tmax) == Some(s)
    requires tmin < s.near && !Exceeds(s.near, tmax) && !BoundBelow(s.far, tmin)
    ensures CubeHit(c, ray, tmin, tmax) == Some(RecordAt(c, ray, s.near, s.face))
  {
  }

  /** When the slab loop's entry is at or before `tmin` and its exit lies in the
      window, the hit is recorded at the exit. */
  lemma CubeHitAtExit(c: Cube, ray: Ray, tmin: real, tmax: Bound, s: Slab)
    requires ValidCube(c) && (tmax.Finite? || !AllParallel(ray.direction))
    requires Slabs(ray, c, tmin, tmax) == Some(s)
    requires s.near <= tmin && s.far.Finite? && tmin <= s.far.value && !Exceeds(s.far.value, tmax)
    ensures CubeHit(c, ray, tmin, tmax) == Some(RecordAt(c, ray, s.far.value, s.face))
  {
    assert !Exceeds(s.near, tmax) && !BoundBelow(s.far, tmin);
    assert !(s.near > tmin);
    assert CubeHit(c, ray, tmin, tmax).Some?;
    CubeHitRecord(c, ray, tmin, tmax);
    assert CubeHit(c, ray, tmin, tmax).value.t == s.far.value;
  }

  /** A list of boxes. */
  datatype Scene = Scene(cubes: seq<Cube>)

  predicate ValidScene(scene: Scene) {
    forall i | 0 <= i < |scene.cubes| :: ValidCube(scene.cubes[i])
  }

  /** `Scene::add_cube`: the new box is intersected after all earlier ones. */
  function AddCube(scene: Scene, c: Cube): (r: Scene)
    ensures |r.cubes| == |scene.cubes| + 1 && r.cubes[|scene.cubes|] == c
    ensures forall i | 0 <= i < |scene.cubes| :: r.cubes[i] == scene.cubes[i]
    ensures ValidScene(scene) && ValidCube(c) ==> ValidScene(r)
  {
    Scene(scene.cubes + [c])
  }

  /** The state of the closest-hit loop: `closest_t` and `closest_hit`. */
  datatype Scan = Scan(closest: Bound, best: Option<HitRecord>)

  /** The closest-hit loop of `Scene::hit` after the boxes `cubes`: each box is intersected
      over `[tmin, closest_t]`, and every hit it reports shrinks the window. The window
      never grows, it stays the caller's while nothing was hit, and afterwards it ends
      exactly at the kept hit, which is a genuine point of the ray in the window on
      one of the boxes. */
  function ScanCubes(cubes: seq<Cube>, ray: Ray, tmin: real, tmax: Bound): (r: Scan)
    requires forall i | 0 <= i < |cubes| :: ValidCube(cubes[i])
    requires tmax.Finite? || !AllParallel(ray.direction)
    ensures BoundLe(r.closest, tmax)
    ensures r.best.None? ==> r.closest == tmax
    ensures r.best.Some? ==> r.closest == Finite(r.best.value.t) && tmin <= r.best.value.t
    ensures r.best.Some? ==> r.best.value.point == At(ray, r.best.value.t)
    ensures r.best.Some? ==> Dot(ray.direction, r.best.value.normal) <= 0.0
    ensures r.best.Some? ==> exists i | 0 <= i < |cubes| :: r.best.value.materialIndex == cubes[i].materialIndex
    decreases |cubes|
  {
    if |cubes| == 0 then Scan(tmax, None)
    else
      var n := |cubes| - 1;
      var prev := ScanCubes(cubes[..n], ray, tmin, tmax);
      match CubeHit(cubes[n], ray, tmin, prev.closest)
      case Some(h) => Scan(Finite(h.t), Some(h))
      case None =>
        assert prev.best.Some? ==> cubes[..n][0] == cubes[0];
        prev
  }

  /** `Scene::hit`: the closest hit among the boxes over `[tmin, tmax]`. */
  function SceneHit(scene: Scene, ray: Ray, tmin: real, tmax: Bound): (r: Option<HitRecord>)
    requires ValidScene(scene)
    requires tmax.Finite? || !AllParallel(ray.direction)
    ensures r.Some? ==> tmin <= r.value.t && !Exceeds(r.value.t, tmax)
    ensures r.Some? ==> r.value.point == At(ray, r.value.t) && Dot(ray.direction, r.value.normal) <= 0.0
    ensures r.Some? ==> exists i | 0 <= i < |scene.cubes| :: r.value.materialIndex == scene.cubes[i].materialIndex
  {
    ScanCubes(scene.cubes, ray, tmin, tmax).best
  }

  /** One step of the scan: the last box is intersected over the window left by the others. */
  lemma ScanCubesLast(cubes: seq<Cube>, ray: Ray, tmin: real, tmax: Bound)
    requires forall k | 0 <= k < |cubes| :: ValidCube(cubes[k])
    requires tmax.Finite? || !AllParallel(ray.direction)
    requires |cubes| > 0
    ensures var prev := ScanCubes(cubes[..|cubes| - 1], ray, tmin, tmax);
            var r := ScanCubes(cubes, ray, tmin, tmax);
            (r == prev && CubeHit(cubes[|cubes| - 1], ray, tmin, prev.closest).None?) ||
            (r.best == CubeHit(cubes[|cubes| - 1], ray, tmin, prev.closest) && r.best.Some? &&
             !Exceeds(r.best.value.t, prev.closest))
  {
  }

  /** The hit kept after the last box is no farther than the one kept before it. */
  lemma ScanCubesNoFarther(cubes: seq<Cube>, ray: Ray, tmin: real, tmax: Bound)
    requires forall k | 0 <= k < |cubes| :: ValidCube(cubes[k])
    requires tmax.Finite? || !AllParallel(ray.direction)
    requires |cubes| > 0
    ensures var prev := ScanCubes(cubes[..|cubes| - 1], ray, tmin, tmax);
            var r := ScanCubes(cubes, ray, tmin, tmax);
            prev.best.Some? ==> r.best.Some? && r.best.value.t <= prev.best.value.t
  {
    ScanCubesLast(cubes, ray, tmin, tmax);
  }

  /** The last box's own hit is matched or beaten by the scan. */
  lemma ScanCubesClosestLast(cubes: seq<Cube>, ray: Ray, tmin: real, tmax: Bound, n: nat)
    requires forall k | 0 <= k < |cubes| :: ValidCube(cubes[k])
    requires tmax.Finite? || !AllParallel(ray.direction)
    requires n + 1 == |cubes|
    ensures var hit := CubeHit(cubes[n], ray, tmin, tmax);
            hit.Some? ==>
              ScanCubes(cubes, ray, tmin, tmax).best.Some? &&
              ScanCubes(cubes, ray, tmin, tmax).best.value.t <= hit.value.t
  {
    var prev := ScanCubes(cubes[..n], ray, tmin, tmax);
    var r := ScanCubes(cubes, ray, tmin, tmax);
    var hit := CubeHit(cubes[n], ray, tmin, tmax);
    var narrowed := CubeHit(cubes[n], ray, tmin, prev.closest);
    ScanCubesLast(cubes, ray, tmin, tmax);
    if hit.Some? {
      if prev.best.None? {
        assert narrowed == hit;
      } else if hit.value.t <= prev.best.value.t {
        CubeHitStable(cubes[n], ray, tmin, tmax, prev.best.value.t);
        assert narrowed == hit;
      } else {
        ScanCubesNoFarther(cubes, ray, tmin, tmax);
      }
    }
  }

  /** Every box's own hit over the full window is matched or beaten by the scan: the
      scan keeps a hit, at a parameter no greater. */
  lemma {:induction false} ScanCubesClosest(cubes: seq<Cube>, ray: Ray, tmin: real, tmax: Bound, i: nat)
    requires forall k | 0 <= k < |cubes| :: ValidCube(cubes[k])
    requires tmax.Finite? || !AllParallel(ray.direction)
    requires i < |cubes|
    ensures CubeHit(cubes[i], ray, tmin, tmax).Some? ==>
              ScanCubes(cubes, ray, tmin, tmax).best.Some? &&
              ScanCubes(cubes, ray, tmin, tmax).best.value.t <= CubeHit(cubes[i], ray, tmin, tmax).value.t
    decreases |cubes|
  {
    var n := |cubes| - 1;
    var hit := CubeHit(cubes[i], ray, tmin, tmax);
    var prev := ScanCubes(cubes[..n], ray, tmin, tmax);
    var r := ScanCubes(cubes, ray, tmin, tmax);
    if hit.Some? {
      if i < n {
        assert cubes[..n][i] == cubes[i];
        ScanCubesClosest(cubes[..n], ray, tmin, tmax, i);
        assert prev.best.Some? && prev.best.value.t <= hit.value.t;
        ScanCubesNoFarther(cubes, ray, tmin, tmax);
        assert r.best.Some? && r.best.value.t <= prev.best.value.t;
      } else {
        ScanCubesClosestLast(cubes, ray, tmin, tmax, i);
      }
      assert r.best.Some? && r.best.value.t <= hit.value.t;
    }
  }

  /** The scan keeps a hit only when some box is hit over the full window. */
  lemma {:induction false} ScanCubesFromSomeBox(cubes: seq<Cube>, ray: Ray, tmin: real, tmax: Bound)
    requires forall k | 0 <= k < |cubes| :: ValidCube(cubes[k])
    requires tmax.Finite? || !AllParallel(ray.direction)
    ensures ScanCubes(cubes, ray, tmin, tmax).best.Some? ==>
              exists i | 0 <= i < |cubes| :: CubeHit(cubes[i], ray, tmin, tmax).Some?
    decreases |cubes|
  {
    if |cubes| > 0 {
      var n := |cubes| - 1;
      var prev := ScanCubes(cubes[..n], ray, tmin, tmax);
      ScanCubesLast(cubes, ray, tmin, tmax);
      if CubeHit(cubes[n], ray, tmin, prev.closest).Some? {
        HitWithinHitsWider(cubes[n], ray, tmin, tmax, prev.closest);
        assert CubeHit(cubes[n], ray, tmin, tmax).Some?;
      } else if prev.best.Some? {
        ScanCubesFromSomeBox(cubes[..n], ray, tmin, tmax);
        var i :| 0 <= i < n && CubeHit(cubes[..n][i], ray, tmin, tmax).Some?;
        assert cubes[..n][i] == cubes[i];
        assert CubeHit(cubes[i], ray, tmin, tmax).Some?;
      }
    }
  }

  /** The scene reports a hit exactly when some box is hit over the window, and then
      no box's own hit is nearer than the reported one. */
  lemma SceneHitIsClosest(scene: Scene, ray: Ray, tmin: real, tmax: Bound)
    requires ValidScene(scene)
    requires tmax.Finite? || !AllParallel(ray.direction)
    ensures SceneHit(scene, ray, tmin, tmax).Some? <==>
              exists i | 0 <= i < |scene.cubes| :: CubeHit(scene.cubes[i], ray, tmin, tmax).Some?
    ensures forall i | 0 <= i < |scene.cubes| && CubeHit(scene.cubes[i], ray, tmin, tmax).Some? ::
              SceneHit(scene, ray, tmin, tmax).value.t <= CubeHit(scene.cubes[i], ray, tmin, tmax).value.t
  {
    ScanCubesFromSomeBox(scene.cubes, ray, tmin, tmax);
    forall i | 0 <= i < |scene.cubes|
      ensures CubeHit(scene.cubes[i], ray, tmin, tmax).Some? ==>
                SceneHit(scene, ray, tmin, tmax).Some? &&
                SceneHit(scene, ray, tmin, tmax).value.t <= CubeHit(scene.cubes[i], ray, tmin, tmax).value.t
    {
      ScanCubesClosest(scene.cubes, ray, tmin, tmax, i);
    }
  }

  /** Scanning one more box of a prefix tests it over the window the prefix left. */
  lemma ScanCubesExtend(cubes: seq<Cube>, ray: Ray, tmin: real, tmax: Bound, i: nat)
    requires forall k | 0 <= k < |cubes| :: ValidCube(cubes[k])
    requires tmax.Finite? || !AllParallel(ray.direction)
    requires i < |cubes|
    ensures var prev := ScanCubes(cubes[..i], ray, tmin, tmax);
            var hit := CubeHit(cubes[i], ray, tmin, prev.closest);
            && ScanCubes(cubes[..i + 1], ray, tmin, tmax) ==
                 (if hit.Some? then Scan(Finite(hit.value.t), hit) else prev)
            && BoundLe(ScanCubes(cubes[..i + 1], ray, tmin, tmax).closest, prev.closest)
  {
    assert cubes[..i + 1][..i] == cubes[..i];
    assert cubes[..i + 1][i] == cubes[i];
  }

  /** A scene without boxes is never hit. */
  lemma EmptySceneMisses(ray: Ray, tmin: real, tmax: Bound)
    requires tmax.Finite? || !AllParallel(ray.direction)
    ensures SceneHit(Scene([]), ray, tmin, tmax).None?
  {
  }

  /** `Scene::hit` as the loop the source runs over its boxes. */
  method SceneHitLoop(scene: Scene, ray: Ray, tmin: real, tmax: Bound) returns (r: Option<HitRecord>)
    requires ValidScene(scene)
    requires tmax.Finite? || !AllParallel(ray.direction)
    ensures r == SceneHit(scene, ray, tmin, tmax)
  {
    var closest := tmax;
    r := None;
    var i := 0;
    while i < |scene.cubes|
      invariant 0 <= i <= |scene.cubes|
      invariant Scan(closest, r) == ScanCubes(scene.cubes[..i], ray, tmin, tmax)
      invariant BoundLe(closest, tmax)
    {
      ScanCubesExtend(scene.cubes, ray, tmin, tmax, i);
      var hit := CubeHit(scene.cubes[i], ray, tmin, closest);
      if hit.Some? {
        closest := Finite(hit.value.t);
        r := hit;
      }
      i := i + 1;
    }
    assert scene.cubes[..i] == scene.cubes;
  }
}
