/** The background: a vertical three-colour gradient with a sun disk and its glow. */
module Skyboxes {
  import opened Vectors
  import opened MathUtils

  datatype Skybox = Skybox(
    topColor: Color,
    horizonColor: Color,
    bottomColor: Color,
    sunDirection: Vec3,
    sunColor: Color,
    sunSize: real)

  /** `Skybox::new`: light blue above, nearly white at the horizon, pale blue below, and
      a small warm sun toward `(0.3, 0.6, 0.4)`. */
  function Default(tr: Transcendental): (s: Skybox)
    ensures s.topColor == Vec3(0.5, 0.7, 1.0)
    ensures s.horizonColor == Vec3(0.8, 0.9, 1.0)
    ensures s.bottomColor == Vec3(0.6, 0.8, 0.9)
    ensures s.sunDirection == tr.normalize(Vec3(0.3, 0.6, 0.4))
    ensures s.sunColor == Vec3(1.0, 0.9, 0.7) && s.sunSize == 0.02
    ensures Sound(tr) ==> IsUnit(s.sunDirection)
  {
    Skybox(Vec3(0.5, 0.7, 1.0), Vec3(0.8, 0.9, 1.0), Vec3(0.6, 0.8, 0.9),
           tr.normalize(Vec3(0.3, 0.6, 0.4)), Vec3(1.0, 0.9, 0.7), 0.02)
  }

  /** The vertical gradient for a direction of height `y`: `t = (y + 1) / 2` blends the
      horizon into the top colour above `t = 0.5`, and the bottom into the horizon
      colour otherwise. */
  function Gradient(sky: Skybox, y: real): Color {
    var t := (y + 1.0) * 0.5;
    if t > 0.5 then Lerp(sky.horizonColor, sky.topColor, (t - 0.5) * 2.0)
    else Lerp(sky.bottomColor, sky.horizonColor, t * 2.0)
  }

  /** The gradient in terms of the height itself: above the horizon it moves from the
      horizon colour to the top colour as `y` goes from 0 to 1, below it from the bottom
      colour to the horizon colour as `y` goes from -1 to 0. */
  lemma GradientByHeight(sky: Skybox, y: real)
    ensures y > 0.0 ==> Gradient(sky, y) == Lerp(sky.horizonColor, sky.topColor, y)
    ensures y <= 0.0 ==> Gradient(sky, y) == Lerp(sky.bottomColor, sky.horizonColor, y + 1.0)
  {
  }

  /** The gradient's fixed points: the horizon at `y = 0`, the top straight up and the
      bottom straight down. */
  lemma GradientEnds(sky: Skybox)
    ensures Gradient(sky, 0.0) == sky.horizonColor
    ensures Gradient(sky, 1.0) == sky.topColor
    ensures Gradient(sky, -1.0) == sky.bottomColor
  {
    GradientByHeight(sky, 0.0);
    GradientByHeight(sky, 1.0);
    GradientByHeight(sky, -1.0);
  }

  /** The two halves of the gradient meet at the horizon: the upper half's formula also
      gives the horizon colour at `t = 0.5`, so the gradient is continuous there. */
  lemma GradientContinuous(sky: Skybox)
    ensures Lerp(sky.horizonColor, sky.topColor, (0.5 - 0.5) * 2.0) == Gradient(sky, 0.0)
  {
    GradientEnds(sky);
  }

  /** The sun's contribution to a direction. */
  datatype SunBlend =
    | Disk(weight: real)   // inside the sun's disk
    | Glow(weight: real)   // in the ring of glow around it
    | NoSun

  /** The sun's contribution, from the cosine `sunDot` between the direction and the
      sun: the disk within `sunSize` of one, weighted by the square of the depth into
      the disk; the glow within three times that, weighted by `0.3` times the square
      root of the depth into the glow. */
  function SunOf(sky: Skybox, sunDot: real, sqrt: real -> real): (b: SunBlend)
    requires 0.0 < sky.sunSize
    ensures b.Disk? <==> sunDot > 1.0 - sky.sunSize
    ensures b.Glow? <==> 1.0 - 3.0 * sky.sunSize < sunDot <= 1.0 - sky.sunSize
    ensures b.Disk? && sunDot <= 1.0 ==> 0.0 <= b.weight <= 1.0
    ensures b.Glow? && IsSqrt(sqrt) ==> 0.0 <= b.weight < 0.3
  {
    var s := sky.sunSize;
    if sunDot > 1.0 - s then
      Disk(DiskWeight(sunDot, s))
    else
      var glowSize := s * 3.0;
      if sunDot > 1.0 - glowSize then
        var depth := (sunDot - (1.0 - glowSize)) / glowSize;
        GlowDepth(sunDot, s);
        GlowBelow(sqrt, depth);
        Glow(sqrt(depth) * 0.3)
      else NoSun
  }

  /** The disk weight `((sunDot - (1 - s)) / s)^2`: in `[0, 1]` inside the disk. */
  function DiskWeight(sunDot: real, s: real): (w: real)
    requires 0.0 < s
    ensures 1.0 - s < sunDot <= 1.0 ==> 0.0 <= w <= 1.0
  {
    var q := (sunDot - (1.0 - s)) / s;
    DepthBounds(sunDot, s, q);
    Square(q)
  }

  function Square(x: real): real { x * x }

  lemma DepthBounds(sunDot: real, s: real, q: real)
    requires 0.0 < s && q == (sunDot - (1.0 - s)) / s
    ensures 1.0 - s < sunDot <= 1.0 ==> 0.0 <= Square(q) <= 1.0
  {
    if 1.0 - s < sunDot <= 1.0 {
      assert q * s == sunDot - (1.0 - s);
      assert (q - 1.0) * s == q * s - s;
      ProductSigns(q, s);
      ProductSigns(q - 1.0, s);
      UnitSquare(q);
    }
  }

  lemma UnitSquare(q: real)
    ensures 0.0 <= q <= 1.0 ==> 0.0 <= Square(q) <= 1.0
  {
    if 0.0 <= q <= 1.0 {
      ProductSigns(q, 1.0 - q);
      ProductSigns(q, q);
      assert q * (1.0 - q) == q - q * q;
    }
  }

  lemma GlowDepth(sunDot: real, s: real)
    requires 0.0 < s
    ensures 1.0 - 3.0 * s < sunDot <= 1.0 - s ==>
              0.0 < (sunDot - (1.0 - s * 3.0)) / (s * 3.0) < 1.0
  {
    if 1.0 - 3.0 * s < sunDot <= 1.0 - s {
      var g := s * 3.0;
      var q := (sunDot - (1.0 - g)) / g;
      assert q * g == sunDot - (1.0 - g);
      ProductSigns(q, g);
      ProductSigns(q - 1.0, g);
      assert (q - 1.0) * g == sunDot - 1.0;
    }
  }

  lemma GlowBelow(sqrt: real -> real, depth: real)
    ensures IsSqrt(sqrt) && 0.0 <= depth < 1.0 ==> 0.0 <= sqrt(depth) * 0.3 < 0.3
  {
    if IsSqrt(sqrt) && 0.0 <= depth < 1.0 {
      SqrtBelowOne(sqrt, depth);
    }
  }

  /** The colour for an already normalised direction: the gradient, blended toward
      the sun colour by the sun's weight. */
  function SkyColor(sky: Skybox, dir: Vec3, sqrt: real -> real): (r: Color)
    requires 0.0 < sky.sunSize
    ensures SunOf(sky, Dot(dir, sky.sunDirection), sqrt).NoSun? ==> r == Gradient(sky, dir.y)
    ensures SunOf(sky, Dot(dir, sky.sunDirection), sqrt).Disk? ==>
              r == Lerp(Gradient(sky, dir.y), sky.sunColor, SunOf(sky, Dot(dir, sky.sunDirection), sqrt).weight)
    ensures SunOf(sky, Dot(dir, sky.sunDirection), sqrt).Glow? ==>
              r == Lerp(Gradient(sky, dir.y), sky.sunColor, SunOf(sky, Dot(dir, sky.sunDirection), sqrt).weight)
  {
    var skyColor := Gradient(sky, dir.y);
    match SunOf(sky, Dot(dir, sky.sunDirection), sqrt)
    case Disk(w) => Lerp(skyColor, sky.sunColor, w)
    case Glow(w) => Lerp(skyColor, sky.sunColor, w)
    case NoSun => skyColor
  }

  /** A sky whose colours lie in `[0, 1]`, with a unit sun direction. */
  predicate BoundedSky(sky: Skybox) {
    && InUnitCube(sky.topColor) && InUnitCube(sky.horizonColor) && InUnitCube(sky.bottomColor)
    && InUnitCube(sky.sunColor) && IsUnit(sky.sunDirection)
  }

  /** `Skybox::sample`: normalises the direction and looks up its colour. Away from the
      sun the colour is the gradient at the normalised height, so the horizon colour
      for a horizontal direction and the top colour straight up; a bounded sky shows
      colours in `[0, 1]`. */
  function Sample(sky: Skybox, direction: Vec3, tr: Transcendental): (r: Color)
    requires 0.0 < sky.sunSize
    ensures r == SkyColor(sky, tr.normalize(direction), tr.sqrt)
    ensures var d := tr.normalize(direction);
            SunOf(sky, Dot(d, sky.sunDirection), tr.sqrt).NoSun? ==>
              && r == Gradient(sky, d.y)
              && (d.y == 0.0 ==> r == sky.horizonColor)
              && (d.y == 1.0 ==> r == sky.topColor)
    ensures Sound(tr) && BoundedSky(sky) ==> InUnitCube(r)
  {
    GradientEnds(sky);
    SampleInUnitCube(sky, direction, tr);
    SkyColor(sky, tr.normalize(direction), tr.sqrt)
  }

  /** The sky colour of a normalised direction is bounded when the sky is. */
  lemma SampleInUnitCube(sky: Skybox, direction: Vec3, tr: Transcendental)
    requires 0.0 < sky.sunSize
    ensures Sound(tr) && BoundedSky(sky) ==> InUnitCube(SkyColor(sky, tr.normalize(direction), tr.sqrt))
  {
    if Sound(tr) && BoundedSky(sky) {
      SkyColorBounded(sky, tr.normalize(direction), tr.sqrt);
    }
  }

  /** Two unit vectors have a dot product of at most one, since `|a - b|^2 = 2 - 2 a.b`. */
  lemma UnitDotAtMostOne(a: Vec3, b: Vec3)
    requires IsUnit(a) && IsUnit(b)
    ensures Dot(a, b) <= 1.0
  {
    var d := Sub(a, b);
    assert Dot(d, d) == Dot(a, a) - 2.0 * Dot(a, b) + Dot(b, b);
    assert Dot(d, d) >= 0.0;
  }

  /** For a unit direction and a unit sun direction the disk weight lies in `[0, 1]`. */
  lemma DiskWeightBounded(sky: Skybox, dir: Vec3, sqrt: real -> real)
    requires 0.0 < sky.sunSize && IsUnit(dir) && IsUnit(sky.sunDirection)
    ensures SunOf(sky, Dot(dir, sky.sunDirection), sqrt).Disk? ==>
              0.0 <= SunOf(sky, Dot(dir, sky.sunDirection), sqrt).weight <= 1.0
  {
    UnitDotAtMostOne(dir, sky.sunDirection);
  }

  /** Blending by a weight in `[0, 1]` stays between the two colours. */
  lemma LerpInUnitCube(a: Color, b: Color, t: real)
    ensures InUnitCube(a) && InUnitCube(b) && 0.0 <= t <= 1.0 ==> InUnitCube(Lerp(a, b, t))
  {
    if InUnitCube(a) && InUnitCube(b) && 0.0 <= t <= 1.0 {
      LerpComponent(a.x, b.x, t);
      LerpComponent(a.y, b.y, t);
      LerpComponent(a.z, b.z, t);
    }
  }

  lemma LerpComponent(a: real, b: real, t: real)
    requires 0.0 <= a <= 1.0 && 0.0 <= b <= 1.0 && 0.0 <= t <= 1.0
    ensures 0.0 <= (1.0 - t) * a + t * b <= 1.0
  {
    ProductSigns(1.0 - t, a);
    ProductSigns(t, b);
    ProductSigns(1.0 - t, 1.0 - a);
    ProductSigns(t, 1.0 - b);
  }

  /** A sky whose colours lie in `[0, 1]` shows colours in `[0, 1]` in every unit
      direction, provided its sun direction is a unit vector. */
  lemma SkyColorBounded(sky: Skybox, dir: Vec3, sqrt: real -> real)
    requires 0.0 < sky.sunSize && IsUnit(dir) && IsUnit(sky.sunDirection) && IsSqrt(sqrt)
    requires InUnitCube(sky.topColor) && InUnitCube(sky.horizonColor) && InUnitCube(sky.bottomColor)
    requires InUnitCube(sky.sunColor)
    ensures InUnitCube(SkyColor(sky, dir, sqrt))
  {
    var y := dir.y;
    GradientByHeight(sky, y);
    HeightBounded(dir);
    LerpInUnitCube(sky.horizonColor, sky.topColor, y);
    LerpInUnitCube(sky.bottomColor, sky.horizonColor, y + 1.0);
    var g := Gradient(sky, y);
    DiskWeightBounded(sky, dir, sqrt);
    var b := SunOf(sky, Dot(dir, sky.sunDirection), sqrt);
    if !b.NoSun? {
      LerpInUnitCube(g, sky.sunColor, b.weight);
    }
  }

  /** Each component of a unit vector lies in `[-1, 1]`. */
  lemma HeightBounded(dir: Vec3)
    requires IsUnit(dir)
    ensures -1.0 <= dir.y <= 1.0
  {
    ProductSigns(dir.x, dir.x);
    ProductSigns(dir.z, dir.z);
    SquareStrictlyMonotone(1.0, dir.y);
    SquareStrictlyMonotone(1.0, -dir.y);
  }
}
