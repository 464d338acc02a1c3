/** The path tracer proper: the recursive radiance estimate of `ray_color`, the
    jittered supersampling of `render_pixel` and the row-major image of `render`.
    Every random draw is an explicit argument. */
module Raytracers {
  import opened Vectors
  import opened Optional
  import opened MathUtils
  import opened Boxes
  import opened Materials
  import Cameras
  import Skyboxes

  datatype Raytracer = Raytracer(
    scene: Scene,
    materials: seq<Material>,
    textures: Textures,
    skybox: Skyboxes.Skybox,
    maxDepth: nat,
    samplesPerPixel: nat)

  /** What the model needs of a tracer: well-formed boxes and textures, a sun of
      positive size, and a positive refractive index on every dielectric. */
  predicate Valid(rt: Raytracer) {
    && ValidScene(rt.scene)
    && ValidTextures(rt.textures)
    && 0.0 < rt.skybox.sunSize
    && forall i | 0 <= i < |rt.materials| ::
         Classify(rt.materials[i]) == Dielectric ==> 0.0 < rt.materials[i].refractiveIndex
  }

  /** `Raytracer::new`: no boxes, materials or textures, the default sky, ten bounces
      and four samples per pixel. */
  function New(tr: Transcendental): (rt: Raytracer)
    ensures rt.scene.cubes == [] && rt.materials == [] && rt.textures == map[]
    ensures rt.skybox == Skyboxes.Default(tr)
    ensures rt.maxDepth == 10 && rt.samplesPerPixel == 4
    ensures Valid(rt)
  {
    Raytracer(Scene([]), [], map[], Skyboxes.Default(tr), 10, 4)
  }

  /** `add_material`: appends the material and returns its index; earlier indices keep
      their materials and nothing else changes. */
  function AddMaterial(rt: Raytracer, m: Material): (r: (Raytracer, nat))
    ensures r.1 == |rt.materials| && |r.0.materials| == |rt.materials| + 1
    ensures r.0.materials[r.1] == m
    ensures forall i | 0 <= i < |rt.materials| :: r.0.materials[i] == rt.materials[i]
    ensures r.0 == rt.(materials := r.0.materials)
    ensures Valid(rt) && (Classify(m) == Dielectric ==> 0.0 < m.refractiveIndex) ==> Valid(r.0)
  {
    (rt.(materials := rt.materials + [m]), |rt.materials|)
  }

  /** The start of the window in which scattered and primary rays look for boxes, so
      that a ray does not hit the surface it leaves. */
  const T_MIN: real := 0.001

  /** What happens to a ray at one bounce of `ray_color`. */
  datatype Interaction =
    | Escaped                                      // it leaves the scene and shows the sky
    | Absorbed                                     // it ends in black
    | Bounced(attenuation: Color, scattered: Ray)  // the material sends it on, filtered

  /** One bounce of `ray_color`: the closest box over `[0.001, +inf)`; a miss escapes;
      a box with an unknown material, or a scatter that fails, absorbs; otherwise the
      material's scatter continues the path from the hit point. */
  function Interact(rt: Raytracer, ray: Ray, sample: ScatterSamples, tr: Transcendental): (i: Interaction)
    requires Valid(rt) && Sound(tr) && IsUnit(ray.direction)
    ensures i.Escaped? <==> (UnitDirectionNotAllParallel(ray.direction); SceneHit(rt.scene, ray, T_MIN, Infinite).None?)
    ensures i.Bounced? ==> IsUnit(i.scattered.direction)
    ensures i.Bounced? ==>
              var hit := SceneHit(rt.scene, ray, T_MIN, Infinite).value;
              && hit.materialIndex < |rt.materials|
              && i.scattered.origin == hit.point
              && Dot(ray.direction, hit.normal) <= 0.0
    ensures (UnitDirectionNotAllParallel(ray.direction);
             var hit := SceneHit(rt.scene, ray, T_MIN, Infinite);
             hit.Some? && hit.value.materialIndex < |rt.materials| ==>
               var h := hit.value;
               var s := Scatter(rt.materials[h.materialIndex], ray, h.point, h.normal, rt.textures, h.u, h.v, sample, tr).value;
               i == Bounced(s.attenuation, s.scattered))
    ensures (UnitDirectionNotAllParallel(ray.direction);
             var hit := SceneHit(rt.scene, ray, T_MIN, Infinite);
             hit.Some? && |rt.materials| <= hit.value.materialIndex ==> i == Absorbed)
  {
    UnitDirectionNotAllParallel(ray.direction);
    match SceneHit(rt.scene, ray, T_MIN, Infinite)
    case None => Escaped
    case Some(hit) =>
      if hit.materialIndex < |rt.materials| then
        var m := rt.materials[hit.materialIndex];
        match Scatter(m, ray, hit.point, hit.normal, rt.textures, hit.u, hit.v, sample, tr)
        case Some(s) => Bounced(s.attenuation, s.scattered)
        case None => Absorbed
      else Absorbed
  }

  /** `ray_color` with `depth = |bounces|` bounces left: `bounces[k]` holds the draws of
      `Material::scatter` at the `k`-th bounce from here. No bounces left, or an
      absorbed ray, is black; an escaped ray shows the sky; otherwise the attenuation
      filters the light of the scattered ray, traced with the remaining draws. */
  function RayColor(rt: Raytracer, ray: Ray, bounces: seq<ScatterSamples>, tr: Transcendental): (c: Color)
    requires Valid(rt) && Sound(tr) && IsUnit(ray.direction)
    ensures |bounces| == 0 ==> c == Zero()
    ensures 0 < |bounces| && |rt.scene.cubes| == 0 ==> c == Skyboxes.Sample(rt.skybox, ray.direction, tr)
    decreases |bounces|
  {
    if |bounces| == 0 then Zero()
    else
      UnitDirectionNotAllParallel(ray.direction);
      EmptySceneMisses(ray, T_MIN, Infinite);
      match Interact(rt, ray, bounces[0], tr)
      case Escaped => Skyboxes.Sample(rt.skybox, ray.direction, tr)
      case Absorbed => Zero()
      case Bounced(attenuation, next) => Mul(attenuation, RayColor(rt, next, bounces[1..], tr))
  }

  /** `ray_color` one bounce at a time, in terms of the interaction. */
  lemma RayColorStep(rt: Raytracer, ray: Ray, bounces: seq<ScatterSamples>, tr: Transcendental)
    requires Valid(rt) && Sound(tr) && IsUnit(ray.direction) && 0 < |bounces|
    ensures var i := Interact(rt, ray, bounces[0], tr);
            && (i.Escaped? ==> RayColor(rt, ray, bounces, tr) == Skyboxes.Sample(rt.skybox, ray.direction, tr))
            && (i.Absorbed? ==> RayColor(rt, ray, bounces, tr) == Zero())
            && (i.Bounced? ==>
                  RayColor(rt, ray, bounces, tr) == Mul(i.attenuation, RayColor(rt, i.scattered, bounces[1..], tr)))
  {
  }

  /** A box whose material index is past the end of the material list absorbs the
      ray: the path is black, whatever the remaining draws. */
  lemma UnknownMaterialIsBlack(rt: Raytracer, ray: Ray, bounces: seq<ScatterSamples>, tr: Transcendental)
    requires Valid(rt) && Sound(tr) && IsUnit(ray.direction) && 0 < |bounces|
    ensures (UnitDirectionNotAllParallel(ray.direction);
             var hit := SceneHit(rt.scene, ray, T_MIN, Infinite);
             hit.Some? && |rt.materials| <= hit.value.materialIndex ==> RayColor(rt, ray, bounces, tr) == Zero())
  {
    UnitDirectionNotAllParallel(ray.direction);
    RayColorStep(rt, ray, bounces, tr);
  }

  /** `ray_color` as a loop: the attenuations met so far are multiplied into a
      throughput, and the path is followed until it escapes, is absorbed or runs out of
      bounces. It computes the recursive definition. */
  method Trace(rt: Raytracer, ray: Ray, bounces: seq<ScatterSamples>, tr: Transcendental)
    returns (c: Color)
    requires Valid(rt) && Sound(tr) && IsUnit(ray.direction)
    ensures c == RayColor(rt, ray, bounces, tr)
  {
    var throughput := Vec3(1.0, 1.0, 1.0);
    var r := ray;
    var left := bounces;
    MulOne(RayColor(rt, ray, bounces, tr));
    while 0 < |left|
      invariant IsUnit(r.direction)
      invariant Mul(throughput, RayColor(rt, r, left, tr)) == RayColor(rt, ray, bounces, tr)
      decreases |left|
    {
      var i := Interact(rt, r, left[0], tr);
      TraceStep(rt, r, left, throughput, tr);
      if i.Escaped? {
        return Mul(throughput, Skyboxes.Sample(rt.skybox, r.direction, tr));
      } else if i.Absorbed? {
        return Mul(throughput, Zero());
      }
      throughput, r, left := Mul(throughput, i.attenuation), i.scattered, left[1..];
    }
    c := Mul(throughput, Zero());
  }

  /** One iteration of `Trace`: the throughput times the rest of the path is unchanged
      by following one bounce. */
  lemma TraceStep(rt: Raytracer, r: Ray, left: seq<ScatterSamples>, throughput: Color, tr: Transcendental)
    requires Valid(rt) && Sound(tr) && IsUnit(r.direction) && 0 < |left|
    ensures var i := Interact(rt, r, left[0], tr);
            var rest := Mul(throughput, RayColor(rt, r, left, tr));
            && (i.Escaped? ==> rest == Mul(throughput, Skyboxes.Sample(rt.skybox, r.direction, tr)))
            && (i.Absorbed? ==> rest == Mul(throughput, Zero()))
            && (i.Bounced? ==> IsUnit(i.scattered.direction))
            && (i.Bounced? ==> rest == Mul(Mul(throughput, i.attenuation), RayColor(rt, i.scattered, left[1..], tr)))
  {
    var i := Interact(rt, r, left[0], tr);
    RayColorStep(rt, r, left, tr);
    if i.Bounced? {
      MulAssoc(throughput, i.attenuation, RayColor(rt, i.scattered, left[1..], tr));
    }
  }

  lemma MulOne(c: Color)
    ensures Mul(Vec3(1.0, 1.0, 1.0), c) == c
  {
  }

  /** Materials that neither amplify nor emit: albedo, transparency and reflectivity
      within `[0, 1]`. */
  predicate Passive(m: Material) {
    InUnitCube(m.albedo) && 0.0 <= m.transparency <= 1.0 && 0.0 <= m.reflectivity <= 1.0
  }

  /** A bounce off a passive material never brightens: its attenuation lies in
      `[0, 1]` per channel. */
  lemma InteractNeverBrightens(rt: Raytracer, ray: Ray, sample: ScatterSamples, tr: Transcendental)
    requires Valid(rt) && Sound(tr) && IsUnit(ray.direction)
    requires forall i | 0 <= i < |rt.materials| :: Passive(rt.materials[i])
    ensures Interact(rt, ray, sample, tr).Bounced? ==> InUnitCube(Interact(rt, ray, sample, tr).attenuation)
  {
    UnitDirectionNotAllParallel(ray.direction);
    var hit := SceneHit(rt.scene, ray, T_MIN, Infinite);
    if hit.Some? && hit.value.materialIndex < |rt.materials| {
      var h := hit.value;
      var m := rt.materials[h.materialIndex];
      AttenuationNeverBrightens(m, ray, h.point, h.normal, rt.textures, h.u, h.v, sample, tr);
    }
  }

  /** With passive materials under a bounded sky, no path carries more light than the
      sky gives: every colour lies in `[0, 1]` per channel. */
  lemma {:induction false} RayColorBounded(rt: Raytracer, ray: Ray, bounces: seq<ScatterSamples>,
                                           tr: Transcendental)
    requires Valid(rt) && Sound(tr) && IsUnit(ray.direction)
    requires forall i | 0 <= i < |rt.materials| :: Passive(rt.materials[i])
    requires Skyboxes.BoundedSky(rt.skybox)
    ensures InUnitCube(RayColor(rt, ray, bounces, tr))
    decreases |bounces|
  {
    if 0 < |bounces| {
      var i := Interact(rt, ray, bounces[0], tr);
      RayColorStep(rt, ray, bounces, tr);
      if i.Bounced? {
        InteractNeverBrightens(rt, ray, bounces[0], tr);
        RayColorBounded(rt, i.scattered, bounces[1..], tr);
        UnitProducts(i.attenuation, RayColor(rt, i.scattered, bounces[1..], tr), 0.0);
      }
    }
  }

  /** The random draws of one sample of `render_pixel`: the jitter inside the pixel and
      the draws of every bounce of its path. */
  datatype PixelDraw = PixelDraw(rx: real, ry: real, bounces: seq<ScatterSamples>)

  /** The draws of one pixel: `samples_per_pixel` samples of `max_depth` bounces each. */
  predicate DrawsFor(rt: Raytracer, draws: seq<PixelDraw>) {
    && |draws| == rt.samplesPerPixel
    && forall k | 0 <= k < |draws| :: |draws[k].bounces| == rt.maxDepth
  }

  /** The screen coordinates of a sample: `u = (x + rx) / width` across, and the flipped
      `1 - (y + ry) / height` up, since image rows run downward. */
  function ScreenPoint(x: nat, y: nat, width: nat, height: nat, draw: PixelDraw): (p: (real, real))
    requires 0 < width && 0 < height
    ensures p.0 * width as real == x as real + draw.rx
    ensures (1.0 - p.1) * height as real == y as real + draw.ry
    ensures 0.0 <= draw.rx < 1.0 && x < width ==>
              x as real / width as real <= p.0 < (x + 1) as real / width as real && 0.0 <= p.0 < 1.0
    ensures 0.0 <= draw.ry < 1.0 && y < height ==>
              1.0 - (y + 1) as real / height as real < p.1 <= 1.0 - y as real / height as real && 0.0 < p.1 <= 1.0
  {
    var u := (x as real + draw.rx) / width as real;
    var v := (y as real + draw.ry) / height as real;
    CellBounds(x, width, draw.rx);
    CellBounds(y, height, draw.ry);
    (u, 1.0 - v)
  }

  /** A coordinate jittered by `r` in `[0, 1)` stays inside its cell and the unit
      interval. */
  lemma CellBounds(i: nat, n: nat, r: real)
    requires 0 < n
    ensures 0.0 <= r < 1.0 && i < n ==>
              i as real / n as real <= (i as real + r) / n as real < (i + 1) as real / n as real &&
              0.0 <= (i as real + r) / n as real < 1.0
  {
    if 0.0 <= r < 1.0 && i < n {
      var k := 1.0 / n as real;
      assert i as real / n as real == i as real * k;
      assert (i as real + r) / n as real == (i as real + r) * k;
      assert (i + 1) as real / n as real == (i as real + 1.0) * k;
      assert 0.0 < k;
      ProductSigns(r, k);
      ProductSigns(1.0 - r, k);
      assert (i + 1) as real <= n as real;
      ProductSigns(n as real - (i + 1) as real, k);
      assert n as real * k == 1.0;
    }
  }

  /** The colour one sample contributes: the path from the eye through its point on
      the screen, with all of the tracer's bounces. */
  function SampleColor(rt: Raytracer, camera: Cameras.Camera, x: nat, y: nat, width: nat, height: nat,
                       draw: PixelDraw, tr: Transcendental): Color
    requires Valid(rt) && Sound(tr) && 0 < width && 0 < height
    requires |draw.bounces| == rt.maxDepth
  {
    var p := ScreenPoint(x, y, width, height, draw);
    RayColor(rt, Cameras.GetRay(camera, p.0, p.1, tr), draw.bounces, tr)
  }

  /** The colours of a pixel's samples, in drawing order. */
  function SampleColors(rt: Raytracer, camera: Cameras.Camera, x: nat, y: nat, width: nat, height: nat,
                        draws: seq<PixelDraw>, tr: Transcendental): (cs: seq<Color>)
    requires Valid(rt) && Sound(tr) && 0 < width && 0 < height
    requires forall k | 0 <= k < |draws| :: |draws[k].bounces| == rt.maxDepth
    ensures |cs| == |draws|
    ensures forall k | 0 <= k < |draws| :: cs[k] == SampleColor(rt, camera, x, y, width, height, draws[k], tr)
  {
    seq(|draws|, k requires 0 <= k < |draws| => SampleColor(rt, camera, x, y, width, height, draws[k], tr))
  }

  /** The running sum of `render_pixel`'s loop after the given colours. */
  function Sum(cs: seq<Color>): Color {
    if |cs| == 0 then Zero() else Add(Sum(cs[..|cs| - 1]), cs[|cs| - 1])
  }

  /** The average `sum / n` of `n > 0` colours. */
  function Mean(cs: seq<Color>): Color
    requires 0 < |cs|
  {
    Scale(1.0 / |cs| as real, Sum(cs))
  }

  /** `render_pixel`: the sum of the `samples_per_pixel` jittered samples' colours,
      divided by `samples_per_pixel`. A single sample is that sample's colour. */
  function RenderPixel(rt: Raytracer, camera: Cameras.Camera, x: nat, y: nat, width: nat, height: nat,
                       draws: seq<PixelDraw>, tr: Transcendental): (c: Color)
    requires Valid(rt) && Sound(tr) && 0 < width && 0 < height
    requires 0 < rt.samplesPerPixel && DrawsFor(rt, draws)
    ensures c == Scale(1.0 / rt.samplesPerPixel as real, Sum(SampleColors(rt, camera, x, y, width, height, draws, tr)))
    ensures |draws| == 1 ==> c == SampleColor(rt, camera, x, y, width, height, draws[0], tr)
  {
    var cs := SampleColors(rt, camera, x, y, width, height, draws, tr);
    MeanOfOne(cs);
    Mean(cs)
  }

  /** The mean of a single colour is that colour. */
  lemma MeanOfOne(cs: seq<Color>)
    ensures |cs| == 1 ==> Mean(cs) == cs[0]
  {
    if |cs| == 1 {
      assert cs[..0] == [];
      assert Sum(cs) == Add(Zero(), cs[0]);
    }
  }

  /** Colours that are all `c` sum to `c` times their number. */
  lemma {:induction false} SumUniform(cs: seq<Color>, c: Color)
    requires forall k | 0 <= k < |cs| :: cs[k] == c
    ensures Sum(cs) == Scale(|cs| as real, c)
  {
    if |cs| > 0 {
      var prefix := cs[..|cs| - 1];
      assert forall k | 0 <= k < |prefix| :: prefix[k] == cs[k];
      SumUniform(prefix, c);
      ScaleStep(|prefix| as real, c);
    }
  }

  lemma ScaleStep(k: real, c: Color)
    ensures Add(Scale(k, c), c) == Scale(k + 1.0, c)
  {
  }

  /** The mean of equal colours is that colour: averaging neither brightens nor darkens. */
  lemma MeanUniform(cs: seq<Color>, c: Color)
    requires 0 < |cs|
    requires forall k | 0 <= k < |cs| :: cs[k] == c
    ensures Mean(cs) == c
  {
    SumUniform(cs, c);
    var n := |cs| as real;
    assert (1.0 / n) * n == 1.0;
    assert (1.0 / n) * (n * c.x) == c.x;
    assert (1.0 / n) * (n * c.y) == c.y;
    assert (1.0 / n) * (n * c.z) == c.z;
  }

  /** All components lie in `[0, n]`. */
  predicate InBox(c: Color, n: real) {
    0.0 <= c.x <= n && 0.0 <= c.y <= n && 0.0 <= c.z <= n
  }

  /** A sum of `n` colours in `[0, 1]` lies in `[0, n]`. */
  lemma {:induction false} SumBounded(cs: seq<Color>)
    requires forall k | 0 <= k < |cs| :: InUnitCube(cs[k])
    ensures InBox(Sum(cs), |cs| as real)
  {
    if |cs| > 0 {
      var prefix := cs[..|cs| - 1];
      assert forall k | 0 <= k < |prefix| :: prefix[k] == cs[k];
      SumBounded(prefix);
    }
  }

  /** The mean of colours in `[0, 1]` lies in `[0, 1]`. */
  lemma MeanBounded(cs: seq<Color>)
    requires 0 < |cs|
    requires forall k | 0 <= k < |cs| :: InUnitCube(cs[k])
    ensures InUnitCube(Mean(cs))
  {
    SumBounded(cs);
    var s := Sum(cs);
    var n := |cs| as real;
    AverageComponent(s.x, n);
    AverageComponent(s.y, n);
    AverageComponent(s.z, n);
  }

  lemma AverageComponent(s: real, n: real)
    requires 0.0 < n && 0.0 <= s <= n
    ensures 0.0 <= (1.0 / n) * s <= 1.0
  {
    ProductSigns(1.0 / n, s);
    ProductSigns(1.0 / n, n - s);
    assert (1.0 / n) * n == 1.0;
  }

  /** When every sample of a pixel sees the same colour, the pixel has that colour. */
  lemma RenderPixelUniform(rt: Raytracer, camera: Cameras.Camera, x: nat, y: nat, width: nat, height: nat,
                           draws: seq<PixelDraw>, c: Color, tr: Transcendental)
    requires Valid(rt) && Sound(tr) && 0 < width && 0 < height
    requires 0 < rt.samplesPerPixel && DrawsFor(rt, draws)
    requires forall k | 0 <= k < |draws| :: SampleColor(rt, camera, x, y, width, height, draws[k], tr) == c
    ensures RenderPixel(rt, camera, x, y, width, height, draws, tr) == c
  {
    MeanUniform(SampleColors(rt, camera, x, y, width, height, draws, tr), c);
  }

  /** With passive materials under a bounded sky, every pixel lies in `[0, 1]` per
      channel. */
  lemma RenderPixelBounded(rt: Raytracer, camera: Cameras.Camera, x: nat, y: nat, width: nat, height: nat,
                           draws: seq<PixelDraw>, tr: Transcendental)
    requires Valid(rt) && Sound(tr) && 0 < width && 0 < height
    requires 0 < rt.samplesPerPixel && DrawsFor(rt, draws)
    requires forall i | 0 <= i < |rt.materials| :: Passive(rt.materials[i])
    requires Skyboxes.BoundedSky(rt.skybox)
    ensures InUnitCube(RenderPixel(rt, camera, x, y, width, height, draws, tr))
  {
    var cs := SampleColors(rt, camera, x, y, width, height, draws, tr);
    forall k | 0 <= k < |draws|
      ensures InUnitCube(cs[k])
    {
      var p := ScreenPoint(x, y, width, height, draws[k]);
      RayColorBounded(rt, Cameras.GetRay(camera, p.0, p.1, tr), draws[k].bounces, tr);
    }
    MeanBounded(cs);
  }

  /** The row-major index of `render` determines the pixel: column and row are its
      remainder and quotient by the width. */
  lemma PixelIndexRoundTrip(x: nat, y: nat, width: nat)
    requires x < width
    ensures (y * width + x) % width == x && (y * width + x) / width == y
  {
    DivModUnique(y * width + x, width, y, x);
  }

  /** Euclidean division has one quotient and remainder. */
  lemma DivModUnique(j: int, w: int, q: int, r: int)
    requires 0 <= r < w && j == q * w + r
    ensures j / w == q && j % w == r
  {
    var q', r' := j / w, j % w;
    assert j == q' * w + r' && 0 <= r' < w;
    assert (q - q') * w == r' - r;
    if q > q' {
      MulAtLeast(q - q', w);
    } else if q < q' {
      MulAtLeast(q' - q, w);
    }
  }

  lemma MulAtLeast(k: int, w: int)
    requires 1 <= k && 0 <= w
    ensures w <= k * w
  {
    assert k * w == (k - 1) * w + w;
    assert 0 <= (k - 1) * w;
  }

  /** Index `j` of `pixels` holds the pixel in column `j % width` of row `j / width`,
      within `height` rows. */
  ghost predicate RowMajor<T>(pixels: seq<T>, width: nat, height: nat, pixel: (nat, nat) --> T)
    requires forall x: nat, y: nat | x < width && y < height :: pixel.requires(x, y)
  {
    && 0 < width
    && forall j | 0 <= j < |pixels| :: j / width < height && pixels[j] == pixel(j % width, j / width)
  }

  /** Appending row `y`, in column order, to the first `y` rows keeps the layout. */
  lemma AppendRow<T>(pixels: seq<T>, row: seq<T>, y: nat, width: nat, height: nat, pixel: (nat, nat) --> T)
    requires forall x: nat, y: nat | x < width && y < height :: pixel.requires(x, y)
    requires y < height && |pixels| == y * width && |row| == width
    requires RowMajor(pixels, width, height, pixel)
    requires forall i | 0 <= i < width :: row[i] == pixel(i, y)
    ensures |pixels + row| == (y + 1) * width
    ensures RowMajor(pixels + row, width, height, pixel)
  {
    var all := pixels + row;
    forall j | 0 <= j < |all|
      ensures j / width < height && all[j] == pixel(j % width, j / width)
    {
      if |pixels| <= j {
        var i := j - |pixels|;
        PixelIndexRoundTrip(i, y, width);
        assert all[j] == row[i];
      }
    }
  }

  /** The loop of `render` for any pixel function: rows from the top, each from the
      left, so that index `j` holds the pixel in column `j % width` of row
      `j / width` (by `PixelIndexRoundTrip`, pixel `(x, y)` sits at `y * width + x`). */
  method Raster<T>(width: nat, height: nat, pixel: (nat, nat) --> T) returns (pixels: seq<T>)
    requires forall x: nat, y: nat | x < width && y < height :: pixel.requires(x, y)
    ensures |pixels| == width * height
    ensures forall j | 0 <= j < |pixels| ::
              0 < width && j / width < height && pixels[j] == pixel(j % width, j / width)
  {
    pixels := [];
    if width == 0 || height == 0 {
      return;
    }
    var y := 0;
    while y < height
      invariant y <= height
      invariant |pixels| == y * width
      invariant RowMajor(pixels, width, height, pixel)
    {
      var row := [];
      var x := 0;
      while x < width
        invariant x <= width && |row| == x
        invariant forall i | 0 <= i < x :: row[i] == pixel(i, y)
      {
        row := row + [pixel(x, y)];
        x := x + 1;
      }
      AppendRow(pixels, row, y, width, height, pixel);
      pixels := pixels + row;
      y := y + 1;
    }
  }

  /** `render`: the image, row by row from the top; index `j` holds the pixel in
      column `j % width` of row `j / width`, rendered with its own draws. */
  method Render(rt: Raytracer, camera: Cameras.Camera, width: nat, height: nat,
                draws: (nat, nat) -> seq<PixelDraw>, tr: Transcendental)
    returns (pixels: seq<Color>)
    requires Valid(rt) && Sound(tr) && 0 < rt.samplesPerPixel
    requires forall x: nat, y: nat | x < width && y < height :: DrawsFor(rt, draws(x, y))
    ensures |pixels| == width * height
    ensures forall j | 0 <= j < |pixels| ::
              0 < width && j / width < height &&
              pixels[j] == RenderPixel(rt, camera, j % width, j / width, width, height,
                                       draws(j % width, j / width), tr)
  {
    var pixel := (x: nat, y: nat) requires x < width && y < height && Valid(rt) && Sound(tr) &&
                                          0 < rt.samplesPerPixel && DrawsFor(rt, draws(x, y)) =>
                   RenderPixel(rt, camera, x, y, width, height, draws(x, y), tr);
    pixels := Raster(width, height, pixel);
  }
}
