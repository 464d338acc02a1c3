/** Materials, texture lookup and the scattering decision of a surface hit. */
module Materials {
  import opened Vectors
  import opened Optional
  import opened MathUtils

  /** One 8-bit channel. */
  type Byte = b: int | 0 <= b < 256

  /** `u32::MAX`, where `as u32` saturates. */
  const U32_MAX: int := 0xFFFF_FFFF

  datatype Rgba = Rgba(r: Byte, g: Byte, b: Byte, a: Byte)

  /** An RGBA image stored row by row: pixel `(x, y)` is `pixels[y * width + x]`. */
  datatype Image = Image(width: nat, height: nat, pixels: seq<Rgba>)

  predicate ValidImage(img: Image) {
    && 1 <= img.width <= U32_MAX
    && 1 <= img.height <= U32_MAX
    && |img.pixels| == img.width * img.height
  }

  /** The loaded textures, by id. */
  type Textures = map<string, Image>

  predicate ValidTextures(textures: Textures) {
    forall id | id in textures :: ValidImage(textures[id])
  }

  /** `f32::trunc`: rounds toward zero. */
  function Trunc(x: real): (r: int)
    ensures 0.0 <= x ==> 0 <= r && r as real <= x < r as real + 1.0
    ensures x <= 0.0 ==> r <= 0 && r as real - 1.0 < x <= r as real
  {
    if 0.0 <= x then x.Floor else -((-x).Floor)
  }

  /** `f32::fract`: `x - trunc(x)`, with the sign of `x`. */
  function Fract(x: real): (r: real)
    ensures 0.0 <= x ==> 0.0 <= r < 1.0
    ensures x <= 0.0 ==> -1.0 < r <= 0.0
    ensures (x - r).Floor as real == x - r
  {
    x - Trunc(x) as real
  }

  /** `as u32` on a float: saturating, with everything up to zero mapped to zero. */
  function CastU32(x: real): (r: nat)
    ensures r <= U32_MAX
    ensures x <= 0.0 ==> r == 0
    ensures 0.0 <= x < U32_MAX as real + 1.0 ==> r == x.Floor
  {
    if x <= 0.0 then 0 else if x.Floor > U32_MAX then U32_MAX else x.Floor
  }

  /** The texel index along an axis of `size` texels for coordinate `coord`:
      `min((fract(coord) * size) as u32, size - 1)`. */
  function TexelIndex(coord: real, size: nat): (r: nat)
    requires 1 <= size <= U32_MAX
    ensures r < size
    ensures 0.0 <= coord < 1.0 ==> r == (coord * size as real).Floor
    ensures coord <= 0.0 ==> r == 0
  {
    var f := Fract(coord);
    var scaled := f * size as real;
    FloorBelow(coord, size);
    NonPositiveProduct(f, size as real);
    var i := CastU32(scaled);
    if i < size - 1 then i else size - 1
  }

  lemma FloorBelow(coord: real, size: nat)
    ensures 0.0 <= coord < 1.0 && 1 <= size ==>
              0 <= (coord * size as real).Floor < size && Fract(coord) == coord
  {
    if 0.0 <= coord < 1.0 && 1 <= size {
      assert coord * size as real < size as real;
    }
  }

  lemma NonPositiveProduct(f: real, s: real)
    ensures f <= 0.0 && 0.0 <= s ==> f * s <= 0.0
  {
  }

  /** Texture coordinates repeat with period one in the positive direction: adding a
      whole number selects the same texel. */
  lemma TexelIndexPeriodic(coord: real, n: nat, size: nat)
    requires 1 <= size <= U32_MAX && 0.0 <= coord
    ensures TexelIndex(coord + n as real, size) == TexelIndex(coord, size)
  {
    assert (coord + n as real).Floor == coord.Floor + n;
    assert Fract(coord + n as real) == Fract(coord);
  }

  /** Pixel `(x, y)` of an image. */
  function Texel(img: Image, x: nat, y: nat): Rgba
    requires ValidImage(img) && x < img.width && y < img.height
  {
    PixelIndexInRange(x, y, img.width, img.height);
    img.pixels[y * img.width + x]
  }

  /** The row-major index of a pixel inside a `width x height` grid is within the grid. */
  lemma PixelIndexInRange(x: nat, y: nat, width: nat, height: nat)
    requires x < width && y < height
    ensures y * width + x < width * height
  {
    assert (height - 1 - y) * width >= 0;
    assert (height - 1 - y) * width == height * width - width - y * width;
  }

  /** A byte as a channel value in `[0, 1]`. */
  function Channel(b: Byte): (r: real)
    ensures 0.0 <= r <= 1.0
    ensures r * 255.0 == b as real
  {
    b as real / 255.0
  }

  /** The RGB channels of a pixel, each divided by 255. */
  function PixelColor(p: Rgba): (r: Color)
    ensures 0.0 <= r.x <= 1.0 && 0.0 <= r.y <= 1.0 && 0.0 <= r.z <= 1.0
  {
    Vec3(Channel(p.r), Channel(p.g), Channel(p.b))
  }

  /** The colour shown for a missing texture. */
  const MAGENTA: Color := Vec3(1.0, 0.0, 1.0)

  /** The colour of the texel under `(fract(u), fract(v))`, with the indices clamped
      to the image. */
  function SampleImage(img: Image, u: real, v: real): (r: Color)
    requires ValidImage(img)
    ensures 0.0 <= r.x <= 1.0 && 0.0 <= r.y <= 1.0 && 0.0 <= r.z <= 1.0
  {
    PixelColor(Texel(img, TexelIndex(u, img.width), TexelIndex(v, img.height)))
  }

  /** Within `[0, 1)` the sampled texel is the one whose cell contains the
      coordinates. */
  lemma SampleImageCell(img: Image, u: real, v: real)
    requires ValidImage(img) && 0.0 <= u < 1.0 && 0.0 <= v < 1.0
    ensures var x, y := (u * img.width as real).Floor, (v * img.height as real).Floor;
            0 <= x < img.width && 0 <= y < img.height && SampleImage(img, u, v) == PixelColor(Texel(img, x, y))
  {
    var x, y := TexelIndex(u, img.width), TexelIndex(v, img.height);
    assert x == (u * img.width as real).Floor;
    assert y == (v * img.height as real).Floor;
  }

  /** Coordinates at or below zero select the first texel. */
  lemma SampleImageOrigin(img: Image, u: real, v: real)
    requires ValidImage(img) && u <= 0.0 && v <= 0.0
    ensures SampleImage(img, u, v) == PixelColor(Texel(img, 0, 0))
  {
    assert TexelIndex(u, img.width) == 0 && TexelIndex(v, img.height) == 0;
  }

  /** `TextureManager::sample_texture`: magenta for an unknown id, otherwise the
      texture's texel colour. */
  function SampleTexture(textures: Textures, id: string, u: real, v: real): (r: Color)
    requires ValidTextures(textures)
    ensures id !in textures ==> r == MAGENTA
    ensures id in textures ==> r == SampleImage(textures[id], u, v)
    ensures 0.0 <= r.x <= 1.0 && 0.0 <= r.y <= 1.0 && 0.0 <= r.z <= 1.0
  {
    if id in textures then SampleImage(textures[id], u, v) else MAGENTA
  }

  datatype Material = Material(
    name: string,
    albedo: Color,
    specular: real,
    transparency: real,
    reflectivity: real,
    refractiveIndex: real,
    roughness: real,
    textureId: Option<string>)

  /** `Material::new`: a light grey, slightly reflective, opaque, untextured material. */
  function NewMaterial(name: string): (m: Material)
    ensures m.name == name
    ensures m.albedo == Vec3(0.8, 0.8, 0.8)
    ensures m.specular == 0.1 && m.transparency == 0.0 && m.reflectivity == 0.1
    ensures m.refractiveIndex == 1.0 && m.roughness == 0.5
    ensures m.textureId == None
  {
    Material(name, Vec3(0.8, 0.8, 0.8), 0.1, 0.0, 0.1, 1.0, 0.5, None)
  }

  /** `with_texture`: sets the texture id and nothing else. */
  function WithTexture(m: Material, id: string): (r: Material)
    ensures r.textureId == Some(id)
    ensures r == m.(textureId := r.textureId)
  {
    m.(textureId := Some(id))
  }

  /** `with_albedo`: sets the albedo and nothing else. */
  function WithAlbedo(m: Material, r: real, g: real, b: real): (res: Material)
    ensures res.albedo == Vec3(r, g, b)
    ensures res == m.(albedo := res.albedo)
  {
    m.(albedo := Vec3(r, g, b))
  }

  /** `with_properties`: sets the four optical coefficients and nothing else (the
      roughness in particular keeps its value). */
  function WithProperties(m: Material, specular: real, transparency: real, reflectivity: real,
                          refractiveIndex: real): (r: Material)
    ensures r.specular == specular && r.transparency == transparency
    ensures r.reflectivity == reflectivity && r.refractiveIndex == refractiveIndex
    ensures r == m.(specular := r.specular, transparency := r.transparency,
                    reflectivity := r.reflectivity, refractiveIndex := r.refractiveIndex)
  {
    m.(specular := specular, transparency := transparency, reflectivity := reflectivity,
       refractiveIndex := refractiveIndex)
  }

  /** Builders touch disjoint fields, so their order does not matter. */
  lemma BuildersCommute(m: Material, id: string, r: real, g: real, b: real)
    ensures WithAlbedo(WithTexture(m, id), r, g, b) == WithTexture(WithAlbedo(m, r, g, b), id)
  {
  }

  /** How a material scatters light. */
  datatype Behaviour = Dielectric | Mirror | Diffuse

  /** Transparent materials with a non-trivial index refract, other reflective ones
      mirror, and the rest scatter diffusely. */
  function Classify(m: Material): Behaviour {
    if m.transparency > 0.0 && m.refractiveIndex != 1.0 then Dielectric
    else if m.reflectivity > 0.0 then Mirror
    else Diffuse
  }

  /** Which branch of `scatter` produced a result. */
  datatype Event =
    | Reflected       // dielectric, Fresnel-weighted reflection
    | Refracted       // dielectric, transmitted
    | TotalInternal   // dielectric, refraction impossible
    | MirrorReflected // mirror
    | Scattered       // diffuse

  /** The behaviour an event belongs to. */
  function EventBehaviour(e: Event): Behaviour {
    match e
    case Reflected | Refracted | TotalInternal => Dielectric
    case MirrorReflected => Mirror
    case Scattered => Diffuse
  }

  /** The random numbers one call of `scatter` draws: the uniform number compared
      against the reflection probability, and the point `random_in_unit_sphere`
      returned (see `MathUtils.RandomInUnitSphere`). */
  datatype ScatterSamples = ScatterSamples(choice: real, jitter: Vec3)

  /** The outcome of `scatter` (its constant `pdf` of one is not kept). */
  datatype ScatterResult = ScatterResult(scattered: Ray, attenuation: Color, event: Event)

  /** The albedo, modulated by the texture when the material has one. */
  function BaseColor(m: Material, textures: Textures, u: real, v: real): (r: Color)
    requires ValidTextures(textures)
    ensures m.textureId.None? ==> r == m.albedo
    ensures m.textureId.Some? ==> r == Mul(m.albedo, SampleTexture(textures, m.textureId.value, u, v))
  {
    match m.textureId
    case None => m.albedo
    case Some(id) => Mul(m.albedo, SampleTexture(textures, id, u, v))
  }

  /** Relative index of refraction: entering (the ray meets the normal's side) divides
      by the material's index, leaving uses the index itself. */
  function Eta(cosI: real, refractiveIndex: real): (r: real)
    requires 0.0 < refractiveIndex
    ensures 0.0 < r
  {
    if cosI > 0.0 then 1.0 / refractiveIndex else refractiveIndex
  }

  /** Entering divides by the index, leaving multiplies by it. */
  lemma EtaBySide(cosI: real, refractiveIndex: real)
    requires 0.0 < refractiveIndex
    ensures cosI > 0.0 ==> Eta(cosI, refractiveIndex) * refractiveIndex == 1.0
    ensures cosI <= 0.0 ==> Eta(cosI, refractiveIndex) == refractiveIndex
  {
  }

  /** Entering and leaving use reciprocal relative indices. */
  lemma EtaReciprocal(cosI: real, refractiveIndex: real)
    requires 0.0 < refractiveIndex && 0.0 < cosI
    ensures Eta(cosI, refractiveIndex) * Eta(-cosI, refractiveIndex) == 1.0
  {
  }

  /** The probability threshold of the dielectric reflection branch. */
  function ReflectThreshold(m: Material, cosI: real, sqrt: real -> real): real
    requires 0.0 < m.refractiveIndex && IsSqrt(sqrt)
  {
    Fresnel(Abs(cosI), Eta(cosI, m.refractiveIndex), sqrt) * (1.0 - m.transparency) + m.reflectivity
  }

  /** A reflection jittered by the material's roughness (`random_in_unit_sphere`
      scaled by it), or the exact reflection for a smooth material. */
  function Glossy(reflected: Vec3, roughness: real, jitter: Vec3, tr: Transcendental): Vec3 {
    if roughness > 0.0 then tr.normalize(Add(reflected, Scale(roughness, jitter))) else reflected
  }

  /** `Material::scatter` with its random draws made explicit. It always scatters,
      from the hit point; the branch follows the material's behaviour; dielectrics
      reflect when the draw falls below the Fresnel-weighted threshold and otherwise
      refract, falling back to an exact reflection when refraction is impossible;
      transmission is dimmed by the transparency and mirrors by the reflectivity. */
  function Scatter(m: Material, ray: Ray, hitPoint: Vec3, normal: Vec3, textures: Textures,
                   u: real, v: real, sample: ScatterSamples, tr: Transcendental): (r: Option<ScatterResult>)
    requires ValidTextures(textures)
    requires Classify(m) == Dielectric ==> 0.0 < m.refractiveIndex
    requires IsSqrt(tr.sqrt)
    ensures r.Some?
    ensures r.value.scattered.origin == hitPoint
    ensures Sound(tr) ==> IsUnit(r.value.scattered.direction)
    ensures EventBehaviour(r.value.event) == Classify(m)
    ensures var base := BaseColor(m, textures, u, v);
            && (r.value.event == Refracted ==> r.value.attenuation == Scale(m.transparency, base))
            && (r.value.event == MirrorReflected ==> r.value.attenuation == Scale(m.reflectivity, base))
            && (r.value.event in {Reflected, TotalInternal, Scattered} ==> r.value.attenuation == base)
    ensures Classify(m) == Dielectric ==>
              var cosI := -Dot(ray.direction, normal);
              && (r.value.event == Reflected <==> sample.choice < ReflectThreshold(m, cosI, tr.sqrt))
              && (r.value.event == TotalInternal <==>
                    !(sample.choice < ReflectThreshold(m, cosI, tr.sqrt)) &&
                    Refract(ray.direction, normal, Eta(cosI, m.refractiveIndex), tr.sqrt).None?)
    ensures r.value.event == TotalInternal ==>
              r.value.scattered.direction == tr.normalize(Reflect(ray.direction, normal))
    ensures r.value.event == Refracted ==>
              var eta := Eta(-Dot(ray.direction, normal), m.refractiveIndex);
              Refract(ray.direction, normal, eta, tr.sqrt).Some? &&
              r.value.scattered.direction == tr.normalize(Refract(ray.direction, normal, eta, tr.sqrt).value)
    ensures r.value.event in {Reflected, MirrorReflected} ==>
              r.value.scattered.direction ==
                tr.normalize(Glossy(Reflect(ray.direction, normal), m.roughness, sample.jitter, tr))
    ensures r.value.event == Scattered ==>
              r.value.scattered.direction == tr.normalize(tr.normalize(Add(normal, sample.jitter)))
  {
    var base := BaseColor(m, textures, u, v);
    var incident := ray.direction;
    var cosI := -Dot(incident, normal);
    match Classify(m)
    case Dielectric =>
      var eta := Eta(cosI, m.refractiveIndex);
      if sample.choice < ReflectThreshold(m, cosI, tr.sqrt) then
        var direction := Glossy(Reflect(incident, normal), m.roughness, sample.jitter, tr);
        Some(ScatterResult(MakeRay(hitPoint, direction, tr), base, Reflected))
      else
        (match Refract(incident, normal, eta, tr.sqrt)
         case Some(refracted) =>
           Some(ScatterResult(MakeRay(hitPoint, refracted, tr), Scale(m.transparency, base), Refracted))
         case None =>
           Some(ScatterResult(MakeRay(hitPoint, Reflect(incident, normal), tr), base, TotalInternal)))
    case Mirror =>
      var direction := Glossy(Reflect(incident, normal), m.roughness, sample.jitter, tr);
      Some(ScatterResult(MakeRay(hitPoint, direction, tr), Scale(m.reflectivity, base), MirrorReflected))
    case Diffuse =>
      var direction := tr.normalize(Add(normal, sample.jitter));
      Some(ScatterResult(MakeRay(hitPoint, direction, tr), base, Scattered))
  }

  /** Total internal reflection is only reached when the Fresnel reflectance is one,
      that is when the reflection threshold is at least `(1 - transparency) +
      reflectivity` and the draw still exceeded it. */
  lemma TotalInternalMeansFresnelOne(m: Material, ray: Ray, hitPoint: Vec3, normal: Vec3, textures: Textures,
                                     u: real, v: real, sample: ScatterSamples, tr: Transcendental)
    requires ValidTextures(textures)
    requires Classify(m) == Dielectric ==> 0.0 < m.refractiveIndex
    requires IsSqrt(tr.sqrt)
    requires Scatter(m, ray, hitPoint, normal, textures, u, v, sample, tr).value.event == TotalInternal
    ensures var cosI := -Dot(ray.direction, normal);
            Fresnel(Abs(cosI), Eta(cosI, m.refractiveIndex), tr.sqrt) == 1.0 &&
            sample.choice >= (1.0 - m.transparency) + m.reflectivity
  {
    var cosI := -Dot(ray.direction, normal);
    RefractFailsOnlyWhenFresnelIsOne(ray.direction, normal, Eta(cosI, m.refractiveIndex), tr.sqrt);
  }

  /** The product of two numbers in `[0, 1]` lies in `[0, 1]`. */
  lemma UnitProduct(x: real, y: real)
    ensures 0.0 <= x <= 1.0 && 0.0 <= y <= 1.0 ==> 0.0 <= x * y <= 1.0
  {
    ProductSigns(x, y);
    ProductSigns(1.0 - x, y);
  }

  /** Component-wise products and scalings by `[0, 1]` factors stay in `[0, 1]`. */
  lemma UnitProducts(a: Color, b: Color, k: real)
    ensures InUnitCube(a) && InUnitCube(b) ==> InUnitCube(Mul(a, b))
    ensures InUnitCube(a) && 0.0 <= k <= 1.0 ==> InUnitCube(Scale(k, a))
  {
    UnitProduct(a.x, b.x); UnitProduct(a.y, b.y); UnitProduct(a.z, b.z);
    UnitProduct(k, a.x); UnitProduct(k, a.y); UnitProduct(k, a.z);
  }

  /** A material whose albedo, transparency and reflectivity lie in `[0, 1]` never
      brightens light: every attenuation lies in `[0, 1]` per channel. */
  lemma AttenuationNeverBrightens(m: Material, ray: Ray, hitPoint: Vec3, normal: Vec3, textures: Textures,
                                  u: real, v: real, sample: ScatterSamples, tr: Transcendental)
    requires ValidTextures(textures)
    requires Classify(m) == Dielectric ==> 0.0 < m.refractiveIndex
    requires IsSqrt(tr.sqrt)
    requires InUnitCube(m.albedo) && 0.0 <= m.transparency <= 1.0 && 0.0 <= m.reflectivity <= 1.0
    ensures InUnitCube(Scatter(m, ray, hitPoint, normal, textures, u, v, sample, tr).value.attenuation)
  {
    var base := BaseColor(m, textures, u, v);
    if m.textureId.Some? {
      UnitProducts(m.albedo, SampleTexture(textures, m.textureId.value, u, v), 0.0);
    }
    assert InUnitCube(base);
    UnitProducts(base, base, m.transparency);
    UnitProducts(base, base, m.reflectivity);
  }
}
