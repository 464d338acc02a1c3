# A path tracer for axis-aligned boxes, modelled in Dafny

This project models the core of `proy2`, a small Rust path tracer. It renders scenes
made of axis-aligned boxes lit by a procedural sky. The model covers:

- **Optics** (`math_utils.dfy`, module `MathUtils`).
  - Mirror reflection.
  - Snell refraction and its total-internal-reflection test.
  - Fresnel reflectance.
  - Rays and ray evaluation.
  - The unit-ball rejection sampler.
  - Colour interpolation.
- **Boxes and scenes** (`cube.dfy`, module `Boxes`).
  - `set_face_normal`.
  - The slab test of `Cube::hit`, with its early exits.
  - The face code and the fallback face.
  - Texture coordinates.
  - The closest-hit scan of `Scene::hit`.
- **The orbiting camera** (`camera.dfy`, module `Cameras`).
  - Spherical placement.
  - `rotate` and `zoom` with clamping.
  - The frame that `get_ray` builds.
- **Materials** (`materials.dfy`, module `Materials`).
  - `Material::new` and its builders.
  - Texel lookup in `sample_texture`.
  - The three branches of `scatter`, and the attenuation each one applies.
- **The sky** (`skybox.dfy`, module `Skyboxes`).
  - The two-part vertical gradient.
  - The sun-disk and glow branches.
- **The integrator** (`raytracer.dfy`, module `Raytracers`).
  - The depth-bounded `ray_color` recursion.
  - `ray_color` again as an iterative throughput loop (`Trace`).
  - Supersampling in `render_pixel`.
  - The row-major frame buffer of `render`.
- **Shared definitions.**
  - `vectors.dfy` (module `Vectors`): vectors.
  - `option.dfy` (module `Optional`): `Option`, and the extended upper bound of a ray window.

How the model represents what the source computes:

- Every `f32` is a `real`. The window's upper bound `f32::INFINITY` is the `Infinite` case of `Bound`.
- `sqrt`, `sin`, `cos`, `tan` and `normalize` are fields of a `Transcendental` record that is passed in. Properties that need them to behave state it as a hypothesis:
  - `IsSqrt` says `sqrt` is a square root.
  - `Sound` says `sqrt` is a square root and `normalize` returns unit vectors.
  - `Pythagorean` says `sin² + cos² = 1`.
- Every random number is an explicit argument:
  - `ScatterSamples(choice, jitter)` holds the draws of one `scatter` call.
  - `PixelDraw(rx, ry, bounces)` holds the draws of one sample of `render_pixel`.
  - `Render` takes a function from pixel to that pixel's draws.

## Model

| member | source | states |
|---|---|---|
| MathUtils.Reflect | proy2/src/math_utils.rs:9-11 | for a unit normal, the reflected vector's normal component is the negated incident one |
| MathUtils.ReflectInvolution | proy2/src/math_utils.rs:9-11 | reflecting twice in the same unit normal gives back the incident vector |
| MathUtils.Refract | proy2/src/math_utils.rs:13-23 | refraction fails exactly when `eta²(1 - cos_i²) >= 1` with `cos_i = -(i·n)` |
| MathUtils.Fresnel | proy2/src/math_utils.rs:25-36 | total internal reflection gives reflectance exactly 1; with a true square root the reflectance always lies in `[0, 1]` |
| MathUtils.FresnelNormalIncidence | proy2/src/math_utils.rs:25-35 | at normal incidence with `eta = 1` both polarisation terms vanish and the reflectance is 0 |
| MathUtils.RefractFailsOnlyWhenFresnelIsOne | proy2/src/math_utils.rs:13-36 | refraction fails iff the Fresnel reflectance at the same angle is 1 because of total internal reflection |
| MathUtils.QuotientSquareAtMostOne | proy2/src/math_utils.rs:32-35 | each polarisation term `((a - b)/(a + b))²` lies in `[0, 1]` for non-negative `a`, `b` |
| MathUtils.MakeRay | proy2/src/math_utils.rs:45-50 | `Ray::new` keeps the origin and, with a sound `normalize`, stores a unit direction |
| MathUtils.AtDifference | proy2/src/math_utils.rs:52-54 | `at(0)` is the origin, and `at(t) - at(s) = (t - s)·direction` |
| MathUtils.RandomInUnitSphere | proy2/src/math_utils.rs:57-71 | the sampler only returns a point with squared magnitude below 1, and it is the first such draw; it returns nothing exactly when every draw is rejected |
| MathUtils.RejectedHead | proy2/src/math_utils.rs:61-69 | a rejected draw does not change which later draw is accepted |
| MathUtils.Lerp | proy2/src/math_utils.rs:77-81 | `lerp(a, b, 0) = a`, `lerp(a, b, 1) = b`, and interpolating a colour with itself gives that colour |
| Optional.Tighten | proy2/src/cube.rs:62-64 | tightening the exit by an axis exit never raises it and is one of the two candidates |
| Optional.Meet | proy2/src/cube.rs:62-64 | the smaller of two bounds is below both and is one of them |
| Vectors.UnitAxis | proy2/src/cube.rs:104-116 | the axis normal has `±1` on its axis and 0 on the other two |
| Boxes.SetFaceNormal | proy2/src/cube.rs:16-19 | front-facing iff `direction·outward < 0`; then the normal is `outward`, otherwise `-outward`; the stored normal never points along the ray |
| Boxes.GrazingIsBackFace | proy2/src/cube.rs:16-19 | a ray perpendicular to the outward normal counts as a back face and gets the flipped normal |
| Boxes.Step | proy2/src/cube.rs:40-69 | one axis of the slab loop: on a parallel axis it fails iff the origin is outside the slab; otherwise it fails iff the tightened interval is empty; the interval only shrinks |
| Boxes.NearFromFacts | proy2/src/cube.rs:57-60 | the entry parameter is at least `t_min` and at least every non-parallel axis's entry, and stays `t_min` when every axis is parallel |
| Boxes.FarFromFacts | proy2/src/cube.rs:62-64 | the exit parameter is at most `t_max` and every non-parallel axis's exit; it is finite unless the window is unbounded and every axis is parallel |
| Boxes.SlabsFromClosedForm | proy2/src/cube.rs:40-70 | the loop fails exactly when a parallel axis misses or the final entry exceeds the final exit, and otherwise ends at those entry and exit values, whatever order the early exits fire in |
| Boxes.SlabsClosedForm | proy2/src/cube.rs:34-70 | the same closed form for the whole loop started at `[t_min, t_max]` |
| Boxes.SlabsFromFace | proy2/src/cube.rs:57-60 | the face code changes only with the entry, and then names the first axis that reaches the final entry |
| Boxes.FaceIsFirstAxisReachingNear | proy2/src/cube.rs:57-60 | face 0 iff the entry stayed at `t_min`; otherwise it names the first non-parallel axis whose entry equals the final one, negative iff that axis's min plane is crossed first |
| Boxes.SlabsFromFaceIndependent | proy2/src/cube.rs:57-64 | the face code does not depend on the exit bound the loop started with |
| Boxes.FaceNormalAndUv | proy2/src/cube.rs:98-123 | faces ±1..±3 get the unit normal of their axis, signed like the code; any other code gets normal `(0, 1, 0)` and coordinates `(0, 0)` |
| Boxes.FaceUvInUnitSquare | proy2/src/cube.rs:99-120 | for a point inside the box the texture coordinates lie in `[0, 1]` |
| Boxes.CubeHit | proy2/src/cube.rs:34-96 | a hit lies in `[t_min, t_max]`, carries the box's material index and the point `ray.at(t)`, and has a normal facing against the ray |
| Boxes.CubeHitClosedForm | proy2/src/cube.rs:66-79 | for a non-empty window, a hit exists iff no parallel axis misses and the entry does not exceed the exit; its `t` is the entry when that exceeds `t_min`, otherwise the exit |
| Boxes.HitParameter | proy2/src/cube.rs:72-79 | a hit's `t` lies between the slab entry and exit, and is the entry when it exceeds `t_min`, otherwise the exit |
| Boxes.ParallelOutsideMisses | proy2/src/cube.rs:46-50 | a ray parallel to an axis whose origin lies outside that slab never hits |
| Boxes.RecordAt | proy2/src/cube.rs:81-95 | the record holds `t`, the box's material and `ray.at(t)`, with a normal facing against the ray |
| Boxes.RecordAtFace | proy2/src/cube.rs:81-123 | the record's normal is the face normal or its negation, and its coordinates are the face's; face 0 gives `(0, 0)` and normal `(0, ±1, 0)` |
| Boxes.CubeHitRecord | proy2/src/cube.rs:81-95 | a hit's record is built from its `t` and the slab loop's face code |
| Boxes.CubeHitAtEntry | proy2/src/cube.rs:72-95 | when the slab entry lies inside the window and beyond `t_min`, the hit is recorded at the entry |
| Boxes.CubeHitAtExit | proy2/src/cube.rs:72-95 | when the entry is at or before `t_min` and the exit lies in the window, the hit is recorded at the exit |
| Boxes.InsideStartHitUsesFallbackFace | proy2/src/cube.rs:76-121 | a hit whose entry did not pass `t_min` is at the slab exit, with coordinates `(0, 0)` and normal `(0, ±1, 0)` |
| Boxes.OutsideStartHitIsOnStruckFace | proy2/src/cube.rs:57-120 | a hit past `t_min` lies on the plane of the face named by the face code (min plane for a negative code), with that axis's normal up to sign |
| Boxes.EntryFacePlane | proy2/src/cube.rs:52-60 | at the entry parameter the ray lies on the min or max plane of the entering axis, as the face sign says |
| Boxes.PlaneAtEntry | proy2/src/cube.rs:52-55 | the smaller crossing parameter of an axis puts the ray on the min plane iff `t1 < t2` |
| Boxes.StruckPlane | proy2/src/cube.rs:52-53 | `t1` and `t2` are where the ray crosses the min and max planes |
| Boxes.CubeHitStable | proy2/src/cube.rs:72-79 | cutting the window down to any bound at or beyond a hit leaves that hit unchanged |
| Boxes.CubeHitWiden | proy2/src/cube.rs:72-79 | a box hit within a narrower window is also hit within a wider one |
| Boxes.UnitCubeScenario | proy2/src/cube.rs:34-96 | a ray from above the unit box straight down hits the top face at `t = 4`, point `(0.5, 0.5, 1)`, front-facing normal `(0, 0, 1)`, coordinates `(0.5, 0.5)` |
| Boxes.InsideStartLandsOnWindowBound | proy2/src/cube.rs:34-123 | a ray from inside `[-1, 1]³` with the window cut at 0.5 reports a hit at the window's end, inside the box, with the fallback normal flipped to `(0, -1, 0)` |
| Boxes.AddCube | proy2/src/cube.rs:137-139 | `add_cube` appends the box after all earlier ones and keeps them |
| Boxes.ScanCubes | proy2/src/cube.rs:141-153 | the closest-hit loop's window never grows; it equals `t_max` while nothing is hit, and afterwards ends at the kept hit, which lies in the window on the ray, faces against it and comes from one of the boxes |
| Boxes.ScanCubesExtend | proy2/src/cube.rs:145-150 | one iteration tests the next box over `[t_min, closest_t]`, keeps a hit and shrinks the window to it, and never widens the window |
| Boxes.ScanCubesLast | proy2/src/cube.rs:145-150 | the last box either misses within the current window, leaving the scan as it was, or replaces the kept hit with one no farther away |
| Boxes.ScanCubesNoFarther | proy2/src/cube.rs:145-150 | testing one more box never moves the kept hit farther away |
| Boxes.ScanCubesClosest | proy2/src/cube.rs:141-153 | if any box is hit in the caller's window, the scan keeps a hit no farther than it |
| Boxes.ScanCubesFromSomeBox | proy2/src/cube.rs:141-153 | the scan keeps a hit only if some box is hit in the caller's window |
| Boxes.SceneHit | proy2/src/cube.rs:141-153 | `Scene::hit` returns a hit in the window, on the ray, facing against it, from one of the scene's boxes |
| Boxes.SceneHitIsClosest | proy2/src/cube.rs:141-153 | the scene is hit iff some box is hit, and the reported hit is no farther than any box's own hit |
| Boxes.EmptySceneMisses | proy2/src/cube.rs:131-153 | a scene without boxes is never hit |
| Boxes.SceneHitLoop | proy2/src/cube.rs:141-153 | the loop with a shrinking window computes `Scene::hit` |
| Cameras.OrbitRadius | proy2/src/camera.rs:41-48 | with `sin² + cos² = 1`, the orbit offset has squared length `distance²` |
| Cameras.UpdatePosition | proy2/src/camera.rs:41-48 | the camera is moved onto its spherical orbit about the target, nothing else changes, and it lies at distance `distance` from the target |
| Cameras.New | proy2/src/camera.rs:22-39 | `theta = 0`, `phi = π/4`, up `+y`, clip planes 0.1 and 1000, zoom range `[2, 50]`, the given distance unclamped, placed on the orbit |
| Cameras.Clamp | proy2/src/camera.rs:50-64 | `clamp` stays in range, is the identity inside it and saturates at either end |
| Cameras.Rotate | proy2/src/camera.rs:50-58 | `theta` grows by the delta without wrapping; `phi` becomes `clamp(phi + Δ, 0.1, π - 0.1)`, which is `phi + Δ` inside the range and the nearer end outside it; the position follows the orbit and nothing else changes |
| Cameras.Zoom | proy2/src/camera.rs:60-64 | the distance becomes `clamp(distance + Δ, min, max)`, which is `distance + Δ` inside the zoom range and the nearer end outside it; the position follows the orbit and nothing else changes |
| Cameras.RotateByZero | proy2/src/camera.rs:50-58 | a zero rotation of a placed camera with `phi` in range changes nothing |
| Cameras.ZoomByZero | proy2/src/camera.rs:60-64 | a zero zoom of a placed camera with its distance in range changes nothing |
| Cameras.ZoomSaturates | proy2/src/camera.rs:60-64 | any two zooms that reach the far end of the range give the same camera |
| Cameras.FrameOf | proy2/src/camera.rs:68-74 | `w` is the normalised vector from the target to the eye, `u` the normalised `up × w`, `v = w × u`; the half height is `tan(fov·π/360)` and the half width the aspect ratio times it; with a sound `normalize`, `w` and `u` are unit vectors |
| Cameras.RayDirectionInFrame | proy2/src/camera.rs:76-84 | the unnormalised direction is `(2s - 1)·halfWidth` along `u` plus `(2t - 1)·halfHeight` along `v`, minus `w` |
| Cameras.CenterRayPointsAtTarget | proy2/src/camera.rs:72-84 | the screen centre `(0.5, 0.5)` looks along `-w`, from the eye toward the target |
| Cameras.GetRay | proy2/src/camera.rs:66-87 | the ray starts at the camera position; its direction is the image-plane direction normalised by `get_ray` and again by `Ray::new`, a unit vector with a sound `normalize` |
| Materials.Trunc | proy2/src/materials.rs:73-74 | truncation rounds toward zero and stays within one of its argument |
| Materials.Fract | proy2/src/materials.rs:73-74 | the fractional part has the argument's sign, magnitude below 1, and differs from it by a whole number |
| Materials.CastU32 | proy2/src/materials.rs:73-74 | the float-to-`u32` cast is 0 at or below zero, the floor within range, and never above `u32::MAX` |
| Materials.TexelIndex | proy2/src/materials.rs:73-74 | the clamped index is below the image size, is the cell containing a coordinate in `[0, 1)`, and is 0 for coordinates at or below zero |
| Materials.TexelIndexPeriodic | proy2/src/materials.rs:73-74 | adding a whole number to a non-negative coordinate selects the same texel |
| Materials.PixelIndexInRange | proy2/src/materials.rs:76 | a pixel's row-major index lies inside the pixel buffer |
| Materials.Channel | proy2/src/materials.rs:78-80 | a channel is its byte divided by 255, in `[0, 1]` |
| Materials.SampleImage | proy2/src/materials.rs:70-81 | a texel colour has every channel in `[0, 1]` |
| Materials.SampleImageCell | proy2/src/materials.rs:70-81 | for coordinates in `[0, 1)` the sampled texel is the one whose cell contains them |
| Materials.SampleImageOrigin | proy2/src/materials.rs:73-76 | coordinates at or below zero sample the first texel |
| Materials.SampleTexture | proy2/src/materials.rs:68-85 | an unknown id gives magenta `(1, 0, 1)`, a known one the texel colour; either way every channel lies in `[0, 1]` |
| Materials.NewMaterial | proy2/src/materials.rs:18-29 | the defaults: albedo 0.8 grey, specular 0.1, transparency 0, reflectivity 0.1, index 1, roughness 0.5, no texture |
| Materials.WithTexture | proy2/src/materials.rs:31-34 | sets the texture id and nothing else |
| Materials.WithAlbedo | proy2/src/materials.rs:36-39 | sets the albedo and nothing else |
| Materials.WithProperties | proy2/src/materials.rs:41-47 | sets the four optical coefficients and nothing else; roughness keeps its value |
| Materials.BuildersCommute | proy2/src/materials.rs:31-39 | setting the texture and the albedo in either order gives the same material |
| Materials.BaseColor | proy2/src/materials.rs:131-137 | the base colour is the albedo, multiplied channel-wise by the texture colour when a texture is set |
| Materials.Eta | proy2/src/materials.rs:145 | the relative index is positive for a positive refractive index |
| Materials.EtaBySide | proy2/src/materials.rs:141-145 | entering (`cos_i > 0`) uses `1/index`, otherwise the index itself |
| Materials.EtaReciprocal | proy2/src/materials.rs:145 | the two sides of a surface use reciprocal relative indices |
| Materials.Scatter | proy2/src/materials.rs:130-206 | it never fails; the scattered ray starts at the hit point with a unit direction, and the branch taken matches the dielectric/mirror/diffuse classification. Refraction attenuates by the transparency and a mirror by the reflectivity; dielectric reflection, the total-internal-reflection fallback and diffuse keep the base colour. A dielectric reflects iff the draw is below `fresnel·(1 - transparency) + reflectivity`, otherwise refracts, unless `refract` fails and it takes the unjittered reflection. Mirror and dielectric reflections are jittered by the roughness; diffuse goes along the normal plus the jitter |
| Materials.TotalInternalMeansFresnelOne | proy2/src/materials.rs:146-180 | when the total-internal-reflection fallback is taken, the Fresnel factor is 1 and the draw was at least `(1 - transparency) + reflectivity` |
| Materials.AttenuationNeverBrightens | proy2/src/materials.rs:131-205 | with albedo, transparency and reflectivity in `[0, 1]`, every branch's attenuation lies in `[0, 1]` per channel |
| Skyboxes.Default | proy2/src/skybox.rs:13-22 | the default sky's colours and sun size, with a normalised sun direction |
| Skyboxes.GradientByHeight | proy2/src/skybox.rs:28-38 | above the horizon the colour runs from horizon to top colour by `y`; at or below it, from bottom to horizon colour by `y + 1` |
| Skyboxes.GradientEnds | proy2/src/skybox.rs:28-38 | `y = 0` gives the horizon colour, `y = 1` the top colour and `y = -1` the bottom colour |
| Skyboxes.GradientContinuous | proy2/src/skybox.rs:30-38 | the upper half at its lower end meets the lower half at the horizon colour |
| Skyboxes.SunOf | proy2/src/skybox.rs:41-53 | the disk branch is taken iff `sun_dot > 1 - s`, with weight in `[0, 1]` when `sun_dot <= 1`; the glow branch iff `1 - 3s < sun_dot <= 1 - s`, with weight in `[0, 0.3)` |
| Skyboxes.DiskWeight | proy2/src/skybox.rs:43 | the squared disk depth lies in `[0, 1]` inside the disk |
| Skyboxes.GlowDepth | proy2/src/skybox.rs:47-49 | inside the glow ring, the glow depth lies strictly between 0 and 1 |
| Skyboxes.GlowBelow | proy2/src/skybox.rs:49 | `0.3·√depth` lies in `[0, 0.3)` for a depth in `[0, 1)` |
| Skyboxes.SkyColor | proy2/src/skybox.rs:28-54 | with no sun contribution the colour is the gradient; in the disk or glow it is the gradient blended toward the sun colour by the branch's weight |
| Skyboxes.SkyColorBounded | proy2/src/skybox.rs:24-55 | with a unit direction, a unit sun direction and colours in `[0, 1]`, the sky colour lies in `[0, 1]` |
| Skyboxes.Sample | proy2/src/skybox.rs:24-55 | the colour of the normalised direction; away from the sun it is the gradient at its height, so the horizon colour for a horizontal direction and the top colour straight up; with a sound `normalize` and a bounded sky every sample lies in `[0, 1]` |
| Skyboxes.HeightBounded | proy2/src/skybox.rs:28 | a unit direction's height lies in `[-1, 1]` |
| Skyboxes.LerpInUnitCube | proy2/src/math_utils.rs:77-81 | interpolating two colours in `[0, 1]` by a weight in `[0, 1]` stays in `[0, 1]` |
| Raytracers.New | proy2/src/raytracer.rs:18-27 | no boxes, materials or textures, the default sky, 10 bounces and 4 samples per pixel |
| Raytracers.AddMaterial | proy2/src/raytracer.rs:29-32 | the material is appended, its index is the old length, earlier materials and everything else are kept |
| Raytracers.Interact | proy2/src/raytracer.rs:43-60 | a ray escapes iff the scene is missed over `[0.001, ∞)`; a hit on a known material bounces with exactly that material's `scatter` attenuation and ray, taken at the hit's point, normal and texture coordinates; a hit on an unknown material index is absorbed; a bounce starts at the hit point in a unit direction |
| Raytracers.RayColor | proy2/src/raytracer.rs:38-64 | no bounces left is black, and in an empty scene every ray with a bounce left shows the sky |
| Raytracers.RayColorStep | proy2/src/raytracer.rs:43-63 | a miss shows the sky sample along the ray, an absorbed ray is black, and a bounce filters the scattered ray's colour by the attenuation with one bounce fewer |
| Raytracers.UnknownMaterialIsBlack | proy2/src/raytracer.rs:43-59 | a hit on a box whose material index is past the end of the list is black |
| Raytracers.Trace | proy2/src/raytracer.rs:38-64 | following the path iteratively with a running throughput gives the recursive colour |
| Raytracers.TraceStep | proy2/src/raytracer.rs:47-56 | the throughput times the rest of the path is unchanged by following one bounce |
| Raytracers.InteractNeverBrightens | proy2/src/raytracer.rs:47-56 | with passive materials, every bounce's attenuation lies in `[0, 1]` |
| Raytracers.RayColorBounded | proy2/src/raytracer.rs:38-64 | with passive materials under a bounded sky, every path colour lies in `[0, 1]` |
| Raytracers.ScreenPoint | proy2/src/raytracer.rs:71-74 | `u·width = x + rx` and `(1 - v)·height = y + ry` for the flipped `v` passed to `get_ray`, so a jitter in `[0, 1)` keeps the point inside its pixel's cell and the unit square |
| Raytracers.CellBounds | proy2/src/raytracer.rs:71-72 | `(i + r)/n` stays inside cell `i` and inside `[0, 1)` for `r` in `[0, 1)` |
| Raytracers.SampleColors | proy2/src/raytracer.rs:70-76 | one colour per draw, each traced through that draw's screen point |
| Raytracers.RenderPixel | proy2/src/raytracer.rs:66-79 | the pixel is the sum of its `samples_per_pixel` sample colours divided by `samples_per_pixel`, each sample traced through its own jittered screen point; a single sample is that sample's colour |
| Raytracers.MeanUniform | proy2/src/raytracer.rs:78 | the average of equal colours is that colour |
| Raytracers.MeanBounded | proy2/src/raytracer.rs:78 | the average of colours in `[0, 1]` lies in `[0, 1]` |
| Raytracers.SumUniform | proy2/src/raytracer.rs:75 | summing `n` equal colours gives `n` times that colour |
| Raytracers.SumBounded | proy2/src/raytracer.rs:75 | summing `n` colours in `[0, 1]` stays in `[0, n]` per channel |
| Raytracers.RenderPixelUniform | proy2/src/raytracer.rs:66-79 | when every sample has the same colour, the pixel has that colour |
| Raytracers.RenderPixelBounded | proy2/src/raytracer.rs:66-79 | with passive materials under a bounded sky, every pixel lies in `[0, 1]` |
| Raytracers.PixelIndexRoundTrip | proy2/src/raytracer.rs:86 | index `y·width + x` with `x < width` gives back `x` as remainder and `y` as quotient |
| Raytracers.AppendRow | proy2/src/raytracer.rs:84-88 | appending row `y` to the first `y` rows keeps pixel `(x, y)` at index `y·width + x` |
| Raytracers.Raster | proy2/src/raytracer.rs:82-96 | the nested loops produce `width·height` pixels, pixel `(x, y)` at index `y·width + x` |
| Raytracers.Render | proy2/src/raytracer.rs:81-97 | `width·height` pixels, the one at index `j` being pixel `(j mod width, j div width)` rendered with its own draws |

Helper definitions without contracts of their own:

- `MathUtils.At` is `Ray::at` (math_utils.rs:52-54).
- `Boxes.SlabsFrom` and `Boxes.Slabs` are the slab loop of `Cube::hit` (cube.rs:40-70).
- `Cameras.OrbitOffset` and `Cameras.OnOrbit` are the placement of `update_position` (camera.rs:41-48).
- `Cameras.RayDirection` is the unnormalised direction of `get_ray` (camera.rs:76-84).
- `Materials.Texel` and `Materials.PixelColor` are the pixel lookup of `sample_texture` (materials.rs:76-81).
- `Materials.Classify`, `Materials.ReflectThreshold` and `Materials.Glossy` are the branch choice, the reflection threshold and the roughness jitter of `scatter` (materials.rs:144-158, and the mirror test at 182).
- `Skyboxes.Gradient` is the vertical gradient of `Skybox::sample` (skybox.rs:28-38).
- `Raytracers.SampleColor` is one loop iteration of `render_pixel` (raytracer.rs:71-75).
- `Raytracers.Sum` and `Raytracers.Mean` are its running sum and final division (raytracer.rs:75-78).

## Left out

- `proy2/src/main.rs`: the window, input handling, frame timing, texture upload, the text overlay, scene data and the gamma conversion to bytes are presentation and sample data.
- `create_materials` (materials.rs:88-120): it is a fixed list of sample materials built with the builders modelled here.
- `TextureManager::new` and `load_texture` (materials.rs:55-66, raytracer.rs:34-36): loading is file I/O and a foreign image decoder. Textures are a map from id to a non-empty RGBA byte grid.
- `Camera::get_view_matrix` (camera.rs:89-95): it is a thin wrapper over a foreign library.
- The progress `println!` in `render` is output only. The `pdf` of a scatter and the camera's `near`/`far` are stored but never read. The `specular` coefficient is stored but never used.
- `rand::thread_rng`: every draw is a parameter. `ScatterSamples.jitter` stands for the result of `random_in_unit_sphere`, and `Scatter` does not require it to lie in the unit ball. `RandomInUnitSphere` models the rejection loop over an explicit finite sequence of draws, so its termination is not modelled.
- f32 semantics are not modelled: rounding, NaN, infinities other than the window's upper bound, and overflow. In particular, a zero-length `normalize` and the `u32` product `width * height` in `render` are not modelled.
- `PI` is the real number 3.141592653589793, not the `f32` constant.
- Boxes.CubeHit: requires positive extent on every axis (`ValidCube`). A box flat on one axis can make the source divide by zero when it computes texture coordinates on a face across that axis, which a real-valued model cannot express. Inverted boxes (`min > max` on an axis) are excluded by the same requirement, although they cause no division by zero.
- Boxes.CubeHit: requires the window to be bounded or the ray not parallel to all three axes. Otherwise the source's exit stays `f32::INFINITY`. A unit direction always satisfies this.
- Materials.Scatter: requires a positive refractive index on dielectrics, which keeps to physical indices, and a true square root. An index of 0 makes the source's relative index infinite, and some negative indices zero a Fresnel denominator. For other negative indices the source computes reflectances outside `[0, 1]`, which the model does not reproduce.
- Raytracers.RayColor: requires a unit ray direction and a `Sound` set of primitives. Every ray the tracer builds goes through `Ray::new`, which normalises.
- Raytracers.RenderPixel: requires `samples_per_pixel > 0` and a positive width and height. The source divides by each of them.
- Raytracers.Render: states the buffer by index `j` rather than by `(x, y)`. `Raytracers.PixelIndexRoundTrip` converts between the two.
- Raytracers.Raster: models the pixel buffer as a sequence built row by row, not as a zero-filled vector written in place.
- Skyboxes.SunOf: the disk weight is bounded only for `sun_dot <= 1`, which holds for unit directions (`Skyboxes.DiskWeightBounded`).
- Raytracers.PixelDraw: each sample carries exactly `max_depth` bounce draws. The recursion consumes one per level, and the unused ones of an escaped or absorbed path are ignored.
