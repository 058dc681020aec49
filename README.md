# A verified model of a small CPU path tracer

This project models the core of the path tracer in `src/`. The tracer follows *Ray Tracing in
One Weekend* and its two sequels. The model covers:

- rays and axis-aligned bounding boxes, with the slab test;
- the intersection record and the object interface's defaults;
- the scene list, with its closest-so-far scan and its incremental union box;
- the bounding volume hierarchy (BVH): its build by sort and midpoint split, and its traversal;
- spheres (stationary and moving), quads and the `box()` builder, and constant-density media;
- orthonormal bases, direction densities (uniform sphere, cosine lobe, object, 50/50 mixture),
  materials and textures;
- the camera: `initialize`, the depth-bounded recursive estimator `trace`, and the row-major
  render loop;
- the per-pixel encoding: scale, gamma, clamp, quantise, and a line of text.

Arithmetic is exact: `double` becomes `real`. The library functions `sqrt`, `tan`, `sin`, `cos`
and `log` are uninterpreted fields of `Numerics.Libm`. A property that needs one of them assumes
only a named law about it: `SqrtLaws`, `SqrtMonotone`, `SqrtExact` or `TanZero`.

Randomness is an input. Every `random_double()` the source would call is a value in a draws
record passed to the operation (`ScatterDraws`, `PdfDraws`, `LightDraws`, `SampleDraws`, and the
per-depth `TraceDraws`).

The objects live in an arena, `seq<Worlds.Object>`. A scene holds indices into the arena. So do
a medium (its boundary) and a BVH (its leaves). An object shared through `shared_ptr` is
therefore one arena entry, seen by every holder. An object refers only to smaller indices, which
makes the virtual dispatch (`Worlds.Hit`, `Worlds.ObjPdf`, `Worlds.ObjDir`) terminate.

Three kinds of state are modelled imperatively:

- the scene list is a class, `Scenes.Scene`;
- the object store is a class, `Worlds.World`;
- the camera is a class, `Cameras.Camera`, with `Initialize` and `Render`.

The loops of the source are methods with invariants, each proved against a specification
function:

- the slab test, `Boxes.Intersect`;
- the scan and the density average, `Scenes.Scene.Intersect` and `Scenes.Scene.GetPdf`;
- the medium's clamping, `Media.IntersectTimes`;
- the channel arithmetic of `pixel_to_image`, `Colors.PixelToImage`;
- the sample loop and the render loops, `Cameras.SumSamples` and `Cameras.Camera.Render`.

The central theorem is `Bvhs.BvhAgreesWithScan`. A BVH built over a list of objects finds a hit
exactly when the linear scan of that list finds one, and it finds it at the same `t`. Its
hypotheses are two facts about each leaf:

- the leaf's hits narrow consistently when the interval's upper end shrinks (`Narrowing`, proved
  for spheres and quads by `Scenes.PrimitiveNarrowing`);
- the leaf's hits pass the slab test of its own box (`BoxSound`, proved for quads by
  `Bvhs.QuadBoxSound` and for spheres by `Bvhs.SphereBoxSound`).

`Bvhs.BvhAgreesWithScanPrimitives` discharges both hypotheses for a list of spheres and quads.
The slab test in the traversal is not quite the source's. `src/bbox.h:66` rejects the ray when
`t.min >= t.max`, so a ray that only touches a box at one parameter is rejected. A quad hit at a
corner can be such a ray, even an axis-aligned quad whose box is built correctly, and then the BVH misses a hit that the scene list reports (see
Findings). The traversal therefore uses `Boxes.ClosedSlabHit`, which rejects only
`t.max < t.min`. `Boxes.Intersect` and `Boxes.SlabHit` keep the source's test as written.

Files, one module each, in dependency order:

- `wrappers.dfy`: `Option`.
- `numerics.dfy`: `Libm`, truncation, `random_int`.
- `interval.dfy`: extended reals and intervals.
- `vec3.dfy`: vectors and rotation rows.
- `ray.dfy`, `object.dfy`, `bbox.dfy`, `texture.dfy`, `material.dfy`, `onb.dfy`.
- `sphere.dfy`, `quad.dfy`, `medium.dfy`.
- `world.dfy`: the arena and the virtual dispatch.
- `scene.dfy`, `bvh.dfy`, `pdf.dfy`, `color.dfy`, `camera.dfy`.

## Model

| member | source | states |
|---|---|---|
| Rays.MakeRay | src/ray.h:13 | the two-argument constructor keeps origin and direction and sets the time to 0 |
| Rays.ConstructorAccessors | src/ray.h:14-22 | the accessors return exactly the origin, direction and time given to the constructor |
| Rays.AtAffine | src/ray.h:24-26 | `at(0)` is the origin and `at(t) - at(s) = (t - s) * direction` |
| Records.Record.SetFaceNormal | src/object.h:21-27 | `front_face` holds iff the ray runs against the outward normal; the stored normal is the outward one on a front face and its negation otherwise; no other field changes |
| Records.FaceNormalOpposesRay | src/object.h:25-26 | whatever the outward normal, the stored normal never has a positive dot product with the direction |
| Intervals.Hull | src/bbox.h:23-28 | the union of two intervals encloses both and takes each end from one of them |
| Intervals.ClampInside | src/texture.h:71-72 | clamping to a finite ordered interval lands inside it and leaves members unchanged |
| Numerics.TruncBounds | src/color.h:31-33 | `static_cast<int>` truncates toward zero: for x >= 0 the result is the floor |
| Numerics.RandomIntInRange | src/scene.h:59-63 | a draw in [0, 1) makes `random_int(0, n - 1)` an index below n |
| Numerics.RandomIntHits | src/scene.h:59-63 | every index k below n is reached, by the draw k / n |
| Vectors.RotationRows | src/sphere.h:89-109 | the rotation rows fix the chosen axis, and an axis outside 0..2 leaves all three rows zero |
| Vectors.RotationFixesAxis | src/sphere.h:89-109 | a rotation about an axis leaves that coordinate of every vector unchanged |
| Vectors.BadAxisCollapses | src/sphere.h:89-109 | with an axis outside 0..2 the rotation sends every vector to zero |
| Vectors.ReflectFlipsNormal | src/material.h:114 | reflecting about a unit normal negates the component along the normal |
| Vectors.ReflectInvolution | src/material.h:114 | reflecting twice about the same unit normal gives the vector back |
| Vectors.ReflectKeepsLength | src/material.h:114 | reflection about a unit normal keeps the vector's length |
| Boxes.BBox.Axis | src/bbox.h:42-46 | `axis(n)` is y for 1, z for 2 and x for every other n |
| Boxes.FromPoints | src/bbox.h:16-22 | the two-point box contains both points |
| Boxes.FromPointsAxis | src/bbox.h:16-22 | each axis of the two-point box is finite, ordered, and runs from one point's coordinate to the other's |
| Boxes.FromPointsSymmetric | src/bbox.h:16-22 | the two-point box does not depend on the order of the points |
| Boxes.Union | src/bbox.h:23-28 | the union box includes both boxes |
| Boxes.IncludesTransitive | src/bbox.h:23-28 | box inclusion is transitive, so unions of unions include every input |
| Boxes.PadWidth | src/bbox.h:30-38 | `pad` keeps an axis at least 0.0001 wide, widens every nonempty axis to at least 0.0001, and never shrinks an axis |
| Boxes.Step | src/bbox.h:52-64 | one axis of the slab test only tightens the working interval: its min never decreases and its max never increases |
| Boxes.Intersect | src/bbox.h:48-74 | the three-iteration loop with the swap, the narrowing and the early exit returns exactly `SlabHit`, the slab test as a function |
| Boxes.SlabTightens | src/bbox.h:58-69 | when the test succeeds, the final interval lies within the caller's and is nonempty |
| Boxes.EarlyExitAgrees | src/bbox.h:66-69 | leaving early on an empty interval gives the same answer as narrowing through all three axes and testing at the end |
| Boxes.StaysEmpty | src/bbox.h:63-69 | once the working interval is empty, further axes keep it empty |
| Boxes.StepKeeps | src/bbox.h:52-64 | a parameter strictly inside the interval whose point is strictly inside the slab stays strictly inside the narrowed interval |
| Boxes.SlabKeeps | src/bbox.h:50-71 | a ray point strictly inside the box at a parameter strictly inside the interval keeps every axis nonempty |
| Boxes.SlabHit | src/bbox.h:48-74 | if the ray is strictly inside the box at some parameter strictly inside the interval, the test returns true; every ray it accepts also passes the closed test |
| Boxes.StepMonotone | src/bbox.h:52-64 | one slab step is monotone in the interval and in the slab |
| Boxes.SlabHitMonotone | src/bbox.h:48-74 | a larger box and a larger interval never turn a hit into a miss |
| Boxes.StepKeepsPoint | src/bbox.h:52-64 | a parameter in the closed interval whose point is in the closed slab stays in the narrowed interval |
| Boxes.ClosedSlabKeeps | src/bbox.h:50-71 | a ray point in the closed box at a parameter of the closed interval keeps the working interval from inverting on every axis |
| Boxes.ClosedSlabHit | src/bbox.h:48-74 | with the closed final check, a ray that lies in the box at some parameter of the interval passes, even if it only touches the box |
| Boxes.ClosedSlabHitMonotone | src/bbox.h:48-74 | for the closed test, a larger box and a larger interval never turn a hit into a miss |
| Boxes.SlabExamples | src/bbox.h:48-74 | the unit box is hit by the ray from (-1, 0.5, 0.5) along x and missed by the ray from (0, 5, 0.5) |
| Textures.MakeChecker | src/texture.h:36-39 | the checker stores both textures and the reciprocal of its scale |
| Textures.CRemTwoIsParity | src/texture.h:50 | the C++ remainder by 2 is zero exactly for even sums, negative sums included |
| Textures.SolidIsConstant | src/texture.h:23-26 | a solid colour returns its colour whatever u, v and p |
| Textures.CheckerParity | src/texture.h:42-53 | the checker returns the even texture when the sum of the cell indices is even and the odd texture otherwise |
| Textures.CheckerAlternates | src/texture.h:42-53 | moving one cell along x flips the parity, so neighbouring cells alternate |
| Textures.EmptyImageIsCyan | src/texture.h:66-68 | an image of height <= 0 yields cyan (0, 1, 1) |
| Textures.ImageIndexBounds | src/texture.h:71-75 | after clamping and flipping, 0 <= i <= width and 0 <= j <= height; the upper bounds are reached at u = 1 and at v = 0 |
| Textures.PixelCoordBounds | src/texture.h:74-75 | a clamped coordinate times n truncates into 0..n, and to n exactly at 1 |
| Textures.ImageChannelsInUnitRange | src/texture.h:76-79 | byte channels scaled by 1/255 lie in [0, 1] |
| Materials.Scatter | src/material.h:16-212 | `scatter` for each material: base and light leave the out-parameters untouched; lambertian and isotropic scatter with the texture albedo; metal scatters iff the reflection leaves the surface; dielectric always scatters with white and pdf 0; isotropic samples a unit vector with pdf 1/(4 pi); every written ray starts at the hit point and keeps the incoming time |
| Materials.DielectricDirection | src/material.h:134-160 | a ray that cannot refract is reflected; otherwise it is reflected when the Schlick reflectance exceeds the draw and refracted with ratio 1/ir (front) or ir (back) |
| Materials.ScatteringPdf | src/material.h:16-212 | `scattering_pdf` is nonnegative: cos/pi clipped at 0 for lambertian, 1/(4 pi) for isotropic, 0 for the others |
| Materials.Emitted | src/material.h:186-190 | only a diffuse light emits, and only on a front face, where it returns its texture |
| Materials.BaseDefaults | src/material.h:16-18 | the base material does not scatter, emits black and has density 0 |
| Materials.ReflectanceEndpoints | src/material.h:165-171 | Schlick's reflectance is r0 squared at cosine 1 and 1 at cosine 0 |
| Materials.ReflectanceBounds | src/material.h:165-171 | for a positive index and a cosine in [0, 1] the reflectance lies between r0 squared and 1 |
| Materials.LightNeverScatters | src/material.h:181-190 | a diffuse light never scatters and on a front face emits its texture value |
| Materials.MetalDirection | src/material.h:114-116 | metal sends the ray along the mirror reflection of the unit incoming direction about the normal plus fuzz times the unit-vector draw |
| Materials.PolishedMetalMirrors | src/material.h:111-121 | a metal with fuzz 0 and a unit normal sends the ray along the mirror direction, whose normal component is the negated incoming one, so it scatters exactly the rays that arrive against the normal |
| Materials.LambertianFrame | src/material.h:71-81 | the lambertian bounce is the cosine sample in a perpendicular basis around the normal, and its pdf is cos/pi of that direction |
| Onbs.Onb.LocalVec | src/onb.h:17-23 | `local(vec)` equals `local(vec.x, vec.y, vec.z)` |
| Onbs.CopySignOne | src/onb.h:55 | the sign factor is +1 or -1 |
| Onbs.DenominatorAwayFromZero | src/onb.h:55-56 | `sign + z` has magnitude at least 1, so it is never 0 |
| Onbs.BuildFromW | src/onb.h:54-64 | as written, the third axis is the normalised input |
| Onbs.FrameOrthogonal | src/onb.h:54-64 | for a unit input the three axes of the basis are mutually perpendicular |
| Onbs.BuildFromWOrthogonalForUnitInput | src/onb.h:54-64 | as written, the basis is perpendicular when the input already has unit length |
| Onbs.BuildFromWCounterexample | src/onb.h:59 | as written, for w = (0, 2, 0) the second axis is (0, -1, -1), which is not perpendicular to the third axis (0, 1, 0) |
| Onbs.BuildFromWCorrected | src/onb.h:54-64 | with `unit_w.y()` on line 59, the third axis is the normalised input |
| Onbs.BuildFromWCorrectedOrthogonal | src/onb.h:54-64 | with the correction, the basis is perpendicular for every nonzero input |
| Onbs.UnitHasUnitLength | src/onb.h:54 | with an exact square root, the normalised input has unit length |
| Onbs.BuildFromWAgreesOnUnit | src/onb.h:54-64 | for an input of unit length, the as-written basis equals the corrected one |
| Spheres.Stationary | src/sphere.h:10-15 | a stationary sphere has zero motion and the box [center - r, center + r] |
| Spheres.CenterBoxSlabs | src/sphere.h:10-15 | each axis of the box is [c - abs(r), c + abs(r)], well formed even for a negative radius |
| Spheres.Moving | src/sphere.h:18-26 | a moving sphere moves from c1 to c2, and its box is the union of the boxes at both centers |
| Spheres.MovingEndpoints | src/sphere.h:167-170 | `get_current_center` is c1 at time 0 and c2 at time 1 |
| Spheres.Translate | src/sphere.h:138-157 | translate shifts `center1`, keeps the motion, radius and material, and recomputes the box as the constructors do |
| Spheres.Rotate | src/sphere.h:81-136 | rotate applies the rows to `center1` and `moving_dir`, keeps radius and material, and recomputes the box |
| Spheres.ChooseRoot | src/sphere.h:54-65 | a negative discriminant gives no root; the smaller root is chosen when strictly inside the interval, otherwise the larger when strictly inside, otherwise none |
| Spheres.Intersect | src/sphere.h:43-79 | a hit exactly when a root is chosen; then t is the root, p = at(t), the material is the sphere's, and the face and normal follow from (p - center)/radius |
| Spheres.RootsSolve | src/sphere.h:59-65 | with an exact square root, both roots solve the quadratic |
| Spheres.RootOnSphere | src/sphere.h:47-52 | a root of the quadratic gives a point at distance r from the center |
| Spheres.HitOnSphere | src/sphere.h:43-79 | every reported hit point lies on the sphere |
| Spheres.HitInsideBox | src/sphere.h:10-26 | with an exact square root, every hit point lies in the box the constructor computed; for a moving sphere, when the ray's time is in [0, 1] |
| Quads.MakeQuad | src/quad.h:25-35 | the constructor keeps Q, u, v and the material; normal = unit(n) is perpendicular to u and v; w . n = 1; area = abs(n) |
| Quads.DerivedGeometry | src/quad.h:25-35 | the derived normal is perpendicular to u and v, and w . (u x v) = 1 |
| Quads.AsWrittenBox | src/quad.h:37-40 | as written, the box includes the box spanned by Q and Q + u + v |
| Quads.AsWrittenBoxMissesCorner | src/quad.h:37-40 | as written, for Q = 0, u = (1, 0, 0), v = (-1, 1, 0), a ray down onto the corner Q + u hits the quad but misses its box |
| Quads.GrazingCornerMissesSlab | src/bbox.h:66 | for the axis-aligned quad Q = 0, u = (1, 0, 0), v = (0, 0, 1), whose box is the same as written and corrected, the ray from (0, 1, -1) along (1, -1, 1) hits the quad at its corner Q + u at t = 1; the as-written slab test rejects the quad's box, and the closed test accepts it |
| Quads.CorrectedBox | src/quad.h:37-40 | with both diagonals, the box includes the boxes spanned by each diagonal |
| Quads.CorrectedBoxContains | src/quad.h:37-40 | with both diagonals, the box contains every point Q + alpha u + beta v with alpha, beta in [0, 1] |
| Quads.Intersect | src/quad.h:68-115 | no hit when abs(normal . direction) < 1e-8; a hit has t in the closed interval, p = at(t) on the plane, u and v equal to alpha and beta, both in [0, 1] |
| Quads.IntersectComplete | src/quad.h:68-115 | conversely, a plane point at a parameter in the interval with interior coordinates is reported, at that parameter |
| Quads.PlaneParameter | src/quad.h:72-80 | the ray meets the plane n . p = D only at t = (D - n . origin) / (n . direction) |
| Quads.PlaneCoordinatesRecover | src/quad.h:87-95 | alpha and beta of a plane point recover it as Q + alpha u + beta v |
| Quads.PlaneCoordinatesOf | src/quad.h:87-95 | the point Q + alpha u + beta v lies on the plane and has coordinates alpha and beta |
| Quads.HitInsideBox | src/quad.h:37-40 | a hit point lies in the corrected box |
| Quads.GetPdf | src/quad.h:47-59 | the density is nonnegative, and 0 exactly when the probe ray misses the quad |
| Quads.PdfPositive | src/quad.h:47-59 | for a probe hit the squared distance, the cosine times the area, and their quotient are positive |
| Quads.RandomDir | src/quad.h:61-65 | `randomDir` points from the origin to Q + d1 u + d2 v |
| Quads.RandomDirOnQuad | src/quad.h:61-65 | for draws in [0, 1) that point is on the plane, inside the quad and inside its box |
| Quads.Translate | src/quad.h:172-184 | translate moves Q by dir and keeps u, v, material and area |
| Quads.TranslateValid | src/quad.h:172-184 | translate keeps the normal and w, shifts D by normal . dir, and leaves the fields consistent |
| Quads.Rotate | src/quad.h:117-170 | rotate applies the rows to Q, u and v, keeps material and area, and recomputes the derived fields |
| Quads.BadAxisDegenerates | src/quad.h:117-170 | with an axis outside 0..2 the rotated quad has u = v = 0 |
| Quads.IsInterior | src/quad.h:108-115 | the plane coordinates are interior exactly when both lie in [0, 1], edges included |
| Quads.BoxSides | src/quad.h:189-211 | `box(a, b)` describes six faces, each with all four corners at corners of the box |
| Quads.Box | src/quad.h:189-211 | the six faces become six well-formed quads |
| Quads.BoxSymmetric | src/quad.h:189-211 | `box(a, b)` and `box(b, a)` are the same six faces |
| Quads.BoxSidesNonDegenerate | src/quad.h:189-211 | a box with distinct coordinates on every axis has six non-degenerate faces |
| Media.NegInvDensity | src/constant_medium.h:12-18 | `neg_inv_density` times the density is -1 |
| Media.WithTexture | src/constant_medium.h:12-14 | the constructor keeps the boundary, stores -1/d and takes an isotropic phase function of the texture |
| Media.WithColor | src/constant_medium.h:16-18 | the colour constructor is the texture constructor over a solid colour |
| Media.HitDistance | src/constant_medium.h:46 | a negative `neg_inv_density` and a draw whose log is at most 0 give a nonnegative free path |
| Media.HitDistanceNonnegative | src/constant_medium.h:12-14 | for a medium built from a positive density, the sampled free path is nonnegative when log of the draw is at most 0 |
| Media.EntryTime | src/constant_medium.h:35 | entry is raised to `ray_t.min` |
| Media.ExitTime | src/constant_medium.h:36 | exit is lowered to `ray_t.max` |
| Media.Interaction | src/constant_medium.h:35-52 | no interaction once entry >= exit; otherwise an interaction exactly when the free path fits inside (exit - entry) * length, at entry + path/length with entry clamped at 0 |
| Media.IntersectTimes | src/constant_medium.h:35-52 | the step-by-step clamps report a hit exactly when `Interaction` does, at its parameter |
| Media.InteractionBeforeExit | src/constant_medium.h:44-52 | an interaction is no later than the exit and than `ray_t.max` |
| Media.InteractionInside | src/constant_medium.h:41-52 | with a nonnegative path, the interaction lies between the clamped entry and the exit and inside `ray_t` |
| Media.ClampExamples | src/constant_medium.h:35-49 | worked examples of both clamps and of the three outcomes |
| Worlds.Members | src/bvh.h:76-87 | a leaf reaches its object and a node reaches the objects of both children |
| Worlds.ObjPdf | src/object.h:48 | an object's density is nonnegative, and the default 0 for objects without `get_pdf` |
| Worlds.ScenePdf | src/scene.h:49-57 | a scene's density is nonnegative, and 0 for an empty scene |
| Worlds.Densities | src/scene.h:53-54 | one nonnegative density per member |
| Worlds.WeightedSum | src/scene.h:53-54 | a weighted sum of nonnegative densities with a nonnegative weight is nonnegative |
| Worlds.ObjDir | src/object.h:49 | a quad proposes its `randomDir`, and an object without one proposes (1, 0, 0) |
| Worlds.SceneDir | src/scene.h:59-63 | a nonempty scene delegates to the member at `random_int(0, N - 1)`, an index in range; an empty scene has no direction |
| Worlds.TranslateObject | src/object.h:47 | translate moves spheres and quads and leaves every other object unchanged |
| Worlds.RotateObject | src/object.h:46 | rotate turns spheres and quads and leaves every other object unchanged |
| Worlds.World.Translate | src/object.h:47 | translate changes exactly one object of the store |
| Worlds.World.Rotate | src/object.h:46 | rotate changes exactly one object of the store |
| Worlds.MediumNeedsBoundary | src/constant_medium.h:20-62 | a medium hit needs an entry hit of the boundary over the whole line and an exit hit after entry + 0.0001; it has p = at(t), normal (1, 0, 0), a front face and the phase material |
| Worlds.Hit | src/object.h:43 | whatever the object, a hit lies at or below the interval's upper end |
| Worlds.MediumHit | src/constant_medium.h:20-62 | a medium's hit lies at or below the interval's upper end |
| Worlds.ScanFrom | src/scene.h:36-44 | the rest of the scan returns the record already found or a hit no further than `closest_so_far` |
| Worlds.Scan | src/scene.h:33-47 | the scan's hit is never beyond its starting bound |
| Worlds.Traverse | src/bvh.h:76-87 | the traversal's hit is never beyond the interval's upper end |
| Worlds.BoxOfResolves | src/constant_medium.h:67 | `get_bbox` always ends at a box some object stores: a medium or a one-leaf BVH forwards to an earlier object |
| Worlds.BoxOfExtend | src/object.h:42 | an object's box depends only on it and the objects it refers to, so making another object never changes it |
| Worlds.ScenePickReaches | src/scene.h:59-63 | the draw k / N makes a scene of N members delegate to member k, with the draws that remain |
| Worlds.EmptyScenePickOutOfRange | src/scene.h:61-62 | as written, an empty scene picks index 0, outside its member list |
| Scenes.Narrow | src/scene.h:39-41 | for a narrowing object, a hit under a lower bound is the same hit under a higher bound, and a hit under the higher bound that lies below the lower one is still found |
| Scenes.SingleNearest | src/scene.h:33-47 | one object's hit is the nearest hit over that object |
| Scenes.CombineNearest | src/scene.h:38-44 | scanning a second set from the first set's bound gives the nearest hit over both sets |
| Scenes.ScanStep | src/scene.h:38-44 | one loop iteration keeps the nearest hit over the members seen so far and never raises the bound |
| Scenes.ScanNearestFrom | src/scene.h:38-44 | finishing the scan from any point gives the nearest hit over all members |
| Scenes.ScanIsNearest | src/scene.h:33-47 | the scan finds a hit iff some member hits within the interval, and then its t is minimal among all members' hits |
| Scenes.QuadNarrowing | src/quad.h:68-106 | lowering the upper end keeps a quad hit below it and loses only hits above it |
| Scenes.SphereNarrowing | src/sphere.h:54-65 | lowering the upper end keeps a sphere root below it and loses only roots above it |
| Scenes.PrimitiveNarrowing | src/object.h:43 | spheres and quads narrow consistently |
| Scenes.WeightedSumFactor | src/scene.h:49-57 | the weighted sum is the weight times the plain sum |
| Scenes.ScenePdfMean | src/scene.h:49-57 | a nonempty scene's density is the mean of its members' densities |
| Scenes.MeanOf | src/scene.h:50-54 | summing with weight 1/N is dividing the sum by N |
| Scenes.SingleMemberPdf | src/scene.h:49-57 | a one-member scene has its member's density |
| Scenes.Scene.constructor | src/scene.h:18 | a new scene is empty with the default box |
| Scenes.Scene.Single | src/scene.h:19 | the one-object constructor adds that object to the default box |
| Scenes.Scene.AsObject | src/scene.h:26 | a scene as an object carries its members and its cached box |
| Scenes.Scene.Clear | src/scene.h:24 | `clear` empties the list but keeps the cached box |
| Scenes.Scene.Add | src/scene.h:28-31 | `add` appends the object, keeps earlier members, sets the box to the union of the old box and the object's box, and keeps the box covering the members |
| Scenes.Scene.Intersect | src/scene.h:33-47 | the loop returns true exactly when the scan finds a hit, with that record; on a miss `rec` is untouched |
| Scenes.Scene.GetPdf | src/scene.h:49-57 | the loop's sum is the scene density, and it is nonnegative |
| Scenes.MakeBox | src/quad.h:189-211 | `box()` adds the six faces to the store and returns a scene of exactly those six objects, whose box is the union of the six faces' boxes and covers each face |
| Scenes.AddQuads | src/quad.h:203-210 | each face is added to the store and its index to the scene, in order; the scene's box becomes the old box united with each face's box in turn, and a box that covered the members still does |
| Scenes.AddQuad | src/quad.h:203-210 | one face is created at the next index and added to the scene, whose box grows by the face's box and still covers its members |
| Scenes.NextQuad | src/quad.h:203-210 | one more face appends its object and unites its box with the grown box |
| Scenes.QuadsBoxIncludes | src/quad.h:203-210 | the box after adding faces includes the starting box and every face's box |
| Scenes.CoversExtend | src/scene.h:28-31 | a scene whose box covers its members still does after another object is made |
| Scenes.QuadObjects | src/quad.h:203-210 | one quad object per face, in order |
| Bvhs.SortAxis | src/bvh.h:22-24 | the drawn axis is 0, 1 or 2 |
| Bvhs.Insert | src/bvh.h:49 | inserting one index keeps the multiset and the length |
| Bvhs.InsertSorted | src/bvh.h:49 | inserting into a sorted range keeps it sorted by box minimum |
| Bvhs.SortByKey | src/bvh.h:49 | sorting by `b_compare` gives a permutation sorted by box minimum on the axis |
| Bvhs.SortRange | src/bvh.h:49 | the sort reorders only [start, end) of the private copy |
| Bvhs.Mid | src/bvh.h:52 | the midpoint `start + n/2` lies in the range, strictly inside it when n >= 2 |
| Bvhs.Build | src/bvh.h:15-61 | the range constructor builds a node whose leaves are arena objects, and whose box is the union of its two children's boxes |
| Bvhs.FromScene | src/bvh.h:13 | the tree over a scene reaches exactly the scene's members |
| Bvhs.EmptyRangeRecursesOnItself | src/bvh.h:26-55 | as written, an empty range splits into two empty ranges equal to itself |
| Bvhs.SplitShrinks | src/bvh.h:47-55 | for three or more objects both halves are nonempty and strictly smaller |
| Bvhs.BuildSplit | src/bvh.h:47-55 | for three or more objects the children are built over the two halves of the sorted range, which is a permutation of the original |
| Bvhs.BuildMembers | src/bvh.h:15-61 | the leaves reach exactly the objects of the range |
| Bvhs.BuildObjects | src/bvh.h:15-61 | for distinct objects the multiset of leaves is the range, the one-object alias counted once |
| Bvhs.BuildSingle | src/bvh.h:30-32 | with one object both children are that object |
| Bvhs.BuildPair | src/bvh.h:34-45 | with two objects the children are the two objects, ordered by `b_compare` on the drawn axis |
| Bvhs.BuildCovers | src/bvh.h:59 | every node's box includes the boxes of all leaves under it |
| Bvhs.TraverseIsNearest | src/bvh.h:76-87 | with sound leaves, traversal returns the nearest hit over the tree's members |
| Bvhs.BoxMissesAll | src/bvh.h:78-79 | when a node's box misses, none of its members can hit |
| Bvhs.NearestUnique | src/scene.h:33-47 | two nearest hits over the same set agree on hit and on t |
| Bvhs.BvhAgreesWithScan | src/bvh.h:76-87 | with sound leaves, the BVH and the linear scan agree on hit or no hit and on t |
| Bvhs.QuadBoxSound | src/quad.h:37-40 | a quad with its constructor's fields passes the closed slab test of its box over every interval it is hit in |
| Bvhs.SphereBoxSound | src/sphere.h:10-26 | a sphere with its constructor's box passes the closed slab test of that box over every interval it is hit in; a moving sphere for ray times in [0, 1] |
| Bvhs.BvhAgreesWithScanPrimitives | src/bvh.h:76-87 | over spheres and quads, the BVH and the linear scan agree on hit or no hit and on t, with no further hypothesis |
| Bvhs.OneQuadDisagrees | src/bvh.h:78-79 | over one quad hit by a ray that the as-written slab test rejects on the quad's box, the scene list reports the hit, the root's box fails that test, and the traversal with the closed test still finds the hit |
| Bvhs.GrazingCornerDisagrees | src/bbox.h:66 | the grazing corner ray is such a ray: on a quad whose box is the one `src/quad.h:37-40` builds, the as-written BVH over that one quad misses a hit the scene list reports |
| Pdfs.MakeCosine | src/pdf.h:38-41 | the cosine density's basis has the unit normal as its third axis |
| Pdfs.Value | src/pdf.h:23-89 | each density is nonnegative: 1/(4 pi) for the sphere, cos/pi clipped at 0 for the lobe, the object's `get_pdf` for an object, between its components for a mixture |
| Pdfs.HalfwayBetween | src/pdf.h:87-89 | an equal-weight mixture of two nonnegative densities is nonnegative and lies between them |
| Pdfs.CosineDensity | src/pdf.h:43-47 | the cosine lobe is 0 behind the surface and cos / pi in front |
| Pdfs.MixtureHalves | src/pdf.h:87-89 | twice the mixture density is the sum of its components' densities; a mixture is symmetric and a mixture of one density with itself is that density |
| Pdfs.UniformIsConstant | src/pdf.h:23-26 | the uniform density is 1/(4 pi) for every direction |
| Pdfs.Generate | src/pdf.h:28-96 | the sphere returns its sample, the lobe maps its sample into its basis, an object density asks the object, a mixture follows one of its components |
| Pdfs.MixtureChoosesByCoin | src/pdf.h:91-96 | the mixture follows its first component when the coin is below 0.5 and its second otherwise |
| Pdfs.CosineSampleAlongAxis | src/pdf.h:49-52 | in a perpendicular basis the sample's component along the axis is its z times the axis' squared length |
| Pdfs.CosinePdfSamplesHemisphere | src/pdf.h:38-52 | a cosine density over a nonzero normal samples only the hemisphere around the normal |
| Colors.LinearToGamma | src/color.h:9-12 | gamma 2 is the square root, nonnegative for a nonnegative input |
| Colors.Quantize | src/color.h:30-33 | the clamped, scaled and truncated value lies in 0..255, is 0 at or below 0 and 255 at or above 0.999 |
| Colors.ChannelByte | src/color.h:20-33 | every channel integer lies in 0..255 |
| Colors.NatStringRoundTrip | src/color.h:31-33 | reading back the decimal digits written for n gives n |
| Colors.FormatLine | src/color.h:31-33 | the line ends with a newline |
| Colors.FormatParseRoundTrip | src/color.h:31-33 | the line reads back as exactly the three integers written, separated by single spaces |
| Colors.PixelToImage | src/color.h:14-34 | the step-by-step scale, gamma and quantise writes the pixel's line, which reads back as the three channel integers |
| Colors.ChannelOfScaled | src/color.h:20-23 | each channel is scaled by 1 / `samples_per_pixel` before gamma |
| Colors.BlackIsZero | src/color.h:14-34 | black writes `0 0 0` for any sample count |
| Colors.WhiteOneSampleIs255 | src/color.h:14-34 | (1, 1, 1) from one sample writes `255 255 255` |
| Colors.ChannelMonotone | src/color.h:20-33 | brighter accumulated light never writes a smaller integer |
| Colors.ScaledChannelMonotone | src/color.h:20-33 | for a positive scale, a larger channel never gives a smaller byte after scaling, gamma and quantising |
| Colors.QuantizeMonotone | src/color.h:30-33 | a larger gamma value never quantizes to a smaller byte |
| Cameras.SampleBounce | src/camera.h:186-193 | a bounce starts at the hit point, keeps the incoming time, goes in the direction the mixture density generated, and carries that density's positive value |
| Cameras.Trace | src/camera.h:140-199 | depth <= 0 gives black without probing the world; a miss over [0.001, inf) gives the background |
| Cameras.TraceNonScattering | src/camera.h:162-173 | a hit whose material does not scatter returns its emitted colour alone |
| Cameras.TraceScattering | src/camera.h:186-198 | a hit whose material scatters returns its emitted colour plus albedo * scattering_pdf * the deeper trace / pdf for the sampled bounce |
| Cameras.LastLevelIsEmittedOnly | src/camera.h:144-173 | at depth 1 the estimate is the background on a miss and the emitted colour on a hit |
| Cameras.IndirectOfBlack | src/camera.h:196-198 | a black bounce contributes nothing |
| Cameras.TraceUsesDepthDraws | src/camera.h:140-199 | the estimate depends only on the draws of depths 1..depth, so the recursion is at most depth deep |
| Cameras.ImageHeight | src/camera.h:98-99 | `img_height = max(1, trunc(width / aspect_ratio))` |
| Cameras.Basis | src/camera.h:117-119 | the camera's w is the unit vector from lookat to lookfrom |
| Cameras.ComputeView | src/camera.h:94-138 | the derived view has height at least 1 and is centred at lookfrom |
| Cameras.BasisPerpendicular | src/camera.h:117-119 | the camera's u, v and w are mutually perpendicular |
| Cameras.NoDefocusAtZeroAngle | src/camera.h:135-137 | at defocus angle 0 the disk vectors are zero and a disk sample is the center |
| Cameras.DiskPoint | src/camera.h:218-223 | a zero disk always samples the center |
| Cameras.PixelGrid | src/camera.h:205 | neighbouring pixel centers are one delta apart |
| Cameras.Jitter | src/camera.h:225-230 | a draw in [0, 1) gives a jitter coefficient in [-0.5, 0.5) |
| Cameras.CastRay | src/camera.h:201-216 | the ray keeps the sample's time, reaches the jittered pixel center at parameter 1, and starts at the center for a negative angle and at a disk sample otherwise |
| Cameras.AddSample | src/camera.h:61-68 | a sum is finite iff both parts are, and is then their sum |
| Cameras.SampleSumStep | src/camera.h:61-68 | one more sample adds that sample's traced colour |
| Cameras.AddNextSample | src/camera.h:61-67 | one iteration of the sample loop turns the sum of k samples into the sum of k + 1 |
| Cameras.SumSamples | src/camera.h:61-68 | the sample loop accumulates the traces of all `samples_per_pixel` samples |
| Cameras.Row | src/camera.h:55-73 | a row has one pixel per column |
| Cameras.ImageRows | src/camera.h:52-74 | the image has one row per line of the height, row j being `Row(j)` |
| Cameras.FlattenRowMajor | src/camera.h:52-74 | in the written sequence, pixel (i, j) is at j * width + i |
| Cameras.Header | src/camera.h:50 | the header starts with `P3` and a newline |
| Cameras.IntToString | src/camera.h:50 | integers are written in decimal, with a minus sign when negative |
| Cameras.Camera.constructor | src/camera.h:20-33 | a new camera has the default settings |
| Cameras.Camera.Initialize | src/camera.h:94-138 | `initialize` keeps the settings and sets the private fields to the view derived from them |
| Cameras.Camera.RenderPixel | src/camera.h:61-72 | one pixel is the encoded sum of its samples |
| Cameras.Camera.RenderRow | src/camera.h:55-73 | the inner loop writes the row's pixels left to right |
| Cameras.Camera.Render | src/camera.h:38-78 | `render` initializes, writes the header and then exactly height * width pixels, j outer and i inner |
| Cameras.RenderedRowMajor | src/camera.h:52-74 | the rendered sequence has height * width pixels, and pixel (i, j) sits at j * width + i |

## Left out

- Floating point is left out. Doubles are reals, and rounding, `-0.0` and the single-precision
  casts of `src/onb.h:55-59` and `src/texture.h:37` are not modelled.
- NaN and infinity are left out. Where the source would divide by zero or produce NaN, the model
  either requires the divisor to be nonzero or returns `None`:
  - a zero direction component in the slab test: NaN comparisons never narrow, and the model
    keeps the interval;
  - a zero mixture density in `trace` gives a `None` estimate;
  - an empty scene asked for `randomDir` gives `None`;
  - a non-finite pixel (`Pixel.NonFinite`).
- The library functions `sqrt`, `tan`, `sin`, `cos` and `log` are uninterpreted. `pow(x, 5)` is
  the exact product.
- `get_sphere_uv` (`src/sphere.h:172-185`) is the `uv` parameter of `Worlds.Env`. The `acos`
  and `atan2` it calls are not modelled.
- Randomness is an input. `Media.Interaction` takes the sampled free path as an input.
- Distributional facts are not stated. For example, the model does not say that the cosine
  density integrates to 1.
- Some draws are keyed rather than taken from one stream:
  - the medium's draw is keyed by (object, ray);
  - the BVH's axis draw is keyed by (start, end);
  - nested mixtures reuse the same draws record.
- A scene picks its member with `pick(0)` of `Worlds.LightDraws` and passes the rest of the
  stream on, so a nested scene makes a fresh pick. The quad the walk ends at takes the two
  coordinates `u1` and `u2`.
- A medium hit's u and v are not modelled as the source leaves them. `src/constant_medium.h:51-62`
  never writes them, `intersect_record` does not initialise them (`src/object.h:11-19`), and the
  scene scan reuses one `temp_rec` (`src/scene.h:34-42`). So they are indeterminate or left over
  from an earlier member. The model fixes them at 0.
- `noise_texture`, `perlin` and the image loader are not part of this model. An image is an
  abstract width, height and pixel lookup.
- Stream output, `std::clog` progress and timing in `render` are left out. `Cameras.Camera.Render`
  returns the header and the pixel lines instead of printing them.
- `src/main.cpp` (scene set-up and camera settings) is left out.
- `Worlds.World.Translate`, `Worlds.World.Rotate`: they update the object in the store, so every
  holder of its index sees the change. The boxes those holders cached are left as they were,
  which is what the source does. Aliasing of `shared_ptr` beyond the store is not modelled.
- `Bvhs.SortByKey`: `std::sort` is modelled by an insertion sort on the index range. The order
  of objects with equal keys is not specified by `std::sort`, and the model fixes one order.
- `Bvhs.BuildObjects`: the multiset statement is made for a range of distinct objects. With
  repeated objects the set statement of `Bvhs.BuildMembers` still holds.
- `Bvhs.BvhAgreesWithScan`: the theorem assumes each leaf narrows consistently and passes its
  own box's slab test. `Bvhs.BvhAgreesWithScanPrimitives` proves both for spheres and quads. A
  moving sphere needs a ray time in [0, 1], the sweep its box covers. Media, nested scenes and
  nested BVHs as leaves are not covered.
- `Worlds.Traverse`: it uses the closed slab test, not the as-written one of `src/bbox.h:66`
  (see Findings).
- `Cameras.Trace`: its contract states the black and background cases. The emitted-only case is
  the lemma `Cameras.TraceNonScattering` and the scattering case the lemma
  `Cameras.TraceScattering`.
- `Cameras.Camera.Render`: its three loops are split into `Cameras.SumSamples`,
  `Cameras.Camera.RenderRow` and the loop over rows. The private fields are zero before
  `initialize`.
- `Onbs.BuildFromW`: its contract states only the third axis. The perpendicularity promise holds
  only for unit inputs (see Findings). The rest of the model builds bases with
  `Onbs.BuildFromWCorrected`.
- `Quads.AsWrittenBox`: it states inclusion of one diagonal's box only, because that is all the
  code builds (see Findings). Quads use `Quads.CorrectedBox`.

## Findings

| source | as written | input that shows it | evidently intended | confidence | as-written member | corrected member |
|---|---|---|---|---|---|---|
| src/onb.h:59 | the second axis uses `w.y()`, the unnormalised input, instead of `unit_w.y()` | w = (0, 2, 0): the third axis is (0, 1, 0) and the second is (0, -1, -1), and their dot product is -1 | the three axes are perpendicular for every nonzero input | not executed | Onbs.BuildFromWCounterexample | Onbs.BuildFromWCorrectedOrthogonal |
| src/quad.h:37-40 | the box spans only Q and Q + u + v | Q = 0, u = (1, 0, 0), v = (-1, 1, 0): the corner Q + u = (1, 0, 0) is outside the box spanned by (0, 0, 0) and (0, 1, 0) even after padding, so a ray onto that corner hits the quad but misses its box | the box contains the whole quad, as with the union of both diagonals' boxes | not executed | Quads.AsWrittenBoxMissesCorner | Quads.CorrectedBoxContains |
| src/bbox.h:66 | the slab test rejects `t.min >= t.max`, so a ray that touches a box at a single parameter fails; `src/bvh.h:78` then skips the node | Q = 0, u = (1, 0, 0), v = (0, 0, 1), an axis-aligned quad whose box is the same as written and corrected, and the ray from (0, 1, -1) along (1, -1, 1) over [0.001, inf): the ray hits the quad at its corner (1, 0, 0) at t = 1, but the x-slab narrows t to [0.001, 1], the padded y-slab to [0.99995, 1] and the z-slab to [1, 1], so the BVH over that quad misses a hit the scene list reports | a BVH finds exactly the hits the scene list finds, which the closed check `t.max < t.min` gives | not executed | Bvhs.GrazingCornerDisagrees | Bvhs.BvhAgreesWithScanPrimitives |
| src/scene.h:62 | `randomDir` indexes `objects[random_int(0, N - 1)]` with no check for N = 0; the demos in `src/main.cpp` (lines 76, 119, 187, 214, 241 and 269) pass an empty `lights` scene, which `src/camera.h:186` asks on every scattering bounce the mixture sends to the lights | N = 0: `random_int(0, -1)` truncates 0 + 0 * u to 0, so the code reads `objects[0]` of an empty vector, which is undefined | an empty scene proposes no direction, and a nonempty one always picks one of its members | not executed | Worlds.EmptyScenePickOutOfRange | Worlds.SceneDir |
| src/bvh.h:26-55 | an empty range (start == end) falls into the default case and splits at start + 0 | start = end = 0: both halves are the same empty range, so the constructor recurses on itself forever | the constructor is only called on nonempty ranges, and every split is strictly smaller | not executed | Bvhs.EmptyRangeRecursesOnItself | Bvhs.SplitShrinks |
