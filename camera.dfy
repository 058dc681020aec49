/**
 * The camera and the integrator (camera.h): the viewport set up from the user's settings, the
 * jittered and defocused primary rays, the recursive radiance estimate that mixes light
 * sampling with cosine sampling, and the row-major rendering loop. Every random number is an
 * input: a SampleDraws value per (column, row, sample) and a TraceDraws value per remaining
 * depth.
 */
module Cameras {
  import opened Wrappers
  import opened Numerics
  import opened Vectors
  import opened Intervals
  import opened Rays
  import opened Records
  import opened Materials
  import opened Worlds
  import opened Pdfs
  import opened Colors

  // ---------------------------------------------------------------------------------------------
  // The radiance estimate

  /** Hits closer than this are ignored, which keeps a bounce from re-hitting its own surface. */
  const MinHitDistance: real := 0.001

  /** The interval trace probes the world with. */
  const TraceInterval: Interval := Interval(Fin(MinHitDistance), PosInf)

  /** The draws one level of trace consumes: those of scatter and those of the mixture pdf. */
  datatype TraceDraws = TraceDraws(scatter: ScatterDraws, pdf: PdfDraws)

  ghost predicate ValidDraws(draws: nat -> TraceDraws)
  {
    forall k :: draws(k).pdf.Valid()
  }

  /** The direction trace samples and the mixture density of that direction. */
  datatype Bounce = Bounce(ray: Ray, pdf: real)

  /** The mixture trace samples from: half toward the lights, half the cosine lobe around the normal. */
  function BouncePdf(m: Libm, lights: nat, rec: HitRecord): Pdf
    requires Length(m, rec.normal) != 0.0
  {
    Mixture(ObjectPdf(lights, rec.p), MakeCosine(m, rec.normal))
  }

  /**
   * The bounce ray: from the hit point, at the incoming ray's time, in a direction generated by
   * the mixture. None where the source computes with NaN or infinity: a zero normal, an empty
   * light list, a zero direction, or a zero density to divide by.
   */
  function SampleBounce(m: Libm, arena: seq<Object>, lights: nat, rec: HitRecord, rIn: Ray, d: PdfDraws): (b: Option<Bounce>)
    requires m.SqrtLaws() && WellFormed(arena) && lights < |arena| && d.Valid()
    ensures b.Some? ==>
      && b.value.ray.orig == rec.p && b.value.ray.tm == rIn.tm
      && Length(m, rec.normal) != 0.0 && Length(m, b.value.ray.dir) != 0.0
      && Defined(arena, BouncePdf(m, lights, rec))
      && Generate(arena, BouncePdf(m, lights, rec), d) == Some(b.value.ray.dir)
      && 0.0 < b.value.pdf && b.value.pdf == Value(m, arena, BouncePdf(m, lights, rec), b.value.ray.dir)
  {
    if Length(m, rec.normal) == 0.0 then None
    else
      var p := BouncePdf(m, lights, rec);
      assert Defined(arena, p.p0) && Defined(arena, p.p1);
      match Generate(arena, p, d)
      case None => None
      case Some(dir) =>
        if Length(m, dir) == 0.0 then None
        else
          var pdf := Value(m, arena, p, dir);
          if pdf == 0.0 then None else Some(Bounce(Ray(rec.p, dir, rIn.tm), pdf))
  }

  /** The colour a scattering hit passes back: albedo times scattering density times incoming light, over the pdf. */
  function Indirect(albedo: Color, scatteringPdf: real, incoming: Color, pdf: real): Color
    requires pdf != 0.0
  {
    Div(Mul(Scale(scatteringPdf, albedo), incoming), pdf)
  }

  /**
   * trace: black once the depth is used up, the background on a miss, the emitted light of a
   * hit that does not scatter, and otherwise the emitted light plus the estimate carried by one
   * bounce, traced with one less depth. None where the source would compute with NaN or
   * infinity.
   */
  function Trace(env: Env, arena: seq<Object>, world: nat, lights: nat, background: Color, r: Ray, depth: int,
                 draws: nat -> TraceDraws): (c: Option<Color>)
    requires env.m.SqrtLaws() && WellFormed(arena) && world < |arena| && lights < |arena| && ValidDraws(draws)
    ensures depth <= 0 ==> c == Some(Zero)
    ensures 0 < depth && Hit(env, arena, world, r, TraceInterval).None? ==> c == Some(background)
    decreases if depth < 0 then 0 else depth
  {
    if depth <= 0 then Some(Zero)
    else
      match Hit(env, arena, world, r, TraceInterval)
      case None => Some(background)
      case Some(rec) =>
        var emitted := Emitted(rec.mat, rec, rec.u, rec.v, rec.p);
        var d := draws(depth);
        if !ScatterDefined(env.m, rec.mat, rec, r, d.scatter) then None
        else
          var s := Scatter(env.m, rec.mat, rec, r, d.scatter);
          if !s.Scatters() then Some(emitted)
          else
            match SampleBounce(env.m, arena, lights, rec, r, d.pdf)
            case None => None
            case Some(b) =>
              var sp := ScatteringPdf(env.m, rec.mat, rec, r, b.ray);
              match Trace(env, arena, world, lights, background, b.ray, depth - 1, draws)
              case None => None
              case Some(incoming) => Some(Add(emitted, Indirect(s.albedo, sp, incoming, b.pdf)))
  }

  /** A hit whose material does not scatter returns its emitted light alone, whatever the depth left. */
  lemma TraceNonScattering(env: Env, arena: seq<Object>, world: nat, lights: nat, background: Color, r: Ray, depth: int,
                           draws: nat -> TraceDraws)
    requires env.m.SqrtLaws() && WellFormed(arena) && world < |arena| && lights < |arena| && ValidDraws(draws)
    requires 0 < depth && Hit(env, arena, world, r, TraceInterval).Some?
    ensures var rec := Hit(env, arena, world, r, TraceInterval).value;
      (ScatterDefined(env.m, rec.mat, rec, r, draws(depth).scatter)
       && !Scatter(env.m, rec.mat, rec, r, draws(depth).scatter).Scatters())
      ==> Trace(env, arena, world, lights, background, r, depth, draws) == Some(Emitted(rec.mat, rec, rec.u, rec.v, rec.p))
  {
  }

  /**
   * A hit whose material scatters, with a bounce sampled and the deeper trace defined, returns
   * its emitted light plus albedo * scattering_pdf * incoming / pdf for that bounce.
   */
  lemma TraceScattering(env: Env, arena: seq<Object>, world: nat, lights: nat, background: Color, r: Ray, depth: int,
                        draws: nat -> TraceDraws)
    requires env.m.SqrtLaws() && WellFormed(arena) && world < |arena| && lights < |arena| && ValidDraws(draws)
    requires 0 < depth && Hit(env, arena, world, r, TraceInterval).Some?
    ensures var rec := Hit(env, arena, world, r, TraceInterval).value;
      var d := draws(depth);
      (ScatterDefined(env.m, rec.mat, rec, r, d.scatter) && Scatter(env.m, rec.mat, rec, r, d.scatter).Scatters()
       && SampleBounce(env.m, arena, lights, rec, r, d.pdf).Some?)
      ==> var b := SampleBounce(env.m, arena, lights, rec, r, d.pdf).value;
          var incoming := Trace(env, arena, world, lights, background, b.ray, depth - 1, draws);
          incoming.Some? ==>
            Trace(env, arena, world, lights, background, r, depth, draws)
            == Some(Add(Emitted(rec.mat, rec, rec.u, rec.v, rec.p),
                        Indirect(Scatter(env.m, rec.mat, rec, r, d.scatter).albedo,
                                 ScatteringPdf(env.m, rec.mat, rec, r, b.ray), incoming.value, b.pdf)))
  {
  }

  /** With one level of depth left, the bounce brings back black, so a hit gives only its emitted light. */
  lemma LastLevelIsEmittedOnly(env: Env, arena: seq<Object>, world: nat, lights: nat, background: Color, r: Ray,
                               draws: nat -> TraceDraws)
    requires env.m.SqrtLaws() && WellFormed(arena) && world < |arena| && lights < |arena| && ValidDraws(draws)
    requires Trace(env, arena, world, lights, background, r, 1, draws).Some?
    ensures var c := Trace(env, arena, world, lights, background, r, 1, draws);
      var h := Hit(env, arena, world, r, TraceInterval);
      c.value == if h.None? then background else Emitted(h.value.mat, h.value, h.value.u, h.value.v, h.value.p)
  {
    var h := Hit(env, arena, world, r, TraceInterval);
    if h.Some? {
      var rec := h.value;
      var d := draws(1);
      if ScatterDefined(env.m, rec.mat, rec, r, d.scatter) && Scatter(env.m, rec.mat, rec, r, d.scatter).Scatters() {
        var b := SampleBounce(env.m, arena, lights, rec, r, d.pdf).value;
        var s := Scatter(env.m, rec.mat, rec, r, d.scatter);
        var sp := ScatteringPdf(env.m, rec.mat, rec, r, b.ray);
        IndirectOfBlack(s.albedo, sp, b.pdf);
      }
    }
  }

  lemma IndirectOfBlack(albedo: Color, scatteringPdf: real, pdf: real)
    requires pdf != 0.0
    ensures Indirect(albedo, scatteringPdf, Zero, pdf) == Zero
  {
  }

  /**
   * trace at depth d consumes the draws of levels 1 to d only: two draw sources that agree there
   * give the same colour. The recursion is at most d deep.
   */
  lemma {:induction false} TraceUsesDepthDraws(env: Env, arena: seq<Object>, world: nat, lights: nat, background: Color,
                                               r: Ray, depth: int, draws: nat -> TraceDraws, draws': nat -> TraceDraws)
    requires env.m.SqrtLaws() && WellFormed(arena) && world < |arena| && lights < |arena|
    requires ValidDraws(draws) && ValidDraws(draws')
    requires forall k: nat :: 1 <= k <= depth ==> draws(k) == draws'(k)
    ensures Trace(env, arena, world, lights, background, r, depth, draws) == Trace(env, arena, world, lights, background, r, depth, draws')
    decreases if depth < 0 then 0 else depth
  {
    if depth > 0 {
      assert draws(depth) == draws'(depth);
      var h := Hit(env, arena, world, r, TraceInterval);
      if h.Some? {
        var rec := h.value;
        var b := SampleBounce(env.m, arena, lights, rec, r, draws(depth).pdf);
        if b.Some? {
          TraceUsesDepthDraws(env, arena, world, lights, background, b.value.ray, depth - 1, draws, draws');
        }
      }
    }
  }

  // ---------------------------------------------------------------------------------------------
  // Viewport set-up

  /** The settings a user assigns before rendering. */
  datatype Settings = Settings(
    vfov: real, lookfrom: Point3, lookat: Point3, vup: Vec3, aspectRatio: real, imgWidth: int,
    samplesPerPixel: int, sampleMaxDepth: int, defocusAngle: real, focusDistance: real, background: Color)

  /** The private state initialize derives from them. */
  datatype View = View(
    imgHeight: int, center: Point3, pixel00Loc: Point3, viewportDeltaU: Vec3, viewportDeltaV: Vec3,
    u: Vec3, v: Vec3, w: Vec3, defocusDiskU: Vec3, defocusDiskV: Vec3)

  /** img_height = static_cast<int>(img_width / aspect_ratio), raised to at least 1. */
  function ImageHeight(width: int, aspectRatio: real): (h: int)
    requires aspectRatio != 0.0
    ensures 1 <= h
    ensures 1 <= Trunc(Real(width) / aspectRatio) ==> h == Trunc(Real(width) / aspectRatio)
  {
    var h := Trunc(Real(width) / aspectRatio);
    if h < 1 then 1 else h
  }

  /**
   * The settings initialize can work with: a nonzero aspect ratio and width (both are divisors),
   * distinct look-from and look-at points, and an up vector not parallel to the view direction
   * (the two unit vectors must exist).
   */
  predicate Initializable(m: Libm, s: Settings)
  {
    && s.aspectRatio != 0.0 && s.imgWidth != 0
    && Length(m, Sub(s.lookfrom, s.lookat)) != 0.0
    && Length(m, Cross(s.vup, Unit(m, Sub(s.lookfrom, s.lookat)))) != 0.0
  }

  /** The camera frame: w points back from the target, u to the right, v up. */
  function Basis(m: Libm, s: Settings): (uvw: (Vec3, Vec3, Vec3))
    requires Initializable(m, s)
    ensures uvw.2 == Unit(m, Sub(s.lookfrom, s.lookat))
  {
    var w := Unit(m, Sub(s.lookfrom, s.lookat));
    var u := Unit(m, Cross(s.vup, w));
    (u, Cross(w, u), w)
  }

  /** The viewport's height from the vertical field of view and the focus distance. */
  function ViewportHeight(m: Libm, s: Settings): real
  {
    2.0 * m.tan(DegreesToRadians(s.vfov) / 2.0) * s.focusDistance
  }

  /** The defocus disk's radius: focus_distance * tan(defocus_angle / 2). */
  function DefocusRadius(m: Libm, s: Settings): real
  {
    s.focusDistance * m.tan(DegreesToRadians(s.defocusAngle / 2.0))
  }

  /** The viewport's width: its height times the true aspect ratio of the integer image size. */
  function ViewportWidth(viewportHeight: real, width: int, height: int): real
    requires height != 0
  {
    viewportHeight * (Real(width) / Real(height))
  }

  /** The viewport's upper-left corner, focus_distance in front of the center. */
  function UpperLeft(center: Point3, focusDistance: real, w: Vec3, viewportU: Vec3, viewportV: Vec3): Point3
  {
    Sub(Sub(Sub(center, Scale(focusDistance, w)), Div(viewportU, 2.0)), Div(viewportV, 2.0))
  }

  /** initialize: the private state as a function of the settings. */
  function ComputeView(m: Libm, s: Settings): (view: View)
    requires Initializable(m, s)
    ensures 1 <= view.imgHeight && view.center == s.lookfrom
  {
    var imgHeight := ImageHeight(s.imgWidth, s.aspectRatio);
    var (u, v, w) := Basis(m, s);
    var viewportHeight := ViewportHeight(m, s);
    var viewportU := Scale(ViewportWidth(viewportHeight, s.imgWidth, imgHeight), u);
    var viewportV := Scale(viewportHeight, Neg(v));
    var deltaU := Div(viewportU, Real(s.imgWidth));
    var deltaV := Div(viewportV, Real(imgHeight));
    var upperLeft := UpperLeft(s.lookfrom, s.focusDistance, w, viewportU, viewportV);
    var radius := DefocusRadius(m, s);
    View(imgHeight, s.lookfrom, Add(upperLeft, Scale(0.5, Add(deltaU, deltaV))), deltaU, deltaV,
         u, v, w, Scale(radius, u), Scale(radius, v))
  }

  /** The camera frame is perpendicular: u and v are both perpendicular to w and to each other. */
  lemma BasisPerpendicular(m: Libm, s: Settings)
    requires Initializable(m, s)
    ensures var view := ComputeView(m, s);
      Dot(view.u, view.w) == 0.0 && Dot(view.v, view.w) == 0.0 && Dot(view.u, view.v) == 0.0
  {
    var w := Unit(m, Sub(s.lookfrom, s.lookat));
    var c := Cross(s.vup, w);
    CrossPerpendicular(s.vup, w);
    DotOfQuotient(c, Length(m, c), w);
    var u := Unit(m, c);
    CrossPerpendicular(w, u);
  }

  lemma DotOfQuotient(a: Vec3, l: real, b: Vec3)
    requires l != 0.0 && Dot(a, b) == 0.0
    ensures Dot(Div(a, l), b) == 0.0
  {
    assert Dot(Div(a, l), b) * l == Dot(a, b);
  }

  /** A zero defocus angle (with tan 0 = 0) gives a zero disk: every disk sample is the center. */
  lemma NoDefocusAtZeroAngle(m: Libm, s: Settings, p: Vec3)
    requires m.TanZero() && Initializable(m, s) && s.defocusAngle == 0.0
    ensures var view := ComputeView(m, s);
      view.defocusDiskU == Zero && view.defocusDiskV == Zero && DiskPoint(view, p) == s.lookfrom
  {
    assert DegreesToRadians(0.0 / 2.0) == 0.0;
    assert DefocusRadius(m, s) == 0.0;
  }

  /** defocus_disk_sample for the disk point p: center + p[0] disk_u + p[1] disk_v. */
  function DiskPoint(view: View, p: Vec3): (q: Point3)
    ensures view.defocusDiskU == Zero && view.defocusDiskV == Zero ==> q == view.center
  {
    Add(Add(view.center, Scale(p.x, view.defocusDiskU)), Scale(p.y, view.defocusDiskV))
  }

  /** The center of pixel (i, j): pixel00 plus i steps right and j steps down. */
  function PixelCenter(view: View, i: int, j: int): Point3
  {
    Add(Add(view.pixel00Loc, Scale(Real(i), view.viewportDeltaU)), Scale(Real(j), view.viewportDeltaV))
  }

  /** Neighbouring pixel centers are one pixel delta apart. */
  lemma PixelGrid(view: View, i: int, j: int)
    ensures PixelCenter(view, i + 1, j) == Add(PixelCenter(view, i, j), view.viewportDeltaU)
    ensures PixelCenter(view, i, j + 1) == Add(PixelCenter(view, i, j), view.viewportDeltaV)
  {
    StepScale(i, view.viewportDeltaU);
    StepScale(j, view.viewportDeltaV);
  }

  lemma StepScale(i: int, d: Vec3)
    ensures Scale(Real(i + 1), d) == Add(Scale(Real(i), d), d)
  {
    assert Real(i + 1) == Real(i) + 1.0;
  }

  /** pixel_random_sample's coefficient for a uniform draw: -0.5 + u. */
  function Jitter(u: real): (c: real)
    ensures 0.0 <= u < 1.0 ==> -0.5 <= c < 0.5
  {
    -0.5 + u
  }

  /** pixel_random_sample: an offset within one pixel of the center. */
  function PixelOffset(view: View, px: real, py: real): Vec3
  {
    Add(Scale(Jitter(px), view.viewportDeltaU), Scale(Jitter(py), view.viewportDeltaV))
  }

  /** The draws one primary sample consumes. */
  datatype SampleDraws = SampleDraws(px: real, py: real, disk: Vec3, time: real, trace: nat -> TraceDraws)

  /**
   * cast_cay: a ray from the camera center (a negative defocus angle) or from a point of the
   * defocus disk, through a jittered point of pixel (i, j), at a random shutter time.
   */
  function CastRay(s: Settings, view: View, i: int, j: int, d: SampleDraws): (r: Ray)
    ensures r.tm == d.time
    ensures r.At(1.0) == Add(PixelCenter(view, i, j), PixelOffset(view, d.px, d.py))
    ensures s.defocusAngle < 0.0 ==> r.orig == view.center
    ensures 0.0 <= s.defocusAngle ==> r.orig == DiskPoint(view, d.disk)
  {
    var pixelSample := Add(PixelCenter(view, i, j), PixelOffset(view, d.px, d.py));
    var origin := if s.defocusAngle < 0.0 then view.center else DiskPoint(view, d.disk);
    Ray(origin, Sub(pixelSample, origin), d.time)
  }

  // ---------------------------------------------------------------------------------------------
  // Rendering

  /** A written pixel, or one whose samples the source would compute with NaN or infinity. */
  datatype Pixel = Line(text: string) | NonFinite

  /** pixel_color += sample, with a non-finite sample spoiling the sum. */
  function AddSample(acc: Option<Color>, c: Option<Color>): (sum: Option<Color>)
    ensures sum.Some? <==> acc.Some? && c.Some?
    ensures sum.Some? ==> sum.value == Add(acc.value, c.value)
  {
    if acc.Some? && c.Some? then Some(Add(acc.value, c.value)) else None
  }

  /** Everything trace needs besides the ray. */
  datatype Scene = Scene(env: Env, arena: seq<Object>, world: nat, lights: nat)
  {
    ghost predicate Valid()
    {
      env.m.SqrtLaws() && WellFormed(arena) && world < |arena| && lights < |arena|
    }
  }

  ghost predicate ValidSampleDraws(draws: (int, int, int) -> SampleDraws)
  {
    forall i, j, k :: ValidDraws(draws(i, j, k).trace)
  }

  /** One sample of pixel (i, j): the ray cast through it, traced. */
  function SampleColor(sc: Scene, s: Settings, view: View, i: int, j: int, d: SampleDraws): Option<Color>
    requires sc.Valid() && ValidDraws(d.trace)
  {
    Trace(sc.env, sc.arena, sc.world, sc.lights, s.background, CastRay(s, view, i, j, d), s.sampleMaxDepth, d.trace)
  }

  /** The first k samples of pixel (i, j), summed. */
  function SampleSum(sc: Scene, s: Settings, view: View, draws: (int, int, int) -> SampleDraws, i: int, j: int, k: nat): Option<Color>
    requires sc.Valid() && ValidSampleDraws(draws)
    decreases k, 0
  {
    if k == 0 then Some(Zero) else SumWithSample(sc, s, view, draws, i, j, k - 1)
  }

  /** The first k samples of pixel (i, j), summed, plus sample k. */
  function SumWithSample(sc: Scene, s: Settings, view: View, draws: (int, int, int) -> SampleDraws, i: int, j: int, k: nat): Option<Color>
    requires sc.Valid() && ValidSampleDraws(draws)
    decreases k, 1
  {
    var d := draws(i, j, k);
    assert ValidDraws(d.trace);
    AddSample(SampleSum(sc, s, view, draws, i, j, k), SampleColor(sc, s, view, i, j, d))
  }

  /** Adding one more sample to the sum. */
  lemma SampleSumStep(sc: Scene, s: Settings, view: View, draws: (int, int, int) -> SampleDraws, i: int, j: int, k: nat)
    requires sc.Valid() && ValidSampleDraws(draws)
    ensures ValidDraws(draws(i, j, k).trace)
    ensures SampleSum(sc, s, view, draws, i, j, k + 1)
         == AddSample(SampleSum(sc, s, view, draws, i, j, k), SampleColor(sc, s, view, i, j, draws(i, j, k)))
  {
    assert SampleSum(sc, s, view, draws, i, j, k + 1) == SumWithSample(sc, s, view, draws, i, j, k);
  }

  /** The multi-sampling loop: casts and traces each sample of pixel (i, j) and adds it up. */
  method SumSamples(sc: Scene, s: Settings, view: View, draws: (int, int, int) -> SampleDraws, i: int, j: int)
    returns (pixelColor: Option<Color>)
    requires sc.Valid() && ValidSampleDraws(draws)
    ensures pixelColor == SampleSum(sc, s, view, draws, i, j, if s.samplesPerPixel < 0 then 0 else s.samplesPerPixel)
  {
    pixelColor := Some(Zero);
    var sample := 0;
    while sample < s.samplesPerPixel
      invariant 0 <= sample <= (if s.samplesPerPixel < 0 then 0 else s.samplesPerPixel)
      invariant pixelColor == SampleSum(sc, s, view, draws, i, j, sample)
    {
      pixelColor := AddNextSample(sc, s, view, draws, i, j, sample, pixelColor);
      sample := sample + 1;
    }
  }

  /** One turn of the sample loop: cast sample k of pixel (i, j), trace it and add its colour. */
  method AddNextSample(sc: Scene, s: Settings, view: View, draws: (int, int, int) -> SampleDraws, i: int, j: int, k: nat,
                       acc: Option<Color>) returns (sum: Option<Color>)
    requires sc.Valid() && ValidSampleDraws(draws) && acc == SampleSum(sc, s, view, draws, i, j, k)
    ensures sum == SampleSum(sc, s, view, draws, i, j, k + 1)
  {
    var d := draws(i, j, k);
    SampleSumStep(sc, s, view, draws, i, j, k);
    var c := SampleColor(sc, s, view, i, j, d);
    sum := AddSample(acc, c);
  }

  /** The pixel written for (i, j). */
  function PixelOut(sc: Scene, s: Settings, view: View, draws: (int, int, int) -> SampleDraws, i: int, j: int): Pixel
    requires sc.Valid() && ValidSampleDraws(draws) && s.samplesPerPixel != 0
  {
    var n := if s.samplesPerPixel < 0 then 0 else s.samplesPerPixel;
    match SampleSum(sc, s, view, draws, i, j, n)
    case None => NonFinite
    case Some(c) => Line(PixelLine(sc.env.m, c, s.samplesPerPixel))
  }

  /** The columns a row has: none for a non-positive width. */
  function Columns(s: Settings): nat
  {
    if s.imgWidth < 0 then 0 else s.imgWidth
  }

  /** Row j of the image, left to right. */
  function Row(sc: Scene, s: Settings, view: View, draws: (int, int, int) -> SampleDraws, j: int): (row: seq<Pixel>)
    requires sc.Valid() && ValidSampleDraws(draws) && s.samplesPerPixel != 0
    ensures |row| == Columns(s)
  {
    seq(Columns(s), i requires 0 <= i < Columns(s) => PixelOut(sc, s, view, draws, i, j))
  }

  /** A row's first i + 1 pixels are its first i followed by pixel i. */
  lemma RowPrefixStep(sc: Scene, s: Settings, view: View, draws: (int, int, int) -> SampleDraws, j: int, i: nat)
    requires sc.Valid() && ValidSampleDraws(draws) && s.samplesPerPixel != 0 && i < Columns(s)
    ensures Row(sc, s, view, draws, j)[..i + 1] == Row(sc, s, view, draws, j)[..i] + [PixelOut(sc, s, view, draws, i, j)]
  {
  }

  /** The rows 0 to n - 1, top to bottom. */
  function ImageRows(sc: Scene, s: Settings, view: View, draws: (int, int, int) -> SampleDraws, n: nat): (rows: seq<seq<Pixel>>)
    requires sc.Valid() && ValidSampleDraws(draws) && s.samplesPerPixel != 0
    ensures |rows| == n
    ensures forall j :: 0 <= j < n ==> rows[j] == Row(sc, s, view, draws, j)
  {
    seq(n, j requires 0 <= j < n => Row(sc, s, view, draws, j))
  }

  /** The rows written one after the other. */
  function Flatten<T>(rows: seq<seq<T>>): seq<T>
  {
    if |rows| == 0 then [] else Flatten(rows[..|rows| - 1]) + rows[|rows| - 1]
  }

  /** In the flattened image, pixel (i, j) sits at j * width + i, and the image has height * width pixels. */
  lemma {:induction false} FlattenRowMajor<T>(rows: seq<seq<T>>, width: nat, i: nat, j: nat)
    requires forall k :: 0 <= k < |rows| ==> |rows[k]| == width
    requires i < width && j < |rows|
    ensures |Flatten(rows)| == |rows| * width
    ensures j * width + i < |Flatten(rows)| && Flatten(rows)[j * width + i] == rows[j][i]
  {
    var n := |rows|;
    var front := rows[..n - 1];
    FlattenLength(rows, width);
    FlattenLength(front, width);
    if j < n - 1 {
      FlattenRowMajor(front, width, i, j);
    } else {
      assert j * width == |front| * width;
    }
  }

  lemma {:induction false} FlattenLength<T>(rows: seq<seq<T>>, width: nat)
    requires forall k :: 0 <= k < |rows| ==> |rows[k]| == width
    ensures |Flatten(rows)| == |rows| * width
  {
    if |rows| > 0 {
      FlattenLength(rows[..|rows| - 1], width);
      assert (|rows| - 1) * width + width == |rows| * width;
    }
  }

  /** The P3 header: magic number, width and height, maximum channel value. */
  function Header(width: int, height: int): (h: string)
    ensures 3 <= |h| && h[..3] == "P3\n"
  {
    "P3\n" + IntToString(width) + " " + IntToString(height) + "\n255\n"
  }

  /** operator<< on an int: a minus sign for negative values, then the digits. */
  function IntToString(n: int): (s: string)
    ensures 0 <= n ==> s == NatToString(n)
    ensures n < 0 ==> s == "-" + NatToString(-n)
  {
    if n < 0 then "-" + NatToString(-n) else NatToString(n)
  }

  /**
   * The camera: the user's settings as public fields with the source's defaults, and the
   * private state initialize derives from them.
   */
  class Camera {
    var vfov: real
    var lookfrom: Point3
    var lookat: Point3
    var vup: Vec3
    var aspectRatio: real
    var imgWidth: int
    var samplesPerPixel: int
    var sampleMaxDepth: int
    var defocusAngle: real
    var focusDistance: real
    var background: Color

    var imgHeight: int
    var center: Point3
    var pixel00Loc: Point3
    var viewportDeltaU: Vec3
    var viewportDeltaV: Vec3
    var u: Vec3
    var v: Vec3
    var w: Vec3
    var defocusDiskU: Vec3
    var defocusDiskV: Vec3

    /** A camera with the default settings; its private state is zero until initialize. */
    constructor()
      ensures SettingsOf() == DefaultSettings()
    {
      vfov, lookfrom, lookat, vup := 90.0, Vec3(0.0, 0.0, -1.0), Zero, Vec3(0.0, 1.0, 0.0);
      aspectRatio, imgWidth, samplesPerPixel, sampleMaxDepth := 1.0, 100, 10, 10;
      defocusAngle, focusDistance, background := 0.0, 10.0, Zero;
      imgHeight, center, pixel00Loc := 0, Zero, Zero;
      viewportDeltaU, viewportDeltaV, u, v, w, defocusDiskU, defocusDiskV := Zero, Zero, Zero, Zero, Zero, Zero, Zero;
    }

    static function DefaultSettings(): Settings
    {
      Settings(90.0, Vec3(0.0, 0.0, -1.0), Zero, Vec3(0.0, 1.0, 0.0), 1.0, 100, 10, 10, 0.0, 10.0, Zero)
    }

    function SettingsOf(): Settings
      reads this
    {
      Settings(vfov, lookfrom, lookat, vup, aspectRatio, imgWidth, samplesPerPixel, sampleMaxDepth,
               defocusAngle, focusDistance, background)
    }

    function ViewOf(): View
      reads this
    {
      View(imgHeight, center, pixel00Loc, viewportDeltaU, viewportDeltaV, u, v, w, defocusDiskU, defocusDiskV)
    }

    /** initialize: derives the image height, the frame, the viewport and the defocus disk. */
    method Initialize(m: Libm)
      requires Initializable(m, SettingsOf())
      modifies this
      ensures SettingsOf() == old(SettingsOf())
      ensures ViewOf() == ComputeView(m, SettingsOf())
    {
      var settings := SettingsOf();
      var height := ImageHeight(imgWidth, aspectRatio);
      var viewportHeight := ViewportHeight(m, settings);
      var viewportWidth := ViewportWidth(viewportHeight, imgWidth, height);
      var (uu, vv, ww) := Basis(m, settings);
      var viewportU := Scale(viewportWidth, uu);
      var viewportV := Scale(viewportHeight, Neg(vv));
      var deltaU := Div(viewportU, Real(imgWidth));
      var deltaV := Div(viewportV, Real(height));
      var upperLeft := UpperLeft(lookfrom, focusDistance, ww, viewportU, viewportV);
      var radius := DefocusRadius(m, settings);
      imgHeight, center, u, v, w := height, lookfrom, uu, vv, ww;
      viewportDeltaU, viewportDeltaV := deltaU, deltaV;
      pixel00Loc := Add(upperLeft, Scale(0.5, Add(deltaU, deltaV)));
      defocusDiskU, defocusDiskV := Scale(radius, uu), Scale(radius, vv);
    }

    /** The pixel for (i, j): the samples summed in turn, then written. */
    method RenderPixel(sc: Scene, draws: (int, int, int) -> SampleDraws, i: int, j: int) returns (px: Pixel)
      requires sc.Valid() && ValidSampleDraws(draws) && samplesPerPixel != 0
      ensures px == PixelOut(sc, SettingsOf(), ViewOf(), draws, i, j)
    {
      var pixelColor := SumSamples(sc, SettingsOf(), ViewOf(), draws, i, j);
      if pixelColor.None? {
        px := NonFinite;
      } else {
        var line := PixelToImage(sc.env.m, pixelColor.value, samplesPerPixel);
        px := Line(line);
      }
    }

    /** Row j, pixel by pixel from the left. */
    method RenderRow(sc: Scene, draws: (int, int, int) -> SampleDraws, j: int) returns (row: seq<Pixel>)
      requires sc.Valid() && ValidSampleDraws(draws) && samplesPerPixel != 0
      ensures row == Row(sc, SettingsOf(), ViewOf(), draws, j)
    {
      ghost var settings, view := SettingsOf(), ViewOf();
      row := [];
      var i := 0;
      while i < imgWidth
        invariant 0 <= i <= Columns(settings)
        invariant row == Row(sc, settings, view, draws, j)[..i]
      {
        var px := RenderPixel(sc, draws, i, j);
        RowPrefixStep(sc, settings, view, draws, j, i);
        row := row + [px];
        i := i + 1;
      }
      assert Row(sc, settings, view, draws, j)[..i] == Row(sc, settings, view, draws, j);
    }

    /**
     * render: initializes, then writes the header and the pixels row by row from the top, each
     * the sum of its samples. Returns the header and the pixels in the order written.
     */
    method Render(sc: Scene, draws: (int, int, int) -> SampleDraws) returns (header: string, pixels: seq<Pixel>)
      requires sc.Valid() && ValidSampleDraws(draws) && samplesPerPixel != 0
      requires Initializable(sc.env.m, SettingsOf())
      modifies this
      ensures SettingsOf() == old(SettingsOf()) && ViewOf() == ComputeView(sc.env.m, SettingsOf())
      ensures header == Header(imgWidth, imgHeight)
      ensures pixels == Flatten(ImageRows(sc, SettingsOf(), ViewOf(), draws, imgHeight))
    {
      Initialize(sc.env.m);
      header := Header(imgWidth, imgHeight);
      pixels := [];
      var j := 0;
      while j < imgHeight
        invariant 0 <= j <= imgHeight
        invariant SettingsOf() == old(SettingsOf()) && ViewOf() == ComputeView(sc.env.m, SettingsOf())
        invariant pixels == Flatten(ImageRows(sc, SettingsOf(), ViewOf(), draws, j))
      {
        var row := RenderRow(sc, draws, j);
        ghost var rows := ImageRows(sc, SettingsOf(), ViewOf(), draws, j + 1);
        assert rows[..j] == ImageRows(sc, SettingsOf(), ViewOf(), draws, j);
        pixels := pixels + row;
        j := j + 1;
      }
    }
  }

  /** The rendered image has height times width pixels, pixel (i, j) at index j * width + i. */
  lemma RenderedRowMajor(sc: Scene, s: Settings, view: View, draws: (int, int, int) -> SampleDraws, i: nat, j: nat)
    requires sc.Valid() && ValidSampleDraws(draws) && s.samplesPerPixel != 0
    requires 1 <= view.imgHeight && i < Columns(s) && j < view.imgHeight
    ensures var pixels := Flatten(ImageRows(sc, s, view, draws, view.imgHeight));
      && |pixels| == view.imgHeight * Columns(s)
      && j * Columns(s) + i < |pixels|
      && pixels[j * Columns(s) + i] == PixelOut(sc, s, view, draws, i, j)
  {
    FlattenRowMajor(ImageRows(sc, s, view, draws, view.imgHeight), Columns(s), i, j);
  }
}
