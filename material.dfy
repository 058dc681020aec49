/**
 * Materials (material.h): how a surface scatters an incoming ray, the density it assigns to
 * an outgoing direction, and the light it emits. The random samples a scatter draws are
 * passed in as a ScatterDraws value.
 */
module Materials {
  import opened Numerics
  import opened Vectors
  import opened Rays
  import opened Records
  import opened Textures
  import opened Onbs

  /**
   * The material hierarchy. Base is an instance of the base class itself, whose three virtual
   * functions keep their default bodies; the others override some of them.
   */
  datatype Material =
    | Base
    | Lambertian(tex: Texture)
    | Metal(albedo: Color, fuzz: real)
    | Dielectric(ir: real)
    | DiffuseLight(emit: Texture)
    | Isotropic(phase: Texture)

  /** The record a hit produces; its material is one of the above. */
  type HitRecord = Record<Material>

  /**
   * The samples one scatter call may draw: a cosine-distributed direction in the local frame
   * (Lambertian), a random unit vector (Metal's fuzz, Isotropic's direction) and a uniform
   * number in [0, 1) (Dielectric's choice between reflection and refraction).
   */
  datatype ScatterDraws = ScatterDraws(cosineDir: Vec3, unitVec: Vec3, coin: real)

  /**
   * The outcome of scatter: either the call returned false without writing its out-parameters,
   * or it wrote the outgoing ray, the albedo and the pdf and returned `scattered`.
   */
  datatype ScatterResult =
    | Untouched
    | Written(scattered: bool, rayOut: Ray, albedo: Color, pdf: real)
  {
    predicate Scatters() { Written? && scattered }
  }

  const White: Color := Vec3(1.0, 1.0, 1.0)

  /** 1 / (4 pi): the density of a uniformly chosen direction on the unit sphere. */
  const UniformSphereDensity: real := 1.0 / (4.0 * Pi)

  /** pow(x, 5), evaluated exactly. */
  function Pow5(x: real): real { x * x * x * x * x }

  /** Schlick's reflectance at normal incidence, before squaring. */
  function R0(refIdx: real): real
    requires 1.0 + refIdx != 0.0
  {
    (1.0 - refIdx) / (1.0 + refIdx)
  }

  /** Schlick's blend: the base reflectance r0sq raised toward 1 by the weight k. */
  function Schlick(r0sq: real, k: real): real { r0sq + (1.0 - r0sq) * k }

  /** Schlick's approximation of the reflectance at an interface with ratio refIdx. */
  function Reflectance(cosine: real, refIdx: real): real
    requires 1.0 + refIdx != 0.0
  {
    Schlick(R0(refIdx) * R0(refIdx), Pow5(1.0 - cosine))
  }

  /** The ratio of refractive indices seen by the ray: 1/ir entering, ir leaving. */
  function RefractRatio(ir: real, frontFace: bool): real
    requires frontFace ==> ir != 0.0
  {
    if frontFace then 1.0 / ir else ir
  }

  /**
   * The conditions under which scatter computes finite values: the unit vectors it forms
   * have nonzero length, and the divisions it performs have nonzero divisors. Outside them
   * the source produces NaN or infinities, which this model does not represent.
   */
  predicate ScatterDefined(m: Libm, mat: Material, rec: HitRecord, rIn: Ray, d: ScatterDraws)
  {
    match mat
    case Lambertian(_) => Length(m, rec.normal) != 0.0
    case Metal(_, _) => Length(m, rIn.dir) != 0.0
    case Dielectric(ir) =>
      && (rec.frontFace ==> ir != 0.0)
      && Length(m, rIn.dir) != 0.0
      && (!CannotRefract(m, ir, rec, rIn) ==> 1.0 + RefractRatio(ir, rec.frontFace) != 0.0)
    case _ => true
  }

  /** The cosine of the incidence angle, capped at 1. */
  function IncidentCosine(m: Libm, rec: HitRecord, rIn: Ray): real
    requires Length(m, rIn.dir) != 0.0
  {
    Fmin(Dot(Neg(Unit(m, rIn.dir)), rec.normal), 1.0)
  }

  /** Total internal reflection: Snell's law has no solution. */
  predicate CannotRefract(m: Libm, ir: real, rec: HitRecord, rIn: Ray)
    requires rec.frontFace ==> ir != 0.0
    requires Length(m, rIn.dir) != 0.0
  {
    var cosTheta := IncidentCosine(m, rec, rIn);
    var sinTheta := m.sqrt(1.0 - cosTheta * cosTheta);
    RefractRatio(ir, rec.frontFace) * sinTheta > 1.0
  }

  /** material::scatter and its overrides. */
  function Scatter(m: Libm, mat: Material, rec: HitRecord, rIn: Ray, d: ScatterDraws): (s: ScatterResult)
    requires ScatterDefined(m, mat, rec, rIn, d)
    ensures (mat.Base? || mat.DiffuseLight?) <==> s.Untouched?
    ensures s.Written? ==> s.rayOut.orig == rec.p && s.rayOut.tm == rIn.tm
    ensures mat.Lambertian? ==> s.Scatters() && s.albedo == GetValue(mat.tex, rec.u, rec.v, rec.p)
    ensures mat.Metal? ==> s.Written? && s.albedo == mat.albedo && s.pdf == 0.0
    ensures mat.Metal? ==> (s.scattered <==> Dot(s.rayOut.dir, rec.normal) > 0.0)
    ensures mat.Dielectric? ==> s.Scatters() && s.albedo == White && s.pdf == 0.0
    ensures mat.Isotropic? ==> s.Scatters() && s.albedo == GetValue(mat.phase, rec.u, rec.v, rec.p)
    ensures mat.Isotropic? ==> s.pdf == UniformSphereDensity && s.rayOut.dir == d.unitVec
  {
    match mat
    case Base => Untouched
    case Lambertian(tex) =>
      // rec.normal has unit length, where this is build_from_w itself (BuildFromWAgreesOnUnit).
      var uvw := BuildFromWCorrected(m, rec.normal);
      var bounce := uvw.LocalVec(d.cosineDir);
      var rayOut := Ray(rec.p, bounce, rIn.tm);
      Written(true, rayOut, GetValue(tex, rec.u, rec.v, rec.p), Dot(uvw.W(), rayOut.dir) / Pi)
    case Metal(albedo, fuzz) =>
      var reflected := Reflect(Unit(m, rIn.dir), rec.normal);
      var rayOut := Ray(rec.p, Add(reflected, Scale(fuzz, d.unitVec)), rIn.tm);
      Written(Dot(rayOut.dir, rec.normal) > 0.0, rayOut, albedo, 0.0)
    case Dielectric(ir) =>
      Written(true, Ray(rec.p, DielectricDirection(m, ir, rec, rIn, d.coin), rIn.tm), White, 0.0)
    case DiffuseLight(_) => Untouched
    case Isotropic(phase) =>
      Written(true, Ray(rec.p, d.unitVec, rIn.tm), GetValue(phase, rec.u, rec.v, rec.p), UniformSphereDensity)
  }

  /**
   * The dielectric's outgoing direction: a mirror reflection when refraction is impossible or
   * when the coin falls below the Schlick reflectance, a Snell refraction otherwise. The coin
   * is only consulted when refraction is possible.
   */
  function DielectricDirection(m: Libm, ir: real, rec: HitRecord, rIn: Ray, coin: real): (dir: Vec3)
    requires (rec.frontFace ==> ir != 0.0) && Length(m, rIn.dir) != 0.0
    requires !CannotRefract(m, ir, rec, rIn) ==> 1.0 + RefractRatio(ir, rec.frontFace) != 0.0
    ensures CannotRefract(m, ir, rec, rIn) ==> dir == Reflect(Unit(m, rIn.dir), rec.normal)
    ensures !CannotRefract(m, ir, rec, rIn) ==>
      var ratio := RefractRatio(ir, rec.frontFace);
      dir == if Reflectance(IncidentCosine(m, rec, rIn), ratio) > coin
             then Reflect(Unit(m, rIn.dir), rec.normal)
             else Refract(m, Unit(m, rIn.dir), rec.normal, ratio)
  {
    var ratio := RefractRatio(ir, rec.frontFace);
    var unitDirection := Unit(m, rIn.dir);
    if CannotRefract(m, ir, rec, rIn) || Reflectance(IncidentCosine(m, rec, rIn), ratio) > coin then
      Reflect(unitDirection, rec.normal)
    else
      Refract(m, unitDirection, rec.normal, ratio)
  }

  /** material::scattering_pdf and its overrides: the density of scattering toward rOut. */
  function ScatteringPdf(m: Libm, mat: Material, rec: HitRecord, rIn: Ray, rOut: Ray): (p: real)
    requires mat.Lambertian? ==> Length(m, rOut.dir) != 0.0
    ensures 0.0 <= p
    ensures mat.Isotropic? ==> p == UniformSphereDensity
    ensures (mat.Base? || mat.Metal? || mat.Dielectric? || mat.DiffuseLight?) ==> p == 0.0
    ensures mat.Lambertian? ==>
      var cosTheta := Dot(rec.normal, Unit(m, rOut.dir));
      (cosTheta < 0.0 ==> p == 0.0) && (0.0 <= cosTheta ==> p * Pi == cosTheta)
  {
    match mat
    case Lambertian(_) =>
      var cosTheta := Dot(rec.normal, Unit(m, rOut.dir));
      if cosTheta < 0.0 then 0.0 else cosTheta / Pi
    case Isotropic(_) => UniformSphereDensity
    case _ => 0.0
  }

  /** material::emitted and diffuse_light's override: lights glow only from their front face. */
  function Emitted(mat: Material, rec: HitRecord, u: real, v: real, p: Point3): (c: Color)
    ensures !mat.DiffuseLight? ==> c == Zero
    ensures mat.DiffuseLight? && !rec.frontFace ==> c == Zero
    ensures mat.DiffuseLight? && rec.frontFace ==> c == GetValue(mat.emit, u, v, p)
  {
    match mat
    case DiffuseLight(emit) => if !rec.frontFace then Zero else GetValue(emit, u, v, p)
    case _ => Zero
  }

  /** The base class: no scattering, no emission, zero density. */
  lemma BaseDefaults(m: Libm, rec: HitRecord, rIn: Ray, rOut: Ray, d: ScatterDraws, u: real, v: real, p: Point3)
    ensures !Scatter(m, Base, rec, rIn, d).Scatters()
    ensures Emitted(Base, rec, u, v, p) == Zero
    ensures ScatteringPdf(m, Base, rec, rIn, rOut) == 0.0
  {
  }

  /** Schlick at normal incidence (cosine 1) is r0 squared; at grazing incidence (cosine 0) it is 1. */
  lemma ReflectanceEndpoints(refIdx: real)
    requires 1.0 + refIdx != 0.0
    ensures Reflectance(1.0, refIdx) == R0(refIdx) * R0(refIdx)
    ensures Reflectance(0.0, refIdx) == 1.0
  {
    assert Pow5(0.0) == 0.0;
    assert Pow5(1.0) == 1.0;
  }

  /** For a positive index and a cosine in [0, 1], the reflectance lies in [r0^2, 1]. */
  lemma {:induction false} ReflectanceBounds(cosine: real, refIdx: real)
    requires 0.0 < refIdx && 0.0 <= cosine <= 1.0
    ensures R0(refIdx) * R0(refIdx) <= Reflectance(cosine, refIdx) <= 1.0
  {
    RatioInUnitRange(refIdx);
    SquareInUnitRange(R0(refIdx));
    Pow5InUnitRange(1.0 - cosine);
    SchlickBetween(R0(refIdx) * R0(refIdx), Pow5(1.0 - cosine));
  }

  lemma RatioInUnitRange(refIdx: real)
    requires 0.0 < refIdx
    ensures -1.0 <= R0(refIdx) <= 1.0
  {
    var r0 := R0(refIdx);
    assert r0 * (1.0 + refIdx) == 1.0 - refIdx;
  }

  lemma SquareInUnitRange(r0: real)
    requires -1.0 <= r0 <= 1.0
    ensures 0.0 <= r0 * r0 <= 1.0
  {
    if r0 >= 0.0 {
      UnitProduct(r0, r0);
    } else {
      UnitProduct(-r0, -r0);
    }
  }

  lemma Pow5InUnitRange(x: real)
    requires 0.0 <= x <= 1.0
    ensures 0.0 <= Pow5(x) <= 1.0
  {
    UnitProduct(x, x);
    UnitProduct(x, x * x);
    UnitProduct(x, x * x * x);
    UnitProduct(x, x * x * x * x);
  }

  lemma SchlickBetween(q: real, k: real)
    requires 0.0 <= q <= 1.0 && 0.0 <= k <= 1.0
    ensures q <= Schlick(q, k) <= 1.0
  {
    var p := (1.0 - q) * k;
    UnitProduct(k, 1.0 - q);
    assert 0.0 <= p <= 1.0 - q;
    assert Schlick(q, k) == q + p;
  }

  /**
   * metal::scatter's outgoing direction: the mirror reflection of the unit incoming direction
   * about the normal, pushed by fuzz times the unit-vector draw.
   */
  lemma MetalDirection(m: Libm, albedo: Color, fuzz: real, rec: HitRecord, rIn: Ray, d: ScatterDraws)
    requires Length(m, rIn.dir) != 0.0
    ensures var s := Scatter(m, Metal(albedo, fuzz), rec, rIn, d);
      s.rayOut.dir == Add(Reflect(Unit(m, rIn.dir), rec.normal), Scale(fuzz, d.unitVec))
  {
  }

  /**
   * A polished metal (fuzz 0) with a unit normal sends the ray out along the mirror direction,
   * so it scatters exactly the rays that arrive against the normal.
   */
  lemma PolishedMetalMirrors(m: Libm, albedo: Color, rec: HitRecord, rIn: Ray, d: ScatterDraws)
    requires Length(m, rIn.dir) != 0.0 && Dot(rec.normal, rec.normal) == 1.0
    ensures var s := Scatter(m, Metal(albedo, 0.0), rec, rIn, d);
      && s.rayOut.dir == Reflect(Unit(m, rIn.dir), rec.normal)
      && Dot(s.rayOut.dir, rec.normal) == -Dot(Unit(m, rIn.dir), rec.normal)
      && (s.scattered <==> Dot(Unit(m, rIn.dir), rec.normal) < 0.0)
  {
    var reflected := Reflect(Unit(m, rIn.dir), rec.normal);
    MetalDirection(m, albedo, 0.0, rec, rIn, d);
    assert Add(reflected, Scale(0.0, d.unitVec)) == reflected;
    ReflectFlipsNormal(Unit(m, rIn.dir), rec.normal);
  }

  /** A light never scatters, whatever the record; its emission depends only on the face. */
  lemma LightNeverScatters(m: Libm, emit: Texture, rec: HitRecord, rIn: Ray, d: ScatterDraws)
    ensures !Scatter(m, DiffuseLight(emit), rec, rIn, d).Scatters()
    ensures rec.frontFace ==> Emitted(DiffuseLight(emit), rec, rec.u, rec.v, rec.p) == GetValue(emit, rec.u, rec.v, rec.p)
  {
  }

  /**
   * With an exact square root, the Lambertian scatter builds its frame around the normalised
   * normal: the outgoing direction is the local sample in a frame whose w axis is that normal.
   */
  lemma LambertianFrame(m: Libm, tex: Texture, rec: HitRecord, rIn: Ray, d: ScatterDraws)
    requires m.SqrtExact() && Length(m, rec.normal) != 0.0
    ensures var f := BuildFromWCorrected(m, rec.normal);
      && Orthogonal(f)
      && Scatter(m, Lambertian(tex), rec, rIn, d).rayOut.dir == f.Local(d.cosineDir.x, d.cosineDir.y, d.cosineDir.z)
      && Scatter(m, Lambertian(tex), rec, rIn, d).pdf * Pi == Dot(Unit(m, rec.normal), f.Local(d.cosineDir.x, d.cosineDir.y, d.cosineDir.z))
  {
    BuildFromWCorrectedOrthogonal(m, rec.normal);
  }
}
