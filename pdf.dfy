/**
 * Probability densities over directions (pdf.h): the uniform sphere, the cosine lobe around a
 * normal, the density of a world object seen from an origin, and the even mixture of two. A
 * density is a value that is evaluated at a direction and sampled with the draws it is given.
 */
module Pdfs {
  import opened Wrappers
  import opened Numerics
  import opened Vectors
  import opened Materials
  import opened Onbs
  import opened Worlds

  datatype Pdf =
    | UniformSphere
    | Cosine(uvw: Onb)
    | ObjectPdf(obj: nat, origin: Point3)
    | Mixture(p0: Pdf, p1: Pdf)

  /**
   * cosine_pdf(normal): the lobe around the basis built from the normal. Its callers pass unit
   * normals, on which the corrected construction is build_from_w itself (BuildFromWAgreesOnUnit).
   */
  function MakeCosine(m: Libm, normal: Vec3): (p: Pdf)
    requires Length(m, normal) != 0.0
    ensures p.Cosine? && p.uvw.Valid() && p.uvw.W() == Unit(m, normal)
  {
    Cosine(BuildFromWCorrected(m, normal))
  }

  /** The bases are complete and the objects are in the world. */
  ghost predicate Defined(arena: seq<Object>, p: Pdf)
  {
    match p
    case UniformSphere => true
    case Cosine(uvw) => uvw.Valid()
    case ObjectPdf(i, _) => i < |arena|
    case Mixture(p0, p1) => Defined(arena, p0) && Defined(arena, p1)
  }

  /** The cosine of the angle between the lobe's axis and a direction. */
  function CosTheta(m: Libm, uvw: Onb, dir: Vec3): real
    requires uvw.Valid() && Length(m, dir) != 0.0
  {
    Dot(uvw.W(), Unit(m, dir))
  }

  /**
   * get_value. The uniform sphere is the constant 1/(4 pi); the cosine lobe is cos/pi clipped
   * at 0; an object density is the object's get_pdf from the stored origin; a mixture weighs
   * each component by one half, so it lies between them.
   */
  function Value(m: Libm, arena: seq<Object>, p: Pdf, dir: Vec3): (v: real)
    requires m.SqrtLaws() && WellFormed(arena) && Defined(arena, p) && Length(m, dir) != 0.0
    ensures 0.0 <= v
    ensures p.UniformSphere? ==> v == UniformSphereDensity
    ensures p.Cosine? ==> (CosTheta(m, p.uvw, dir) <= 0.0 ==> v == 0.0)
    ensures p.Cosine? ==> (0.0 < CosTheta(m, p.uvw, dir) ==> v * Pi == CosTheta(m, p.uvw, dir))
    ensures p.ObjectPdf? ==> v == ObjPdf(m, arena, p.obj, p.origin, dir)
    ensures p.Mixture? ==>
      var v0, v1 := Value(m, arena, p.p0, dir), Value(m, arena, p.p1, dir);
      Fmin(v0, v1) <= v <= Fmax(v0, v1)
  {
    match p
    case UniformSphere => UniformSphereDensity
    case Cosine(uvw) =>
      CosineDensity(CosTheta(m, uvw, dir));
      Fmax(0.0, CosTheta(m, uvw, dir) / Pi)
    case ObjectPdf(i, origin) => ObjPdf(m, arena, i, origin, dir)
    case Mixture(p0, p1) =>
      var v0 := Value(m, arena, p0, dir);
      var v1 := Value(m, arena, p1, dir);
      HalfwayBetween(v0, v1);
      0.5 * v0 + 0.5 * v1
  }

  /** The clamped cosine lobe: 0 on the back side, cos / pi in front. */
  lemma CosineDensity(c: real)
    ensures 0.0 <= Fmax(0.0, c / Pi)
    ensures c <= 0.0 ==> Fmax(0.0, c / Pi) == 0.0
    ensures 0.0 < c ==> Fmax(0.0, c / Pi) * Pi == c
  {
    if 0.0 < c {
      assert 0.0 < c / Pi;
    }
  }

  /** An equal-weight mixture of two nonnegative densities is nonnegative and lies between them. */
  lemma HalfwayBetween(a: real, b: real)
    requires 0.0 <= a && 0.0 <= b
    ensures 0.0 <= 0.5 * a + 0.5 * b
    ensures Fmin(a, b) <= 0.5 * a + 0.5 * b <= Fmax(a, b)
  {
  }

  /** Twice a mixture's density is the sum of its components' densities: the weights are exactly one half. */
  lemma MixtureHalves(m: Libm, arena: seq<Object>, p0: Pdf, p1: Pdf, dir: Vec3)
    requires m.SqrtLaws() && WellFormed(arena) && Defined(arena, p0) && Defined(arena, p1) && Length(m, dir) != 0.0
    ensures 2.0 * Value(m, arena, Mixture(p0, p1), dir) == Value(m, arena, p0, dir) + Value(m, arena, p1, dir)
    ensures Value(m, arena, Mixture(p0, p1), dir) == Value(m, arena, Mixture(p1, p0), dir)
    ensures Value(m, arena, Mixture(p0, p0), dir) == Value(m, arena, p0, dir)
  {
  }

  /** The uniform density does not depend on the direction. */
  lemma UniformIsConstant(m: Libm, arena: seq<Object>, d1: Vec3, d2: Vec3)
    requires m.SqrtLaws() && WellFormed(arena) && Length(m, d1) != 0.0 && Length(m, d2) != 0.0
    ensures Value(m, arena, UniformSphere, d1) == Value(m, arena, UniformSphere, d2) == 1.0 / (4.0 * Pi)
  {
  }

  /** The draws one generate_randomDir call may consume. */
  datatype PdfDraws = PdfDraws(coin: real, sphereDir: Vec3, cosineDir: Vec3, light: LightDraws)
  {
    ghost predicate Valid() { light.Valid() }
  }

  /**
   * generate_randomDir. The uniform sphere returns its sampled unit vector, the cosine lobe maps
   * its local sample into the basis, an object density asks the object for a direction toward
   * it, and a mixture follows its first component when the coin is below one half. None stands
   * for an empty scene asked for a direction.
   */
  function Generate(arena: seq<Object>, p: Pdf, d: PdfDraws): (r: Option<Vec3>)
    requires WellFormed(arena) && Defined(arena, p) && d.Valid()
    ensures p.UniformSphere? ==> r == Some(d.sphereDir)
    ensures p.Cosine? ==> r == Some(p.uvw.Local(d.cosineDir.x, d.cosineDir.y, d.cosineDir.z))
    ensures p.ObjectPdf? ==> r == ObjDir(arena, p.obj, p.origin, d.light)
    ensures p.Mixture? ==> r == Generate(arena, p.p0, d) || r == Generate(arena, p.p1, d)
  {
    match p
    case UniformSphere => Some(d.sphereDir)
    case Cosine(uvw) => Some(uvw.LocalVec(d.cosineDir))
    case ObjectPdf(i, origin) => ObjDir(arena, i, origin, d.light)
    case Mixture(p0, p1) => if d.coin < 0.5 then Generate(arena, p0, d) else Generate(arena, p1, d)
  }

  /** The coin decides the mixture's component: below one half the first, otherwise the second. */
  lemma MixtureChoosesByCoin(arena: seq<Object>, p0: Pdf, p1: Pdf, d: PdfDraws)
    requires WellFormed(arena) && Defined(arena, p0) && Defined(arena, p1) && d.Valid()
    ensures d.coin < 0.5 ==> Generate(arena, Mixture(p0, p1), d) == Generate(arena, p0, d)
    ensures 0.5 <= d.coin ==> Generate(arena, Mixture(p0, p1), d) == Generate(arena, p1, d)
  {
  }

  /**
   * For a perpendicular basis, a local sample's component along the lobe's axis is its z
   * coordinate times the axis' squared length: a sample with z >= 0, as a cosine-distributed
   * sample has, lies in the hemisphere around the axis.
   */
  lemma {:induction false} CosineSampleAlongAxis(uvw: Onb, a: Vec3)
    requires uvw.Valid() && Orthogonal(uvw)
    ensures Dot(uvw.W(), uvw.LocalVec(a)) == a.z * uvw.W().LengthSquared()
    ensures 0.0 <= a.z ==> 0.0 <= Dot(uvw.W(), uvw.LocalVec(a))
  {
    var u, v, w := uvw.U(), uvw.V(), uvw.W();
    DotLinear(w, a.x, u, a.y, v, a.z, w);
    assert Dot(w, w) == w.LengthSquared();
    LengthSquaredNonnegative(w);
    if 0.0 <= a.z {
      NonnegProduct(a.z, w.LengthSquared());
    }
  }

  /** The dot product distributes over a combination of three vectors. */
  lemma DotLinear(w: Vec3, a: real, u: Vec3, b: real, v: Vec3, c: real, x: Vec3)
    ensures Dot(w, Add(Add(Scale(a, u), Scale(b, v)), Scale(c, x))) == a * Dot(w, u) + b * Dot(w, v) + c * Dot(w, x)
  {
  }

  /** A cosine pdf built from a nonzero normal samples only the hemisphere around the normal. */
  lemma CosinePdfSamplesHemisphere(m: Libm, arena: seq<Object>, normal: Vec3, d: PdfDraws)
    requires m.SqrtExact() && WellFormed(arena) && Length(m, normal) != 0.0 && d.Valid()
    requires 0.0 <= d.cosineDir.z
    ensures var r := Generate(arena, MakeCosine(m, normal), d);
      r.Some? && 0.0 <= Dot(Unit(m, normal), r.value)
  {
    var p := MakeCosine(m, normal);
    BuildFromWCorrectedOrthogonal(m, normal);
    CosineSampleAlongAxis(p.uvw, d.cosineDir);
  }
}
