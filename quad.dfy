/**
 * Quadrilaterals (quad.h): the parallelogram Q + alpha u + beta v for alpha, beta in [0, 1],
 * with the fields its constructor derives, the plane intersection, light-sampling density and
 * direction, translate and rotate, and the six-sided box built from two opposite corners.
 * A quad is a value; the world's arena holds it and its rotate and translate return the
 * updated quad.
 */
module Quads {
  import opened Wrappers
  import opened Numerics
  import opened Vectors
  import opened Intervals
  import opened Rays
  import opened Boxes
  import opened Records
  import opened Materials

  /** A ray nearly parallel to the plane (|normal . direction| below this) never hits. */
  const ParallelEpsilon: real := 0.00000001

  /** The interval get_pdf probes the quad with. */
  const PdfProbe: Interval := Interval(Fin(0.001), PosInf)

  datatype Quad = Quad(q: Point3, u: Vec3, v: Vec3, mat: Material, normal: Vec3, area: real, d: real, w: Vec3, box: BBox)
  {
    /**
     * The fields the constructor, rotate and translate derive agree with q, u and v, and the
     * area is positive. Rotate keeps the area it had, so the area is not tied to u and v here.
     */
    predicate Valid(m: Libm)
    {
      && NonDegenerate(m, u, v)
      && normal == Unit(m, Cross(u, v))
      && d == Dot(normal, q)
      && w == Div(Cross(u, v), Dot(Cross(u, v), Cross(u, v)))
      && box == CorrectedBox(q, u, v)
      && 0.0 < area
    }
  }

  /** u and v span a plane: their cross product has a nonzero square and a positive length. */
  predicate NonDegenerate(m: Libm, u: Vec3, v: Vec3)
  {
    Dot(Cross(u, v), Cross(u, v)) != 0.0 && 0.0 < Length(m, Cross(u, v))
  }

  /** normal = unit(n), D = normal . Q, w = n / (n . n), the box, for n = u x v. */
  function Derived(m: Libm, q: Point3, u: Vec3, v: Vec3, mat: Material, area: real): Quad
    requires NonDegenerate(m, u, v)
  {
    var n := Cross(u, v);
    var normal := Unit(m, n);
    Quad(q, u, v, mat, normal, area, Dot(normal, q), Div(n, Dot(n, n)), CorrectedBox(q, u, v))
  }

  /** quad(Q, u, v, material): the derived fields and area = |u x v|. */
  function MakeQuad(m: Libm, q: Point3, u: Vec3, v: Vec3, mat: Material): (qd: Quad)
    requires NonDegenerate(m, u, v)
    ensures qd.q == q && qd.u == u && qd.v == v && qd.mat == mat && qd.area == Length(m, Cross(u, v))
    ensures qd.Valid(m)
    ensures Dot(qd.normal, u) == 0.0 && Dot(qd.normal, v) == 0.0
    ensures Dot(qd.w, Cross(u, v)) == 1.0
  {
    var qd := Derived(m, q, u, v, mat, Length(m, Cross(u, v)));
    DerivedGeometry(m, qd);
    qd
  }

  /** The normal is perpendicular to both edges and w . (u x v) = 1. */
  lemma DerivedGeometry(m: Libm, qd: Quad)
    requires NonDegenerate(m, qd.u, qd.v)
    requires qd.normal == Unit(m, Cross(qd.u, qd.v)) && qd.w == Div(Cross(qd.u, qd.v), Dot(Cross(qd.u, qd.v), Cross(qd.u, qd.v)))
    ensures Dot(qd.normal, qd.u) == 0.0 && Dot(qd.normal, qd.v) == 0.0
    ensures Dot(qd.w, Cross(qd.u, qd.v)) == 1.0
  {
    var n := Cross(qd.u, qd.v);
    NormalPerpendicular(qd.u, qd.v, n, Length(m, n), qd.normal);
    ReciprocalDot(n, Dot(n, n), qd.w);
  }

  /** n / l is perpendicular to u and v when n = u x v. */
  lemma NormalPerpendicular(u: Vec3, v: Vec3, n: Vec3, l: real, normal: Vec3)
    requires n == Cross(u, v) && l != 0.0 && normal == Div(n, l)
    ensures Dot(normal, u) == 0.0 && Dot(normal, v) == 0.0
  {
    CrossPerpendicular(u, v);
    DotDiv(n, u, l);
    DotDiv(n, v, l);
  }

  /** (n / (n . n)) . n = 1. */
  lemma ReciprocalDot(n: Vec3, k: real, w: Vec3)
    requires k == Dot(n, n) && k != 0.0 && w == Div(n, k)
    ensures Dot(w, n) == 1.0
  {
    DotDiv(n, n, k);
  }

  /** Dividing the first argument of a dot product divides the product. */
  lemma DotDiv(a: Vec3, b: Vec3, k: real)
    requires k != 0.0
    ensures Dot(Div(a, k), b) == Dot(a, b) / k
  {
    assert Dot(Div(a, k), b) * k == Dot(a, b);
  }

  // ---------------------------------------------------------------------------------------------
  // Bounding box

  /** set_bbox as written: the padded box spanned by Q and Q + u + v only. */
  function AsWrittenBox(q: Point3, u: Vec3, v: Vec3): (b: BBox)
    ensures Includes(b, FromPoints(q, Add(Add(q, u), v)))
  {
    var b := FromPoints(q, Add(Add(q, u), v));
    PadIncludes(b);
    b.Pad()
  }

  /** The padded box spanned by all four corners: both diagonals. */
  function CorrectedBox(q: Point3, u: Vec3, v: Vec3): (b: BBox)
    ensures Includes(b, FromPoints(q, Add(Add(q, u), v))) && Includes(b, FromPoints(Add(q, u), Add(q, v)))
  {
    var inner := Union(FromPoints(q, Add(Add(q, u), v)), FromPoints(Add(q, u), Add(q, v)));
    PadIncludes(inner);
    IncludesTransitive(inner.Pad(), inner, FromPoints(q, Add(Add(q, u), v)));
    IncludesTransitive(inner.Pad(), inner, FromPoints(Add(q, u), Add(q, v)));
    inner.Pad()
  }

  lemma PadIncludes(b: BBox)
    ensures Includes(b.Pad(), b)
  {
    PadWidth(b, 0);
    PadWidth(b, 1);
    PadWidth(b, 2);
  }

  /** The point Q + alpha u + beta v of the quad's plane. */
  function PlanePoint(q: Point3, u: Vec3, v: Vec3, alpha: real, beta: real): Point3
  {
    Add(Add(q, Scale(alpha, u)), Scale(beta, v))
  }

  /** Every point of the parallelogram lies in the corrected box. */
  lemma {:induction false} CorrectedBoxContains(q: Point3, u: Vec3, v: Vec3, alpha: real, beta: real)
    requires 0.0 <= alpha <= 1.0 && 0.0 <= beta <= 1.0
    ensures CorrectedBox(q, u, v).Contains(PlanePoint(q, u, v, alpha, beta))
  {
    var p := PlanePoint(q, u, v, alpha, beta);
    var inner := Union(FromPoints(q, Add(Add(q, u), v)), FromPoints(Add(q, u), Add(q, v)));
    DiagonalsContain(q, u, v, alpha, beta);
    PadIncludes(inner);
    EnclosedContains(inner.Pad().x, inner.x, p.x);
    EnclosedContains(inner.Pad().y, inner.y, p.y);
    EnclosedContains(inner.Pad().z, inner.z, p.z);
  }

  /** Before padding: the union of the two diagonals' boxes holds the parallelogram. */
  lemma DiagonalsContain(q: Point3, u: Vec3, v: Vec3, alpha: real, beta: real)
    requires 0.0 <= alpha <= 1.0 && 0.0 <= beta <= 1.0
    ensures Union(FromPoints(q, Add(Add(q, u), v)), FromPoints(Add(q, u), Add(q, v))).Contains(PlanePoint(q, u, v, alpha, beta))
  {
    var d1, d2 := FromPoints(q, Add(Add(q, u), v)), FromPoints(Add(q, u), Add(q, v));
    var p := PlanePoint(q, u, v, alpha, beta);
    PlanePointParts(q, u, v, alpha, beta, p);
    DiagonalAxis(d1.x, d2.x, p.x, q.x, u.x, v.x, alpha, beta);
    DiagonalAxis(d1.y, d2.y, p.y, q.y, u.y, v.y, alpha, beta);
    DiagonalAxis(d1.z, d2.z, p.z, q.z, u.z, v.z, alpha, beta);
  }

  lemma PlanePointParts(q: Point3, u: Vec3, v: Vec3, alpha: real, beta: real, p: Point3)
    requires p == PlanePoint(q, u, v, alpha, beta)
    ensures Bilinear(p.x, q.x, u.x, v.x, alpha, beta)
    ensures Bilinear(p.y, q.y, u.y, v.y, alpha, beta)
    ensures Bilinear(p.z, q.z, u.z, v.z, alpha, beta)
  {
  }

  /** p = q + s a + t b on one axis. */
  predicate Bilinear(p: real, q: real, a: real, b: real, s: real, t: real)
  {
    p == q + s * a + t * b
  }

  /** One axis of DiagonalsContain. */
  lemma DiagonalAxis(i1: Interval, i2: Interval, p: real, q: real, a: real, b: real, s: real, t: real)
    requires 0.0 <= s <= 1.0 && 0.0 <= t <= 1.0
    requires i1 == Span(q, q + a + b) && i2 == Span(q + a, q + b) && Bilinear(p, q, a, b, s, t)
    ensures Hull(i1, i2).Contains(p)
  {
    BilinearBetween(q, a, b, s, t);
  }

  lemma EnclosedContains(outer: Interval, inner: Interval, x: real)
    requires Encloses(outer, inner) && inner.Contains(x)
    ensures outer.Contains(x)
  {
    LeTransitive(outer.min, inner.min, Fin(x));
    LeTransitive(Fin(x), inner.max, outer.max);
  }

  /** On one axis, q + s a + t b for s, t in [0, 1] lies between the smallest and largest corner. */
  lemma BilinearBetween(q: real, a: real, b: real, s: real, t: real)
    requires 0.0 <= s <= 1.0 && 0.0 <= t <= 1.0
    ensures Hull(Span(q, q + a + b), Span(q + a, q + b)).Contains(q + s * a + t * b)
  {
    BilinearInSpan(q, a, b, s, t);
    HullContains(Span(q, q + a + b), Span(q + a, q + b), q + s * a + t * b);
  }

  /** The point lies on one of the two diagonals' spans, depending on the signs of a and b. */
  lemma BilinearInSpan(q: real, a: real, b: real, s: real, t: real)
    requires 0.0 <= s <= 1.0 && 0.0 <= t <= 1.0
    ensures Span(q, q + a + b).Contains(q + s * a + t * b) || Span(q + a, q + b).Contains(q + s * a + t * b)
  {
    UnitScale(s, a, s * a);
    UnitScale(t, b, t * b);
    OffsetsInSpan(q, a, b, s * a, t * b);
  }

  /** The same over the two offsets sa = s a and tb = t b, each between 0 and its edge. */
  lemma OffsetsInSpan(q: real, a: real, b: real, sa: real, tb: real)
    requires (0.0 <= a ==> 0.0 <= sa <= a) && (a < 0.0 ==> a <= sa <= 0.0)
    requires (0.0 <= b ==> 0.0 <= tb <= b) && (b < 0.0 ==> b <= tb <= 0.0)
    ensures Span(q, q + a + b).Contains(q + sa + tb) || Span(q + a, q + b).Contains(q + sa + tb)
  {
    if (0.0 <= a) == (0.0 <= b) {
      SpanContains(q, q + a + b, q + sa + tb);
    } else {
      SpanContains(q + a, q + b, q + sa + tb);
    }
  }

  /** A value between the two ends, in either order, lies in their span. */
  lemma SpanContains(e1: real, e2: real, x: real)
    requires e1 <= x <= e2 || e2 <= x <= e1
    ensures Span(e1, e2).Contains(x)
  {
  }

  /** sa = s a lies between 0 and a for s in [0, 1]. */
  lemma UnitScale(s: real, a: real, sa: real)
    requires 0.0 <= s <= 1.0 && sa == s * a
    ensures 0.0 <= a ==> 0.0 <= sa <= a
    ensures a < 0.0 ==> a <= sa <= 0.0
  {
    if 0.0 <= a {
      UnitProduct(s, a);
    } else {
      MulMono(s, a, 0.0);
      MulMono(1.0 - s, a, 0.0);
    }
  }

  /** A point of either interval lies in their hull. */
  lemma HullContains(i: Interval, j: Interval, x: real)
    requires i.Contains(x) || j.Contains(x)
    ensures Hull(i, j).Contains(x)
  {
    var h := Hull(i, j);
    LeTransitive(h.min, i.min, Fin(x));
    LeTransitive(Fin(x), i.max, h.max);
    LeTransitive(h.min, j.min, Fin(x));
    LeTransitive(Fin(x), j.max, h.max);
  }

  /**
   * The as-written box misses part of the quad: for Q = 0, u = (1, 0, 0) and v = (-1, 1, 0)
   * the box spanned by Q and Q + u + v has x-slab [0, 0], so a ray straight down onto the
   * corner Q + u = (1, 0, 0) hits the quad but fails the slab test of its box.
   */
  lemma AsWrittenBoxMissesCorner(m: Libm, q: Point3, u: Vec3, v: Vec3, r: Ray)
    requires m.SqrtLaws()
    requires q == Zero && u == Vec3(1.0, 0.0, 0.0) && v == Vec3(-1.0, 1.0, 0.0)
    requires r == MakeRay(Vec3(1.0, 0.0, 1.0), Vec3(0.0, 0.0, -1.0))
    ensures NonDegenerate(m, u, v)
    ensures Intersect(MakeQuad(m, q, u, v, Base), r, PdfProbe).Some?
    ensures Intersect(MakeQuad(m, q, u, v, Base), r, PdfProbe).value.p == Add(q, u)
    ensures !SlabHit(AsWrittenBox(q, u, v), r, PdfProbe)
  {
    CornerQuadFields(m, q, u, v);
    CornerSum(q, u);
    CornerHit(MakeQuad(m, q, u, v, Base), r, Add(q, u));
    CornerMissesBox(q, u, v, r);
  }

  lemma CornerSum(q: Point3, u: Vec3)
    requires q == Zero && u == Vec3(1.0, 0.0, 0.0)
    ensures Add(q, u) == Vec3(1.0, 0.0, 0.0)
  {
  }

  /** The quad of the counterexample lies in the plane z = 0 with w = normal = (0, 0, 1). */
  lemma CornerQuadFields(m: Libm, q: Point3, u: Vec3, v: Vec3)
    requires m.SqrtLaws()
    requires q == Zero && u == Vec3(1.0, 0.0, 0.0) && v == Vec3(-1.0, 1.0, 0.0)
    ensures NonDegenerate(m, u, v)
    ensures var qd := MakeQuad(m, q, u, v, Base);
      && qd.q == Zero && qd.u == Vec3(1.0, 0.0, 0.0) && qd.v == Vec3(-1.0, 1.0, 0.0)
      && qd.normal == Vec3(0.0, 0.0, 1.0) && qd.w == Vec3(0.0, 0.0, 1.0) && qd.d == 0.0
  {
    var n := Vec3(0.0, 0.0, 1.0);
    CornerCross();
    UpSquare(m, n);
    UnitOfUnit(m, n);
    DivByUnitSquare(n);
    UnitNormalFields(m, q, u, v, n);
  }

  lemma CornerCross()
    ensures Cross(Vec3(1.0, 0.0, 0.0), Vec3(-1.0, 1.0, 0.0)) == Vec3(0.0, 0.0, 1.0)
    ensures Dot(Vec3(0.0, 0.0, 1.0), Zero) == 0.0
  {
  }

  /** When u x v already has unit length, the constructor's normal and w are both u x v. */
  lemma UnitNormalFields(m: Libm, q: Point3, u: Vec3, v: Vec3, n: Vec3)
    requires n == Cross(u, v) && Dot(n, n) == 1.0 && Length(m, n) == 1.0
    requires Unit(m, n) == n && Div(n, Dot(n, n)) == n
    ensures NonDegenerate(m, u, v)
    ensures var qd := MakeQuad(m, q, u, v, Base);
      qd.q == q && qd.u == u && qd.v == v && qd.normal == n && qd.w == n && qd.d == Dot(n, q)
  {
  }

  /** (0, 0, 1) has unit length, so normalising or dividing it by its square leaves it unchanged. */
  lemma UpSquare(m: Libm, n: Vec3)
    requires m.SqrtLaws() && n == Vec3(0.0, 0.0, 1.0)
    ensures Dot(n, n) == 1.0 && Length(m, n) == 1.0
  {
  }

  lemma UnitOfUnit(m: Libm, n: Vec3)
    requires Length(m, n) == 1.0
    ensures Unit(m, n) == n
  {
    DivOne(n);
  }

  lemma DivByUnitSquare(n: Vec3)
    requires Dot(n, n) == 1.0
    ensures Div(n, Dot(n, n)) == n
  {
    DivOne(n);
  }

  lemma DivOne(a: Vec3)
    ensures Div(a, 1.0) == a
  {
  }

  /** The downward ray through (1, 0, 1) hits that quad at its corner (1, 0, 0). */
  lemma CornerHit(qd: Quad, r: Ray, p: Point3)
    requires qd.q == Zero && qd.u == Vec3(1.0, 0.0, 0.0) && qd.v == Vec3(-1.0, 1.0, 0.0)
    requires qd.normal == Vec3(0.0, 0.0, 1.0) && qd.w == Vec3(0.0, 0.0, 1.0) && qd.d == 0.0
    requires r == MakeRay(Vec3(1.0, 0.0, 1.0), Vec3(0.0, 0.0, -1.0)) && p == Vec3(1.0, 0.0, 0.0)
    ensures Intersect(qd, r, PdfProbe).Some? && Intersect(qd, r, PdfProbe).value.p == p
  {
    CornerPlane(qd.normal, qd.d, r, p);
    CornerPoint(r, p);
    CornerCoordinates(qd, p);
    CornerInterior(PlaneAlpha(qd, p), PlaneBeta(qd, p));
    ProbeContainsOne();
    HitAt(qd, r, PdfProbe, 1.0, p);
  }

  lemma ProbeContainsOne()
    ensures PdfProbe.Contains(1.0)
  {
  }

  /** A hit found by IntersectComplete is reported at the ray's point for that parameter. */
  lemma HitAt(qd: Quad, r: Ray, t: Interval, s: real, p: Point3)
    requires p == r.At(s) && ParallelEpsilon <= Abs(Dot(qd.normal, r.dir))
    requires Dot(qd.normal, p) == qd.d && t.Contains(s)
    requires IsInterior(PlaneAlpha(qd, p), PlaneBeta(qd, p))
    ensures Intersect(qd, r, t).Some? && Intersect(qd, r, t).value.t == s && Intersect(qd, r, t).value.p == p
  {
    IntersectComplete(qd, r, t, s);
  }

  lemma CornerPlane(n: Vec3, d: real, r: Ray, p: Point3)
    requires n == Vec3(0.0, 0.0, 1.0) && d == 0.0 && p == Vec3(1.0, 0.0, 0.0)
    requires r == MakeRay(Vec3(1.0, 0.0, 1.0), Vec3(0.0, 0.0, -1.0))
    ensures ParallelEpsilon <= Abs(Dot(n, r.dir)) && Dot(n, p) == d
  {
  }

  lemma CornerPoint(r: Ray, p: Point3)
    requires r == MakeRay(Vec3(1.0, 0.0, 1.0), Vec3(0.0, 0.0, -1.0)) && p == Vec3(1.0, 0.0, 0.0)
    ensures r.At(1.0) == p
  {
  }

  lemma CornerCoordinates(qd: Quad, p: Point3)
    requires qd.q == Zero && qd.v == Vec3(-1.0, 1.0, 0.0) && qd.w == Vec3(0.0, 0.0, 1.0)
    requires qd.u == Vec3(1.0, 0.0, 0.0) && p == Vec3(1.0, 0.0, 0.0)
    ensures PlaneAlpha(qd, p) == 1.0 && PlaneBeta(qd, p) == 0.0
  {
  }

  lemma CornerInterior(alpha: real, beta: real)
    requires alpha == 1.0 && beta == 0.0
    ensures IsInterior(alpha, beta)
  {
  }

  /** The same ray misses the as-written box: its x-slab is [-delta/2, delta/2] and the ray stays at x = 1. */
  lemma CornerMissesBox(q: Point3, u: Vec3, v: Vec3, r: Ray)
    requires q == Zero && u == Vec3(1.0, 0.0, 0.0) && v == Vec3(-1.0, 1.0, 0.0)
    requires r == MakeRay(Vec3(1.0, 0.0, 1.0), Vec3(0.0, 0.0, -1.0))
    ensures !SlabHit(AsWrittenBox(q, u, v), r, PdfProbe)
  {
    var b := AsWrittenBox(q, u, v);
    assert b.x == Interval(Fin(-PadDelta / 2.0), Fin(PadDelta / 2.0));
    var t1 := Step(PdfProbe, b.x, 1.0, 0.0);
    assert t1.max == NegInf;
  }

  /**
   * A ray that only touches the box. The quad Q = 0, u = (1, 0, 0), v = (0, 0, 1) is axis-aligned,
   * so the as-written and the corrected box coincide: x in [0, 1], y padded to
   * [-PadDelta / 2, PadDelta / 2], z in [0, 1]. The ray from (0, 1, -1) along (1, -1, 1) meets the
   * quad at its corner Q + u at t = 1. Over [0.001, inf) the x-slab narrows t to [0.001, 1], the
   * y-slab to [0.99995, 1] and the z-slab to [1, 1], so bbox.h:66 rejects the ray; the closed test
   * accepts it.
   */
  lemma GrazingCornerMissesSlab(m: Libm, q: Point3, u: Vec3, v: Vec3, r: Ray)
    requires m.SqrtLaws()
    requires q == Zero && u == Vec3(1.0, 0.0, 0.0) && v == Vec3(0.0, 0.0, 1.0)
    requires r == MakeRay(Vec3(0.0, 1.0, -1.0), Vec3(1.0, -1.0, 1.0))
    ensures NonDegenerate(m, u, v)
    ensures var qd := MakeQuad(m, q, u, v, Base);
      && qd.box == AsWrittenBox(q, u, v)
      && Intersect(qd, r, PdfProbe).Some? && Intersect(qd, r, PdfProbe).value.t == 1.0
      && Intersect(qd, r, PdfProbe).value.p == Add(q, u)
      && !SlabHit(qd.box, r, PdfProbe) && ClosedSlabHit(qd.box, r, PdfProbe)
  {
    FlatQuadFields(m, q, u, v);
    MakeQuadBox(m, q, u, v, Base);
    CornerSum(q, u);
    var qd := MakeQuad(m, q, u, v, Base);
    GrazeBoxAxes();
    GrazeConditions(qd, r, Vec3(1.0, 0.0, 0.0));
    HitAt(qd, r, PdfProbe, 1.0, Vec3(1.0, 0.0, 0.0));
    GrazeVerdicts(m, qd, r);
  }

  /** The flat quad lies in the plane y = 0 with w = normal = (0, -1, 0). */
  lemma FlatQuadFields(m: Libm, q: Point3, u: Vec3, v: Vec3)
    requires m.SqrtLaws()
    requires q == Zero && u == Vec3(1.0, 0.0, 0.0) && v == Vec3(0.0, 0.0, 1.0)
    ensures NonDegenerate(m, u, v)
    ensures var qd := MakeQuad(m, q, u, v, Base);
      && qd.q == Zero && qd.u == Vec3(1.0, 0.0, 0.0) && qd.v == Vec3(0.0, 0.0, 1.0)
      && qd.normal == Vec3(0.0, -1.0, 0.0) && qd.w == Vec3(0.0, -1.0, 0.0) && qd.d == 0.0
  {
    var n := Vec3(0.0, -1.0, 0.0);
    FlatCross();
    SideSquare(m, n);
    UnitOfUnit(m, n);
    DivByUnitSquare(n);
    UnitNormalFields(m, q, u, v, n);
  }

  /** The constructor stores the box over both diagonals. */
  lemma MakeQuadBox(m: Libm, q: Point3, u: Vec3, v: Vec3, mat: Material)
    requires NonDegenerate(m, u, v)
    ensures MakeQuad(m, q, u, v, mat).box == CorrectedBox(q, u, v)
  {
  }

  lemma FlatCross()
    ensures Cross(Vec3(1.0, 0.0, 0.0), Vec3(0.0, 0.0, 1.0)) == Vec3(0.0, -1.0, 0.0)
    ensures Dot(Vec3(0.0, -1.0, 0.0), Zero) == 0.0
  {
  }

  /** (0, -1, 0) has unit length. */
  lemma SideSquare(m: Libm, n: Vec3)
    requires m.SqrtLaws() && n == Vec3(0.0, -1.0, 0.0)
    ensures Dot(n, n) == 1.0 && Length(m, n) == 1.0
  {
  }

  /** Of the two slab tests on the quad's box, only the closed one accepts the grazing ray. */
  lemma GrazeVerdicts(m: Libm, qd: Quad, r: Ray)
    requires qd.Valid(m) && qd.box == AsWrittenBox(Zero, Vec3(1.0, 0.0, 0.0), Vec3(0.0, 0.0, 1.0))
    requires r == MakeRay(Vec3(0.0, 1.0, -1.0), Vec3(1.0, -1.0, 1.0))
    requires Intersect(qd, r, PdfProbe).Some? && Intersect(qd, r, PdfProbe).value.t == 1.0
    ensures !SlabHit(qd.box, r, PdfProbe) && ClosedSlabHit(qd.box, r, PdfProbe)
  {
    GrazeBoxAxes();
    GrazeMissesSlab(qd.box, r);
    HitInsideBox(m, qd, r, PdfProbe);
    ProbeContainsOne();
    assert PdfProbe.Contains(1.0) && qd.box.Contains(r.At(1.0));
  }

  /** The grazing ray meets the flat quad's plane at (1, 0, 0), at t = 1, inside the quad. */
  lemma GrazeConditions(qd: Quad, r: Ray, p: Point3)
    requires qd.q == Zero && qd.u == Vec3(1.0, 0.0, 0.0) && qd.v == Vec3(0.0, 0.0, 1.0)
    requires qd.normal == Vec3(0.0, -1.0, 0.0) && qd.w == Vec3(0.0, -1.0, 0.0) && qd.d == 0.0
    requires r == MakeRay(Vec3(0.0, 1.0, -1.0), Vec3(1.0, -1.0, 1.0)) && p == Vec3(1.0, 0.0, 0.0)
    ensures p == r.At(1.0) && ParallelEpsilon <= Abs(Dot(qd.normal, r.dir))
    ensures Dot(qd.normal, p) == qd.d && PdfProbe.Contains(1.0)
    ensures IsInterior(PlaneAlpha(qd, p), PlaneBeta(qd, p))
  {
    GrazeFacing(qd.normal, r.dir);
    GrazeInPlane(qd.normal, p);
    NotParallel(Dot(qd.normal, r.dir));
    GrazePoint(r, p);
    GrazeCoordinates(qd, p);
    CornerInterior(PlaneAlpha(qd, p), PlaneBeta(qd, p));
    ProbeContainsOne();
  }

  /** The flat quad's normal faces the grazing ray's direction head-on. */
  lemma GrazeFacing(n: Vec3, dir: Vec3)
    requires n == Vec3(0.0, -1.0, 0.0) && dir == Vec3(1.0, -1.0, 1.0)
    ensures Dot(n, dir) == 1.0
  {
  }

  /** The corner lies in the flat quad's plane y = 0. */
  lemma GrazeInPlane(n: Vec3, p: Point3)
    requires n == Vec3(0.0, -1.0, 0.0) && p == Vec3(1.0, 0.0, 0.0)
    ensures Dot(n, p) == 0.0
  {
  }

  /** A unit cosine is far from parallel. */
  lemma NotParallel(k: real)
    requires k == 1.0
    ensures ParallelEpsilon <= Abs(k)
  {
  }

  lemma GrazePoint(r: Ray, p: Point3)
    requires r == MakeRay(Vec3(0.0, 1.0, -1.0), Vec3(1.0, -1.0, 1.0)) && p == Vec3(1.0, 0.0, 0.0)
    ensures r.At(1.0) == p
  {
  }

  lemma GrazeCoordinates(qd: Quad, p: Point3)
    requires qd.q == Zero && qd.v == Vec3(0.0, 0.0, 1.0) && qd.w == Vec3(0.0, -1.0, 0.0)
    requires qd.u == Vec3(1.0, 0.0, 0.0) && p == Vec3(1.0, 0.0, 0.0)
    ensures PlaneAlpha(qd, p) == 1.0 && PlaneBeta(qd, p) == 0.0
  {
  }

  /**
   * Both boxes of the flat quad are the same: x in [0, 1], y in [-PadDelta / 2, PadDelta / 2] and
   * z in [0, 1].
   */
  lemma GrazeBoxAxes()
    ensures var b := AsWrittenBox(Zero, Vec3(1.0, 0.0, 0.0), Vec3(0.0, 0.0, 1.0));
      && b == CorrectedBox(Zero, Vec3(1.0, 0.0, 0.0), Vec3(0.0, 0.0, 1.0))
      && b.x == Interval(Fin(0.0), Fin(1.0)) && b.y == Interval(Fin(-PadDelta / 2.0), Fin(PadDelta / 2.0))
      && b.z == Interval(Fin(0.0), Fin(1.0))
  {
  }

  /** On a box with those slabs, the grazing ray narrows t to [1, 1] by its z step. */
  lemma GrazeMissesSlab(b: BBox, r: Ray)
    requires b.x == Interval(Fin(0.0), Fin(1.0)) && b.y == Interval(Fin(-PadDelta / 2.0), Fin(PadDelta / 2.0))
    requires b.z == Interval(Fin(0.0), Fin(1.0))
    requires r == MakeRay(Vec3(0.0, 1.0, -1.0), Vec3(1.0, -1.0, 1.0))
    ensures !SlabHit(b, r, PdfProbe)
  {
    var t1 := Step(PdfProbe, b.x, 0.0, 1.0);
    assert t1 == Interval(Fin(0.001), Fin(1.0));
    var t2 := Step(t1, b.y, 1.0, -1.0);
    assert t2 == Interval(Fin(0.99995), Fin(1.0));
    var t3 := Step(t2, b.z, -1.0, 1.0);
    assert t3 == Interval(Fin(1.0), Fin(1.0));
  }

  // ---------------------------------------------------------------------------------------------
  // Intersection

  /** alpha = w . ((p - Q) x v): the coordinate of p along u. */
  function PlaneAlpha(qd: Quad, p: Point3): real { Dot(qd.w, Cross(Sub(p, qd.q), qd.v)) }

  /** beta = w . (u x (p - Q)): the coordinate of p along v. */
  function PlaneBeta(qd: Quad, p: Point3): real { Dot(qd.w, Cross(qd.u, Sub(p, qd.q))) }

  /** is_interior: both plane coordinates lie in the closed unit interval. */
  predicate IsInterior(alpha: real, beta: real): (inside: bool)
    ensures inside <==> 0.0 <= alpha <= 1.0 && 0.0 <= beta <= 1.0
  {
    !(alpha < 0.0 || 1.0 < alpha || beta < 0.0 || 1.0 < beta)
  }

  /** quad::intersect: plane hit, then the closed interval test, then the interior test. */
  function Intersect(qd: Quad, r: Ray, t: Interval): (hit: Option<HitRecord>)
    ensures Abs(Dot(qd.normal, r.dir)) < ParallelEpsilon ==> hit.None?
    ensures hit.Some? ==>
      var rec := hit.value;
      && t.Contains(rec.t)
      && rec.p == r.At(rec.t)
      && Dot(qd.normal, rec.p) == qd.d
      && rec.u == PlaneAlpha(qd, rec.p) && rec.v == PlaneBeta(qd, rec.p)
      && 0.0 <= rec.u <= 1.0 && 0.0 <= rec.v <= 1.0
      && rec.mat == qd.mat
      && (rec.frontFace <==> Dot(r.dir, qd.normal) < 0.0)
      && rec.normal == (if rec.frontFace then qd.normal else Neg(qd.normal))
  {
    var denominator := Dot(qd.normal, r.dir);
    var numerator := qd.d - Dot(qd.normal, r.orig);
    if Abs(denominator) < ParallelEpsilon then None
    else
      var s := numerator / denominator;
      if !t.Contains(s) then None
      else
        var p := r.At(s);
        var alpha, beta := PlaneAlpha(qd, p), PlaneBeta(qd, p);
        if !IsInterior(alpha, beta) then None
        else
          PlaneEquation(qd.normal, r, s, qd.d);
          Some(Record(p, qd.normal, s, false, qd.mat, alpha, beta).SetFaceNormal(r, qd.normal))
  }

  /** A parameter solving s (n . dir) = d - n . orig puts the ray's point on the plane n . p = d. */
  lemma PlaneEquation(n: Vec3, r: Ray, s: real, d: real)
    requires Dot(n, r.dir) != 0.0 && s == (d - Dot(n, r.orig)) / Dot(n, r.dir)
    ensures Dot(n, r.At(s)) == d
  {
    DotAlongRay(n, r, s, r.At(s));
    Quotient(s, Dot(n, r.dir), d - Dot(n, r.orig));
  }

  /** n . at(s) = n . orig + s (n . dir). */
  lemma DotAlongRay(n: Vec3, r: Ray, s: real, p: Point3)
    requires p == r.At(s)
    ensures Dot(n, p) == Dot(n, r.orig) + s * Dot(n, r.dir)
  {
  }

  /** s = e / k exactly when s k = e, for k != 0. */
  lemma Quotient(s: real, k: real, e: real)
    requires k != 0.0
    ensures s == e / k <==> s * k == e
  {
    if s * k == e {
      assert e / k == (s * k) / k;
    }
  }

  /**
   * The test is complete: a parameter inside t at which the ray meets the plane inside the
   * parallelogram, for a ray not parallel to it, is the hit intersect reports.
   */
  lemma IntersectComplete(qd: Quad, r: Ray, t: Interval, s: real)
    requires ParallelEpsilon <= Abs(Dot(qd.normal, r.dir))
    requires Dot(qd.normal, r.At(s)) == qd.d && t.Contains(s)
    requires IsInterior(PlaneAlpha(qd, r.At(s)), PlaneBeta(qd, r.At(s)))
    ensures Intersect(qd, r, t).Some? && Intersect(qd, r, t).value.t == s
  {
    PlaneParameter(qd.normal, qd.d, r, s);
  }

  /** The only parameter at which a ray not parallel to the plane n . p = d meets it is the quotient. */
  lemma PlaneParameter(n: Vec3, d: real, r: Ray, s: real)
    requires Dot(n, r.dir) != 0.0 && Dot(n, r.At(s)) == d
    ensures s == (d - Dot(n, r.orig)) / Dot(n, r.dir)
  {
    DotAlongRay(n, r, s, r.At(s));
    Quotient(s, Dot(n, r.dir), d - Dot(n, r.orig));
  }

  /** Coordinates recover the point: a point of the plane through Q is Q + alpha u + beta v. */
  lemma {:induction false} PlaneCoordinatesRecover(m: Libm, qd: Quad, p: Point3)
    requires qd.Valid(m) && Dot(qd.normal, p) == qd.d
    ensures p == PlanePoint(qd.q, qd.u, qd.v, PlaneAlpha(qd, p), PlaneBeta(qd, p))
  {
    var n, x := Cross(qd.u, qd.v), Sub(p, qd.q);
    OffsetInPlane(m, qd, p, n, x);
    CoordinateQuotients(qd, p, n, x, Dot(n, n));
    InPlaneRecover(qd.q, qd.u, qd.v, p, n, x);
  }

  /** A point whose offset x from q is perpendicular to n = u x v is q + a/k u + b/k v. */
  lemma InPlaneRecover(q: Point3, u: Vec3, v: Vec3, p: Point3, n: Vec3, x: Vec3)
    requires n == Cross(u, v) && Dot(n, n) != 0.0 && x == Sub(p, q) && Dot(n, x) == 0.0
    ensures p == PlanePoint(q, u, v, Dot(n, Cross(x, v)) / Dot(n, n), Dot(n, Cross(u, x)) / Dot(n, n))
  {
    Decompose(u, v, x);
    Reassemble(q, u, v, p, n, x, Dot(n, Cross(x, v)), Dot(n, Cross(u, x)), Dot(n, n));
  }

  /** The offset of a point of the plane from Q is perpendicular to u x v. */
  lemma OffsetInPlane(m: Libm, qd: Quad, p: Point3, n: Vec3, x: Vec3)
    requires NonDegenerate(m, qd.u, qd.v) && qd.normal == Unit(m, Cross(qd.u, qd.v))
    requires qd.d == Dot(qd.normal, qd.q) && Dot(qd.normal, p) == qd.d
    requires n == Cross(qd.u, qd.v) && x == Sub(p, qd.q)
    ensures Dot(n, x) == 0.0
  {
    DotSub(qd.normal, p, qd.q);
    DotDiv(n, x, Length(m, n));
  }

  /** The dot product distributes over a difference. */
  lemma DotSub(a: Vec3, p: Vec3, q: Vec3)
    ensures Dot(a, Sub(p, q)) == Dot(a, p) - Dot(a, q)
  {
  }

  /** alpha and beta are the triple products over n . n. */
  lemma CoordinateQuotients(qd: Quad, p: Point3, n: Vec3, x: Vec3, k: real)
    requires n == Cross(qd.u, qd.v) && k == Dot(n, n) && k != 0.0 && qd.w == Div(n, k) && x == Sub(p, qd.q)
    ensures PlaneAlpha(qd, p) == Dot(n, Cross(x, qd.v)) / k && PlaneBeta(qd, p) == Dot(n, Cross(qd.u, x)) / k
  {
    DotDiv(n, Cross(x, qd.v), k);
    DotDiv(n, Cross(qd.u, x), k);
  }

  /** Dividing the decomposition of x = p - Q by k, with no normal part, gives p. */
  lemma Reassemble(q: Point3, u: Vec3, v: Vec3, p: Point3, n: Vec3, x: Vec3, a: real, b: real, k: real)
    requires k != 0.0 && x == Sub(p, q) && Dot(n, x) == 0.0
    requires x.x * k == a * u.x + b * v.x + Dot(n, x) * n.x
    requires x.y * k == a * u.y + b * v.y + Dot(n, x) * n.y
    requires x.z * k == a * u.z + b * v.z + Dot(n, x) * n.z
    ensures p == PlanePoint(q, u, v, a / k, b / k)
  {
    DivideOut(x.x, k, a, u.x, b, v.x);
    DivideOut(x.y, k, a, u.y, b, v.y);
    DivideOut(x.z, k, a, u.z, b, v.z);
  }

  /**
   * (x . n) n + (n . (x x v)) u + (n . (u x x)) v = (n . n) x for n = u x v: the coordinates
   * of x in the frame u, v, n. Each coordinate is a polynomial identity over the components,
   * proved over named scalars so that the products stay small.
   */
  lemma Decompose(u: Vec3, v: Vec3, x: Vec3)
    ensures var n := Cross(u, v);
      var a, b, g, k := Dot(n, Cross(x, v)), Dot(n, Cross(u, x)), Dot(n, x), Dot(n, n);
      && x.x * k == a * u.x + b * v.x + g * n.x
      && x.y * k == a * u.y + b * v.y + g * n.y
      && x.z * k == a * u.z + b * v.z + g * n.z
  {
    DecomposeX(u, v, x);
    DecomposeY(u, v, x);
    DecomposeZ(u, v, x);
  }

  lemma DecomposeX(u: Vec3, v: Vec3, x: Vec3)
    ensures var n := Cross(u, v);
      x.x * Dot(n, n) == Dot(n, Cross(x, v)) * u.x + Dot(n, Cross(u, x)) * v.x + Dot(n, x) * n.x
  {
    var n, c, e := Cross(u, v), Cross(x, v), Cross(u, x);
    NamedX(u, v, x, n, c, e);
    DecomposeCoordinates(u.x, u.y, u.z, v.x, v.y, v.z, x.x, x.y, x.z, n.x, n.y, n.z, c.x, c.y, c.z, e.x, e.y, e.z,
      Dot(n, c), Dot(n, e), Dot(n, x), Dot(n, n));
  }

  lemma DecomposeY(u: Vec3, v: Vec3, x: Vec3)
    ensures var n := Cross(u, v);
      x.y * Dot(n, n) == Dot(n, Cross(x, v)) * u.y + Dot(n, Cross(u, x)) * v.y + Dot(n, x) * n.y
  {
    var n, c, e := Cross(u, v), Cross(x, v), Cross(u, x);
    NamedY(u, v, x, n, c, e);
    DecomposeCoordinates(u.y, u.z, u.x, v.y, v.z, v.x, x.y, x.z, x.x, n.y, n.z, n.x, c.y, c.z, c.x, e.y, e.z, e.x,
      Dot(n, c), Dot(n, e), Dot(n, x), Dot(n, n));
  }

  lemma DecomposeZ(u: Vec3, v: Vec3, x: Vec3)
    ensures var n := Cross(u, v);
      x.z * Dot(n, n) == Dot(n, Cross(x, v)) * u.z + Dot(n, Cross(u, x)) * v.z + Dot(n, x) * n.z
  {
    var n, c, e := Cross(u, v), Cross(x, v), Cross(u, x);
    NamedZ(u, v, x, n, c, e);
    DecomposeCoordinates(u.z, u.x, u.y, v.z, v.x, v.y, x.z, x.x, x.y, n.z, n.x, n.y, c.z, c.x, c.y, e.z, e.x, e.y,
      Dot(n, c), Dot(n, e), Dot(n, x), Dot(n, n));
  }

  /**
   * n = u x v, c = x x v and e = u x x componentwise, with a = n . c, b = n . e, g = n . x and
   * k = n . n.
   */
  predicate Named(ux: real, uy: real, uz: real, vx: real, vy: real, vz: real, x: real, y: real, z: real,
                  nx: real, ny: real, nz: real, cx: real, cy: real, cz: real, ex: real, ey: real, ez: real,
                  a: real, b: real, g: real, k: real)
  {
    && nx == uy * vz - uz * vy && ny == uz * vx - ux * vz && nz == ux * vy - uy * vx
    && cx == y * vz - z * vy && cy == z * vx - x * vz && cz == x * vy - y * vx
    && ex == uy * z - uz * y && ey == uz * x - ux * z && ez == ux * y - uy * x
    && a == nx * cx + ny * cy + nz * cz && b == nx * ex + ny * ey + nz * ez
    && g == nx * x + ny * y + nz * z && k == nx * nx + ny * ny + nz * nz
  }

  /** The components Decompose speaks of, in the orders x y z, y z x and z x y. */
  lemma NamedX(u: Vec3, v: Vec3, x: Vec3, n: Vec3, c: Vec3, e: Vec3)
    requires n == Cross(u, v) && c == Cross(x, v) && e == Cross(u, x)
    ensures Named(u.x, u.y, u.z, v.x, v.y, v.z, x.x, x.y, x.z, n.x, n.y, n.z, c.x, c.y, c.z, e.x, e.y, e.z,
        Dot(n, c), Dot(n, e), Dot(n, x), Dot(n, n))
  {
    CrossParts(u, v, n);
    CrossParts(x, v, c);
    CrossParts(u, x, e);
    DotParts(n, c);
    DotParts(n, e);
    DotParts(n, x);
    DotParts(n, n);
  }

  lemma NamedY(u: Vec3, v: Vec3, x: Vec3, n: Vec3, c: Vec3, e: Vec3)
    requires n == Cross(u, v) && c == Cross(x, v) && e == Cross(u, x)
    ensures Named(u.y, u.z, u.x, v.y, v.z, v.x, x.y, x.z, x.x, n.y, n.z, n.x, c.y, c.z, c.x, e.y, e.z, e.x,
        Dot(n, c), Dot(n, e), Dot(n, x), Dot(n, n))
  {
    CrossParts(u, v, n);
    CrossParts(x, v, c);
    CrossParts(u, x, e);
    DotParts(n, c);
    DotParts(n, e);
    DotParts(n, x);
    DotParts(n, n);
  }

  lemma NamedZ(u: Vec3, v: Vec3, x: Vec3, n: Vec3, c: Vec3, e: Vec3)
    requires n == Cross(u, v) && c == Cross(x, v) && e == Cross(u, x)
    ensures Named(u.z, u.x, u.y, v.z, v.x, v.y, x.z, x.x, x.y, n.z, n.x, n.y, c.z, c.x, c.y, e.z, e.x, e.y,
        Dot(n, c), Dot(n, e), Dot(n, x), Dot(n, n))
  {
    CrossParts(u, v, n);
    CrossParts(x, v, c);
    CrossParts(u, x, e);
    DotParts(n, c);
    DotParts(n, e);
    DotParts(n, x);
    DotParts(n, n);
  }

  lemma CrossParts(a: Vec3, b: Vec3, n: Vec3)
    requires n == Cross(a, b)
    ensures n.x == a.y * b.z - a.z * b.y && n.y == a.z * b.x - a.x * b.z && n.z == a.x * b.y - a.y * b.x
  {
  }

  lemma DotParts(a: Vec3, b: Vec3)
    ensures Dot(a, b) == a.x * b.x + a.y * b.y + a.z * b.z
  {
  }

  /** The first coordinate of Decompose over named quantities. */
  lemma DecomposeCoordinates(ux: real, uy: real, uz: real, vx: real, vy: real, vz: real, x: real, y: real, z: real,
                             nx: real, ny: real, nz: real, cx: real, cy: real, cz: real, ex: real, ey: real, ez: real,
                             a: real, b: real, g: real, k: real)
    requires Named(ux, uy, uz, vx, vy, vz, x, y, z, nx, ny, nz, cx, cy, cz, ex, ey, ez, a, b, g, k)
    ensures x * k == a * ux + b * vx + g * nx
  {
    ExpandA(ux, uy, uz, vx, vy, vz, x, y, z, nx, ny, nz, cx, cy, cz, a);
    ExpandB(ux, uy, uz, vx, vy, vz, x, y, z, nx, ny, nz, ex, ey, ez, b);
    ExpandG(ux, uy, uz, vx, vy, vz, x, y, z, nx, ny, nz, g);
    ExpandK(ux, uy, uz, vx, vy, vz, nx, ny, nz, k);
    DecomposePolynomial(ux, uy, uz, vx, vy, vz, x, y, z, nx, a, b, g, k);
  }

  lemma ExpandA(ux: real, uy: real, uz: real, vx: real, vy: real, vz: real, x: real, y: real, z: real,
                nx: real, ny: real, nz: real, cx: real, cy: real, cz: real, a: real)
    requires nx == uy * vz - uz * vy && ny == uz * vx - ux * vz && nz == ux * vy - uy * vx
    requires cx == y * vz - z * vy && cy == z * vx - x * vz && cz == x * vy - y * vx
    requires a == nx * cx + ny * cy + nz * cz
    ensures a == (uy * vz - uz * vy) * (y * vz - z * vy) + (uz * vx - ux * vz) * (z * vx - x * vz)
      + (ux * vy - uy * vx) * (x * vy - y * vx)
  {
    Dot3(nx, ny, nz, cx, cy, cz, uy * vz - uz * vy, uz * vx - ux * vz, ux * vy - uy * vx,
      y * vz - z * vy, z * vx - x * vz, x * vy - y * vx);
  }

  lemma ExpandB(ux: real, uy: real, uz: real, vx: real, vy: real, vz: real, x: real, y: real, z: real,
                nx: real, ny: real, nz: real, ex: real, ey: real, ez: real, b: real)
    requires nx == uy * vz - uz * vy && ny == uz * vx - ux * vz && nz == ux * vy - uy * vx
    requires ex == uy * z - uz * y && ey == uz * x - ux * z && ez == ux * y - uy * x
    requires b == nx * ex + ny * ey + nz * ez
    ensures b == (uy * vz - uz * vy) * (uy * z - uz * y) + (uz * vx - ux * vz) * (uz * x - ux * z)
      + (ux * vy - uy * vx) * (ux * y - uy * x)
  {
    Dot3(nx, ny, nz, ex, ey, ez, uy * vz - uz * vy, uz * vx - ux * vz, ux * vy - uy * vx,
      uy * z - uz * y, uz * x - ux * z, ux * y - uy * x);
  }

  lemma ExpandG(ux: real, uy: real, uz: real, vx: real, vy: real, vz: real, x: real, y: real, z: real,
                nx: real, ny: real, nz: real, g: real)
    requires nx == uy * vz - uz * vy && ny == uz * vx - ux * vz && nz == ux * vy - uy * vx
    requires g == nx * x + ny * y + nz * z
    ensures g == (uy * vz - uz * vy) * x + (uz * vx - ux * vz) * y + (ux * vy - uy * vx) * z
  {
    Dot3(nx, ny, nz, x, y, z, uy * vz - uz * vy, uz * vx - ux * vz, ux * vy - uy * vx, x, y, z);
  }

  lemma ExpandK(ux: real, uy: real, uz: real, vx: real, vy: real, vz: real, nx: real, ny: real, nz: real, k: real)
    requires nx == uy * vz - uz * vy && ny == uz * vx - ux * vz && nz == ux * vy - uy * vx
    requires k == nx * nx + ny * ny + nz * nz
    ensures k == (uy * vz - uz * vy) * (uy * vz - uz * vy) + (uz * vx - ux * vz) * (uz * vx - ux * vz)
      + (ux * vy - uy * vx) * (ux * vy - uy * vx)
  {
    Dot3(nx, ny, nz, nx, ny, nz, uy * vz - uz * vy, uz * vx - ux * vz, ux * vy - uy * vx,
      uy * vz - uz * vy, uz * vx - ux * vz, ux * vy - uy * vx);
  }

  /** A dot product of named components equals the dot product of the polynomials they name. */
  lemma Dot3(p1: real, p2: real, p3: real, q1: real, q2: real, q3: real,
             e1: real, e2: real, e3: real, f1: real, f2: real, f3: real)
    requires p1 == e1 && p2 == e2 && p3 == e3 && q1 == f1 && q2 == f2 && q3 == f3
    ensures p1 * q1 + p2 * q2 + p3 * q3 == e1 * f1 + e2 * f2 + e3 * f3
  {
  }

  lemma DecomposePolynomial(ux: real, uy: real, uz: real, vx: real, vy: real, vz: real, x: real, y: real, z: real,
                            nx: real, a: real, b: real, g: real, k: real)
    requires nx == uy * vz - uz * vy
    requires a == (uy * vz - uz * vy) * (y * vz - z * vy) + (uz * vx - ux * vz) * (z * vx - x * vz)
      + (ux * vy - uy * vx) * (x * vy - y * vx)
    requires b == (uy * vz - uz * vy) * (uy * z - uz * y) + (uz * vx - ux * vz) * (uz * x - ux * z)
      + (ux * vy - uy * vx) * (ux * y - uy * x)
    requires g == (uy * vz - uz * vy) * x + (uz * vx - ux * vz) * y + (ux * vy - uy * vx) * z
    requires k == (uy * vz - uz * vy) * (uy * vz - uz * vy) + (uz * vx - ux * vz) * (uz * vx - ux * vz)
      + (ux * vy - uy * vx) * (ux * vy - uy * vx)
    ensures x * k == a * ux + b * vx + g * nx
  {
    Congruent(x, x, k,
      (uy * vz - uz * vy) * (uy * vz - uz * vy) + (uz * vx - ux * vz) * (uz * vx - ux * vz)
      + (ux * vy - uy * vx) * (ux * vy - uy * vx));
    Congruent(a,
      (uy * vz - uz * vy) * (y * vz - z * vy) + (uz * vx - ux * vz) * (z * vx - x * vz)
      + (ux * vy - uy * vx) * (x * vy - y * vx), ux, ux);
    Congruent(b,
      (uy * vz - uz * vy) * (uy * z - uz * y) + (uz * vx - ux * vz) * (uz * x - ux * z)
      + (ux * vy - uy * vx) * (ux * y - uy * x), vx, vx);
    Congruent(g, (uy * vz - uz * vy) * x + (uz * vx - ux * vz) * y + (ux * vy - uy * vx) * z, nx, uy * vz - uz * vy);
    DecomposeExpanded(ux, uy, uz, vx, vy, vz, x, y, z);
  }

  /** Equal factors give equal products. */
  lemma Congruent(a1: real, a2: real, b1: real, b2: real)
    requires a1 == a2 && b1 == b2
    ensures a1 * b1 == a2 * b2
  {
  }

  lemma DecomposeExpanded(ux: real, uy: real, uz: real, vx: real, vy: real, vz: real, x: real, y: real, z: real)
    ensures var nx, ny, nz := uy * vz - uz * vy, uz * vx - ux * vz, ux * vy - uy * vx;
      var a := nx * (y * vz - z * vy) + ny * (z * vx - x * vz) + nz * (x * vy - y * vx);
      var b := nx * (uy * z - uz * y) + ny * (uz * x - ux * z) + nz * (ux * y - uy * x);
      x * (nx * nx + ny * ny + nz * nz) == a * ux + b * vx + (nx * x + ny * y + nz * z) * nx
  {
  }

  lemma DivideOut(x: real, k: real, a: real, ux: real, b: real, vx: real)
    requires k != 0.0 && x * k == a * ux + b * vx
    ensures x == (a / k) * ux + (b / k) * vx
  {
    assert ((a / k) * ux + (b / k) * vx) * k == a * ux + b * vx;
  }

  /** Coordinates of a plane point: Q + alpha u + beta v has coordinates (alpha, beta). */
  lemma {:induction false} PlaneCoordinatesOf(m: Libm, qd: Quad, alpha: real, beta: real)
    requires qd.Valid(m)
    ensures var p := PlanePoint(qd.q, qd.u, qd.v, alpha, beta);
      Dot(qd.normal, p) == qd.d && PlaneAlpha(qd, p) == alpha && PlaneBeta(qd, p) == beta
  {
    var n := Cross(qd.u, qd.v);
    var p := PlanePoint(qd.q, qd.u, qd.v, alpha, beta);
    DerivedGeometry(m, qd);
    SpanOffset(qd.q, qd.u, qd.v, alpha, beta, p, Sub(p, qd.q));
    OnPlaneOf(qd.normal, qd.q, qd.u, qd.v, alpha, beta, p, Sub(p, qd.q));
    CoordinatesOf(qd, alpha, beta, n, Dot(n, n), p, Sub(p, qd.q));
  }

  /** The offset of Q + alpha u + beta v from Q is alpha u + beta v. */
  lemma SpanOffset(q: Point3, u: Vec3, v: Vec3, alpha: real, beta: real, p: Point3, x: Vec3)
    requires p == PlanePoint(q, u, v, alpha, beta) && x == Sub(p, q)
    ensures x == Add(Scale(alpha, u), Scale(beta, v))
  {
  }

  /** A normal perpendicular to both edges gives every point of the plane the same dot product. */
  lemma OnPlaneOf(normal: Vec3, q: Point3, u: Vec3, v: Vec3, alpha: real, beta: real, p: Point3, x: Vec3)
    requires Dot(normal, u) == 0.0 && Dot(normal, v) == 0.0
    requires x == Sub(p, q) && x == Add(Scale(alpha, u), Scale(beta, v))
    ensures Dot(normal, p) == Dot(normal, q)
  {
    DotSub(normal, p, q);
    DotCombination(normal, u, v, alpha, beta, x);
  }

  /** The dot product is linear in its second argument. */
  lemma DotCombination(a: Vec3, u: Vec3, v: Vec3, alpha: real, beta: real, x: Vec3)
    requires x == Add(Scale(alpha, u), Scale(beta, v))
    ensures Dot(a, x) == alpha * Dot(a, u) + beta * Dot(a, v)
    ensures Dot(x, a) == alpha * Dot(u, a) + beta * Dot(v, a)
  {
  }

  /** The plane coordinates of Q + alpha u + beta v are alpha and beta. */
  lemma CoordinatesOf(qd: Quad, alpha: real, beta: real, n: Vec3, k: real, p: Point3, x: Vec3)
    requires n == Cross(qd.u, qd.v) && k == Dot(n, n) && k != 0.0 && qd.w == Div(n, k)
    requires x == Sub(p, qd.q) && x == Add(Scale(alpha, qd.u), Scale(beta, qd.v))
    ensures PlaneAlpha(qd, p) == alpha && PlaneBeta(qd, p) == beta
  {
    CoordinateQuotients(qd, p, n, x, k);
    AlphaOfSpan(qd.u, qd.v, alpha, beta, x, n, k);
    BetaOfSpan(qd.u, qd.v, alpha, beta, x, n, k);
    Quotient(alpha, k, Dot(n, Cross(x, qd.v)));
    Quotient(beta, k, Dot(n, Cross(qd.u, x)));
  }

  /** n . (x x v) = alpha (n . n) for x = alpha u + beta v and n = u x v. */
  lemma AlphaOfSpan(u: Vec3, v: Vec3, alpha: real, beta: real, x: Vec3, n: Vec3, k: real)
    requires x == Add(Scale(alpha, u), Scale(beta, v)) && n == Cross(u, v) && k == Dot(n, n)
    ensures Dot(n, Cross(x, v)) == alpha * k
  {
    TripleCyclic(n, x, v);
    DotCombination(Cross(v, n), u, v, alpha, beta, x);
    CrossPerpendicular(v, n);
    TripleCyclic(n, u, v);
  }

  /** n . (u x x) = beta (n . n) for x = alpha u + beta v and n = u x v. */
  lemma BetaOfSpan(u: Vec3, v: Vec3, alpha: real, beta: real, x: Vec3, n: Vec3, k: real)
    requires x == Add(Scale(alpha, u), Scale(beta, v)) && n == Cross(u, v) && k == Dot(n, n)
    ensures Dot(n, Cross(u, x)) == beta * k
  {
    TripleCyclic(n, u, x);
    DotCombination(Cross(n, u), u, v, alpha, beta, x);
    CrossPerpendicular(n, u);
    TripleCyclic(v, n, u);
  }

  /** The scalar triple product is invariant under cyclic shifts: a . (b x c) = b . (c x a) = c . (a x b). */
  lemma TripleCyclic(a: Vec3, b: Vec3, c: Vec3)
    ensures Dot(a, Cross(b, c)) == Dot(b, Cross(c, a)) && Dot(a, Cross(b, c)) == Dot(c, Cross(a, b))
  {
    TripleShift(a, b, c);
    TripleShift(b, c, a);
  }

  lemma TripleShift(a: Vec3, b: Vec3, c: Vec3)
    ensures Dot(a, Cross(b, c)) == Dot(b, Cross(c, a))
  {
    Triple(a.x, a.y, a.z, b.x, b.y, b.z, c.x, c.y, c.z);
  }

  lemma Triple(a1: real, a2: real, a3: real, b1: real, b2: real, b3: real, c1: real, c2: real, c3: real)
    ensures a1 * (b2 * c3 - b3 * c2) + a2 * (b3 * c1 - b1 * c3) + a3 * (b1 * c2 - b2 * c1)
         == b1 * (c2 * a3 - c3 * a2) + b2 * (c3 * a1 - c1 * a3) + b3 * (c1 * a2 - c2 * a1)
  {
  }

  /** Every reported hit lies on the parallelogram and inside the corrected box. */
  lemma HitInsideBox(m: Libm, qd: Quad, r: Ray, t: Interval)
    requires qd.Valid(m) && Intersect(qd, r, t).Some?
    ensures var rec := Intersect(qd, r, t).value;
      rec.p == PlanePoint(qd.q, qd.u, qd.v, rec.u, rec.v) && qd.box.Contains(rec.p)
  {
    var rec := Intersect(qd, r, t).value;
    PlaneCoordinatesRecover(m, qd, rec.p);
    CorrectedBoxContains(qd.q, qd.u, qd.v, rec.u, rec.v);
  }

  // ---------------------------------------------------------------------------------------------
  // Light sampling

  /**
   * get_pdf: 0 when the probe from origin along direction misses, else the solid-angle density
   * distance^2 / (cosine * area).
   */
  function GetPdf(m: Libm, qd: Quad, origin: Point3, direction: Vec3): (pdf: real)
    requires m.SqrtLaws() && 0.0 < qd.area
    ensures pdf == 0.0 <==> Intersect(qd, Ray(origin, direction, 0.0), PdfProbe).None?
    ensures 0.0 <= pdf
  {
    var r := Ray(origin, direction, 0.0);
    match Intersect(qd, r, PdfProbe)
    case None => 0.0
    case Some(rec) =>
      ProbeDirectionNonzero(m, qd.normal, direction);
      var distanceSquared := rec.t * rec.t * direction.LengthSquared();
      var cosine := Abs(Dot(direction, rec.normal) / Length(m, direction));
      PdfPositive(m, qd, r, rec, distanceSquared, cosine);
      distanceSquared / (cosine * qd.area)
  }

  /** A direction with a nonzero component along the normal has a positive length. */
  lemma ProbeDirectionNonzero(m: Libm, n: Vec3, dir: Vec3)
    requires m.SqrtLaws() && ParallelEpsilon <= Abs(Dot(n, dir))
    ensures 0.0 < dir.LengthSquared() && 0.0 < Length(m, dir)
  {
    NonzeroDot(n.x, n.y, n.z, dir.x, dir.y, dir.z);
    LengthSquaredPositive(dir);
  }

  lemma NonzeroDot(a1: real, a2: real, a3: real, b1: real, b2: real, b3: real)
    requires a1 * b1 + a2 * b2 + a3 * b3 != 0.0
    ensures b1 != 0.0 || b2 != 0.0 || b3 != 0.0
  {
  }

  lemma LengthSquaredPositive(a: Vec3)
    requires a.x != 0.0 || a.y != 0.0 || a.z != 0.0
    ensures 0.0 < a.LengthSquared()
  {
    LengthSquaredNonnegative(a);
    ZeroLengthSquared(a);
  }

  /** Only the zero vector has squared length zero. */
  lemma ZeroLengthSquared(a: Vec3)
    ensures a.LengthSquared() == 0.0 ==> a.x == 0.0 && a.y == 0.0 && a.z == 0.0
  {
    SquareNonnegative(a.x);
    SquareNonnegative(a.y);
    SquareNonnegative(a.z);
    SquareZero(a.x);
    SquareZero(a.y);
    SquareZero(a.z);
  }

  lemma SquareZero(x: real)
    ensures x * x == 0.0 ==> x == 0.0
  {
    if x != 0.0 {
      assert x * x / x == x;
    }
  }

  lemma SquarePositive(x: real)
    requires x != 0.0
    ensures 0.0 < x * x
  {
    if x < 0.0 {
      assert x * x == (-x) * (-x);
    }
  }

  lemma PdfPositive(m: Libm, qd: Quad, r: Ray, rec: HitRecord, distanceSquared: real, cosine: real)
    requires m.SqrtLaws() && 0.0 < qd.area
    requires Intersect(qd, r, PdfProbe) == Some(rec)
    requires 0.0 < r.dir.LengthSquared() && 0.0 < Length(m, r.dir)
    requires distanceSquared == rec.t * rec.t * r.dir.LengthSquared()
    requires cosine == Abs(Dot(r.dir, rec.normal) / Length(m, r.dir))
    ensures 0.0 < distanceSquared && 0.0 < cosine * qd.area && 0.0 < distanceSquared / (cosine * qd.area)
  {
    ProbeHitFacing(qd, r, rec);
    PositiveRatio(rec.t, r.dir.LengthSquared(), Dot(r.dir, rec.normal), Length(m, r.dir), qd.area,
      distanceSquared, cosine);
  }

  /** A probe hit lies at least 0.001 along the ray, and the ray is not parallel to the normal it reports. */
  lemma ProbeHitFacing(qd: Quad, r: Ray, rec: HitRecord)
    requires Intersect(qd, r, PdfProbe) == Some(rec)
    ensures 0.001 <= rec.t && Dot(r.dir, rec.normal) != 0.0
  {
    var den := Dot(qd.normal, r.dir);
    assert Dot(r.dir, rec.normal) == den || Dot(r.dir, rec.normal) == -den;
  }

  lemma PositiveRatio(t: real, ls: real, dn: real, l: real, area: real, ds: real, cosine: real)
    requires 0.001 <= t && 0.0 < ls && dn != 0.0 && 0.0 < l && 0.0 < area
    requires ds == t * t * ls && cosine == Abs(dn / l)
    ensures 0.0 < ds && 0.0 < cosine * area && 0.0 < ds / (cosine * area)
  {
    assert dn / l != 0.0;
    assert 0.0 < cosine;
    assert 0.0 < t * t;
    assert 0.0 < t * t * ls;
  }

  /** randomDir: from origin to the quad's point at the two uniform draws. */
  function RandomDir(qd: Quad, origin: Point3, draw1: real, draw2: real): (dir: Vec3)
    ensures Add(origin, dir) == PlanePoint(qd.q, qd.u, qd.v, draw1, draw2)
  {
    Sub(PlanePoint(qd.q, qd.u, qd.v, draw1, draw2), origin)
  }

  /** The sampled target lies on the quad's plane, at coordinates equal to the draws, hence inside it. */
  lemma RandomDirOnQuad(m: Libm, qd: Quad, origin: Point3, draw1: real, draw2: real)
    requires qd.Valid(m) && 0.0 <= draw1 < 1.0 && 0.0 <= draw2 < 1.0
    ensures var p := Add(origin, RandomDir(qd, origin, draw1, draw2));
      Dot(qd.normal, p) == qd.d && IsInterior(PlaneAlpha(qd, p), PlaneBeta(qd, p))
      && qd.box.Contains(p)
  {
    PlaneCoordinatesOf(m, qd, draw1, draw2);
    CorrectedBoxContains(qd.q, qd.u, qd.v, draw1, draw2);
  }

  // ---------------------------------------------------------------------------------------------
  // Transformations

  /** translate(dir): only Q moves; the edges, the material and the area are kept. */
  function Translate(m: Libm, qd: Quad, dir: Vec3): (qd': Quad)
    requires NonDegenerate(m, qd.u, qd.v)
    ensures qd'.q == Add(qd.q, dir) && qd'.u == qd.u && qd'.v == qd.v && qd'.mat == qd.mat
    ensures qd'.area == qd.area
  {
    Derived(m, Add(qd.q, dir), qd.u, qd.v, qd.mat, qd.area)
  }

  /** Translating a valid quad keeps it valid, with the same normal and w and the plane offset moved by normal . dir. */
  lemma TranslateValid(m: Libm, qd: Quad, dir: Vec3)
    requires qd.Valid(m)
    ensures var qd' := Translate(m, qd, dir);
      && qd'.Valid(m) && qd'.normal == qd.normal && qd'.w == qd.w && qd'.d == qd.d + Dot(qd.normal, dir)
  {
    DotAdd(qd.normal, qd.q, dir);
  }

  lemma DotAdd(a: Vec3, b: Vec3, c: Vec3)
    ensures Dot(a, Add(b, c)) == Dot(a, b) + Dot(a, c)
  {
  }

  /**
   * rotate(degree, axis): Q, u and v go through the same rows and the other fields are derived
   * again, except the area, which keeps its value. The rotated edges must still span a plane.
   * A true rotation keeps them independent, but sin and cos are left uninterpreted here, so no
   * caller can derive this from the rows: every caller takes it as a hypothesis of its own
   * (`Worlds.Rotatable` states it for an object, and `Worlds.World.Rotate` requires it).
   */
  function Rotate(m: Libm, qd: Quad, degree: real, axis: int): (qd': Quad)
    requires var rows := RotationRows(m, degree, axis); NonDegenerate(m, Apply(rows, qd.u), Apply(rows, qd.v))
    ensures var rows := RotationRows(m, degree, axis);
      qd'.q == Apply(rows, qd.q) && qd'.u == Apply(rows, qd.u) && qd'.v == Apply(rows, qd.v)
    ensures qd'.mat == qd.mat && qd'.area == qd.area
    ensures 0.0 < qd.area ==> qd'.Valid(m)
  {
    var rows := RotationRows(m, degree, axis);
    Derived(m, Apply(rows, qd.q), Apply(rows, qd.u), Apply(rows, qd.v), qd.mat, qd.area)
  }

  /** With an axis outside 0..2 every edge collapses to zero, so no quad can be rotated that way. */
  lemma BadAxisDegenerates(m: Libm, qd: Quad, degree: real, axis: int)
    requires !(0 <= axis < 3)
    ensures var rows := RotationRows(m, degree, axis); !NonDegenerate(m, Apply(rows, qd.u), Apply(rows, qd.v))
  {
    BadAxisCollapses(m, degree, axis, qd.u);
    BadAxisCollapses(m, degree, axis, qd.v);
  }

  // ---------------------------------------------------------------------------------------------
  // The six-sided box

  /** One side of box(a, b): its corner Q and its two edges. */
  datatype Side = Side(q: Point3, u: Vec3, v: Vec3)

  /** The componentwise minimum and maximum corners. */
  function MinCorner(a: Point3, b: Point3): Point3 { Vec3(Fmin(a.x, b.x), Fmin(a.y, b.y), Fmin(a.z, b.z)) }
  function MaxCorner(a: Point3, b: Point3): Point3 { Vec3(Fmax(a.x, b.x), Fmax(a.y, b.y), Fmax(a.z, b.z)) }

  /** The sides front, right, back, left, top and bottom, in the order box() adds them. */
  function BoxSides(a: Point3, b: Point3): (sides: seq<Side>)
    ensures |sides| == 6
    ensures forall i :: 0 <= i < 6 ==>
      && BoxCorner(sides[i].q, a, b) && BoxCorner(Add(sides[i].q, sides[i].u), a, b)
      && BoxCorner(Add(sides[i].q, sides[i].v), a, b) && BoxCorner(Add(Add(sides[i].q, sides[i].u), sides[i].v), a, b)
  {
    var lo, hi := MinCorner(a, b), MaxCorner(a, b);
    var dx := Vec3(hi.x - lo.x, 0.0, 0.0);
    var dy := Vec3(0.0, hi.y - lo.y, 0.0);
    var dz := Vec3(0.0, 0.0, hi.z - lo.z);
    [ Side(Vec3(lo.x, lo.y, hi.z), dx, dy),
      Side(Vec3(hi.x, lo.y, hi.z), Neg(dz), dy),
      Side(Vec3(hi.x, lo.y, lo.z), Neg(dx), dy),
      Side(Vec3(lo.x, lo.y, lo.z), dz, dy),
      Side(Vec3(lo.x, hi.y, hi.z), dx, Neg(dz)),
      Side(Vec3(lo.x, lo.y, lo.z), dx, dz) ]
  }

  /** p is a vertex of the box with opposite corners a and b. */
  predicate BoxCorner(p: Point3, a: Point3, b: Point3)
  {
    && (p.x == Fmin(a.x, b.x) || p.x == Fmax(a.x, b.x))
    && (p.y == Fmin(a.y, b.y) || p.y == Fmax(a.y, b.y))
    && (p.z == Fmin(a.z, b.z) || p.z == Fmax(a.z, b.z))
  }

  /** Every side spans a plane when the box has positive extent on all three axes. */
  predicate SidesNonDegenerate(m: Libm, sides: seq<Side>)
  {
    forall i :: 0 <= i < |sides| ==> NonDegenerate(m, sides[i].u, sides[i].v)
  }

  /** box(a, b, material): the six quads the returned scene holds, in order. */
  function Box(m: Libm, a: Point3, b: Point3, mat: Material): (quads: seq<Quad>)
    requires SidesNonDegenerate(m, BoxSides(a, b))
    ensures |quads| == 6
    ensures forall i :: 0 <= i < 6 ==>
      var s := BoxSides(a, b)[i]; quads[i] == MakeQuad(m, s.q, s.u, s.v, mat) && quads[i].Valid(m)
  {
    var sides := BoxSides(a, b);
    seq(6, i requires 0 <= i < 6 => MakeQuad(m, sides[i].q, sides[i].u, sides[i].v, mat))
  }

  /** A vector along one axis has the square of its one coordinate as its squared length. */
  lemma AxisSquare(n: Vec3, p: real)
    requires n == Vec3(p, 0.0, 0.0) || n == Vec3(0.0, p, 0.0) || n == Vec3(0.0, 0.0, p)
    ensures Dot(n, n) == p * p
  {
  }

  /** box(a, b) and box(b, a) are the same six quads. */
  lemma BoxSymmetric(a: Point3, b: Point3)
    ensures BoxSides(a, b) == BoxSides(b, a)
  {
    assert MinCorner(a, b) == MinCorner(b, a) && MaxCorner(a, b) == MaxCorner(b, a);
  }

  /** With a sqrt that is positive on positive reals, a box with extent on every axis has no flat side. */
  lemma {:induction false} BoxSidesNonDegenerate(m: Libm, a: Point3, b: Point3)
    requires m.SqrtLaws() && a.x != b.x && a.y != b.y && a.z != b.z
    ensures SidesNonDegenerate(m, BoxSides(a, b))
  {
    var lo, hi := MinCorner(a, b), MaxCorner(a, b);
    var ex, ey, ez := hi.x - lo.x, hi.y - lo.y, hi.z - lo.z;
    assert ex != 0.0 && ey != 0.0 && ez != 0.0;
    var sides := BoxSides(a, b);
    forall i | 0 <= i < 6
      ensures NonDegenerate(m, sides[i].u, sides[i].v)
    {
      var u, v := sides[i].u, sides[i].v;
      if i == 0 {
        AxisEdges(m, u, ex, 0, v, ey, 1, ex * ey);
      } else if i == 1 {
        AxisEdges(m, u, -ez, 2, v, ey, 1, -ez * ey);
      } else if i == 2 {
        AxisEdges(m, u, -ex, 0, v, ey, 1, -ex * ey);
      } else if i == 3 {
        AxisEdges(m, u, ez, 2, v, ey, 1, ez * ey);
      } else if i == 4 {
        AxisEdges(m, u, ex, 0, v, -ez, 2, ex * -ez);
      } else {
        AxisEdges(m, u, ex, 0, v, ez, 2, ex * ez);
      }
    }
  }

  /** w lies along axis k with signed length e. */
  predicate OnAxis(w: Vec3, e: real, k: int)
  {
    w == (if k == 0 then Vec3(e, 0.0, 0.0) else if k == 1 then Vec3(0.0, e, 0.0) else Vec3(0.0, 0.0, e))
  }

  /** Two edges of nonzero length along different axes span a plane. */
  lemma AxisEdges(m: Libm, u: Vec3, e: real, i: int, v: Vec3, f: real, j: int, ef: real)
    requires m.SqrtLaws() && e != 0.0 && f != 0.0 && ef == e * f
    requires 0 <= i < 3 && 0 <= j < 3 && i != j && OnAxis(u, e, i) && OnAxis(v, f, j)
    ensures NonDegenerate(m, u, v)
  {
    var n := Cross(u, v);
    assert ef != 0.0;
    assert n.x == ef || n.x == -ef || n.y == ef || n.y == -ef || n.z == ef || n.z == -ef;
    LengthSquaredPositive(n);
    assert Dot(n, n) == n.LengthSquared();
  }
}
