/**
 * Spheres (sphere.h): stationary or moving linearly over the shutter interval. A sphere is a
 * value; rotate and translate return the updated sphere, and the world's arena holds it.
 */
module Spheres {
  import opened Wrappers
  import opened Numerics
  import opened Vectors
  import opened Intervals
  import opened Rays
  import opened Boxes
  import opened Records
  import opened Materials

  /**
   * A stationary sphere keeps the default (zero) motion vector. The box is stored, as in
   * the source, and Consistent says it is the one the constructors would compute.
   */
  datatype Sphere = Sphere(center1: Point3, isMoving: bool, movingDir: Vec3, radius: real, mat: Material, box: BBox)
  {
    /** get_current_center(time) = center1 + time * moving_dir. */
    function CurrentCenter(time: real): Point3
    {
      Add(center1, Scale(time, movingDir))
    }

    /** The center intersect uses for a ray at the given time. */
    function CenterAt(time: real): Point3
    {
      if isMoving then CurrentCenter(time) else center1
    }

    predicate Consistent()
    {
      box == SweptBox(center1, isMoving, movingDir, radius)
    }
  }

  function Radii(r: real): Vec3 { Vec3(r, r, r) }

  /** bbox(c - (r, r, r), c + (r, r, r)). */
  function CenterBox(c: Point3, r: real): BBox
  {
    FromPoints(Sub(c, Radii(r)), Add(c, Radii(r)))
  }

  /** The box a sphere recomputes after construction, rotate or translate. */
  function SweptBox(c1: Point3, isMoving: bool, movingDir: Vec3, r: real): BBox
  {
    if isMoving then Union(CenterBox(c1, r), CenterBox(Add(movingDir, c1), r)) else CenterBox(c1, r)
  }

  /**
   * Each slab of the box around c is [c - |r|, c + |r|]: the two-point constructor orders the
   * corners, so a negative radius still gives a well-formed box.
   */
  lemma CenterBoxSlabs(c: Point3, r: real, n: int)
    requires 0 <= n < 3
    ensures CenterBox(c, r).Axis(n) == Interval(Fin(c.At(n) - Abs(r)), Fin(c.At(n) + Abs(r)))
  {
  }

  /** sphere(center, radius, material). */
  function Stationary(center: Point3, radius: real, mat: Material): (s: Sphere)
    ensures !s.isMoving && s.center1 == center && s.movingDir == Zero
    ensures s.radius == radius && s.mat == mat
    ensures s.box == CenterBox(center, radius) && s.Consistent()
  {
    Sphere(center, false, Zero, radius, mat, CenterBox(center, radius))
  }

  /** sphere(center1, center2, radius, material): the box covers both end positions. */
  function Moving(c1: Point3, c2: Point3, radius: real, mat: Material): (s: Sphere)
    ensures s.isMoving && s.center1 == c1 && s.movingDir == Sub(c2, c1)
    ensures s.radius == radius && s.mat == mat
    ensures s.box == Union(CenterBox(c1, radius), CenterBox(c2, radius)) && s.Consistent()
  {
    assert Add(Sub(c2, c1), c1) == c2;
    Sphere(c1, true, Sub(c2, c1), radius, mat, Union(CenterBox(c1, radius), CenterBox(c2, radius)))
  }

  /** A moving sphere is at its first center at time 0 and at its second at time 1. */
  lemma MovingEndpoints(c1: Point3, c2: Point3, radius: real, mat: Material)
    ensures Moving(c1, c2, radius, mat).CurrentCenter(0.0) == c1
    ensures Moving(c1, c2, radius, mat).CurrentCenter(1.0) == c2
  {
  }

  /** translate(dir): the first center moves by dir, the motion is kept, the box recomputed. */
  function Translate(s: Sphere, dir: Vec3): (s': Sphere)
    ensures s'.center1 == Add(s.center1, dir)
    ensures s'.isMoving == s.isMoving && s'.movingDir == s.movingDir
    ensures s'.radius == s.radius && s'.mat == s.mat
    ensures s'.Consistent()
  {
    var c := Vec3(s.center1.x + dir.x, s.center1.y + dir.y, s.center1.z + dir.z);
    s.(center1 := c, box := SweptBox(c, s.isMoving, s.movingDir, s.radius))
  }

  /** rotate(degree, axis): the first center and the motion go through the same rows. */
  function Rotate(m: Libm, s: Sphere, degree: real, axis: int): (s': Sphere)
    ensures var rows := RotationRows(m, degree, axis);
      s'.center1 == Apply(rows, s.center1) && s'.movingDir == Apply(rows, s.movingDir)
    ensures s'.isMoving == s.isMoving && s'.radius == s.radius && s'.mat == s.mat
    ensures s'.Consistent()
  {
    var rows := RotationRows(m, degree, axis);
    var c := Apply(rows, s.center1);
    var d := Apply(rows, s.movingDir);
    s.(center1 := c, movingDir := d, box := SweptBox(c, s.isMoving, d, s.radius))
  }

  // ---------------------------------------------------------------------------------------------
  // Intersection

  /** The quadratic a t^2 + 2 halfB t + c = 0 whose roots are the ray parameters on the sphere. */
  datatype Quadratic = Quadratic(a: real, halfB: real, c: real)

  function QuadraticOf(s: Sphere, r: Ray): Quadratic
  {
    var oc := Sub(r.orig, s.CenterAt(r.tm));
    Quadratic(r.dir.LengthSquared(), Dot(oc, r.dir), oc.LengthSquared() - s.radius * s.radius)
  }

  function Discriminant(q: Quadratic): real { q.halfB * q.halfB - q.a * q.c }

  function NearRoot(m: Libm, q: Quadratic): real
    requires q.a != 0.0
  {
    (-q.halfB - m.sqrt(Discriminant(q))) / q.a
  }

  function FarRoot(m: Libm, q: Quadratic): real
    requires q.a != 0.0
  {
    (-q.halfB + m.sqrt(Discriminant(q))) / q.a
  }

  /**
   * The root intersect settles on: none for a negative discriminant; otherwise the near root
   * if the open interval holds it, else the far root if it holds that. A zero-length direction
   * makes both roots NaN or infinite in the source, and those never lie inside an interval.
   */
  function ChooseRoot(m: Libm, q: Quadratic, t: Interval): (root: Option<real>)
    ensures Discriminant(q) < 0.0 || q.a == 0.0 ==> root.None?
    ensures root.Some? ==> t.Surrounds(root.value)
    ensures root.Some? ==> root.value == NearRoot(m, q) || root.value == FarRoot(m, q)
    ensures q.a != 0.0 && 0.0 <= Discriminant(q) && t.Surrounds(NearRoot(m, q)) ==>
      root == Some(NearRoot(m, q))
    ensures q.a != 0.0 && 0.0 <= Discriminant(q) && !t.Surrounds(NearRoot(m, q)) ==>
      root == (if t.Surrounds(FarRoot(m, q)) then Some(FarRoot(m, q)) else None)
  {
    if Discriminant(q) < 0.0 || q.a == 0.0 then None
    else if t.Surrounds(NearRoot(m, q)) then Some(NearRoot(m, q))
    else if t.Surrounds(FarRoot(m, q)) then Some(FarRoot(m, q))
    else None
  }

  /**
   * sphere::intersect. The texture coordinates come from get_sphere_uv, which is not part of
   * this model: `uv` stands for it, applied to the outward normal.
   */
  function Intersect(m: Libm, uv: Vec3 -> (real, real), s: Sphere, r: Ray, t: Interval): (hit: Option<HitRecord>)
    requires s.radius != 0.0
    ensures hit.None? <==> ChooseRoot(m, QuadraticOf(s, r), t).None?
    ensures hit.Some? ==>
      var rec := hit.value;
      var outward := Div(Sub(rec.p, s.CenterAt(r.tm)), s.radius);
      && Some(rec.t) == ChooseRoot(m, QuadraticOf(s, r), t)
      && t.Surrounds(rec.t)
      && rec.p == r.At(rec.t)
      && rec.mat == s.mat
      && (rec.frontFace <==> Dot(r.dir, outward) < 0.0)
      && rec.normal == (if rec.frontFace then outward else Neg(outward))
      && (rec.u, rec.v) == uv(outward)
  {
    match ChooseRoot(m, QuadraticOf(s, r), t)
    case None => None
    case Some(root) =>
      var p := r.At(root);
      var outward := Div(Sub(p, s.CenterAt(r.tm)), s.radius);
      var (u, v) := uv(outward);
      Some(Record(p, outward, root, false, s.mat, u, v).SetFaceNormal(r, outward))
  }

  /** A ray whose parameter solves the quadratic meets the sphere: |p - center|^2 = radius^2. */
  lemma {:induction false} RootOnSphere(s: Sphere, r: Ray, root: real)
    requires var q := QuadraticOf(s, r); q.a * root * root + 2.0 * q.halfB * root + q.c == 0.0
    ensures Sub(r.At(root), s.CenterAt(r.tm)).LengthSquared() == s.radius * s.radius
  {
    var oc := Sub(r.orig, s.CenterAt(r.tm));
    ExpandOffset(oc, r.dir, root);
    assert Sub(r.At(root), s.CenterAt(r.tm)) == Add(oc, Scale(root, r.dir));
  }

  /** |oc + t d|^2 = |d|^2 t^2 + 2 (oc . d) t + |oc|^2. */
  lemma ExpandOffset(oc: Vec3, d: Vec3, t: real)
    ensures Add(oc, Scale(t, d)).LengthSquared()
      == d.LengthSquared() * t * t + 2.0 * Dot(oc, d) * t + oc.LengthSquared()
  {
  }

  /** With an exact square root, both roots solve the quadratic. */
  lemma {:induction false} RootsSolve(m: Libm, q: Quadratic)
    requires m.SqrtExact() && q.a != 0.0 && 0.0 <= Discriminant(q)
    ensures q.a * NearRoot(m, q) * NearRoot(m, q) + 2.0 * q.halfB * NearRoot(m, q) + q.c == 0.0
    ensures q.a * FarRoot(m, q) * FarRoot(m, q) + 2.0 * q.halfB * FarRoot(m, q) + q.c == 0.0
  {
    var sd := m.sqrt(Discriminant(q));
    assert sd * sd == Discriminant(q);
    NearSolves(q, sd, NearRoot(m, q));
    SolvesQuadratic(q.a, q.halfB, q.c, sd, FarRoot(m, q));
  }

  lemma NearSolves(q: Quadratic, sd: real, root: real)
    requires q.a != 0.0 && sd * sd == Discriminant(q) && root == (-q.halfB - sd) / q.a
    ensures q.a * root * root + 2.0 * q.halfB * root + q.c == 0.0
  {
    var e := -sd;
    assert e * e == sd * sd;
    SolvesQuadratic(q.a, q.halfB, q.c, e, root);
  }

  /** If a root = -h + e with e^2 = h^2 - a c and a != 0, then a root^2 + 2 h root + c = 0. */
  lemma SolvesQuadratic(a: real, h: real, c: real, e: real, root: real)
    requires a != 0.0 && e * e == h * h - a * c && root == (-h + e) / a
    ensures a * root * root + 2.0 * h * root + c == 0.0
  {
    var y := a * root;
    assert y == -h + e;
    var value := a * root * root + 2.0 * h * root + c;
    assert a * value == y * y + 2.0 * h * y + a * c;
    assert y * y + 2.0 * h * y + a * c == 0.0;
    ZeroFactor(a, value);
  }

  lemma ZeroFactor(a: real, x: real)
    requires a != 0.0 && a * x == 0.0
    ensures x == 0.0
  {
  }

  /** With an exact square root, every point intersect reports lies on the sphere. */
  lemma HitOnSphere(m: Libm, uv: Vec3 -> (real, real), s: Sphere, r: Ray, t: Interval)
    requires m.SqrtExact() && s.radius != 0.0
    requires Intersect(m, uv, s, r, t).Some?
    ensures var rec := Intersect(m, uv, s, r, t).value;
      Sub(rec.p, s.CenterAt(r.tm)).LengthSquared() == s.radius * s.radius
  {
    var q := QuadraticOf(s, r);
    RootsSolve(m, q);
    RootOnSphere(s, r, Intersect(m, uv, s, r, t).value.t);
  }

  // ---------------------------------------------------------------------------------------------
  // Hits lie in the box

  /**
   * With an exact square root, every hit lies in the sphere's box: for a stationary sphere
   * always, and for a moving one when the ray's time is in [0, 1], the interval its box sweeps.
   */
  lemma HitInsideBox(m: Libm, uv: Vec3 -> (real, real), s: Sphere, r: Ray, t: Interval)
    requires m.SqrtExact() && s.radius != 0.0 && s.Consistent()
    requires s.isMoving ==> 0.0 <= r.tm <= 1.0
    requires Intersect(m, uv, s, r, t).Some?
    ensures s.box.Contains(Intersect(m, uv, s, r, t).value.p)
  {
    HitOnSphere(m, uv, s, r, t);
    var p := Intersect(m, uv, s, r, t).value.p;
    OnSphereInCenterBox(p, s.CenterAt(r.tm), s.radius);
    if s.isMoving {
      SweptBoxContains(s.center1, s.movingDir, s.radius, r.tm, p);
    }
  }

  /** A point at distance |r| from c lies in the box around c. */
  lemma OnSphereInCenterBox(p: Point3, c: Point3, r: real)
    requires Sub(p, c).LengthSquared() == r * r
    ensures CenterBox(c, r).Contains(p)
  {
    OffsetBounds(p, c, r);
    BoundsInCenterBox(p, c, Abs(r), r);
  }

  /** Each coordinate of a point at distance |r| from c is within |r| of c's. */
  lemma OffsetBounds(p: Point3, c: Point3, r: real)
    requires Sub(p, c).LengthSquared() == r * r
    ensures c.x - Abs(r) <= p.x <= c.x + Abs(r)
    ensures c.y - Abs(r) <= p.y <= c.y + Abs(r)
    ensures c.z - Abs(r) <= p.z <= c.z + Abs(r)
  {
    var e := Sub(p, c);
    CoordinateBound(e.x, e.y, e.z, r);
    CoordinateBound(e.y, e.x, e.z, r);
    CoordinateBound(e.z, e.x, e.y, r);
  }

  lemma BoundsInCenterBox(p: Point3, c: Point3, a: real, r: real)
    requires a == Abs(r)
    requires c.x - a <= p.x <= c.x + a && c.y - a <= p.y <= c.y + a && c.z - a <= p.z <= c.z + a
    ensures CenterBox(c, r).Contains(p)
  {
    CenterBoxSlabs(c, r, 0);
    CenterBoxSlabs(c, r, 1);
    CenterBoxSlabs(c, r, 2);
  }

  /** x^2 + y^2 + z^2 = r^2 bounds |x| by |r|. */
  lemma CoordinateBound(x: real, y: real, z: real, r: real)
    requires x * x + y * y + z * z == r * r
    ensures -Abs(r) <= x <= Abs(r)
  {
    var a := Abs(r);
    assert a * a == r * r;
    SquareNonnegative(y);
    SquareNonnegative(z);
    SquareBound(x, a);
  }

  lemma SquareNonnegative(x: real)
    ensures 0.0 <= x * x
  {
  }

  /** x^2 <= a^2 with a >= 0 gives -a <= x <= a. */
  lemma SquareBound(x: real, a: real)
    requires 0.0 <= a && x * x <= a * a
    ensures -a <= x <= a
  {
    NotAbove(x, a);
    NegSquare(x);
    NotAbove(-x, a);
  }

  lemma NegSquare(x: real)
    ensures (-x) * (-x) == x * x
  {
  }

  /**
   * x^2 <= a^2 with a >= 0 gives x <= a. Otherwise a^2 <= a x = x a <= x^2 would make
   * x (x - a) = 0 with x != 0.
   */
  lemma NotAbove(x: real, a: real)
    requires 0.0 <= a && x * x <= a * a
    ensures x <= a
  {
    if a < x {
      MultiplyLe(x, a, x);
      MultiplyLe(a, a, x);
      assert a * x == x * a;
      assert x * (x - a) == x * x - x * a;
      ZeroFactor(x, x - a);
    }
  }

  lemma MultiplyLe(k: real, x: real, y: real)
    requires 0.0 <= k && x <= y
    ensures k * x <= k * y
  {
    ProductNonnegative(k, y - x);
    assert k * (y - x) == k * y - k * x;
  }

  lemma ProductNonnegative(x: real, y: real)
    requires 0.0 <= x && 0.0 <= y
    ensures 0.0 <= x * y
  {
  }


  /** For a time in [0, 1] the box around the moving center lies in the swept box. */
  lemma SweptBoxContains(c1: Point3, dir: Vec3, r: real, tau: real, p: Point3)
    requires 0.0 <= tau <= 1.0 && CenterBox(Add(c1, Scale(tau, dir)), r).Contains(p)
    ensures Union(CenterBox(c1, r), CenterBox(Add(dir, c1), r)).Contains(p)
  {
    var b := CenterBox(Add(c1, Scale(tau, dir)), r);
    assert b.Axis(0).Contains(p.At(0)) && b.Axis(1).Contains(p.At(1)) && b.Axis(2).Contains(p.At(2));
    SweptBoxAxis(c1, dir, r, tau, p, 0);
    SweptBoxAxis(c1, dir, r, tau, p, 1);
    SweptBoxAxis(c1, dir, r, tau, p, 2);
  }

  lemma SweptBoxAxis(c1: Point3, dir: Vec3, r: real, tau: real, p: Point3, n: int)
    requires 0 <= n < 3 && 0.0 <= tau <= 1.0
    requires CenterBox(Add(c1, Scale(tau, dir)), r).Axis(n).Contains(p.At(n))
    ensures Union(CenterBox(c1, r), CenterBox(Add(dir, c1), r)).Axis(n).Contains(p.At(n))
  {
    CenterAxisBounds(Add(c1, Scale(tau, dir)), r, n, p.At(n));
    SweptCoordinate(c1, dir, tau, Abs(r), n, p.At(n));
    SweptHull(c1, Add(dir, c1), r, n);
  }

  /** One coordinate near the moving center at time tau lies in the hull of the end slabs. */
  lemma SweptCoordinate(c1: Point3, dir: Vec3, tau: real, a: real, n: int, x: real)
    requires 0 <= n < 3 && 0.0 <= tau <= 1.0
    requires Add(c1, Scale(tau, dir)).At(n) - a <= x <= Add(c1, Scale(tau, dir)).At(n) + a
    ensures Hull(Interval(Fin(c1.At(n) - a), Fin(c1.At(n) + a)),
                 Interval(Fin(Add(dir, c1).At(n) - a), Fin(Add(dir, c1).At(n) + a))).Contains(x)
  {
    MovingCenterAt(c1, dir, tau, n);
    SumAt(dir, c1, n);
    SweptScalar(c1.At(n), dir.At(n), tau, a, Add(c1, Scale(tau, dir)).At(n), Add(dir, c1).At(n), x);
  }

  /** The scalar content of one axis: the moving center's slab lies in the hull of the end slabs. */
  lemma SweptScalar(c1: real, d: real, tau: real, a: real, c: real, c2: real, x: real)
    requires 0.0 <= tau <= 1.0 && c == c1 + tau * d && c2 == d + c1
    requires c - a <= x <= c + a
    ensures Hull(Interval(Fin(c1 - a), Fin(c1 + a)), Interval(Fin(c2 - a), Fin(c2 + a))).Contains(x)
  {
    var td := tau * d;
    ScaleBetween(tau, d);
    if 0.0 <= d {
      assert 0.0 <= td <= d;
    } else {
      assert d <= td <= 0.0;
    }
    SweptAxis(c1, c2, d, td, a, x);
  }

  lemma CenterAxisBounds(c: Point3, r: real, n: int, x: real)
    requires 0 <= n < 3 && CenterBox(c, r).Axis(n).Contains(x)
    ensures c.At(n) - Abs(r) <= x <= c.At(n) + Abs(r)
  {
    CenterBoxSlabs(c, r, n);
  }

  lemma MovingCenterAt(c1: Point3, dir: Vec3, tau: real, n: int)
    requires 0 <= n < 3
    ensures Add(c1, Scale(tau, dir)).At(n) == c1.At(n) + tau * dir.At(n)
  {
  }

  lemma SumAt(a: Vec3, b: Vec3, n: int)
    requires 0 <= n < 3
    ensures Add(a, b).At(n) == a.At(n) + b.At(n)
  {
  }

  lemma SweptHull(c1: Point3, c2: Point3, r: real, n: int)
    requires 0 <= n < 3
    ensures Union(CenterBox(c1, r), CenterBox(c2, r)).Axis(n)
      == Hull(Interval(Fin(c1.At(n) - Abs(r)), Fin(c1.At(n) + Abs(r))), Interval(Fin(c2.At(n) - Abs(r)), Fin(c2.At(n) + Abs(r))))
  {
    CenterBoxSlabs(c1, r, n);
    CenterBoxSlabs(c2, r, n);
    UnionAxis(CenterBox(c1, r), CenterBox(c2, r), n);
  }

  lemma UnionAxis(b1: BBox, b2: BBox, n: int)
    requires 0 <= n < 3
    ensures Union(b1, b2).Axis(n) == Hull(b1.Axis(n), b2.Axis(n))
  {
  }

  /** One axis: a coordinate within a of c + td, with td between 0 and d, lies in the hull of the end slabs. */
  lemma SweptAxis(c: real, c2: real, d: real, td: real, a: real, x: real)
    requires c2 == d + c
    requires 0.0 <= d ==> 0.0 <= td <= d
    requires d < 0.0 ==> d <= td <= 0.0
    requires c + td - a <= x <= c + td + a
    ensures Hull(Interval(Fin(c - a), Fin(c + a)), Interval(Fin(c2 - a), Fin(c2 + a))).Contains(x)
  {
    var i, j := Interval(Fin(c - a), Fin(c + a)), Interval(Fin(c2 - a), Fin(c2 + a));
    var h := Hull(i, j);
    if 0.0 <= d {
      LeTransitive(h.min, i.min, Fin(x));
      LeTransitive(Fin(x), j.max, h.max);
    } else {
      LeTransitive(h.min, j.min, Fin(x));
      LeTransitive(Fin(x), i.max, h.max);
    }
  }

  /** tau d lies between 0 and d for tau in [0, 1]. */
  lemma ScaleBetween(tau: real, d: real)
    requires 0.0 <= tau <= 1.0
    ensures 0.0 <= d ==> 0.0 <= tau * d <= d
    ensures d < 0.0 ==> d <= tau * d <= 0.0
  {
    if 0.0 <= d {
      UnitProduct(tau, d);
    } else {
      UnitProduct(tau, -d);
      assert -d * tau == -(tau * d);
    }
  }
}
