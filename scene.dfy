/**
 * The scene list of scene.h: a growable list of arena objects with a cached bounding box, its
 * closest-hit scan and its averaged light density, together with the nearest-hit
 * specification the scan meets.
 */
module Scenes {
  import opened Wrappers
  import opened Numerics
  import opened Vectors
  import opened Intervals
  import opened Rays
  import opened Boxes
  import opened Records
  import opened Materials
  import opened Spheres
  import opened Quads
  import opened Worlds

  // ---------------------------------------------------------------------------------------------
  // The nearest hit among a set of objects

  /** The upper bound a scan continues with: the last hit's t, or the probe's own bound. */
  function Bound(h: Option<HitRecord>, b: Ext): Ext
  {
    if h.Some? then Fin(h.value.t) else b
  }

  /** No object of S is hit over [a, b]. */
  ghost predicate AllMiss(env: Env, arena: seq<Object>, S: set<nat>, r: Ray, a: Ext, b: Ext)
    requires WellFormed(arena)
  {
    forall j :: j in S && j < |arena| ==> Hit(env, arena, j, r, Interval(a, b)).None?
  }

  /** Some object of S is hit over [a, b] at x. */
  ghost predicate Attained(env: Env, arena: seq<Object>, S: set<nat>, r: Ray, a: Ext, b: Ext, x: real)
    requires WellFormed(arena)
  {
    exists j :: j in S && j < |arena| && Hit(env, arena, j, r, Interval(a, b)).Some?
      && Hit(env, arena, j, r, Interval(a, b)).value.t == x
  }

  /** No object of S is hit over [a, b] before x. */
  ghost predicate LowerBound(env: Env, arena: seq<Object>, S: set<nat>, r: Ray, a: Ext, b: Ext, x: real)
    requires WellFormed(arena)
  {
    forall j :: j in S && j < |arena| && Hit(env, arena, j, r, Interval(a, b)).Some? ==>
      x <= Hit(env, arena, j, r, Interval(a, b)).value.t
  }

  /**
   * h is the nearest hit of S over [a, b]: there is none exactly when no object is hit, and
   * otherwise its t is the least t at which an object of S is hit.
   */
  ghost predicate NearestIn(env: Env, arena: seq<Object>, S: set<nat>, r: Ray, a: Ext, b: Ext, h: Option<HitRecord>)
    requires WellFormed(arena)
  {
    && (h.None? <==> AllMiss(env, arena, S, r, a, b))
    && (h.Some? ==> Attained(env, arena, S, r, a, b, h.value.t) && LowerBound(env, arena, S, r, a, b, h.value.t))
  }

  /**
   * Lowering the upper bound of the probe only filters the object's hit: a hit over the narrower
   * interval is the same hit over the wider one, and a hit over the wider one that lies below
   * the narrower bound survives the narrowing.
   */
  ghost predicate Narrowing(env: Env, arena: seq<Object>, j: nat, r: Ray, a: Ext)
    requires WellFormed(arena) && j < |arena|
  {
    forall b1: Ext, b2: Ext :: Le(b2, b1) ==>
      && (Hit(env, arena, j, r, Interval(a, b2)).Some? ==>
            Hit(env, arena, j, r, Interval(a, b1)).Some?
            && Hit(env, arena, j, r, Interval(a, b1)).value.t == Hit(env, arena, j, r, Interval(a, b2)).value.t)
      && (Hit(env, arena, j, r, Interval(a, b1)).Some? && Lt(Fin(Hit(env, arena, j, r, Interval(a, b1)).value.t), b2) ==>
            Hit(env, arena, j, r, Interval(a, b2)).Some?)
  }

  ghost predicate NarrowingAll(env: Env, arena: seq<Object>, S: set<nat>, r: Ray, a: Ext)
    requires WellFormed(arena)
  {
    forall j :: j in S && j < |arena| ==> Narrowing(env, arena, j, r, a)
  }

  lemma Narrow(env: Env, arena: seq<Object>, j: nat, r: Ray, a: Ext, b1: Ext, b2: Ext)
    requires WellFormed(arena) && j < |arena| && Narrowing(env, arena, j, r, a) && Le(b2, b1)
    ensures Hit(env, arena, j, r, Interval(a, b2)).Some? ==>
      Hit(env, arena, j, r, Interval(a, b1)).Some?
      && Hit(env, arena, j, r, Interval(a, b1)).value.t == Hit(env, arena, j, r, Interval(a, b2)).value.t
    ensures Hit(env, arena, j, r, Interval(a, b1)).Some? && Lt(Fin(Hit(env, arena, j, r, Interval(a, b1)).value.t), b2) ==>
      Hit(env, arena, j, r, Interval(a, b2)).Some?
  {
  }

  /** A single object's own probe is the nearest hit of the set holding only it. */
  lemma SingleNearest(env: Env, arena: seq<Object>, j: nat, r: Ray, a: Ext, b: Ext)
    requires WellFormed(arena) && j < |arena|
    ensures NearestIn(env, arena, {j}, r, a, b, Hit(env, arena, j, r, Interval(a, b)))
  {
    var h := Hit(env, arena, j, r, Interval(a, b));
    if h.Some? {
      assert !AllMiss(env, arena, {j}, r, a, b) by { assert j in {j}; }
    }
  }

  /**
   * The step shared by the scan and the BVH: the nearest hit h1 of A over [a, b], then the
   * nearest hit h2 of B over [a, bound(h1)], keeping h2 when there is one, is the nearest hit of
   * A + B over [a, b], provided B's objects narrow.
   */
  lemma CombineNearest(env: Env, arena: seq<Object>, A: set<nat>, B: set<nat>, r: Ray, a: Ext, b: Ext,
                       h1: Option<HitRecord>, h2: Option<HitRecord>)
    requires env.m.SqrtLaws() && WellFormed(arena)
    requires NearestIn(env, arena, A, r, a, b, h1) && Le(Bound(h1, b), b)
    requires NearestIn(env, arena, B, r, a, Bound(h1, b), h2)
    requires NarrowingAll(env, arena, B, r, a)
    ensures NearestIn(env, arena, A + B, r, a, b, if h2.Some? then h2 else h1)
  {
    if h2.Some? {
      CombineFound(env, arena, A, B, r, a, b, h1, h2);
    } else if h1.Some? {
      CombineKept(env, arena, A, B, r, a, b, h1);
    } else {
      assert AllMiss(env, arena, A + B, r, a, b);
    }
  }

  lemma CombineFound(env: Env, arena: seq<Object>, A: set<nat>, B: set<nat>, r: Ray, a: Ext, b: Ext,
                     h1: Option<HitRecord>, h2: Option<HitRecord>)
    requires env.m.SqrtLaws() && WellFormed(arena)
    requires NearestIn(env, arena, A, r, a, b, h1) && Le(Bound(h1, b), b)
    requires NearestIn(env, arena, B, r, a, Bound(h1, b), h2) && h2.Some?
    requires NarrowingAll(env, arena, B, r, a)
    ensures NearestIn(env, arena, A + B, r, a, b, h2)
  {
    FoundAttained(env, arena, A, B, r, a, b, Bound(h1, b), h2);
    FoundIsLowest(env, arena, A, B, r, a, b, h1, h2);
  }

  /** The hit B finds over the narrower [a, c] is a hit of A + B over [a, b]. */
  lemma FoundAttained(env: Env, arena: seq<Object>, A: set<nat>, B: set<nat>, r: Ray, a: Ext, b: Ext, c: Ext,
                      h2: Option<HitRecord>)
    requires WellFormed(arena) && Le(c, b)
    requires NearestIn(env, arena, B, r, a, c, h2) && h2.Some?
    requires NarrowingAll(env, arena, B, r, a)
    ensures Attained(env, arena, A + B, r, a, b, h2.value.t)
    ensures !AllMiss(env, arena, A + B, r, a, b)
  {
    var j2 :| j2 in B && j2 < |arena| && Hit(env, arena, j2, r, Interval(a, c)).Some?
      && Hit(env, arena, j2, r, Interval(a, c)).value.t == h2.value.t;
    Narrow(env, arena, j2, r, a, b, c);
    assert j2 in A + B;
  }

  /** No member of A + B is hit over [a, b] before the hit B finds from A's bound. */
  lemma FoundIsLowest(env: Env, arena: seq<Object>, A: set<nat>, B: set<nat>, r: Ray, a: Ext, b: Ext,
                      h1: Option<HitRecord>, h2: Option<HitRecord>)
    requires env.m.SqrtLaws() && WellFormed(arena)
    requires NearestIn(env, arena, A, r, a, b, h1) && Le(Bound(h1, b), b)
    requires NearestIn(env, arena, B, r, a, Bound(h1, b), h2) && h2.Some?
    requires NarrowingAll(env, arena, B, r, a)
    ensures LowerBound(env, arena, A + B, r, a, b, h2.value.t)
  {
    var c := Bound(h1, b);
    var j2 :| j2 in B && j2 < |arena| && Hit(env, arena, j2, r, Interval(a, c)).Some?
      && Hit(env, arena, j2, r, Interval(a, c)).value.t == h2.value.t;
    assert Le(Fin(h2.value.t), c);
    forall j | j in A + B && j < |arena| && Hit(env, arena, j, r, Interval(a, b)).Some?
      ensures h2.value.t <= Hit(env, arena, j, r, Interval(a, b)).value.t
    {
      if j in B {
        FoundBeforeMember(env, arena, B, r, a, b, c, h2, j);
      } else {
        assert h1.Some? && h1.value.t <= Hit(env, arena, j, r, Interval(a, b)).value.t;
      }
    }
  }

  /** A member of B hit over [a, b] is hit no earlier than the nearest hit of B over [a, c]. */
  lemma FoundBeforeMember(env: Env, arena: seq<Object>, B: set<nat>, r: Ray, a: Ext, b: Ext, c: Ext,
                          h2: Option<HitRecord>, j: nat)
    requires WellFormed(arena) && Le(c, b)
    requires NearestIn(env, arena, B, r, a, c, h2) && h2.Some? && Le(Fin(h2.value.t), c)
    requires j in B && j < |arena| && Narrowing(env, arena, j, r, a) && Hit(env, arena, j, r, Interval(a, b)).Some?
    ensures h2.value.t <= Hit(env, arena, j, r, Interval(a, b)).value.t
  {
    var tj := Hit(env, arena, j, r, Interval(a, b)).value.t;
    if Lt(Fin(tj), c) {
      Narrow(env, arena, j, r, a, b, c);
    } else {
      LeTransitive(Fin(h2.value.t), c, Fin(tj));
    }
  }

  lemma CombineKept(env: Env, arena: seq<Object>, A: set<nat>, B: set<nat>, r: Ray, a: Ext, b: Ext,
                    h1: Option<HitRecord>)
    requires env.m.SqrtLaws() && WellFormed(arena)
    requires NearestIn(env, arena, A, r, a, b, h1) && h1.Some?
    requires AllMiss(env, arena, B, r, a, Bound(h1, b))
    requires NarrowingAll(env, arena, B, r, a)
    ensures NearestIn(env, arena, A + B, r, a, b, h1)
  {
    var c := Bound(h1, b);
    var t1 := h1.value.t;
    var j1 :| j1 in A && j1 < |arena| && Hit(env, arena, j1, r, Interval(a, b)).Some?
      && Hit(env, arena, j1, r, Interval(a, b)).value.t == t1;
    assert j1 in A + B;
    assert Attained(env, arena, A + B, r, a, b, t1);
    forall j | j in A + B && j < |arena| && Hit(env, arena, j, r, Interval(a, b)).Some?
      ensures t1 <= Hit(env, arena, j, r, Interval(a, b)).value.t
    {
      var tj := Hit(env, arena, j, r, Interval(a, b)).value.t;
      if j !in A && Lt(Fin(tj), c) {
        assert false;
      }
    }
  }

  /** The members of a list up to position n, as a set. */
  function Prefix(members: seq<nat>, n: nat): set<nat>
    requires n <= |members|
  {
    if n == 0 then {} else Prefix(members, n - 1) + {members[n - 1]}
  }

  /** The members of a list up to position n are exactly its first n entries. */
  lemma {:induction false} PrefixElements(members: seq<nat>, n: nat)
    requires n <= |members|
    ensures Prefix(members, n) == set x | x in members[..n]
  {
    if n > 0 {
      PrefixElements(members, n - 1);
      assert members[..n] == members[..n - 1] + [members[n - 1]];
    }
  }

  /**
   * scene::intersect finds the nearest hit: over [a, b] its result is None exactly when no
   * member is hit, and otherwise lies at the least t any member is hit at, provided every
   * member's intersection only filters by the interval.
   */
  lemma ScanIsNearest(env: Env, arena: seq<Object>, bound: nat, members: seq<nat>, r: Ray, a: Ext, b: Ext)
    requires env.m.SqrtLaws() && WellFormed(arena) && bound <= |arena| && AllBelow(members, bound)
    requires forall k :: 0 <= k < |members| ==> Narrowing(env, arena, members[k], r, a)
    ensures NearestIn(env, arena, (set x | x in members), r, a, b, Scan(env, arena, bound, members, r, Interval(a, b)))
  {
    ScanNearestFrom(env, arena, bound, members, r, a, b, 0, None);
    PrefixElements(members, |members|);
    assert members[..|members|] == members;
  }

  /** The record the scan holds after probing member j with the bound its current record sets. */
  function ScanNext(env: Env, arena: seq<Object>, j: nat, r: Ray, a: Ext, b: Ext, acc: Option<HitRecord>): Option<HitRecord>
    requires WellFormed(arena) && j < |arena|
  {
    var h := Hit(env, arena, j, r, Interval(a, Bound(acc, b)));
    if h.Some? then h else acc
  }

  lemma ScanUnfold(env: Env, arena: seq<Object>, bound: nat, members: seq<nat>, r: Ray,
                   a: Ext, b: Ext, k: nat, acc: Option<HitRecord>)
    requires WellFormed(arena) && bound <= |arena| && AllBelow(members, bound) && k < |members|
    ensures var next := ScanNext(env, arena, members[k], r, a, b, acc);
      ScanFrom(env, arena, bound, members, r, a, Bound(acc, b), k, acc)
      == ScanFrom(env, arena, bound, members, r, a, Bound(next, b), k + 1, next)
  {
  }

  /** One probe extends the nearest hit of the members seen so far by the next member. */
  lemma ScanStep(env: Env, arena: seq<Object>, members: seq<nat>, r: Ray, a: Ext, b: Ext, k: nat, acc: Option<HitRecord>)
    requires env.m.SqrtLaws() && WellFormed(arena) && AllBelow(members, |arena|) && k < |members|
    requires Narrowing(env, arena, members[k], r, a)
    requires NearestIn(env, arena, Prefix(members, k), r, a, b, acc) && Le(Bound(acc, b), b)
    ensures var next := ScanNext(env, arena, members[k], r, a, b, acc);
      NearestIn(env, arena, Prefix(members, k + 1), r, a, b, next) && Le(Bound(next, b), b)
  {
    var j := members[k];
    var c := Bound(acc, b);
    var h := Hit(env, arena, j, r, Interval(a, c));
    SingleNearest(env, arena, j, r, a, c);
    CombineNearest(env, arena, Prefix(members, k), {j}, r, a, b, acc, h);
    if h.Some? {
      LeTransitive(Fin(h.value.t), c, b);
    }
  }

  lemma {:induction false} ScanNearestFrom(env: Env, arena: seq<Object>, bound: nat, members: seq<nat>, r: Ray,
                                           a: Ext, b: Ext, k: nat, acc: Option<HitRecord>)
    requires env.m.SqrtLaws() && WellFormed(arena) && bound <= |arena| && AllBelow(members, bound)
    requires k <= |members|
    requires forall n :: 0 <= n < |members| ==> Narrowing(env, arena, members[n], r, a)
    requires NearestIn(env, arena, Prefix(members, k), r, a, b, acc) && Le(Bound(acc, b), b)
    ensures NearestIn(env, arena, Prefix(members, |members|), r, a, b,
                      ScanFrom(env, arena, bound, members, r, a, Bound(acc, b), k, acc))
    decreases |members| - k
  {
    if k < |members| {
      var next := ScanNext(env, arena, members[k], r, a, b, acc);
      ScanStep(env, arena, members, r, a, b, k, acc);
      ScanUnfold(env, arena, bound, members, r, a, b, k, acc);
      ScanNearestFrom(env, arena, bound, members, r, a, b, k + 1, next);
    }
  }

  /** Quads narrow: the plane's parameter does not depend on the interval, which only filters it. */
  lemma QuadNarrowing(qd: Quad, r: Ray, a: Ext, b1: Ext, b2: Ext)
    requires Le(b2, b1)
    ensures Quads.Intersect(qd, r, Interval(a, b2)).Some? ==>
      Quads.Intersect(qd, r, Interval(a, b1)) == Quads.Intersect(qd, r, Interval(a, b2))
    ensures Quads.Intersect(qd, r, Interval(a, b1)).Some? && Lt(Fin(Quads.Intersect(qd, r, Interval(a, b1)).value.t), b2) ==>
      Quads.Intersect(qd, r, Interval(a, b2)) == Quads.Intersect(qd, r, Interval(a, b1))
  {
    if ParallelEpsilon <= Abs(Dot(qd.normal, r.dir)) {
      LeTransitive(Fin((qd.d - Dot(qd.normal, r.orig)) / Dot(qd.normal, r.dir)), b2, b1);
    }
  }

  /** With a nonnegative square root and a ray of positive length, the near root is the smaller one. */
  lemma NearBeforeFar(m: Libm, q: Quadratic)
    requires m.SqrtLaws() && 0.0 < q.a && 0.0 <= Discriminant(q)
    ensures NearRoot(m, q) <= FarRoot(m, q)
  {
    var sd := m.sqrt(Discriminant(q));
    assert 0.0 <= sd;
    assert (-q.halfB - sd) <= (-q.halfB + sd);
    DivideMonotone(-q.halfB - sd, -q.halfB + sd, q.a);
  }

  lemma DivideMonotone(x: real, y: real, d: real)
    requires x <= y && 0.0 < d
    ensures x / d <= y / d
  {
    assert y / d - x / d == (y - x) / d;
  }

  /** Spheres narrow: the nearer root surrounded by the interval wins, and lowering the bound only drops roots. */
  lemma SphereNarrowing(m: Libm, s: Sphere, r: Ray, a: Ext, b1: Ext, b2: Ext)
    requires m.SqrtLaws() && Le(b2, b1)
    ensures ChooseRoot(m, QuadraticOf(s, r), Interval(a, b2)).Some? ==>
      ChooseRoot(m, QuadraticOf(s, r), Interval(a, b1)) == ChooseRoot(m, QuadraticOf(s, r), Interval(a, b2))
    ensures var root1 := ChooseRoot(m, QuadraticOf(s, r), Interval(a, b1));
      root1.Some? && Lt(Fin(root1.value), b2) ==> ChooseRoot(m, QuadraticOf(s, r), Interval(a, b2)).Some?
  {
    var q := QuadraticOf(s, r);
    LengthSquaredNonnegative(r.dir);
    if q.a != 0.0 && 0.0 <= Discriminant(q) {
      var near, far := NearRoot(m, q), FarRoot(m, q);
      NearBeforeFar(m, q);
      LeTransitive(Fin(near), b2, b1);
      LeTransitive(Fin(far), b2, b1);
      LeTransitive(Fin(near), Fin(far), b2);
    }
  }

  /** Every sphere and every quad of the arena narrows. */
  lemma PrimitiveNarrowing(env: Env, arena: seq<Object>, j: nat, r: Ray, a: Ext)
    requires env.m.SqrtLaws() && WellFormed(arena) && j < |arena|
    requires arena[j].SphereObj? || arena[j].QuadObj?
    ensures Narrowing(env, arena, j, r, a)
  {
    forall b1: Ext, b2: Ext | Le(b2, b1)
      ensures Hit(env, arena, j, r, Interval(a, b2)).Some? ==>
        Hit(env, arena, j, r, Interval(a, b1)).Some?
        && Hit(env, arena, j, r, Interval(a, b1)).value.t == Hit(env, arena, j, r, Interval(a, b2)).value.t
      ensures Hit(env, arena, j, r, Interval(a, b1)).Some? && Lt(Fin(Hit(env, arena, j, r, Interval(a, b1)).value.t), b2) ==>
        Hit(env, arena, j, r, Interval(a, b2)).Some?
    {
      match arena[j]
      case SphereObj(s) => SphereNarrowing(env.m, s, r, a, b1, b2);
      case QuadObj(qd) => QuadNarrowing(qd, r, a, b1, b2);
    }
  }

  // ---------------------------------------------------------------------------------------------
  // The averaged density

  /** The plain sum of the first k densities. */
  function Sum(ps: seq<real>, k: nat): real
    requires k <= |ps|
  {
    if k == 0 then 0.0 else Sum(ps, k - 1) + ps[k - 1]
  }

  /** The weighted running sum is the weight times the plain sum. */
  lemma {:induction false} WeightedSumFactor(ps: seq<real>, weight: real, k: nat)
    requires k <= |ps|
    ensures WeightedSum(ps, weight, k) == weight * Sum(ps, k)
  {
    if k > 0 {
      WeightedSumFactor(ps, weight, k - 1);
      FactorStep(weight, WeightedSum(ps, weight, k - 1), Sum(ps, k - 1), ps[k - 1], WeightedSum(ps, weight, k), Sum(ps, k));
    }
  }

  /** One more iteration adds weight times the next density. */
  lemma WeightedSumNext(ps: seq<real>, weight: real, k: nat, p: real)
    requires k < |ps| && p == ps[k]
    ensures WeightedSum(ps, weight, k + 1) == WeightedSum(ps, weight, k) + weight * p
  {
  }

  lemma FactorStep(w: real, ws: real, s: real, p: real, total: real, sum: real)
    requires ws == w * s && total == ws + w * p && sum == s + p
    ensures total == w * sum
  {
  }

  /** scene::get_pdf is the mean of the members' densities; a one-member scene has its member's. */
  lemma ScenePdfMean(m: Libm, arena: seq<Object>, bound: nat, members: seq<nat>, origin: Point3, dir: Vec3)
    requires m.SqrtLaws() && WellFormed(arena) && bound <= |arena| && AllBelow(members, bound) && 0 < |members|
    ensures var ps := Densities(m, arena, bound, members, origin, dir);
      ScenePdf(m, arena, bound, members, origin, dir) == Sum(ps, |ps|) / Real(|members|)
  {
    MeanOf(Densities(m, arena, bound, members, origin, dir));
  }

  /** Weighting every term by 1 / N sums to the mean of the N terms. */
  lemma MeanOf(ps: seq<real>)
    requires 0 < |ps|
    ensures WeightedSum(ps, 1.0 / Real(|ps|), |ps|) == Sum(ps, |ps|) / Real(|ps|)
  {
    WeightedSumFactor(ps, 1.0 / Real(|ps|), |ps|);
    Reciprocal(Sum(ps, |ps|), Real(|ps|));
  }

  /** A one-member scene has its member's density. */
  lemma SingleMemberPdf(m: Libm, arena: seq<Object>, bound: nat, members: seq<nat>, origin: Point3, dir: Vec3)
    requires m.SqrtLaws() && WellFormed(arena) && bound <= |arena| && AllBelow(members, bound) && |members| == 1
    ensures ScenePdf(m, arena, bound, members, origin, dir) == ObjPdf(m, arena, members[0], origin, dir)
  {
    var ps := Densities(m, arena, bound, members, origin, dir);
    ScenePdfMean(m, arena, bound, members, origin, dir);
    assert Sum(ps, 1) == ps[0];
  }

  lemma Reciprocal(x: real, n: real)
    requires n != 0.0
    ensures 1.0 / n * x == x / n
  {
  }

  // ---------------------------------------------------------------------------------------------
  // The scene class

  /**
   * A scene: its list of arena objects and the bounding box add grows. A scene placed in the
   * arena is a snapshot of both (see AsObject).
   */
  class Scene {
    var objects: seq<nat>
    var boundingBox: BBox

    /** scene(): no objects and the empty box. */
    constructor ()
      ensures objects == [] && boundingBox == EmptyBox
    {
      objects := [];
      boundingBox := EmptyBox;
    }

    /** scene(object): the empty scene with the object added. */
    constructor Single(arena: seq<Object>, i: nat)
      requires WellFormed(arena) && i < |arena|
      ensures objects == [i] && boundingBox == Union(EmptyBox, BoxOf(arena, i))
    {
      objects := [i];
      boundingBox := Union(EmptyBox, BoxOf(arena, i));
    }

    /** Every member's box lies in the scene's box. */
    ghost predicate Covers(arena: seq<Object>)
      reads this
      requires WellFormed(arena) && AllBelow(objects, |arena|)
    {
      forall k :: 0 <= k < |objects| ==> Includes(boundingBox, BoxOf(arena, objects[k]))
    }

    /** The scene as an arena object. */
    function AsObject(): (o: Object)
      reads this
      ensures o.SceneObj? && o.members == objects && o.box == boundingBox
    {
      SceneObj(objects, boundingBox)
    }

    /** clear(): the list empties; the box keeps what it had grown to. */
    method Clear()
      modifies this
      ensures objects == [] && boundingBox == old(boundingBox)
    {
      objects := [];
    }

    /** add(object): appended, and the box grown to hold the object's box. */
    method Add(arena: seq<Object>, i: nat)
      requires WellFormed(arena) && i < |arena| && AllBelow(objects, |arena|)
      modifies this
      ensures objects == old(objects) + [i]
      ensures boundingBox == Union(old(boundingBox), BoxOf(arena, i))
      ensures AllBelow(objects, |arena|)
      ensures old(Covers(arena)) ==> Covers(arena)
    {
      ghost var before := boundingBox;
      objects := objects + [i];
      boundingBox := Union(boundingBox, BoxOf(arena, i));
      forall k | 0 <= k < |objects| - 1 && Includes(before, BoxOf(arena, objects[k]))
        ensures Includes(boundingBox, BoxOf(arena, objects[k]))
      {
        IncludesTransitive(boundingBox, before, BoxOf(arena, objects[k]));
      }
    }

    /**
     * intersect: the closest-so-far loop. hit reports whether anything was hit; rec is the last
     * improving hit, or rec0 unchanged.
     */
    method Intersect(env: Env, arena: seq<Object>, r: Ray, t: Interval, rec0: HitRecord) returns (hit: bool, rec: HitRecord)
      requires WellFormed(arena) && AllBelow(objects, |arena|)
      ensures hit <==> Scan(env, arena, |arena|, objects, r, t).Some?
      ensures rec == if hit then Scan(env, arena, |arena|, objects, r, t).value else rec0
    {
      var closest := t.max;
      ghost var found: Option<HitRecord> := None;
      hit, rec := false, rec0;
      for k := 0 to |objects|
        invariant ScanFrom(env, arena, |arena|, objects, r, t.min, closest, k, found) == Scan(env, arena, |arena|, objects, r, t)
        invariant hit <==> found.Some?
        invariant rec == if hit then found.value else rec0
      {
        var temp := Hit(env, arena, objects[k], r, Interval(t.min, closest));
        if temp.Some? {
          hit := true;
          closest := Fin(temp.value.t);
          rec := temp.value;
          found := temp;
        }
      }
    }

    /** get_pdf: the loop summing weight times each member's density. */
    method GetPdf(m: Libm, arena: seq<Object>, origin: Point3, dir: Vec3) returns (sum: real)
      requires m.SqrtLaws() && WellFormed(arena) && AllBelow(objects, |arena|)
      ensures sum == ScenePdf(m, arena, |arena|, objects, origin, dir)
      ensures 0.0 <= sum
    {
      sum := 0.0;
      if |objects| == 0 {
        // the weight 1/0 is never used: the loop runs no iteration
        return;
      }
      var weight := 1.0 / Real(|objects|);
      ghost var ps := Densities(m, arena, |arena|, objects, origin, dir);
      for k := 0 to |objects|
        invariant sum == WeightedSum(ps, weight, k)
      {
        var p := ObjPdf(m, arena, objects[k], origin, dir);
        WeightedSumNext(ps, weight, k, p);
        sum := sum + weight * p;
      }
    }
  }

  /**
   * box(a, b, mat): the six sides are created in the arena in order and added to a new scene,
   * whose members are those six fresh indices.
   */
  method MakeBox(w: World, m: Libm, a: Point3, b: Point3, mat: Material) returns (sides: Scene)
    requires WellFormed(w.arena) && SidesNonDegenerate(m, BoxSides(a, b))
    modifies w
    ensures fresh(sides)
    ensures w.arena == old(w.arena) + QuadObjects(Box(m, a, b, mat))
    ensures sides.objects == Indices(|old(w.arena)|, 6)
    ensures WellFormed(w.arena) && AllBelow(sides.objects, |w.arena|)
    ensures sides.boundingBox == QuadsBox(EmptyBox, Box(m, a, b, mat))
    ensures sides.Covers(w.arena)
  {
    var quads := Box(m, a, b, mat);
    assert forall k :: 0 <= k < 6 ==> 0.0 < quads[k].area;
    sides := new Scene();
    AddQuads(w, sides, quads);
  }

  /** Each quad in turn is created in the arena and added to the scene. */
  method AddQuads(w: World, sides: Scene, quads: seq<Quad>)
    requires WellFormed(w.arena) && AllBelow(sides.objects, |w.arena|)
    requires forall k :: 0 <= k < |quads| ==> 0.0 < quads[k].area
    modifies w, sides
    ensures w.arena == old(w.arena) + QuadObjects(quads)
    ensures sides.objects == old(sides.objects) + Indices(|old(w.arena)|, |quads|)
    ensures WellFormed(w.arena) && AllBelow(sides.objects, |w.arena|)
    ensures sides.boundingBox == QuadsBox(old(sides.boundingBox), quads)
    ensures old(sides.Covers(w.arena)) ==> sides.Covers(w.arena)
  {
    var n := |w.arena|;
    ghost var box0, covered := sides.boundingBox, sides.Covers(w.arena);
    for k := 0 to |quads|
      invariant w.arena == old(w.arena) + QuadObjects(quads[..k])
      invariant sides.objects == old(sides.objects) + Indices(n, k)
      invariant WellFormed(w.arena) && AllBelow(sides.objects, |w.arena|)
      invariant sides.boundingBox == QuadsBox(box0, quads[..k])
      invariant covered ==> sides.Covers(w.arena)
    {
      var i := AddQuad(w, sides, quads[k]);
      NextQuad(box0, quads, k);
    }
    assert quads[..|quads|] == quads;
  }

  /** One more face extends the created objects and the grown box by that face. */
  lemma NextQuad(start: BBox, quads: seq<Quad>, k: nat)
    requires k < |quads|
    ensures QuadObjects(quads[..k + 1]) == QuadObjects(quads[..k]) + [QuadObj(quads[k])]
    ensures QuadsBox(start, quads[..k + 1]) == Union(QuadsBox(start, quads[..k]), quads[k].box)
  {
    assert quads[..k + 1][..k] == quads[..k];
  }

  /** One face: created in the arena at the next index, which is then added to the scene. */
  method AddQuad(w: World, sides: Scene, q: Quad) returns (i: nat)
    requires WellFormed(w.arena) && AllBelow(sides.objects, |w.arena|) && 0.0 < q.area
    modifies w, sides
    ensures w.arena == old(w.arena) + [QuadObj(q)] && i == |old(w.arena)|
    ensures sides.objects == old(sides.objects) + [i]
    ensures WellFormed(w.arena) && AllBelow(sides.objects, |w.arena|)
    ensures sides.boundingBox == Union(old(sides.boundingBox), q.box)
    ensures old(sides.Covers(w.arena)) ==> sides.Covers(w.arena)
  {
    ghost var before := w.arena;
    i := w.Add(QuadObj(q));
    if old(sides.Covers(w.arena)) {
      CoversExtend(sides, before, QuadObj(q));
    }
    sides.Add(w.arena, i);
  }

  /** The k indices make_shared hands out from n on: n, n + 1, ..., n + k - 1. */
  function Indices(n: nat, k: nat): (r: seq<nat>)
    ensures |r| == k && forall i :: 0 <= i < k ==> r[i] == n + i
  {
    if k == 0 then [] else Indices(n, k - 1) + [n + k - 1]
  }

  /** The box a scene has after adding the quads in order, starting from the box `start`. */
  function QuadsBox(start: BBox, quads: seq<Quad>): BBox
    decreases |quads|
  {
    if |quads| == 0 then start
    else Union(QuadsBox(start, quads[..|quads| - 1]), quads[|quads| - 1].box)
  }

  /** The grown box holds the box it started from and the box of every quad added. */
  lemma {:induction false} QuadsBoxIncludes(start: BBox, quads: seq<Quad>)
    ensures Includes(QuadsBox(start, quads), start)
    ensures forall k :: 0 <= k < |quads| ==> Includes(QuadsBox(start, quads), quads[k].box)
    decreases |quads|
  {
    if |quads| == 0 {
      IncludesReflexive(start);
    } else {
      var n := |quads| - 1;
      var prefix := QuadsBox(start, quads[..n]);
      QuadsBoxIncludes(start, quads[..n]);
      IncludesTransitive(QuadsBox(start, quads), prefix, start);
      forall k | 0 <= k < n
        ensures Includes(QuadsBox(start, quads), quads[k].box)
      {
        assert quads[..n][k] == quads[k];
        IncludesTransitive(QuadsBox(start, quads), prefix, quads[k].box);
      }
    }
  }

  /** A scene that covers its members keeps covering them when make_shared adds an object. */
  lemma CoversExtend(sc: Scene, arena: seq<Object>, o: Object)
    requires WellFormed(arena) && WellFormed(arena + [o]) && AllBelow(sc.objects, |arena|)
    requires sc.Covers(arena)
    ensures AllBelow(sc.objects, |arena + [o]|) && sc.Covers(arena + [o])
  {
    forall k | 0 <= k < |sc.objects|
      ensures Includes(sc.boundingBox, BoxOf(arena + [o], sc.objects[k]))
    {
      BoxOfExtend(arena, o, sc.objects[k]);
    }
  }

  /** The quads as arena objects, in order. */
  function QuadObjects(quads: seq<Quad>): (objs: seq<Object>)
    ensures |objs| == |quads| && forall k :: 0 <= k < |quads| ==> objs[k] == QuadObj(quads[k])
  {
    seq(|quads|, k requires 0 <= k < |quads| => QuadObj(quads[k]))
  }
}
