/**
 * Axis-aligned bounding boxes (bbox.h): three slabs, the constructors from intervals, from two
 * corner points and from two boxes, padding, axis selection and the slab test.
 */
module Boxes {
  import opened Wrappers
  import opened Vectors
  import opened Intervals
  import opened Rays

  /** The smallest width pad() lets an axis keep. */
  const PadDelta: real := 0.0001

  datatype BBox = BBox(x: Interval, y: Interval, z: Interval)
  {
    /** axis(n): y for 1, z for 2, and x for every other index. */
    function Axis(n: int): (i: Interval)
      ensures n == 1 ==> i == y
      ensures n == 2 ==> i == z
      ensures n != 1 && n != 2 ==> i == x
    {
      if n == 1 then y else if n == 2 then z else x
    }

    /** pad(): axes at least PadDelta wide are kept, narrower ones are expanded by PadDelta. */
    function Pad(): BBox
    {
      BBox(PadAxis(x), PadAxis(y), PadAxis(z))
    }

    /** Closed membership of a point in all three slabs. */
    predicate Contains(p: Point3)
    {
      x.Contains(p.x) && y.Contains(p.y) && z.Contains(p.z)
    }

    /** Open membership of a point in all three slabs. */
    predicate Surrounds(p: Point3)
    {
      x.Surrounds(p.x) && y.Surrounds(p.y) && z.Surrounds(p.z)
    }
  }

  /** The default box: every axis is the empty interval. */
  const EmptyBox := BBox(Empty, Empty, Empty)

  function PadAxis(i: Interval): Interval
  {
    if i.SizeAtLeast(PadDelta) then i else i.Expand(PadDelta)
  }

  /** bbox(p1, p2): the box with the two points as opposite corners, in either order. */
  function FromPoints(p1: Point3, p2: Point3): (b: BBox)
    ensures b.Contains(p1) && b.Contains(p2)
  {
    BBox(Span(p1.x, p2.x), Span(p1.y, p2.y), Span(p1.z, p2.z))
  }

  /** Each axis of the two-point box is finite, ordered, and runs from one corner to the other. */
  lemma FromPointsAxis(p1: Point3, p2: Point3, n: int)
    requires 0 <= n < 3
    ensures var i := FromPoints(p1, p2).Axis(n);
      && i.min.Fin? && i.max.Fin? && i.min.v <= i.max.v
      && (i.min.v == p1.At(n) || i.min.v == p2.At(n))
      && (i.max.v == p1.At(n) || i.max.v == p2.At(n))
  {
  }

  function Span(a: real, b: real): Interval
  {
    Interval(Fin(Numerics.Fmin(a, b)), Fin(Numerics.Fmax(a, b)))
  }

  /** bbox(b1, b2): every axis is the interval union of the two boxes' axes. */
  function Union(b1: BBox, b2: BBox): (b: BBox)
    ensures Includes(b, b1) && Includes(b, b2)
  {
    BBox(Hull(b1.x, b2.x), Hull(b1.y, b2.y), Hull(b1.z, b2.z))
  }

  /** Every slab of outer encloses the matching slab of inner. */
  predicate Includes(outer: BBox, inner: BBox)
  {
    Encloses(outer.x, inner.x) && Encloses(outer.y, inner.y) && Encloses(outer.z, inner.z)
  }

  lemma IncludesReflexive(b: BBox)
    ensures Includes(b, b)
  {
  }

  lemma IncludesTransitive(a: BBox, b: BBox, c: BBox)
    requires Includes(a, b) && Includes(b, c)
    ensures Includes(a, c)
  {
  }

  /** The two-point constructor does not depend on the order of its arguments. */
  lemma FromPointsSymmetric(p1: Point3, p2: Point3)
    ensures FromPoints(p1, p2) == FromPoints(p2, p1)
  {
  }

  /** After pad() every well-ordered axis is at least PadDelta wide, and wide axes are untouched. */
  lemma {:induction false} PadWidth(b: BBox, n: int)
    requires 0 <= n < 3
    ensures b.Axis(n).SizeAtLeast(PadDelta) ==> b.Pad().Axis(n) == b.Axis(n)
    ensures Le(b.Axis(n).min, b.Axis(n).max) && b.Axis(n).min != PosInf && b.Axis(n).max != NegInf ==>
              b.Pad().Axis(n).SizeAtLeast(PadDelta)
    ensures Encloses(b.Pad().Axis(n), b.Axis(n))
  {
    var i := b.Axis(n);
    assert b.Pad().Axis(n) == PadAxis(i);
    if !i.SizeAtLeast(PadDelta) {
      var e := i.Expand(PadDelta);
      assert PadAxis(i) == e;
      match (i.min, i.max)
      case (Fin(a), Fin(c)) =>
        assert e.min == Fin(a - PadDelta / 2.0) && e.max == Fin(c + PadDelta / 2.0);
      case _ =>
    }
  }

  // ---------------------------------------------------------------------------------------------
  // The slab test

  /**
   * (e - o) * (1 / d) under IEEE arithmetic, for a slab bound e, an origin coordinate o and a
   * direction coordinate d. A zero direction makes 1 / d = +infinity, so a finite bound gives
   * +infinity or -infinity by the sign of e - o, and None (NaN) when e == o.
   */
  function Scaled(e: Ext, o: real, d: real): Option<Ext>
  {
    if d != 0.0 then
      match e
      case Fin(a) => Some(Fin((a - o) * (1.0 / d)))
      case PosInf => Some(if d > 0.0 then PosInf else NegInf)
      case NegInf => Some(if d > 0.0 then NegInf else PosInf)
    else
      match e
      case Fin(a) => if a - o > 0.0 then Some(PosInf) else if a - o < 0.0 then Some(NegInf) else None
      case _ => Some(e)
  }

  /** The lower candidate raises t.min when it is larger; a NaN never compares. */
  function Raise(m: Ext, c: Option<Ext>): Ext
  {
    if c.Some? && Lt(m, c.value) then c.value else m
  }

  /** The upper candidate lowers t.max when it is smaller; a NaN never compares. */
  function Lower(m: Ext, c: Option<Ext>): Ext
  {
    if c.Some? && Lt(c.value, m) then c.value else m
  }

  /** One iteration of the slab loop on slab s, origin coordinate o and direction coordinate d. */
  function Step(t: Interval, s: Interval, o: real, d: real): (t': Interval)
    ensures Le(t.min, t'.min) && Le(t'.max, t.max)
  {
    var t0 := Scaled(s.min, o, d);
    var t1 := Scaled(s.max, o, d);
    // 1 / d < 0 exactly when d < 0: the entry and exit of the slab swap
    var (lo, hi) := if d < 0.0 then (t1, t0) else (t0, t1);
    Interval(Raise(t.min, lo), Lower(t.max, hi))
  }

  /** The slab test from axis i on: None once the working interval is empty, else the final interval. */
  function SlabFrom(b: BBox, r: Ray, t: Interval, i: nat): Option<Interval>
    decreases 3 - i
  {
    if i >= 3 then Some(t)
    else
      var t' := Step(t, b.Axis(i), r.orig.At(i), r.dir.At(i));
      if Le(t'.max, t'.min) then None else SlabFrom(b, r, t', i + 1)
  }

  /**
   * bbox::intersect as a value: does the ray cross the box within t? A ray strictly inside the
   * box at a time strictly inside t passes, and every ray that passes also passes the corrected
   * test below.
   */
  predicate SlabHit(b: BBox, r: Ray, t: Interval): (hit: bool)
    ensures (exists s :: t.Surrounds(s) && b.Surrounds(r.At(s))) ==> hit
    ensures hit ==> ClosedSlabHit(b, r, t)
  {
    InteriorAccepted(b, r, t);
    if SlabFrom(b, r, t, 0).Some? then StrictImpliesClosedFrom(b, r, t, 0); true else false
  }

  /** The three slab steps without the early exit. */
  function Narrowed(b: BBox, r: Ray, t: Interval, i: nat): Interval
    decreases 3 - i
  {
    if i >= 3 then t
    else Narrowed(b, r, Step(t, b.Axis(i), r.orig.At(i), r.dir.At(i)), i + 1)
  }

  /** The slab test, as bbox.h writes it: a three-iteration loop narrowing a copy of t. */
  method Intersect(b: BBox, r: Ray, t: Interval) returns (hit: bool)
    ensures hit == SlabHit(b, r, t)
  {
    var tt := t;
    for i := 0 to 3
      invariant SlabFrom(b, r, t, 0) == SlabFrom(b, r, tt, i)
    {
      var orig := r.Origin().At(i);
      var dir := r.Direction().At(i);
      var t0 := Scaled(b.Axis(i).min, orig, dir);
      var t1 := Scaled(b.Axis(i).max, orig, dir);
      if dir < 0.0 {
        t0, t1 := t1, t0;
      }
      if t0.Some? && Lt(tt.min, t0.value) {
        tt := tt.(min := t0.value);
      }
      if t1.Some? && Lt(t1.value, tt.max) {
        tt := tt.(max := t1.value);
      }
      if Le(tt.max, tt.min) {
        return false;
      }
    }
    return true;
  }

  /** The slab test only ever tightens: an accepted final interval lies inside t and is nonempty. */
  lemma {:induction false} SlabTightens(b: BBox, r: Ray, t: Interval, i: nat)
    requires i < 3
    requires SlabFrom(b, r, t, i).Some?
    ensures Encloses(t, SlabFrom(b, r, t, i).value)
    ensures Lt(SlabFrom(b, r, t, i).value.min, SlabFrom(b, r, t, i).value.max)
    decreases 3 - i
  {
    var t' := Step(t, b.Axis(i), r.orig.At(i), r.dir.At(i));
    if i + 1 < 3 {
      SlabTightens(b, r, t', i + 1);
      LeTransitive(t.min, t'.min, SlabFrom(b, r, t', i + 1).value.min);
      LeTransitive(SlabFrom(b, r, t', i + 1).value.max, t'.max, t.max);
    }
  }

  /** Returning early is the same as running all three steps and checking the result once. */
  lemma {:induction false} EarlyExitAgrees(b: BBox, r: Ray, t: Interval, i: nat)
    requires i <= 3
    requires i < 3 || Lt(t.min, t.max)
    ensures SlabFrom(b, r, t, i).Some? <==> Lt(Narrowed(b, r, t, i).min, Narrowed(b, r, t, i).max)
    ensures SlabFrom(b, r, t, i).Some? ==> SlabFrom(b, r, t, i).value == Narrowed(b, r, t, i)
    decreases 3 - i
  {
    if i < 3 {
      var t' := Step(t, b.Axis(i), r.orig.At(i), r.dir.At(i));
      if Le(t'.max, t'.min) {
        StaysEmpty(b, r, t', i + 1);
      } else {
        EarlyExitAgrees(b, r, t', i + 1);
      }
    }
  }

  /** Once the working interval is empty, further steps keep it empty. */
  lemma {:induction false} StaysEmpty(b: BBox, r: Ray, t: Interval, i: nat)
    requires Le(t.max, t.min)
    ensures Le(Narrowed(b, r, t, i).max, Narrowed(b, r, t, i).min)
    decreases 3 - i
  {
    if i < 3 {
      var t' := Step(t, b.Axis(i), r.orig.At(i), r.dir.At(i));
      LeTransitive(t'.max, t.max, t.min);
      LeTransitive(t'.max, t.min, t'.min);
      StaysEmpty(b, r, t', i + 1);
    }
  }

  /** For d != 0, comparing (a - o) / d with s is comparing a with o + s * d, flipped when d < 0. */
  lemma DivideCompare(a: real, o: real, d: real, s: real)
    requires d != 0.0
    ensures d > 0.0 ==> ((a - o) * (1.0 / d) < s <==> a < o + s * d)
    ensures d > 0.0 ==> ((a - o) * (1.0 / d) > s <==> a > o + s * d)
    ensures d < 0.0 ==> ((a - o) * (1.0 / d) < s <==> a > o + s * d)
    ensures d < 0.0 ==> ((a - o) * (1.0 / d) > s <==> a < o + s * d)
  {
    var q := (a - o) * (1.0 / d);
    assert q * d == a - o;
    assert a == o + q * d;
    if d > 0.0 {
      assert q < s ==> q * d < s * d;
      assert q > s ==> q * d > s * d;
      assert q == s ==> q * d == s * d;
    } else {
      assert q < s ==> q * d > s * d;
      assert q > s ==> q * d < s * d;
      assert q == s ==> q * d == s * d;
    }
  }

  /** One step keeps a time s inside the working interval when the ray is strictly inside slab sl at s. */
  lemma StepKeeps(t: Interval, sl: Interval, o: real, d: real, s: real)
    requires t.Surrounds(s) && sl.Surrounds(o + s * d)
    ensures Step(t, sl, o, d).Surrounds(s)
  {
    if d != 0.0 {
      StepKeepsMoving(t, sl, o, d, s);
    }
  }

  lemma StepKeepsMoving(t: Interval, sl: Interval, o: real, d: real, s: real)
    requires d != 0.0 && t.Surrounds(s) && sl.Surrounds(o + s * d)
    ensures Step(t, sl, o, d).Surrounds(s)
  {
    var (lo, hi) := if d < 0.0 then (sl.max, sl.min) else (sl.min, sl.max);
    EntryBefore(lo, o, d, s);
    ExitAfter(hi, o, d, s);
  }

  /** The slab bound the ray enters through strictly scales to a time strictly before s. */
  lemma EntryBefore(e: Ext, o: real, d: real, s: real)
    requires d > 0.0 ==> Lt(e, Fin(o + s * d))
    requires d < 0.0 ==> Lt(Fin(o + s * d), e)
    requires d != 0.0
    ensures Scaled(e, o, d).Some? && Lt(Scaled(e, o, d).value, Fin(s))
  {
    if e.Fin? {
      DivideCompare(e.v, o, d, s);
    }
  }

  /** The slab bound the ray leaves through strictly scales to a time strictly after s. */
  lemma ExitAfter(e: Ext, o: real, d: real, s: real)
    requires d > 0.0 ==> Lt(Fin(o + s * d), e)
    requires d < 0.0 ==> Lt(e, Fin(o + s * d))
    requires d != 0.0
    ensures Scaled(e, o, d).Some? && Lt(Fin(s), Scaled(e, o, d).value)
  {
    if e.Fin? {
      DivideCompare(e.v, o, d, s);
    }
  }

  lemma {:induction false} SlabKeeps(b: BBox, r: Ray, t: Interval, s: real, i: nat)
    requires i <= 3
    requires t.Surrounds(s) && b.Surrounds(r.At(s))
    ensures SlabFrom(b, r, t, i).Some?
    decreases 3 - i
  {
    if i < 3 {
      var o, d := r.orig.At(i), r.dir.At(i);
      assert r.At(s).At(i) == o + s * d;
      StepKeeps(t, b.Axis(i), o, d, s);
      SlabKeeps(b, r, Step(t, b.Axis(i), o, d), s, i + 1);
    }
  }

  /** A ray strictly inside the box at some time strictly inside t passes every slab. */
  lemma InteriorAccepted(b: BBox, r: Ray, t: Interval)
    ensures (exists s :: t.Surrounds(s) && b.Surrounds(r.At(s))) ==> SlabFrom(b, r, t, 0).Some?
  {
    if s :| t.Surrounds(s) && b.Surrounds(r.At(s)) {
      SlabKeeps(b, r, t, s, 0);
    }
  }

  /** Scaled is monotone in the slab bound, in the direction its sign dictates. */
  lemma ScaledMonotone(e1: Ext, e2: Ext, o: real, d: real)
    requires Le(e1, e2) && d != 0.0
    ensures d > 0.0 ==> Le(Scaled(e1, o, d).value, Scaled(e2, o, d).value)
    ensures d < 0.0 ==> Le(Scaled(e2, o, d).value, Scaled(e1, o, d).value)
  {
    if e1.Fin? && e2.Fin? {
      var q1, q2 := (e1.v - o) * (1.0 / d), (e2.v - o) * (1.0 / d);
      assert q2 - q1 == (e2.v - e1.v) * (1.0 / d);
      if d > 0.0 {
        assert 0.0 <= (e2.v - e1.v) * (1.0 / d);
      } else {
        assert (e2.v - e1.v) * (1.0 / d) <= 0.0;
      }
    }
  }

  /** A step on a wider slab from a wider interval gives a wider interval. */
  lemma StepMonotone(t1: Interval, t2: Interval, s1: Interval, s2: Interval, o: real, d: real)
    requires Encloses(t2, t1) && Encloses(s2, s1)
    ensures Encloses(Step(t2, s2, o, d), Step(t1, s1, o, d))
  {
    if d != 0.0 {
      ScaledMonotone(s2.min, s1.min, o, d);
      ScaledMonotone(s1.max, s2.max, o, d);
    }
  }

  lemma {:induction false} SlabFromMonotone(inner: BBox, outer: BBox, r: Ray, t1: Interval, t2: Interval, i: nat)
    requires Includes(outer, inner) && Encloses(t2, t1)
    requires SlabFrom(inner, r, t1, i).Some?
    ensures SlabFrom(outer, r, t2, i).Some?
    decreases 3 - i
  {
    if i < 3 {
      var o, d := r.orig.At(i), r.dir.At(i);
      StepMonotone(t1, t2, inner.Axis(i), outer.Axis(i), o, d);
      var u1, u2 := Step(t1, inner.Axis(i), o, d), Step(t2, outer.Axis(i), o, d);
      LeTransitive(u2.min, u1.min, u1.max);
      LeTransitive(u2.min, u1.max, u2.max);
      SlabFromMonotone(inner, outer, r, u1, u2, i + 1);
    }
  }

  /** A ray that crosses a box within t crosses every enclosing box within every enclosing interval. */
  lemma SlabHitMonotone(inner: BBox, outer: BBox, r: Ray, t1: Interval, t2: Interval)
    requires Includes(outer, inner) && Encloses(t2, t1)
    requires SlabHit(inner, r, t1)
    ensures SlabHit(outer, r, t2)
  {
    SlabFromMonotone(inner, outer, r, t1, t2, 0);
  }

  // ---------------------------------------------------------------------------------------------
  // The slab test with a closed final check

  /**
   * The same three steps, rejecting only an inverted working interval (t.max < t.min). A ray
   * that touches the box at a single parameter passes; bbox.h:66 rejects it, because it also
   * rejects t.min == t.max.
   */
  function ClosedSlabFrom(b: BBox, r: Ray, t: Interval, i: nat): Option<Interval>
    decreases 3 - i
  {
    if i >= 3 then Some(t)
    else
      var t' := Step(t, b.Axis(i), r.orig.At(i), r.dir.At(i));
      if Lt(t'.max, t'.min) then None else ClosedSlabFrom(b, r, t', i + 1)
  }

  /**
   * The corrected slab test: does the ray meet the closed box at some parameter of t? It is
   * complete: a ray that lies in the closed box at some time of the closed interval t passes,
   * whether it crosses the box or only touches it.
   */
  predicate ClosedSlabHit(b: BBox, r: Ray, t: Interval): (hit: bool)
    ensures (exists s :: t.Contains(s) && b.Contains(r.At(s))) ==> hit
  {
    PointAccepted(b, r, t);
    ClosedSlabFrom(b, r, t, 0).Some?
  }

  /** One step keeps a time s in the working interval when the ray is inside slab sl at s. */
  lemma StepKeepsPoint(t: Interval, sl: Interval, o: real, d: real, s: real)
    requires t.Contains(s) && sl.Contains(o + s * d)
    ensures Step(t, sl, o, d).Contains(s)
  {
    if d != 0.0 {
      StepKeepsPointMoving(t, sl, o, d, s);
    } else {
      assert o + s * d == o;
    }
  }

  lemma StepKeepsPointMoving(t: Interval, sl: Interval, o: real, d: real, s: real)
    requires d != 0.0 && t.Contains(s) && sl.Contains(o + s * d)
    ensures Step(t, sl, o, d).Contains(s)
  {
    var (lo, hi) := if d < 0.0 then (sl.max, sl.min) else (sl.min, sl.max);
    EntryAtMost(lo, o, d, s);
    ExitAtLeast(hi, o, d, s);
  }

  /** The slab bound the ray enters through scales to a time no later than s. */
  lemma EntryAtMost(e: Ext, o: real, d: real, s: real)
    requires d > 0.0 ==> Le(e, Fin(o + s * d))
    requires d < 0.0 ==> Le(Fin(o + s * d), e)
    requires d != 0.0
    ensures Scaled(e, o, d).Some? && Le(Scaled(e, o, d).value, Fin(s))
  {
    if e.Fin? {
      DivideCompare(e.v, o, d, s);
    }
  }

  /** The slab bound the ray leaves through scales to a time no earlier than s. */
  lemma ExitAtLeast(e: Ext, o: real, d: real, s: real)
    requires d > 0.0 ==> Le(Fin(o + s * d), e)
    requires d < 0.0 ==> Le(e, Fin(o + s * d))
    requires d != 0.0
    ensures Scaled(e, o, d).Some? && Le(Fin(s), Scaled(e, o, d).value)
  {
    if e.Fin? {
      DivideCompare(e.v, o, d, s);
    }
  }

  lemma {:induction false} ClosedSlabKeeps(b: BBox, r: Ray, t: Interval, s: real, i: nat)
    requires i <= 3
    requires t.Contains(s) && b.Contains(r.At(s))
    ensures ClosedSlabFrom(b, r, t, i).Some?
    decreases 3 - i
  {
    if i < 3 {
      var o, d := r.orig.At(i), r.dir.At(i);
      assert r.At(s).At(i) == o + s * d;
      StepKeepsPoint(t, b.Axis(i), o, d, s);
      var t' := Step(t, b.Axis(i), o, d);
      LeTransitive(t'.min, Fin(s), t'.max);
      ClosedSlabKeeps(b, r, t', s, i + 1);
    }
  }

  /** A ray in the closed box at some time of the closed interval t passes every slab. */
  lemma PointAccepted(b: BBox, r: Ray, t: Interval)
    ensures (exists s :: t.Contains(s) && b.Contains(r.At(s))) ==> ClosedSlabFrom(b, r, t, 0).Some?
  {
    if s :| t.Contains(s) && b.Contains(r.At(s)) {
      ClosedSlabKeeps(b, r, t, s, 0);
    }
  }

  lemma {:induction false} StrictImpliesClosedFrom(b: BBox, r: Ray, t: Interval, i: nat)
    requires SlabFrom(b, r, t, i).Some?
    ensures ClosedSlabFrom(b, r, t, i).Some?
    decreases 3 - i
  {
    if i < 3 {
      StrictImpliesClosedFrom(b, r, Step(t, b.Axis(i), r.orig.At(i), r.dir.At(i)), i + 1);
    }
  }

  lemma {:induction false} ClosedSlabFromMonotone(inner: BBox, outer: BBox, r: Ray, t1: Interval, t2: Interval, i: nat)
    requires Includes(outer, inner) && Encloses(t2, t1)
    requires ClosedSlabFrom(inner, r, t1, i).Some?
    ensures ClosedSlabFrom(outer, r, t2, i).Some?
    decreases 3 - i
  {
    if i < 3 {
      var o, d := r.orig.At(i), r.dir.At(i);
      StepMonotone(t1, t2, inner.Axis(i), outer.Axis(i), o, d);
      var u1, u2 := Step(t1, inner.Axis(i), o, d), Step(t2, outer.Axis(i), o, d);
      LeTransitive(u2.min, u1.min, u1.max);
      LeTransitive(u2.min, u1.max, u2.max);
      ClosedSlabFromMonotone(inner, outer, r, u1, u2, i + 1);
    }
  }

  /** A larger box and a larger interval never turn a corrected hit into a miss. */
  lemma ClosedSlabHitMonotone(inner: BBox, outer: BBox, r: Ray, t1: Interval, t2: Interval)
    requires Includes(outer, inner) && Encloses(t2, t1)
    requires ClosedSlabHit(inner, r, t1)
    ensures ClosedSlabHit(outer, r, t2)
  {
    ClosedSlabFromMonotone(inner, outer, r, t1, t2, 0);
  }

  /** The unit cube is crossed by the x-axis ray through its middle and missed by a ray above it. */
  lemma SlabExamples()
    ensures SlabHit(
      BBox(Interval(Fin(0.0), Fin(1.0)), Interval(Fin(0.0), Fin(1.0)), Interval(Fin(0.0), Fin(1.0))),
      MakeRay(Vec3(-1.0, 0.5, 0.5), Vec3(1.0, 0.0, 0.0)), Interval(Fin(0.0), PosInf))
    ensures !SlabHit(
      BBox(Interval(Fin(0.0), Fin(1.0)), Interval(Fin(0.0), Fin(1.0)), Interval(Fin(0.0), Fin(1.0))),
      MakeRay(Vec3(0.0, 5.0, 0.5), Vec3(1.0, 0.0, 0.0)), Interval(Fin(0.0), PosInf))
  {
    var b := BBox(Interval(Fin(0.0), Fin(1.0)), Interval(Fin(0.0), Fin(1.0)), Interval(Fin(0.0), Fin(1.0)));
    var r1 := MakeRay(Vec3(-1.0, 0.5, 0.5), Vec3(1.0, 0.0, 0.0));
    var t := Interval(Fin(0.0), PosInf);
    var a1 := Step(t, b.x, -1.0, 1.0);
    assert a1 == Interval(Fin(1.0), Fin(2.0));
    var a2 := Step(a1, b.y, 0.5, 0.0);
    assert a2 == a1;
    assert Step(a2, b.z, 0.5, 0.0) == a1;
    var r2 := MakeRay(Vec3(0.0, 5.0, 0.5), Vec3(1.0, 0.0, 0.0));
    var c1 := Step(t, b.x, 0.0, 1.0);
    assert c1 == Interval(Fin(0.0), Fin(1.0));
    assert Step(c1, b.y, 5.0, 0.0).max == NegInf;
  }
}
