/**
 * Closed intervals of extended reals, as the renderer's interval header provides them:
 * bounds may be -infinity or +infinity (the sentinels `empty` and `universe`, and the
 * `infinity` upper bound of a primary-ray probe).
 */
module Intervals {
  import opened Numerics

  datatype Ext = NegInf | Fin(v: real) | PosInf

  /** Strict order on the extended reals. */
  predicate Lt(a: Ext, b: Ext)
  {
    || (a.NegInf? && !b.NegInf?)
    || (!a.PosInf? && b.PosInf?)
    || (a.Fin? && b.Fin? && a.v < b.v)
  }

  predicate Le(a: Ext, b: Ext) { !Lt(b, a) }

  function MinE(a: Ext, b: Ext): Ext { if Le(a, b) then a else b }
  function MaxE(a: Ext, b: Ext): Ext { if Le(a, b) then b else a }

  /** e + d for a finite d; infinities absorb. */
  function Shift(e: Ext, d: real): Ext
  {
    match e
    case Fin(v) => Fin(v + d)
    case _ => e
  }

  lemma LeTransitive(a: Ext, b: Ext, c: Ext)
    ensures Le(a, b) && Le(b, c) ==> Le(a, c)
    ensures Le(a, b) && Lt(b, c) ==> Lt(a, c)
    ensures Lt(a, b) && Le(b, c) ==> Lt(a, c)
  {
  }

  datatype Interval = Interval(min: Ext, max: Ext)
  {
    /** contains: closed membership. */
    predicate Contains(x: real) { Le(min, Fin(x)) && Le(Fin(x), max) }

    /** surrounds: open membership. */
    predicate Surrounds(x: real) { Lt(min, Fin(x)) && Lt(Fin(x), max) }

    /** size() >= d under IEEE arithmetic: an infinite size compares, a NaN size (inf - inf) does not. */
    predicate SizeAtLeast(d: real)
    {
      match (min, max)
      case (Fin(a), Fin(b)) => b - a >= d
      case (Fin(_), PosInf) => true
      case (NegInf, Fin(_)) => true
      case (NegInf, PosInf) => true
      case _ => false
    }

    /** expand(delta): widen by delta / 2 on each side. */
    function Expand(delta: real): Interval
    {
      Interval(Shift(min, -(delta / 2.0)), Shift(max, delta / 2.0))
    }

    /** clamp(x) for a finite interval. */
    function Clamp(x: real): real
      requires min.Fin? && max.Fin?
    {
      if x < min.v then min.v else if x > max.v then max.v else x
    }
  }

  /** The default, empty interval and the universal one. */
  const Empty := Interval(PosInf, NegInf)
  const Universe := Interval(NegInf, PosInf)

  /** interval(a, b) over two intervals: the smallest interval enclosing both. */
  function Hull(a: Interval, b: Interval): (h: Interval)
    ensures Le(h.min, a.min) && Le(h.min, b.min) && Le(a.max, h.max) && Le(b.max, h.max)
    ensures h.min == a.min || h.min == b.min
    ensures h.max == a.max || h.max == b.max
  {
    Interval(MinE(a.min, b.min), MaxE(a.max, b.max))
  }

  /** outer encloses inner. */
  predicate Encloses(outer: Interval, inner: Interval)
  {
    Le(outer.min, inner.min) && Le(inner.max, outer.max)
  }

  /** Clamping to a finite, well-ordered interval lands inside it and leaves its members alone. */
  lemma ClampInside(i: Interval, x: real)
    requires i.min.Fin? && i.max.Fin? && i.min.v <= i.max.v
    ensures i.min.v <= i.Clamp(x) <= i.max.v
    ensures i.Contains(x) ==> i.Clamp(x) == x
  {
  }
}
