/**
 * Constant-density participating media (constant_medium.h): a boundary object filled with
 * fog. A ray that enters the boundary travels a sampled free path and either scatters inside
 * or leaves. The boundary is an index into the world's arena; the sampled free path is an
 * input of the clamping procedure.
 */
module Media {
  import opened Wrappers
  import opened Numerics
  import opened Vectors
  import opened Intervals
  import opened Textures
  import opened Materials

  /** The exit probe starts this far beyond the entry hit. */
  const ExitOffset: real := 0.0001

  /** The normal every interaction reports; the source calls it arbitrary. */
  const MediumNormal: Vec3 := Vec3(1.0, 0.0, 0.0)

  datatype Medium = Medium(boundary: nat, negInvDensity: real, phase: Material)

  /** neg_inv_density = -1 / d. */
  function NegInvDensity(d: real): (n: real)
    requires d != 0.0
    ensures n * d == -1.0
  {
    -1.0 / d
  }

  /** constant_medium(boundary, d, texture): the phase function scatters isotropically with the texture. */
  function WithTexture(boundary: nat, d: real, a: Texture): (md: Medium)
    requires d != 0.0
    ensures md.boundary == boundary && md.negInvDensity * d == -1.0 && md.phase == Isotropic(a)
  {
    Medium(boundary, NegInvDensity(d), Isotropic(a))
  }

  /** constant_medium(boundary, d, color): the same with a solid-colour texture. */
  function WithColor(boundary: nat, d: real, c: Color): (md: Medium)
    requires d != 0.0
    ensures md == WithTexture(boundary, d, Solid(c))
  {
    Medium(boundary, NegInvDensity(d), Isotropic(Solid(c)))
  }

  /**
   * hit_distance = neg_inv_density * log(u) for the uniform draw u. A negative neg_inv_density
   * (a positive density) and a draw whose logarithm is not positive give a nonnegative free path.
   */
  function HitDistance(m: Libm, md: Medium, u: real): (h: real)
    ensures md.negInvDensity < 0.0 && m.log(u) <= 0.0 ==> 0.0 <= h
  {
    if md.negInvDensity < 0.0 && m.log(u) <= 0.0 then NonnegProduct(-md.negInvDensity, -m.log(u)); md.negInvDensity * m.log(u)
    else md.negInvDensity * m.log(u)
  }

  /** Every medium a constructor builds from a positive density has a nonnegative free path. */
  lemma HitDistanceNonnegative(m: Libm, d: real, a: Texture, boundary: nat, u: real)
    requires 0.0 < d && m.log(u) <= 0.0
    ensures 0.0 <= HitDistance(m, WithTexture(boundary, d, a), u)
  {
    var n := NegInvDensity(d);
    assert n < 0.0;
  }

  /** The entry time after it is raised to the probe's lower bound. */
  function EntryTime(entry: real, t: Interval): (e: Ext)
    ensures Le(Fin(entry), e) && Le(t.min, e)
    ensures e == Fin(entry) || e == t.min
  {
    if Lt(Fin(entry), t.min) then t.min else Fin(entry)
  }

  /** The exit time after it is lowered to the probe's upper bound. */
  function ExitTime(exit: real, t: Interval): (e: Ext)
    ensures Le(e, Fin(exit)) && Le(e, t.max)
    ensures e == Fin(exit) || e == t.max
  {
    if Lt(t.max, Fin(exit)) then t.max else Fin(exit)
  }

  /** The entry time clamped to be nonnegative, once both clamped times are finite. */
  function Start(entry: Ext): real
    requires entry.Fin?
  {
    if entry.v < 0.0 then 0.0 else entry.v
  }

  /**
   * The interaction time inside the medium, or None when there is none: the clamped entry
   * must come strictly before the clamped exit, and the free path must fit in the distance
   * travelled inside. A zero-length direction would divide by zero in the source; here it
   * gives no interaction.
   */
  function Interaction(entry: real, exit: real, t: Interval, rayLength: real, hitDistance: real): (s: Option<real>)
    ensures Le(ExitTime(exit, t), EntryTime(entry, t)) ==> s.None?
    ensures s.Some? ==>
      var e0, e1 := EntryTime(entry, t), ExitTime(exit, t);
      && e0.Fin? && e1.Fin? && Lt(e0, e1) && rayLength != 0.0
      && hitDistance <= (e1.v - Start(e0)) * rayLength
      && s.value == Start(e0) + hitDistance / rayLength
    ensures Lt(EntryTime(entry, t), ExitTime(exit, t)) && rayLength != 0.0 ==>
      var e0, e1 := EntryTime(entry, t), ExitTime(exit, t);
      e0.Fin? && e1.Fin? && (s.Some? <==> hitDistance <= (e1.v - Start(e0)) * rayLength)
  {
    var e0, e1 := EntryTime(entry, t), ExitTime(exit, t);
    if Le(e1, e0) then None
    else
      var start := Start(e0);
      if hitDistance > (e1.v - start) * rayLength || rayLength == 0.0 then None
      else Some(start + hitDistance / rayLength)
  }

  /**
   * The clamping steps of intersect as the source performs them, reassigning the two
   * boundary times in turn.
   */
  method IntersectTimes(entry: real, exit: real, t: Interval, rayLength: real, hitDistance: real)
    returns (hit: bool, s: real)
    ensures hit <==> Interaction(entry, exit, t, rayLength, hitDistance).Some?
    ensures hit ==> s == Interaction(entry, exit, t, rayLength, hitDistance).value
  {
    var t1, t2 := Fin(entry), Fin(exit);
    if Lt(t1, t.min) {
      t1 := t.min;
    }
    if Lt(t.max, t2) {
      t2 := t.max;
    }
    if Le(t2, t1) {
      return false, 0.0;
    }
    if t1.v < 0.0 {
      t1 := Fin(0.0);
    }
    var distanceInsideBoundary := (t2.v - t1.v) * rayLength;
    if hitDistance > distanceInsideBoundary || rayLength == 0.0 {
      return false, 0.0;
    }
    return true, t1.v + hitDistance / rayLength;
  }

  /** With a positive ray length an interaction never lies beyond the clamped exit. */
  lemma InteractionBeforeExit(entry: real, exit: real, t: Interval, rayLength: real, hitDistance: real)
    requires 0.0 < rayLength
    requires Interaction(entry, exit, t, rayLength, hitDistance).Some?
    ensures var s := Interaction(entry, exit, t, rayLength, hitDistance).value;
      s <= ExitTime(exit, t).v && Le(Fin(s), t.max) && s <= exit
  {
    var e0, e1 := EntryTime(entry, t), ExitTime(exit, t);
    var start := Start(e0);
    QuotientAtMost(hitDistance, rayLength, e1.v - start);
  }

  /**
   * With a nonnegative free path as well, the interaction lies between the clamped, nonnegative
   * entry and the clamped exit, hence inside the probe interval and at or after time 0.
   */
  lemma InteractionInside(entry: real, exit: real, t: Interval, rayLength: real, hitDistance: real)
    requires 0.0 < rayLength && 0.0 <= hitDistance
    requires Interaction(entry, exit, t, rayLength, hitDistance).Some?
    ensures var s := Interaction(entry, exit, t, rayLength, hitDistance).value;
      && Start(EntryTime(entry, t)) <= s <= ExitTime(exit, t).v
      && t.Contains(s) && 0.0 <= s && entry <= s && s <= exit
  {
    InteractionBeforeExit(entry, exit, t, rayLength, hitDistance);
    assert 0.0 <= hitDistance / rayLength;
  }

  lemma QuotientAtMost(h: real, l: real, span: real)
    requires 0.0 < l && h <= span * l
    ensures h / l <= span
  {
    assert h / l * l == h;
  }

  /** Entry below the probe's lower bound is raised to it, and exit above its upper bound lowered to it. */
  lemma ClampExamples()
    ensures EntryTime(-1.0, Interval(Fin(0.5), PosInf)) == Fin(0.5)
    ensures ExitTime(3.0, Interval(Fin(0.0), Fin(2.0))) == Fin(2.0)
    ensures Interaction(1.0, 3.0, Interval(Fin(0.0), Fin(2.0)), 1.0, 0.5) == Some(1.5)
    ensures Interaction(1.0, 3.0, Interval(Fin(0.0), Fin(2.0)), 1.0, 1.5) == None
    ensures Interaction(1.0, 3.0, Interval(Fin(3.0), PosInf), 1.0, 0.0) == None
  {
  }
}
