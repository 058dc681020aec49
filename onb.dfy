/**
 * Orthonormal bases (onb.h). build_from_w uses the branch-free construction of Frisvad as
 * revised by Duff et al.; the basis is kept as a value with its three axes.
 */
module Onbs {
  import opened Numerics
  import opened Vectors

  datatype Onb = Onb(axis: seq<Vec3>)
  {
    ghost predicate Valid() { |axis| == 3 }

    /** operator[] and the named accessors. */
    function At(i: int): Vec3
      requires Valid() && 0 <= i < 3
    {
      axis[i]
    }

    function U(): Vec3 requires Valid() { axis[0] }
    function V(): Vec3 requires Valid() { axis[1] }
    function W(): Vec3 requires Valid() { axis[2] }

    /** local(a, b, c) = a u + b v + c w. */
    function Local(a: real, b: real, c: real): Vec3
      requires Valid()
    {
      Add(Add(Scale(a, U()), Scale(b, V())), Scale(c, W()))
    }

    /** local(vec) = vec.x u + vec.y v + vec.z w. */
    function LocalVec(a: Vec3): (r: Vec3)
      requires Valid()
      ensures r == Local(a.x, a.y, a.z)
    {
      Add(Add(Scale(a.x, U()), Scale(a.y, V())), Scale(a.z, W()))
    }
  }

  /** copysignf(1, z) for a nonzero or positive zero z (a negative zero is not modelled). */
  function CopySignOne(z: real): (s: real)
    ensures s == 1.0 || s == -1.0
    ensures s * s == 1.0
  {
    if z < 0.0 then -1.0 else 1.0
  }

  /** sign + z is never zero: its magnitude is at least 1, whatever z is. */
  lemma DenominatorAwayFromZero(z: real)
    ensures CopySignOne(z) + z >= 1.0 || CopySignOne(z) + z <= -1.0
  {
  }

  /**
   * The basis built around the unit vector n. The middle component of v multiplies n.y by
   * `ySecond`: build_from_w passes the component of the raw input there.
   */
  function Frame(n: Vec3, ySecond: real): (f: Onb)
    ensures f.Valid() && f.W() == n
  {
    DenominatorAwayFromZero(n.z);
    var sign := CopySignOne(n.z);
    var a := -1.0 / (sign + n.z);
    var b := n.x * n.y * a;
    Onb([Vec3(1.0 + sign * n.x * n.x * a, sign * b, -sign * n.x),
         Vec3(b, sign + n.y * ySecond * a, -n.y),
         n])
  }

  /** build_from_w as written: the raw input's y component is used in the middle of v. */
  function BuildFromW(m: Libm, w: Vec3): (f: Onb)
    requires Length(m, w) != 0.0
    ensures f.Valid() && f.W() == Unit(m, w)
  {
    Frame(Unit(m, w), w.y)
  }

  /** build_from_w with the normalised input used throughout, as the construction intends. */
  function BuildFromWCorrected(m: Libm, w: Vec3): (f: Onb)
    requires Length(m, w) != 0.0
    ensures f.Valid() && f.W() == Unit(m, w)
  {
    var uw := Unit(m, w);
    Frame(uw, uw.y)
  }

  predicate Orthogonal(f: Onb)
    requires f.Valid()
  {
    Dot(f.U(), f.W()) == 0.0 && Dot(f.V(), f.W()) == 0.0 && Dot(f.U(), f.V()) == 0.0
  }

  /** The key identity of the construction: a (x^2 + y^2) = z - sign for a unit vector. */
  lemma ScaledRadius(x: real, y: real, z: real, sign: real, a: real)
    requires x * x + y * y + z * z == 1.0
    requires sign * sign == 1.0
    requires a * (sign + z) == -1.0
    ensures a * (x * x + y * y) == z - sign
  {
    assert x * x + y * y == (sign + z) * (sign - z);
    calc {
      a * (x * x + y * y);
      a * ((sign + z) * (sign - z));
      (a * (sign + z)) * (sign - z);
      -(sign - z);
    }
  }

  /** For a unit vector the three axes are mutually perpendicular. */
  lemma {:induction false} FrameOrthogonal(n: Vec3)
    requires n.LengthSquared() == 1.0
    ensures Orthogonal(Frame(n, n.y))
  {
    var x, y, z := n.x, n.y, n.z;
    DenominatorAwayFromZero(z);
    var sign := CopySignOne(z);
    var a := -1.0 / (sign + z);
    var b := x * y * a;
    assert a * (sign + z) == -1.0;
    ScaledRadius(x, y, z, sign, a);
    var f := Frame(n, n.y);
    assert f.U() == Vec3(1.0 + sign * x * x * a, sign * b, -sign * x);
    assert f.V() == Vec3(b, sign + y * y * a, -y);
    FirstAxisOrthogonal(x, y, z, sign, a, b);
    SecondAxisOrthogonal(x, y, z, sign, a, b);
    FirstSecondOrthogonal(x, y, z, sign, a, b);
  }

  lemma FirstAxisOrthogonal(x: real, y: real, z: real, sign: real, a: real, b: real)
    requires sign * sign == 1.0 && b == x * y * a
    requires a * (x * x + y * y) == z - sign
    ensures Dot(Vec3(1.0 + sign * x * x * a, sign * b, -sign * x), Vec3(x, y, z)) == 0.0
  {
    var q := x * x + y * y;
    calc {
      Dot(Vec3(1.0 + sign * x * x * a, sign * b, -sign * x), Vec3(x, y, z));
      x * (1.0 + sign * x * x * a) + y * (sign * b) + z * (-sign * x);
      x + sign * x * (a * q) - sign * x * z;
      x + sign * x * (z - sign) - sign * x * z;
      x - (sign * sign) * x;
      0.0;
    }
  }

  lemma SecondAxisOrthogonal(x: real, y: real, z: real, sign: real, a: real, b: real)
    requires b == x * y * a
    requires a * (x * x + y * y) == z - sign
    ensures Dot(Vec3(b, sign + y * y * a, -y), Vec3(x, y, z)) == 0.0
  {
    var q := x * x + y * y;
    calc {
      Dot(Vec3(b, sign + y * y * a, -y), Vec3(x, y, z));
      x * b + y * (sign + y * y * a) + z * (-y);
      y * (a * q) + sign * y - y * z;
      y * (z - sign) + sign * y - y * z;
      0.0;
    }
  }

  lemma FirstSecondOrthogonal(x: real, y: real, z: real, sign: real, a: real, b: real)
    requires sign * sign == 1.0 && b == x * y * a
    requires a * (sign + z) == -1.0
    requires a * (x * x + y * y) == z - sign
    ensures Dot(Vec3(1.0 + sign * x * x * a, sign * b, -sign * x), Vec3(b, sign + y * y * a, -y)) == 0.0
  {
    var q := x * x + y * y;
    assert a * (1.0 + sign * z) == -sign by {
      calc {
        a * (1.0 + sign * z);
        a * (sign * sign + sign * z);
        sign * (a * (sign + z));
        -sign;
      }
    }
    calc {
      Dot(Vec3(1.0 + sign * x * x * a, sign * b, -sign * x), Vec3(b, sign + y * y * a, -y));
      (1.0 + sign * x * x * a) * b + (sign * b) * (sign + y * y * a) + (-sign * x) * (-y);
      b + (sign * sign) * b + sign * b * (a * q) + sign * x * y;
      b + b + sign * b * (z - sign) + sign * x * y;
      b * (1.0 + sign * z) + sign * x * y;
      x * y * (a * (1.0 + sign * z)) + sign * x * y;
      x * y * (-sign) + sign * x * y;
      0.0;
    }
  }

  /** With sqrt(1) = 1, a unit-length input is its own normalisation. */
  lemma UnitOfUnit(m: Libm, w: Vec3)
    requires m.SqrtLaws() && w.LengthSquared() == 1.0
    ensures Length(m, w) == 1.0 && Unit(m, w) == w
  {
  }

  /** build_from_w as written gives a perpendicular basis when its input already has unit length. */
  lemma BuildFromWOrthogonalForUnitInput(m: Libm, w: Vec3)
    requires m.SqrtLaws() && w.LengthSquared() == 1.0
    ensures Length(m, w) != 0.0
    ensures Orthogonal(BuildFromW(m, w))
  {
    UnitOfUnit(m, w);
    FrameOrthogonal(w);
  }

  /**
   * On a unit-length input the two constructions coincide, so a caller that passes a unit
   * vector, as the Lambertian scatter and the cosine density do, may use either.
   */
  lemma BuildFromWAgreesOnUnit(m: Libm, w: Vec3)
    requires m.SqrtLaws() && w.LengthSquared() == 1.0
    ensures Length(m, w) != 0.0 && BuildFromW(m, w) == BuildFromWCorrected(m, w)
  {
    UnitOfUnit(m, w);
  }

  /** With an exact square root, normalising a nonzero vector gives unit length. */
  lemma {:induction false} UnitHasUnitLength(m: Libm, w: Vec3)
    requires m.SqrtExact() && Length(m, w) != 0.0
    ensures Unit(m, w).LengthSquared() == 1.0
  {
    var l := Length(m, w);
    var d := w.LengthSquared();
    LengthSquaredNonnegative(w);
    assert l * l == d;
    assert d != 0.0;
    var u := Unit(m, w);
    assert u.x * l == w.x && u.y * l == w.y && u.z * l == w.z;
    ScaledLengthSquared(u, w, l, d);
    CancelFactor(u.LengthSquared(), d);
  }

  /** If w = l u componentwise then |w|^2 = |u|^2 l^2. */
  lemma ScaledLengthSquared(u: Vec3, w: Vec3, l: real, d: real)
    requires u.x * l == w.x && u.y * l == w.y && u.z * l == w.z
    requires d == l * l
    ensures u.LengthSquared() * d == w.LengthSquared()
  {
    assert u.x * u.x * d == w.x * w.x by { assert u.x * u.x * d == (u.x * l) * (u.x * l); }
    assert u.y * u.y * d == w.y * w.y by { assert u.y * u.y * d == (u.y * l) * (u.y * l); }
    assert u.z * u.z * d == w.z * w.z by { assert u.z * u.z * d == (u.z * l) * (u.z * l); }
    calc {
      u.LengthSquared() * d;
      u.x * u.x * d + u.y * u.y * d + u.z * u.z * d;
    }
  }

  /** x d = d with d nonzero forces x = 1. */
  lemma CancelFactor(x: real, d: real)
    requires d != 0.0 && x * d == d
    ensures x == 1.0
  {
    assert (x - 1.0) * d == 0.0;
  }

  /** With an exact square root, sqrt(4) = 2. */
  lemma SqrtOfFour(m: Libm)
    requires m.SqrtExact()
    ensures m.sqrt(4.0) == 2.0
  {
    var l := m.sqrt(4.0);
    assert 0.0 < l && l * l == 4.0;
    assert (l - 1.0) * (l + 2.0) == l * l + l - 2.0;
    assert l * l + l - 2.0 == l + 2.0;
    assert l + 2.0 != 0.0;
    CancelFactor(l - 1.0, l + 2.0);
  }

  /** The corrected construction gives a perpendicular basis for every nonzero input. */
  lemma BuildFromWCorrectedOrthogonal(m: Libm, w: Vec3)
    requires m.SqrtExact() && Length(m, w) != 0.0
    ensures Orthogonal(BuildFromWCorrected(m, w))
  {
    UnitHasUnitLength(m, w);
    FrameOrthogonal(Unit(m, w));
  }

  /** The input (0, 2, 0) shows the discrepancy: as written, v is not perpendicular to w. */
  lemma BuildFromWCounterexample(m: Libm)
    requires m.SqrtExact()
    ensures Length(m, Vec3(0.0, 2.0, 0.0)) == 2.0
    ensures BuildFromW(m, Vec3(0.0, 2.0, 0.0)).V() == Vec3(0.0, -1.0, -1.0)
    ensures BuildFromW(m, Vec3(0.0, 2.0, 0.0)).W() == Vec3(0.0, 1.0, 0.0)
    ensures !Orthogonal(BuildFromW(m, Vec3(0.0, 2.0, 0.0)))
  {
    SqrtOfFour(m);
    UnitOfTwoY(m);
    FrameAtY();
  }

  lemma UnitOfTwoY(m: Libm)
    requires m.sqrt(4.0) == 2.0
    ensures Length(m, Vec3(0.0, 2.0, 0.0)) == 2.0
    ensures Unit(m, Vec3(0.0, 2.0, 0.0)) == Vec3(0.0, 1.0, 0.0)
  {
    assert Vec3(0.0, 2.0, 0.0).LengthSquared() == 4.0;
  }

  lemma FrameAtY()
    ensures Frame(Vec3(0.0, 1.0, 0.0), 2.0).V() == Vec3(0.0, -1.0, -1.0)
    ensures Dot(Frame(Vec3(0.0, 1.0, 0.0), 2.0).V(), Vec3(0.0, 1.0, 0.0)) == -1.0
  {
    assert CopySignOne(0.0) == 1.0;
    assert -1.0 / (1.0 + 0.0) == -1.0;
  }
}
