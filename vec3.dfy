/**
 * Three-component vectors (points, directions and colours) as the renderer's vector header
 * provides them, over exact reals.
 */
module Vectors {
  import opened Numerics

  datatype Vec3 = Vec3(x: real, y: real, z: real)
  {
    /** operator[] for the indices 0, 1 and 2. */
    function At(i: int): real
      requires 0 <= i < 3
    {
      if i == 0 then x else if i == 1 then y else z
    }

    function LengthSquared(): real { x * x + y * y + z * z }
  }

  type Point3 = Vec3
  type Color = Vec3

  const Zero := Vec3(0.0, 0.0, 0.0)

  function Add(a: Vec3, b: Vec3): Vec3 { Vec3(a.x + b.x, a.y + b.y, a.z + b.z) }
  function Sub(a: Vec3, b: Vec3): Vec3 { Vec3(a.x - b.x, a.y - b.y, a.z - b.z) }
  function Neg(a: Vec3): Vec3 { Vec3(-a.x, -a.y, -a.z) }
  function Scale(t: real, a: Vec3): Vec3 { Vec3(t * a.x, t * a.y, t * a.z) }
  /** Componentwise product (colour attenuation). */
  function Mul(a: Vec3, b: Vec3): Vec3 { Vec3(a.x * b.x, a.y * b.y, a.z * b.z) }
  function Div(a: Vec3, t: real): Vec3 requires t != 0.0 { Vec3(a.x / t, a.y / t, a.z / t) }
  function Dot(a: Vec3, b: Vec3): real { a.x * b.x + a.y * b.y + a.z * b.z }
  function Cross(a: Vec3, b: Vec3): Vec3
  {
    Vec3(a.y * b.z - a.z * b.y, a.z * b.x - a.x * b.z, a.x * b.y - a.y * b.x)
  }

  /** length(), through the uninterpreted sqrt. */
  function Length(m: Libm, a: Vec3): real { m.sqrt(a.LengthSquared()) }

  /** unit_vector(v) = v / |v|; a zero length has no model (NaN in the source). */
  function Unit(m: Libm, a: Vec3): Vec3
    requires Length(m, a) != 0.0
  {
    Div(a, Length(m, a))
  }

  /** Mirror reflection of v about the normal n. */
  function Reflect(v: Vec3, n: Vec3): Vec3 { Sub(v, Scale(2.0 * Dot(v, n), n)) }

  /** Snell refraction of the unit vector uv through the normal n with ratio etaiOverEtat. */
  function Refract(m: Libm, uv: Vec3, n: Vec3, etaiOverEtat: real): Vec3
  {
    var cosTheta := Fmin(Dot(Neg(uv), n), 1.0);
    var perp := Scale(etaiOverEtat, Add(uv, Scale(cosTheta, n)));
    var s := 1.0 - perp.LengthSquared();
    var parallel := Scale(-m.sqrt(if s < 0.0 then -s else s), n);
    Add(perp, parallel)
  }

  /** A row-matrix rotation: each new coordinate is the dot product of a row with the old vector. */
  datatype Rows = Rows(rowX: Vec3, rowY: Vec3, rowZ: Vec3)
  {
    function RowAt(n: int): Vec3
    {
      if n == 0 then rowX else if n == 1 then rowY else rowZ
    }
  }

  function Apply(rows: Rows, a: Vec3): Vec3
  {
    Vec3(Dot(rows.rowX, a), Dot(rows.rowY, a), Dot(rows.rowZ, a))
  }

  /**
   * The rows rotate(degree, axis) builds for a rotation about the x (0), y (1) or z (2) axis.
   * Any other axis leaves the three default-constructed rows, which are zero.
   */
  function RotationRows(m: Libm, degree: real, axis: int): (rows: Rows)
    ensures !(0 <= axis < 3) ==> rows == Rows(Zero, Zero, Zero)
    ensures 0 <= axis < 3 ==> rows.RowAt(axis) == UnitAxis(axis)
  {
    var radians := DegreesToRadians(degree);
    var c := m.cos(radians);
    var s := m.sin(radians);
    if axis == 0 then Rows(Vec3(1.0, 0.0, 0.0), Vec3(0.0, c, -s), Vec3(0.0, s, c))
    else if axis == 1 then Rows(Vec3(c, 0.0, s), Vec3(0.0, 1.0, 0.0), Vec3(-s, 0.0, c))
    else if axis == 2 then Rows(Vec3(c, -s, 0.0), Vec3(s, c, 0.0), Vec3(0.0, 0.0, 1.0))
    else Rows(Zero, Zero, Zero)
  }

  /** The unit vector along coordinate axis n. */
  function UnitAxis(n: int): Vec3
  {
    if n == 0 then Vec3(1.0, 0.0, 0.0) else if n == 1 then Vec3(0.0, 1.0, 0.0) else Vec3(0.0, 0.0, 1.0)
  }

  /** A rotation about an axis leaves that coordinate of every vector unchanged. */
  lemma RotationFixesAxis(m: Libm, degree: real, axis: int, a: Vec3)
    requires 0 <= axis < 3
    ensures Apply(RotationRows(m, degree, axis), a).At(axis) == a.At(axis)
  {
  }

  /** With an axis outside 0..2 every vector is sent to zero. */
  lemma BadAxisCollapses(m: Libm, degree: real, axis: int, a: Vec3)
    requires !(0 <= axis < 3)
    ensures Apply(RotationRows(m, degree, axis), a) == Zero
  {
  }

  /** Reflecting about a unit normal negates the component along the normal. */
  lemma ReflectFlipsNormal(v: Vec3, n: Vec3)
    requires Dot(n, n) == 1.0
    ensures Dot(Reflect(v, n), n) == -Dot(v, n)
  {
    var k := 2.0 * Dot(v, n);
    assert Dot(Reflect(v, n), n) == Dot(v, n) - k * Dot(n, n);
  }

  /** Reflecting twice about the same unit normal gives the vector back. */
  lemma ReflectInvolution(v: Vec3, n: Vec3)
    requires Dot(n, n) == 1.0
    ensures Reflect(Reflect(v, n), n) == v
  {
    ReflectFlipsNormal(v, n);
    var w := Reflect(v, n);
    assert Scale(2.0 * Dot(w, n), n) == Scale(-2.0 * Dot(v, n), n);
  }

  /** Reflection about a unit normal keeps the length. */
  lemma ReflectKeepsLength(v: Vec3, n: Vec3)
    requires Dot(n, n) == 1.0
    ensures Reflect(v, n).LengthSquared() == v.LengthSquared()
  {
    var k := 2.0 * Dot(v, n);
    var w := Reflect(v, n);
    assert w.LengthSquared() == Dot(w, w);
    assert v.LengthSquared() == Dot(v, v);
    assert Dot(w, w) == Dot(v, v) - 2.0 * k * Dot(v, n) + k * k * Dot(n, n);
  }

  /** The cross product is perpendicular to both of its arguments. */
  lemma CrossPerpendicular(a: Vec3, b: Vec3)
    ensures Dot(a, Cross(a, b)) == 0.0 && Dot(b, Cross(a, b)) == 0.0
  {
  }

  lemma LengthSquaredNonnegative(a: Vec3)
    ensures 0.0 <= a.LengthSquared()
  {
    SquareNonnegative(a.x);
    SquareNonnegative(a.y);
    SquareNonnegative(a.z);
  }

  lemma SquareNonnegative(r: real)
    ensures 0.0 <= r * r
  {
    if r < 0.0 {
      assert r * r == (-r) * (-r);
    }
  }
}
