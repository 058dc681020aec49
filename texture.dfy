/** Textures (texture.h): a solid colour, a 3-D checkerboard, and an image lookup. */
module Textures {
  import opened Numerics
  import opened Vectors
  import opened Intervals

  /**
   * An image is abstracted to its dimensions and a pixel lookup returning the three byte
   * values at a column and row; the decoder and its own index handling are not modelled.
   */
  datatype Texture =
    | Solid(colorValue: Color)
    | Checker(invScale: real, even: Texture, odd: Texture)
    | ImageTex(width: int, height: int, pixel: (int, int) -> Vec3)

  const Cyan: Color := Vec3(0.0, 1.0, 1.0)

  /** checker_board(scale, even, odd) stores the reciprocal of the scale. */
  function MakeChecker(scale: real, even: Texture, odd: Texture): (t: Texture)
    requires scale != 0.0
    ensures t.Checker? && t.even == even && t.odd == odd
    ensures t.invScale * scale == 1.0
  {
    Checker(1.0 / scale, even, odd)
  }

  /** The C++ remainder: truncates toward zero, so it takes the sign of the dividend. */
  function CRem(a: int, b: int): int
    requires b != 0
  {
    if a >= 0 || a % b == 0 then a % b else a % b - (if b > 0 then b else -b)
  }

  /** The checker cell of a point: the sum of the floors of its scaled coordinates. */
  function CellSum(invScale: real, p: Point3): int
  {
    FloorSum(Scale(invScale, p))
  }

  function FloorSum(s: Vec3): int
  {
    s.x.Floor + s.y.Floor + s.z.Floor
  }

  /** The image coordinates looked up for (u, v): both clamped to [0, 1], v flipped, then truncated. */
  function ImageIndex(width: int, height: int, u: real, v: real): (int, int)
  {
    var unit := Interval(Fin(0.0), Fin(1.0));
    (PixelCoord(unit.Clamp(u), width), PixelCoord(1.0 - unit.Clamp(v), height))
  }

  /** The pixel a coordinate c in [0, 1] selects along an axis of n pixels: truncated c * n. */
  function PixelCoord(c: real, n: int): int
  {
    Trunc(c * Real(n))
  }

  /** texture::get_value for each kind of texture. */
  function GetValue(tex: Texture, u: real, v: real, p: Point3): Color
    decreases tex
  {
    match tex
    case Solid(c) => c
    case Checker(invScale, even, odd) =>
      if CRem(CellSum(invScale, p), 2) == 0 then GetValue(even, u, v, p) else GetValue(odd, u, v, p)
    case ImageTex(w, h, pixel) =>
      if h <= 0 then Cyan
      else
        var (i, j) := ImageIndex(w, h, u, v);
        Scale(1.0 / 255.0, pixel(i, j))
  }

  /** The C++ remainder by 2 is zero exactly when the number is even. */
  lemma {:induction false} CRemTwoIsParity(a: int)
    ensures CRem(a, 2) == 0 <==> a % 2 == 0
  {
  }

  /** A solid colour ignores the texture coordinates and the point. */
  lemma SolidIsConstant(c: Color, u: real, v: real, p: Point3, u': real, v': real, p': Point3)
    ensures GetValue(Solid(c), u, v, p) == GetValue(Solid(c), u', v', p') == c
  {
  }

  /** The checkerboard shows the even texture exactly when the floored cell coordinates sum to an even number. */
  lemma CheckerParity(invScale: real, even: Texture, odd: Texture, u: real, v: real, p: Point3)
    ensures CellSum(invScale, p) % 2 == 0 ==> GetValue(Checker(invScale, even, odd), u, v, p) == GetValue(even, u, v, p)
    ensures CellSum(invScale, p) % 2 != 0 ==> GetValue(Checker(invScale, even, odd), u, v, p) == GetValue(odd, u, v, p)
  {
    CRemTwoIsParity(CellSum(invScale, p));
  }

  /** Moving a point by one cell width along x flips the checkerboard colour. */
  lemma {:induction false} CheckerAlternates(invScale: real, cell: real, p: Point3)
    requires cell * invScale == 1.0
    ensures (CellSum(invScale, p) % 2 == 0) != (CellSum(invScale, Vec3(p.x + cell, p.y, p.z)) % 2 == 0)
  {
    var s := Scale(invScale, p);
    assert Scale(invScale, Vec3(p.x + cell, p.y, p.z)) == Vec3(s.x + 1.0, s.y, s.z);
    FloorSumShift(s);
  }

  lemma FloorSumShift(s: Vec3)
    ensures FloorSum(Vec3(s.x + 1.0, s.y, s.z)) == FloorSum(s) + 1
  {
  }

  /** An image without rows yields cyan. */
  lemma EmptyImageIsCyan(w: int, h: int, pixel: (int, int) -> Vec3, u: real, v: real, p: Point3)
    requires h <= 0
    ensures GetValue(ImageTex(w, h, pixel), u, v, p) == Cyan
  {
  }

  /**
   * The looked-up indices stay within 0..width and 0..height whatever (u, v) is, and the upper
   * bounds are reached: at u >= 1 the column is width, at v <= 0 the row is height.
   */
  lemma {:induction false} ImageIndexBounds(w: int, h: int, u: real, v: real)
    requires 0 <= w && 0 < h
    ensures 0 <= ImageIndex(w, h, u, v).0 <= w
    ensures 0 <= ImageIndex(w, h, u, v).1 <= h
    ensures u >= 1.0 ==> ImageIndex(w, h, u, v).0 == w
    ensures v <= 0.0 ==> ImageIndex(w, h, u, v).1 == h
  {
    var unit := Interval(Fin(0.0), Fin(1.0));
    ClampInside(unit, u);
    ClampInside(unit, v);
    PixelCoordBounds(unit.Clamp(u), w);
    PixelCoordBounds(1.0 - unit.Clamp(v), h);
  }

  lemma {:induction false} PixelCoordBounds(c: real, n: int)
    requires 0.0 <= c <= 1.0 && 0 <= n
    ensures 0 <= PixelCoord(c, n) <= n
    ensures c == 1.0 ==> PixelCoord(c, n) == n
  {
    UnitProduct(c, Real(n));
    TruncBounds(c * Real(n));
    if c == 1.0 {
      assert c * Real(n) == Real(n);
    }
  }

  /** With byte-valued pixels, every channel of an image texture lies in [0, 1]. */
  lemma {:induction false} ImageChannelsInUnitRange(w: int, h: int, pixel: (int, int) -> Vec3, u: real, v: real, p: Point3)
    requires 0 < h
    requires forall i, j :: 0.0 <= pixel(i, j).x <= 255.0 && 0.0 <= pixel(i, j).y <= 255.0 && 0.0 <= pixel(i, j).z <= 255.0
    ensures var c := GetValue(ImageTex(w, h, pixel), u, v, p);
      0.0 <= c.x <= 1.0 && 0.0 <= c.y <= 1.0 && 0.0 <= c.z <= 1.0
  {
    var (i, j) := ImageIndex(w, h, u, v);
    var px := pixel(i, j);
    assert GetValue(ImageTex(w, h, pixel), u, v, p) == Scale(1.0 / 255.0, px);
  }
}
