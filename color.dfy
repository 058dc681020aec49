/**
 * Writing a pixel (color.h): the accumulated colour is averaged over the samples, gamma
 * corrected, clamped and scaled to an integer in [0, 255] per channel, and written as one text
 * line of three decimal integers.
 */
module Colors {
  import opened Wrappers
  import opened Numerics
  import opened Vectors
  import opened Intervals

  /** linear_to_gamma: gamma 2, the square root. */
  function LinearToGamma(m: Libm, linear: real): (g: real)
    ensures m.SqrtLaws() && 0.0 <= linear ==> 0.0 <= g
  {
    m.sqrt(linear)
  }

  /** The intensity range a channel is clamped to before scaling. */
  const Intensity: Interval := Interval(Fin(0.0), Fin(0.999))

  /** static_cast<int>(256 * intensity.clamp(g)): a gamma-corrected value as an integer in [0, 255]. */
  function Quantize(g: real): (b: int)
    ensures 0 <= b <= 255
    ensures g <= 0.0 ==> b == 0
    ensures 0.999 <= g ==> b == 255
  {
    var c := Intensity.Clamp(g);
    ClampInside(Intensity, g);
    TruncBounds(256.0 * c);
    Trunc(256.0 * c)
  }

  /** One channel's integer: the accumulated value averaged over the samples, gamma corrected and quantized. */
  function ChannelByte(m: Libm, x: real, spp: int): (b: int)
    requires spp != 0
    ensures 0 <= b <= 255
  {
    Quantize(LinearToGamma(m, x * (1.0 / Real(spp))))
  }

  // ---------------------------------------------------------------------------------------------
  // Decimal text

  predicate IsDigit(c: char) { '0' <= c <= '9' }

  predicate AllDigits(s: string) { forall i :: 0 <= i < |s| ==> IsDigit(s[i]) }

  function DigitChar(d: nat): (c: char)
    requires d < 10
    ensures IsDigit(c) && c as int - '0' as int == d
  {
    ('0' as int + d) as char
  }

  function DigitValue(c: char): (d: nat)
    requires IsDigit(c)
    ensures d < 10
  {
    c as int - '0' as int
  }

  /** operator<< on a nonnegative int: its decimal digits, most significant first. */
  function NatToString(n: nat): (s: string)
    ensures 0 < |s| && AllDigits(s)
  {
    if n < 10 then [DigitChar(n)] else NatToString(n / 10) + [DigitChar(n % 10)]
  }

  /** The value of a string of decimal digits. */
  function StringToNat(s: string): nat
    requires AllDigits(s)
  {
    if |s| == 0 then 0 else StringToNat(s[..|s| - 1]) * 10 + DigitValue(s[|s| - 1])
  }

  /** Reading back the digits written for n gives n. */
  lemma {:induction false} NatStringRoundTrip(n: nat)
    ensures StringToNat(NatToString(n)) == n
  {
    var s := NatToString(n);
    if n >= 10 {
      NatStringRoundTrip(n / 10);
      assert s[..|s| - 1] == NatToString(n / 10);
    }
  }

  /** The output line: three integers separated by single spaces, then a newline. */
  function FormatLine(r: nat, g: nat, b: nat): (line: string)
    ensures 6 <= |line| && line[|line| - 1] == '\n'
  {
    NatToString(r) + [' '] + (NatToString(g) + [' '] + (NatToString(b) + ['\n']))
  }

  /** The longest prefix of decimal digits, and the rest. */
  function TakeDigits(s: string): (split: (string, string))
    ensures AllDigits(split.0) && split.0 + split.1 == s
    ensures |split.1| == 0 || !IsDigit(split.1[0])
  {
    if |s| == 0 || !IsDigit(s[0]) then ([], s)
    else
      var (d, rest) := TakeDigits(s[1..]);
      assert [s[0]] + d + rest == s;
      ([s[0]] + d, rest)
  }

  /** A digit string followed by a non-digit is split exactly there. */
  lemma {:induction false} TakeDigitsOf(d: string, rest: string)
    requires AllDigits(d) && (|rest| == 0 || !IsDigit(rest[0]))
    ensures TakeDigits(d + rest) == (d, rest)
  {
    if |d| > 0 {
      assert (d + rest)[0] == d[0] && IsDigit(d[0]);
      assert (d + rest)[1..] == d[1..] + rest;
      TakeDigitsOf(d[1..], rest);
      assert [d[0]] + d[1..] == d;
    } else {
      assert d + rest == rest;
    }
  }

  /** One integer field followed by the separator `sep`. */
  function ParseField(s: string, sep: char): (r: Option<(nat, string)>)
  {
    var (d, rest) := TakeDigits(s);
    if |d| == 0 || |rest| == 0 || rest[0] != sep then None
    else Some((StringToNat(d), rest[1..]))
  }

  /** Reads a line of three integers back; None when it is not of that shape. */
  function ParseLine(line: string): (r: Option<(nat, nat, nat)>)
  {
    match ParseField(line, ' ')
    case None => None
    case Some((r, s1)) =>
      match ParseField(s1, ' ')
      case None => None
      case Some((g, s2)) =>
        match ParseField(s2, '\n')
        case None => None
        case Some((b, s3)) => if |s3| == 0 then Some((r, g, b)) else None
  }

  lemma ParseFieldOf(n: nat, sep: char, rest: string)
    requires !IsDigit(sep)
    ensures ParseField(NatToString(n) + [sep] + rest, sep) == Some((n, rest))
  {
    var s := NatToString(n) + [sep] + rest;
    assert s == NatToString(n) + ([sep] + rest);
    TakeDigitsOf(NatToString(n), [sep] + rest);
    NatStringRoundTrip(n);
    assert ([sep] + rest)[1..] == rest;
  }

  /** The written line reads back as the three integers written. */
  lemma FormatParseRoundTrip(r: nat, g: nat, b: nat)
    ensures ParseLine(FormatLine(r, g, b)) == Some((r, g, b))
  {
    var tail2 := NatToString(b) + ['\n'];
    var tail1 := NatToString(g) + [' '] + tail2;
    ParseFieldOf(r, ' ', tail1);
    ParseFieldOf(g, ' ', tail2);
    assert tail2 == NatToString(b) + ['\n'] + [];
    ParseFieldOf(b, '\n', []);
  }

  // ---------------------------------------------------------------------------------------------
  // pixel_to_image

  /** The line written for an accumulated colour over spp samples. */
  function PixelLine(m: Libm, pixel: Color, spp: int): string
    requires spp != 0
  {
    FormatLine(ChannelByte(m, pixel.x, spp), ChannelByte(m, pixel.y, spp), ChannelByte(m, pixel.z, spp))
  }

  /**
   * pixel_to_image: scales the three channels in place by 1 / spp, gamma corrects them, and
   * writes the clamped, scaled and truncated values. Returns the text written.
   */
  method PixelToImage(m: Libm, pixel: Color, spp: int) returns (line: string)
    requires spp != 0
    ensures line == PixelLine(m, pixel, spp)
    ensures ParseLine(line) == Some((ChannelByte(m, pixel.x, spp) as nat, ChannelByte(m, pixel.y, spp) as nat, ChannelByte(m, pixel.z, spp) as nat))
  {
    var r, g, b := pixel.x, pixel.y, pixel.z;
    var scale := 1.0 / Real(spp);
    r := r * scale;
    g := g * scale;
    b := b * scale;
    ChannelOfScaled(m, pixel.x, spp, r);
    ChannelOfScaled(m, pixel.y, spp, g);
    ChannelOfScaled(m, pixel.z, spp, b);
    r := LinearToGamma(m, r);
    g := LinearToGamma(m, g);
    b := LinearToGamma(m, b);
    var ri, gi, bi := Quantize(r), Quantize(g), Quantize(b);
    line := NatToString(ri) + [' '] + (NatToString(gi) + [' '] + (NatToString(bi) + ['\n']));
    FormatParseRoundTrip(ri, gi, bi);
  }

  /** A channel value already scaled by 1 / spp determines the channel's integer. */
  lemma ChannelOfScaled(m: Libm, x: real, spp: int, scaled: real)
    requires spp != 0 && scaled == x * (1.0 / Real(spp))
    ensures ChannelByte(m, x, spp) == Quantize(LinearToGamma(m, scaled))
  {
  }

  /** Black writes 0 0 0 whatever the sample count. */
  lemma BlackIsZero(m: Libm, spp: int)
    requires m.SqrtLaws() && spp != 0
    ensures ChannelByte(m, 0.0, spp) == 0
    ensures PixelLine(m, Zero, spp) == "0 0 0\n"
  {
    assert 0.0 * (1.0 / Real(spp)) == 0.0;
  }

  /** White from a single sample writes 255 255 255. */
  lemma WhiteOneSampleIs255(m: Libm)
    requires m.SqrtLaws()
    ensures ChannelByte(m, 1.0, 1) == 255
    ensures PixelLine(m, Vec3(1.0, 1.0, 1.0), 1) == "255 255 255\n"
  {
    assert 1.0 * (1.0 / Real(1)) == 1.0;
    assert Trunc(256.0 * 0.999) == 255;
    assert NatToString(255) == "255" by {
      assert NatToString(25) == "25";
    }
  }

  /** Brighter accumulated light never writes a smaller integer, for a monotone square root. */
  lemma ChannelMonotone(m: Libm, x: real, y: real, spp: int)
    requires m.SqrtLaws() && m.SqrtMonotone() && 0 < spp && 0.0 <= x <= y
    ensures ChannelByte(m, x, spp) <= ChannelByte(m, y, spp)
  {
    ScaledChannelMonotone(m, x, y, 1.0 / Real(spp));
  }

  /** The same, for any positive scale in place of 1 / samples_per_pixel. */
  lemma ScaledChannelMonotone(m: Libm, x: real, y: real, s: real)
    requires m.SqrtMonotone() && 0.0 <= x <= y && 0.0 < s
    ensures Quantize(LinearToGamma(m, x * s)) <= Quantize(LinearToGamma(m, y * s))
  {
    ScaleKeepsOrder(x, y, s);
    GammaMonotone(m, x * s, y * s);
    QuantizeMonotone(LinearToGamma(m, x * s), LinearToGamma(m, y * s));
  }

  lemma ScaleKeepsOrder(x: real, y: real, s: real)
    requires 0.0 <= x <= y && 0.0 < s
    ensures 0.0 <= x * s <= y * s
  {
    assert (y - x) * s >= 0.0;
  }

  lemma GammaMonotone(m: Libm, a: real, b: real)
    requires m.SqrtMonotone() && 0.0 <= a <= b
    ensures LinearToGamma(m, a) <= LinearToGamma(m, b)
  {
  }

  /** A larger gamma value never quantizes to a smaller byte. */
  lemma QuantizeMonotone(g1: real, g2: real)
    requires g1 <= g2
    ensures Quantize(g1) <= Quantize(g2)
  {
    var c1, c2 := Intensity.Clamp(g1), Intensity.Clamp(g2);
    ClampInside(Intensity, g1);
    assert c1 <= c2;
    TruncMonotone(256.0 * c1, 256.0 * c2);
  }

  lemma TruncMonotone(a: real, b: real)
    requires 0.0 <= a <= b
    ensures Trunc(a) <= Trunc(b)
  {
    TruncBounds(a);
    TruncBounds(b);
  }
}
