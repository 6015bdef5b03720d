/**
 * Per-pixel arithmetic of the equiluminance correction: the rescale formula,
 * the overflow recorded in the clip image, the clamp to the displayable range,
 * the 8-bit cast, and a reference definition of what the per-stimulus loop
 * body computes for a single pixel.
 *
 * Channel values are exact reals; the float32 buffers of the program are
 * modelled without rounding.
 */
module Pixels {

  /** A stored 8-bit channel value, as decoded from or encoded to an image file. */
  type Byte = b: int | 0 <= b < 256

  /** The largest displayable channel value. */
  const MaxLevel: real := 255.0

  /** One number per colour channel: the R, G and B columns of a table row. */
  datatype Rgb = Rgb(r: real, g: real, b: real)

  predicate Positive(c: Rgb) {
    c.r > 0.0 && c.g > 0.0 && c.b > 0.0
  }

  predicate NonNegative(c: Rgb) {
    c.r >= 0.0 && c.g >= 0.0 && c.b >= 0.0
  }

  /**
   * Normalise a channel value by the population-typical value of that channel
   * and scale it by the subject's equiluminance factor.
   */
  function Rescale(v: real, typical: real, factor: real): (w: real)
    requires typical != 0.0
    ensures w * typical == v * factor
    ensures v == typical ==> w == factor
    ensures typical > 0.0 && v >= 0.0 && factor >= 0.0 ==> w >= 0.0
  {
    v / typical * factor
  }

  /** By how much a value exceeds the displayable range: max(v - 255, 0). */
  function Overflow(v: real): (o: real)
    ensures o >= 0.0
    ensures o == 0.0 <==> v <= MaxLevel
    ensures o > 0.0 ==> v == MaxLevel + o
  {
    if v > MaxLevel then v - MaxLevel else 0.0
  }

  /** The in-place ceiling: values above 255 become 255; there is no lower bound. */
  function Clamp(v: real): (c: real)
    ensures c <= MaxLevel && c <= v
    ensures c == v || c == MaxLevel
    ensures v <= MaxLevel ==> c == v
  {
    if v > MaxLevel then MaxLevel else v
  }

  /** numpy's cast to uint8 of a value in [0, 255]: truncation, here the floor. */
  function ToByte(v: real): (b: Byte)
    requires 0.0 <= v <= MaxLevel
    ensures b as real <= v < b as real + 1.0
  {
    v.Floor
  }

  lemma ClampIdempotent(v: real)
    ensures Clamp(Clamp(v)) == Clamp(v)
  {
  }

  /** The clip image records exactly what the clamp removes. */
  lemma ClampPlusOverflow(v: real)
    ensures Clamp(v) + Overflow(v) == v
  {
  }

  /** A stored 8-bit value survives the float conversion and the cast back unchanged. */
  lemma ToByteOfByte(b: Byte)
    ensures ToByte(b as real) == b
  {
  }

  /** OpenCV's BGR to RGBA conversion of one pixel: colours reversed, alpha appended. */
  function ToRgba(bgr: seq<real>, alpha: real): (rgba: seq<real>)
    requires |bgr| == 3
    ensures |rgba| == 4
  {
    [bgr[2], bgr[1], bgr[0], alpha]
  }

  /** Merging the R, G, B, A planes back in the order B, G, R, A. */
  function ToBgra(rgba: seq<real>): (bgra: seq<real>)
    requires |rgba| == 4
    ensures |bgra| == 4
  {
    [rgba[2], rgba[1], rgba[0], rgba[3]]
  }

  /** Split as R, G, B, A and merged as B, G, R, A, a pixel keeps its channel order. */
  lemma ChannelOrderRestored(bgr: seq<real>, alpha: real)
    requires |bgr| == 3
    ensures ToBgra(ToRgba(bgr, alpha)) == bgr + [alpha]
  {
  }

  /** The colour rescale of one RGBA pixel; alpha is not touched. */
  function RescaleRgb(rgba: seq<real>, typical: Rgb, factors: Rgb): (p: seq<real>)
    requires |rgba| == 4 && Positive(typical)
    ensures |p| == 4
  {
    [Rescale(rgba[0], typical.r, factors.r),
     Rescale(rgba[1], typical.g, factors.g),
     Rescale(rgba[2], typical.b, factors.b),
     rgba[3]]
  }

  /**
   * Reference definition of the loop body for one pixel of one image
   * variant, up to (not including) the clamp: convert to RGBA with the
   * decoder's alpha, rescale the colours when the colour mask selects the
   * pixel, make it opaque when the foreground mask selects it, and merge
   * back in B, G, R, A order.
   */
  function CorrectPixel(bgr: seq<real>, alpha: real, inColor: bool, inForeground: bool,
                        typical: Rgb, factors: Rgb): (bgra: seq<real>)
    requires |bgr| == 3 && Positive(typical)
    ensures |bgra| == 4
  {
    var rgba := ToRgba(bgr, alpha);
    var rescaled := if inColor then RescaleRgb(rgba, typical, factors) else rgba;
    var composited := if inForeground then rescaled[3 := MaxLevel] else rescaled;
    ToBgra(composited)
  }

  /** Outside the colour mask, B, G and R reach the merged image unchanged and in place. */
  lemma OutsideColorMaskUnchanged(bgr: seq<real>, alpha: real, inForeground: bool,
                                  typical: Rgb, factors: Rgb)
    requires |bgr| == 3 && Positive(typical)
    ensures CorrectPixel(bgr, alpha, false, inForeground, typical, factors)[..3] == bgr
  {
  }

  /** Inside the colour mask, each colour channel is rescaled with its own columns. */
  lemma InsideColorMaskRescaled(bgr: seq<real>, alpha: real, inForeground: bool,
                                typical: Rgb, factors: Rgb)
    requires |bgr| == 3 && Positive(typical)
    ensures var p := CorrectPixel(bgr, alpha, true, inForeground, typical, factors);
      && p[0] == bgr[0] / typical.b * factors.b
      && p[1] == bgr[1] / typical.g * factors.g
      && p[2] == bgr[2] / typical.r * factors.r
  {
  }

  /** Alpha is 255 where the foreground mask selects the pixel and the decoder's value elsewhere. */
  lemma AlphaFromForegroundMask(bgr: seq<real>, alpha: real, inColor: bool, inForeground: bool,
                                typical: Rgb, factors: Rgb)
    requires |bgr| == 3 && Positive(typical)
    ensures CorrectPixel(bgr, alpha, inColor, inForeground, typical, factors)[3]
            == if inForeground then MaxLevel else alpha
  {
  }

  /** The alpha channel of the clip image is always zero. */
  lemma AlphaNeverOverflows(bgr: seq<real>, alpha: real, inColor: bool, inForeground: bool,
                            typical: Rgb, factors: Rgb)
    requires |bgr| == 3 && Positive(typical) && alpha <= MaxLevel
    ensures Overflow(CorrectPixel(bgr, alpha, inColor, inForeground, typical, factors)[3]) == 0.0
  {
  }

  /**
   * With non-negative pixels and alpha, positive typical values and
   * non-negative factors, no channel of the merged image is negative, so the
   * clamped value is a valid argument of the 8-bit cast.
   */
  lemma CorrectPixelNonNegative(bgr: seq<real>, alpha: real, inColor: bool, inForeground: bool,
                                typical: Rgb, factors: Rgb, k: nat)
    requires |bgr| == 3 && Positive(typical) && NonNegative(factors) && k < 4
    requires bgr[0] >= 0.0 && bgr[1] >= 0.0 && bgr[2] >= 0.0 && alpha >= 0.0
    ensures 0.0 <= Clamp(CorrectPixel(bgr, alpha, inColor, inForeground, typical, factors)[k]) <= MaxLevel
  {
  }

  /**
   * A stored pixel outside the colour mask leaves the program with its
   * original B, G and R bytes in the same slots.
   */
  lemma UntouchedPixelKeepsBytes(b: Byte, g: Byte, r: Byte, alpha: real, inForeground: bool,
                                 typical: Rgb, factors: Rgb)
    requires Positive(typical) && 0.0 <= alpha <= MaxLevel
    ensures var p := CorrectPixel([b as real, g as real, r as real], alpha, false, inForeground, typical, factors);
      && ToByte(Clamp(p[0])) == b
      && ToByte(Clamp(p[1])) == g
      && ToByte(Clamp(p[2])) == r
  {
  }
  /** A worked example: halving factors on a pixel that stays in range. */
  lemma InRangeExample(alpha: real)
    requires 0.0 <= alpha <= MaxLevel
    ensures var p := CorrectPixel([100.0, 100.0, 200.0], alpha, true, false,
                                  Rgb(100.0, 100.0, 100.0), Rgb(50.0, 50.0, 50.0));
      && p == [50.0, 50.0, 100.0, alpha]
      && Overflow(p[0]) == Overflow(p[1]) == Overflow(p[2]) == Overflow(p[3]) == 0.0
      && Clamp(p[0]) == 50.0 && Clamp(p[1]) == 50.0 && Clamp(p[2]) == 100.0
  {
  }

  /** A worked example: a twenty-fold factor pushes every colour channel past 255. */
  lemma OverflowExample()
    ensures var p := CorrectPixel([50.0, 50.0, 50.0], 1.0, true, true,
                                  Rgb(10.0, 10.0, 10.0), Rgb(200.0, 200.0, 200.0));
      && p == [1000.0, 1000.0, 1000.0, MaxLevel]
      && Overflow(p[0]) == Overflow(p[1]) == Overflow(p[2]) == 745.0
      && Clamp(p[0]) == Clamp(p[1]) == Clamp(p[2]) == MaxLevel
  {
  }
  /** A worked example: an overflow of 46.5 is stored in the clip image as 46. */
  lemma ClipCastExample()
    ensures var p := CorrectPixel([0.0, 0.0, 201.0], 1.0, true, false,
                                  Rgb(2.0, 1.0, 1.0), Rgb(3.0, 1.0, 1.0));
      && p[2] == 301.5
      && Overflow(p[2]) == 46.5 && ToByte(Overflow(p[2])) == 46
      && ToByte(Clamp(p[2])) == 255
  {
  }
}
