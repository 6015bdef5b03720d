/**
 * The body of the per-stimulus loop, on buffers: the decoded 8-bit images
 * (height x width x 3, in the decoder's B, G, R order), the float working
 * images and their single-channel planes, and the boolean masks. Each numpy
 * vectorised assignment of the program is a `forall` statement here: every
 * selected element is updated at once from the values before the update.
 */
module Stimulus {
  import opened Pixels
  import opened Tables

  datatype Error = ShapeMismatch

  datatype Result<T> = Success(value: T) | Failure(error: Error)

  /** The four 8-bit images one loop iteration writes. */
  datatype WrittenImages = WrittenImages(trueClipped: array3<Byte>, invClipped: array3<Byte>,
                                         trueCorrected: array3<Byte>, invCorrected: array3<Byte>)

  /** The B, G, R values of one decoded pixel, as reals. */
  function SourcePixel(img: array3<Byte>, i: nat, j: nat): (bgr: seq<real>)
    reads img
    requires i < img.Length0 && j < img.Length1 && img.Length2 == 3
    ensures |bgr| == 3 && bgr[0] >= 0.0 && bgr[1] >= 0.0 && bgr[2] >= 0.0
  {
    [img[i, j, 0] as real, img[i, j, 1] as real, img[i, j, 2] as real]
  }

  /** Image and mask have the same height and width. */
  predicate SameShape<T, U>(img: array3<T>, other: array3<U>) {
    img.Length0 == other.Length0 && img.Length1 == other.Length1
  }

  /** The typical values divide and the factors scale without making a channel negative. */
  predicate ValidJob(job: Job) {
    && Positive(job.typical.trueRgb) && Positive(job.typical.invRgb)
    && NonNegative(job.factors.trueRgb) && NonNegative(job.factors.invRgb)
  }

  /** A mask pixel is selected exactly when channel 0 of the mask image is nonzero. */
  method DeriveMask(maskImg: array3<Byte>) returns (mask: array2<bool>)
    requires maskImg.Length2 == 3
    ensures fresh(mask)
    ensures mask.Length0 == maskImg.Length0 && mask.Length1 == maskImg.Length1
    ensures forall i, j :: 0 <= i < mask.Length0 && 0 <= j < mask.Length1 ==>
              (mask[i, j] <==> maskImg[i, j, 0] != 0)
  {
    mask := new bool[maskImg.Length0, maskImg.Length1];
    forall i, j | 0 <= i < mask.Length0 && 0 <= j < mask.Length1 {
      mask[i, j] := maskImg[i, j, 0] != 0;
    }
  }

  /** Conversion to float followed by OpenCV's BGR to RGBA conversion, with the decoder's alpha. */
  method ToFloatRgba(img: array3<Byte>, alpha: real) returns (rgba: array3<real>)
    requires img.Length2 == 3
    ensures fresh(rgba)
    ensures rgba.Length0 == img.Length0 && rgba.Length1 == img.Length1 && rgba.Length2 == 4
    ensures forall i, j, k :: 0 <= i < rgba.Length0 && 0 <= j < rgba.Length1 && 0 <= k < 4 ==>
              rgba[i, j, k] == ToRgba(SourcePixel(img, i, j), alpha)[k]
  {
    rgba := new real[img.Length0, img.Length1, 4];
    forall i, j, k | 0 <= i < img.Length0 && 0 <= j < img.Length1 && 0 <= k < 4 {
      rgba[i, j, k] := if k == 3 then alpha else img[i, j, 2 - k] as real;
    }
  }

  /** One plane of a four-channel image. */
  method Channel(img: array3<real>, k: nat) returns (plane: array2<real>)
    requires k < img.Length2
    ensures fresh(plane)
    ensures plane.Length0 == img.Length0 && plane.Length1 == img.Length1
    ensures forall i, j :: 0 <= i < plane.Length0 && 0 <= j < plane.Length1 ==> plane[i, j] == img[i, j, k]
  {
    plane := new real[img.Length0, img.Length1];
    forall i, j | 0 <= i < plane.Length0 && 0 <= j < plane.Length1 {
      plane[i, j] := img[i, j, k];
    }
  }

  /** OpenCV's split of a four-channel image into four separate planes. */
  method Split(img: array3<real>) returns (c0: array2<real>, c1: array2<real>, c2: array2<real>, c3: array2<real>)
    requires img.Length2 == 4
    ensures fresh(c0) && fresh(c1) && fresh(c2) && fresh(c3)
    ensures c0 != c1 && c0 != c2 && c0 != c3 && c1 != c2 && c1 != c3 && c2 != c3
    ensures forall c :: c in [c0, c1, c2, c3] ==> c.Length0 == img.Length0 && c.Length1 == img.Length1
    ensures forall i, j :: 0 <= i < img.Length0 && 0 <= j < img.Length1 ==>
              c0[i, j] == img[i, j, 0] && c1[i, j] == img[i, j, 1] &&
              c2[i, j] == img[i, j, 2] && c3[i, j] == img[i, j, 3]
  {
    c0 := Channel(img, 0);
    c1 := Channel(img, 1);
    c2 := Channel(img, 2);
    c3 := Channel(img, 3);
  }

  /** Masked rescale of one colour plane; pixels outside the mask keep their value. */
  method RescaleMasked(plane: array2<real>, mask: array2<bool>, typical: real, factor: real)
    requires plane.Length0 == mask.Length0 && plane.Length1 == mask.Length1
    requires typical != 0.0
    modifies plane
    ensures forall i, j :: 0 <= i < plane.Length0 && 0 <= j < plane.Length1 ==>
              plane[i, j] == if mask[i, j] then Rescale(old(plane[i, j]), typical, factor) else old(plane[i, j])
  {
    forall i, j | 0 <= i < plane.Length0 && 0 <= j < plane.Length1 && mask[i, j] {
      plane[i, j] := Rescale(plane[i, j], typical, factor);
    }
  }

  /** Masked assignment of a constant; pixels outside the mask keep their value. */
  method SetMasked(plane: array2<real>, mask: array2<bool>, value: real)
    requires plane.Length0 == mask.Length0 && plane.Length1 == mask.Length1
    modifies plane
    ensures forall i, j :: 0 <= i < plane.Length0 && 0 <= j < plane.Length1 ==>
              plane[i, j] == if mask[i, j] then value else old(plane[i, j])
  {
    forall i, j | 0 <= i < plane.Length0 && 0 <= j < plane.Length1 && mask[i, j] {
      plane[i, j] := value;
    }
  }

  /** OpenCV's merge of four planes, in the order given, into one four-channel image. */
  method Merge(c0: array2<real>, c1: array2<real>, c2: array2<real>, c3: array2<real>) returns (img: array3<real>)
    requires forall c :: c in [c1, c2, c3] ==> c.Length0 == c0.Length0 && c.Length1 == c0.Length1
    ensures fresh(img)
    ensures img.Length0 == c0.Length0 && img.Length1 == c0.Length1 && img.Length2 == 4
    ensures forall i, j, k :: 0 <= i < img.Length0 && 0 <= j < img.Length1 && 0 <= k < 4 ==>
              img[i, j, k] == [c0[i, j], c1[i, j], c2[i, j], c3[i, j]][k]
  {
    img := new real[c0.Length0, c0.Length1, 4];
    forall i, j, k | 0 <= i < img.Length0 && 0 <= j < img.Length1 && 0 <= k < 4 {
      img[i, j, k] := [c0[i, j], c1[i, j], c2[i, j], c3[i, j]][k];
    }
  }

  /**
   * The clip image: a copy of the unclamped image, 255 subtracted from every
   * channel (alpha included), negative results set to 0. The image itself is
   * only read.
   */
  method ClipImage(corr: array3<real>) returns (capped: array3<real>)
    ensures fresh(capped)
    ensures capped.Length0 == corr.Length0 && capped.Length1 == corr.Length1 && capped.Length2 == corr.Length2
    ensures forall i, j, k :: 0 <= i < corr.Length0 && 0 <= j < corr.Length1 && 0 <= k < corr.Length2 ==>
              capped[i, j, k] == Overflow(corr[i, j, k])
  {
    capped := new real[corr.Length0, corr.Length1, corr.Length2];
    forall i, j, k | 0 <= i < corr.Length0 && 0 <= j < corr.Length1 && 0 <= k < corr.Length2 {
      capped[i, j, k] := corr[i, j, k];
    }
    forall i, j, k | 0 <= i < corr.Length0 && 0 <= j < corr.Length1 && 0 <= k < corr.Length2 {
      capped[i, j, k] := capped[i, j, k] - MaxLevel;
    }
    forall i, j, k | 0 <= i < corr.Length0 && 0 <= j < corr.Length1 && 0 <= k < corr.Length2 && capped[i, j, k] < 0.0 {
      capped[i, j, k] := 0.0;
    }
  }

  /** Every channel above 255 is set to 255, in place; the others are left alone. */
  method ClampInPlace(img: array3<real>)
    modifies img
    ensures forall i, j, k :: 0 <= i < img.Length0 && 0 <= j < img.Length1 && 0 <= k < img.Length2 ==>
              img[i, j, k] == Clamp(old(img[i, j, k]))
  {
    forall i, j, k | 0 <= i < img.Length0 && 0 <= j < img.Length1 && 0 <= k < img.Length2 && img[i, j, k] > MaxLevel {
      img[i, j, k] := MaxLevel;
    }
  }

  /** The cast of a float image with every value in [0, 255] to 8 bits. */
  method ToBytes(img: array3<real>) returns (out: array3<Byte>)
    requires forall i, j, k :: 0 <= i < img.Length0 && 0 <= j < img.Length1 && 0 <= k < img.Length2 ==>
               0.0 <= img[i, j, k] <= MaxLevel
    ensures fresh(out)
    ensures out.Length0 == img.Length0 && out.Length1 == img.Length1 && out.Length2 == img.Length2
    ensures forall i, j, k :: 0 <= i < img.Length0 && 0 <= j < img.Length1 && 0 <= k < img.Length2 ==>
              out[i, j, k] == ToByte(img[i, j, k])
  {
    out := new Byte[img.Length0, img.Length1, img.Length2];
    forall i, j, k | 0 <= i < img.Length0 && 0 <= j < img.Length1 && 0 <= k < img.Length2 {
      out[i, j, k] := ToByte(img[i, j, k]);
    }
  }

  /**
   * The cast of the clip image to 8 bits. An overflow in [0, 255] becomes its
   * floor; what numpy stores for a larger overflow depends on the platform,
   * so those elements are left unspecified.
   */
  method ClipToBytes(capped: array3<real>) returns (out: array3<Byte>)
    ensures fresh(out)
    ensures out.Length0 == capped.Length0 && out.Length1 == capped.Length1 && out.Length2 == capped.Length2
    ensures forall i, j, k | 0 <= i < capped.Length0 && 0 <= j < capped.Length1 && 0 <= k < capped.Length2 ::
              0.0 <= capped[i, j, k] <= MaxLevel ==> out[i, j, k] == ToByte(capped[i, j, k])
  {
    out := new Byte[capped.Length0, capped.Length1, capped.Length2];
    forall i, j, k | 0 <= i < capped.Length0 && 0 <= j < capped.Length1 && 0 <= k < capped.Length2 &&
                     0.0 <= capped[i, j, k] <= MaxLevel {
      out[i, j, k] := ToByte(capped[i, j, k]);
    }
  }

  /** The planes of one pixel after the rescale and alpha steps, merged as B, G, R, A, are the reference pixel. */
  lemma MergedPixel(bgr: seq<real>, alpha: real, inColor: bool, inForeground: bool, typical: Rgb, factors: Rgb,
                    r: real, g: real, b: real, a: real, k: nat)
    requires |bgr| == 3 && Positive(typical) && k < 4
    requires r == if inColor then Rescale(bgr[2], typical.r, factors.r) else bgr[2]
    requires g == if inColor then Rescale(bgr[1], typical.g, factors.g) else bgr[1]
    requires b == if inColor then Rescale(bgr[0], typical.b, factors.b) else bgr[0]
    requires a == if inForeground then MaxLevel else alpha
    ensures [b, g, r, a][k] == CorrectPixel(bgr, alpha, inColor, inForeground, typical, factors)[k]
  {
  }

  /**
   * The loop body for one image variant: convert, split, rescale the colours
   * inside the colour mask, make the foreground opaque, merge as B, G, R, A,
   * record the clip image and cast it, clamp and cast. Every pixel of the
   * results follows from the reference pixel computation applied to the
   * source pixel and the two masks: the exact overflow, its 8-bit cast where
   * the overflow is at most 255, and the clamped, cast corrected value.
   */
  method CorrectVariant(img: array3<Byte>, mask: array2<bool>, foreground: array2<bool>,
                        typical: Rgb, factors: Rgb, alpha: real)
    returns (overflow: array3<real>, clipped: array3<Byte>, corrected: array3<Byte>)
    requires img.Length2 == 3
    requires mask.Length0 == foreground.Length0 == img.Length0
    requires mask.Length1 == foreground.Length1 == img.Length1
    requires Positive(typical) && NonNegative(factors) && 0.0 <= alpha <= MaxLevel
    ensures fresh(overflow) && fresh(clipped) && fresh(corrected)
    ensures overflow.Length0 == clipped.Length0 == corrected.Length0 == img.Length0
    ensures overflow.Length1 == clipped.Length1 == corrected.Length1 == img.Length1
    ensures overflow.Length2 == clipped.Length2 == corrected.Length2 == 4
    ensures forall i, j, k :: 0 <= i < img.Length0 && 0 <= j < img.Length1 && 0 <= k < 4 ==>
              var p := CorrectPixel(SourcePixel(img, i, j), alpha, mask[i, j], foreground[i, j], typical, factors);
              && overflow[i, j, k] == Overflow(p[k])
              && (Overflow(p[k]) <= MaxLevel ==> clipped[i, j, k] == ToByte(Overflow(p[k])))
              && corrected[i, j, k] == ToByte(Clamp(p[k]))
  {
    var rgba := ToFloatRgba(img, alpha);
    var r, g, b, a := Split(rgba);
    RescaleMasked(r, mask, typical.r, factors.r);
    RescaleMasked(g, mask, typical.g, factors.g);
    RescaleMasked(b, mask, typical.b, factors.b);
    SetMasked(a, foreground, MaxLevel);
    var corr := Merge(b, g, r, a);
    forall i, j, k | 0 <= i < img.Length0 && 0 <= j < img.Length1 && 0 <= k < 4
      ensures corr[i, j, k] == CorrectPixel(SourcePixel(img, i, j), alpha, mask[i, j], foreground[i, j], typical, factors)[k]
    {
      MergedPixel(SourcePixel(img, i, j), alpha, mask[i, j], foreground[i, j], typical, factors,
                  r[i, j], g[i, j], b[i, j], a[i, j], k);
    }
    overflow := ClipImage(corr);
    clipped := ClipToBytes(overflow);
    ClampInPlace(corr);
    forall i, j, k | 0 <= i < img.Length0 && 0 <= j < img.Length1 && 0 <= k < 4
      ensures 0.0 <= corr[i, j, k] <= MaxLevel
    {
      CorrectPixelNonNegative(SourcePixel(img, i, j), alpha, mask[i, j], foreground[i, j], typical, factors, k);
    }
    corrected := ToBytes(corr);
  }

  /**
   * One iteration of the loop: derive both masks, correct the true-colour and
   * the inverted image with their own columns of the two rows and the same
   * masks. A mask whose height or width differs from an image's stops the
   * iteration with ShapeMismatch, where numpy's boolean indexing fails.
   */
  method ProcessStimulus(job: Job, trueImg: array3<Byte>, invImg: array3<Byte>,
                         maskImg: array3<Byte>, fbMaskImg: array3<Byte>, alpha: real)
    returns (r: Result<WrittenImages>)
    requires trueImg.Length2 == 3 && invImg.Length2 == 3 && maskImg.Length2 == 3 && fbMaskImg.Length2 == 3
    requires ValidJob(job) && 0.0 <= alpha <= MaxLevel
    ensures r.Failure? <==>
              !(SameShape(trueImg, maskImg) && SameShape(invImg, maskImg) &&
                SameShape(trueImg, fbMaskImg) && SameShape(invImg, fbMaskImg))
    ensures r.Success? ==>
              var o := r.value;
              && fresh(o.trueClipped) && fresh(o.invClipped) && fresh(o.trueCorrected) && fresh(o.invCorrected)
              && (forall img :: img in [o.trueClipped, o.invClipped] ==>
                    img.Length0 == trueImg.Length0 && img.Length1 == trueImg.Length1 && img.Length2 == 4)
              && (forall img :: img in [o.trueCorrected, o.invCorrected] ==>
                    img.Length0 == trueImg.Length0 && img.Length1 == trueImg.Length1 && img.Length2 == 4)
              && (forall i, j, k :: 0 <= i < trueImg.Length0 && 0 <= j < trueImg.Length1 && 0 <= k < 4 ==>
                    var p := CorrectPixel(SourcePixel(trueImg, i, j), alpha, maskImg[i, j, 0] != 0,
                                          fbMaskImg[i, j, 0] != 0, job.typical.trueRgb, job.factors.trueRgb);
                    && (Overflow(p[k]) <= MaxLevel ==> o.trueClipped[i, j, k] == ToByte(Overflow(p[k])))
                    && o.trueCorrected[i, j, k] == ToByte(Clamp(p[k])))
              && (forall i, j, k :: 0 <= i < invImg.Length0 && 0 <= j < invImg.Length1 && 0 <= k < 4 ==>
                    var p := CorrectPixel(SourcePixel(invImg, i, j), alpha, maskImg[i, j, 0] != 0,
                                          fbMaskImg[i, j, 0] != 0, job.typical.invRgb, job.factors.invRgb);
                    && (Overflow(p[k]) <= MaxLevel ==> o.invClipped[i, j, k] == ToByte(Overflow(p[k])))
                    && o.invCorrected[i, j, k] == ToByte(Clamp(p[k])))
  {
    if !(SameShape(trueImg, maskImg) && SameShape(invImg, maskImg) &&
         SameShape(trueImg, fbMaskImg) && SameShape(invImg, fbMaskImg)) {
      return Failure(ShapeMismatch);
    }
    var mask := DeriveMask(maskImg);
    var foreground := DeriveMask(fbMaskImg);
    var _, trueClipped, trueCorrected := CorrectVariant(trueImg, mask, foreground,
                                                     job.typical.trueRgb, job.factors.trueRgb, alpha);
    var _, invClipped, invCorrected := CorrectVariant(invImg, mask, foreground,
                                                   job.typical.invRgb, job.factors.invRgb, alpha);
    r := Success(WrittenImages(trueClipped, invClipped, trueCorrected, invCorrected));
  }
}
