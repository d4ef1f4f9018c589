/**
 * The pixel-array rules around the word cloud.
 *
 * The mask image is an RGBA array of height x width x 4 bytes. Its alpha
 * channel is thresholded into a height x width mask: 255 where the alpha is
 * at most 50 (inside the outline), 0 elsewhere. After the word cloud has
 * been drawn, its RGBA image is composited over that mask: pixels with text
 * keep the word cloud's colour, the rest is opaque black outside the outline
 * and transparent inside it.
 *
 * The arrays are given: loading, morphology, erosion, resizing and drawing
 * produce them and are not part of this model.
 */
module Pixels {

  /** `np.uint8` */
  type Byte = x: int | 0 <= x < 256

  /** RGBA */
  const Channels: nat := 4
  const Alpha: nat := 3

  /** Alpha values up to this one count as inside the outline. */
  const AlphaThreshold: Byte := 50

  /** The mask value of a pixel of alpha `a`. */
  function MaskValue(a: Byte): Byte {
    if a <= AlphaThreshold then 255 else 0
  }

  /**
   * One boolean-indexed assignment `mask[alpha <= 50] = v` (`atMost`) or
   * `mask[alpha > 50] = v` (`!atMost`): every selected pixel is set to `v`,
   * every other keeps its value.
   */
  method MarkByAlpha(mask: array2<Byte>, img: array3<Byte>, atMost: bool, v: Byte)
    requires mask.Length0 == img.Length0 && mask.Length1 == img.Length1 && img.Length2 == Channels
    modifies mask
    ensures forall i, j :: 0 <= i < mask.Length0 && 0 <= j < mask.Length1 ==>
      mask[i, j] == if (img[i, j, Alpha] <= AlphaThreshold) == atMost then v else old(mask[i, j])
  {
    for i := 0 to mask.Length0
      invariant forall r, j :: 0 <= r < i && 0 <= j < mask.Length1 ==>
        mask[r, j] == if (img[r, j, Alpha] <= AlphaThreshold) == atMost then v else old(mask[r, j])
      invariant forall r, j :: i <= r < mask.Length0 && 0 <= j < mask.Length1 ==> mask[r, j] == old(mask[r, j])
    {
      for j := 0 to mask.Length1
        invariant forall r, k :: 0 <= r < i && 0 <= k < mask.Length1 ==>
          mask[r, k] == if (img[r, k, Alpha] <= AlphaThreshold) == atMost then v else old(mask[r, k])
        invariant forall k :: 0 <= k < j ==>
          mask[i, k] == if (img[i, k, Alpha] <= AlphaThreshold) == atMost then v else old(mask[i, k])
        invariant forall r, k :: 0 <= r < mask.Length0 && 0 <= k < mask.Length1 && (r > i || (r == i && k >= j)) ==>
          mask[r, k] == old(mask[r, k])
      {
        if (img[i, j, Alpha] <= AlphaThreshold) == atMost {
          mask[i, j] := v;
        }
      }
    }
  }

  /**
   * `mask = np.zeros(shape[:2]); mask[alpha <= 50] = 255; mask[alpha > 50] = 0`:
   * a mask of the image's height and width that is 255 exactly where the
   * alpha is at most 50 and 0 everywhere else.
   */
  method AlphaMask(img: array3<Byte>) returns (mask: array2<Byte>)
    requires img.Length2 == Channels
    ensures fresh(mask) && mask.Length0 == img.Length0 && mask.Length1 == img.Length1
    ensures forall i, j :: 0 <= i < mask.Length0 && 0 <= j < mask.Length1 ==>
      mask[i, j] == MaskValue(img[i, j, Alpha])
  {
    mask := new Byte[img.Length0, img.Length1]((i, j) => 0);
    MarkByAlpha(mask, img, true, 255);
    MarkByAlpha(mask, img, false, 0);
  }

  /** The mask holds only 255 and 0, and 255 exactly where the alpha is at most 50. */
  lemma MaskValues(a: Byte)
    ensures MaskValue(a) == 255 || MaskValue(a) == 0
    ensures MaskValue(a) == 255 <==> a <= 50
  {
  }

  /** The RGBA value of pixel `(i, j)`. */
  function Pixel(a: array3<Byte>, i: nat, j: nat): seq<Byte>
    requires a.Length2 == Channels && i < a.Length0 && j < a.Length1
    reads a
  {
    [a[i, j, 0], a[i, j, 1], a[i, j, 2], a[i, j, 3]]
  }

  const OpaqueBlack: seq<Byte> := [0, 0, 0, 255]
  const Transparent: seq<Byte> := [0, 0, 0, 0]

  /**
   * The composited pixel: the word-cloud pixel where it has any alpha,
   * otherwise opaque black outside the outline (mask 0) and transparent
   * inside it.
   */
  function CompositePixel(p: seq<Byte>, m: Byte): seq<Byte>
    requires |p| == Channels
  {
    if p[Alpha] > 0 then p else if m == 0 then OpaqueBlack else Transparent
  }

  /** Channel `k` of the background before the text is copied in. */
  function Background(m: Byte, k: nat): Byte {
    if k == Alpha && m == 0 then 255 else 0
  }

  /** `result[:, :, c][resized_mask == 0] = v` */
  method FillOutside(result: array3<Byte>, mask: array2<Byte>, c: nat, v: Byte)
    requires result.Length0 == mask.Length0 && result.Length1 == mask.Length1
    requires result.Length2 == Channels && c < Channels
    modifies result
    ensures forall i, j, k :: 0 <= i < result.Length0 && 0 <= j < result.Length1 && 0 <= k < Channels ==>
      result[i, j, k] == if k == c && mask[i, j] == 0 then v else old(result[i, j, k])
  {
    for i := 0 to result.Length0
      invariant forall r, j, k :: 0 <= r < i && 0 <= j < result.Length1 && 0 <= k < Channels ==>
        result[r, j, k] == if k == c && mask[r, j] == 0 then v else old(result[r, j, k])
      invariant forall r, j, k :: i <= r < result.Length0 && 0 <= j < result.Length1 && 0 <= k < Channels ==>
        result[r, j, k] == old(result[r, j, k])
    {
      for j := 0 to result.Length1
        invariant forall r, l, k :: 0 <= r < i && 0 <= l < result.Length1 && 0 <= k < Channels ==>
          result[r, l, k] == if k == c && mask[r, l] == 0 then v else old(result[r, l, k])
        invariant forall l, k :: 0 <= l < j && 0 <= k < Channels ==>
          result[i, l, k] == if k == c && mask[i, l] == 0 then v else old(result[i, l, k])
        invariant forall r, l, k ::
          (0 <= r < result.Length0 && 0 <= l < result.Length1 && 0 <= k < Channels && (r > i || (r == i && l >= j))) ==>
          result[r, l, k] == old(result[r, l, k])
      {
        if mask[i, j] == 0 {
          result[i, j, c] := v;
        }
      }
    }
  }

  /** `result[:, :, c][word_mask] = wordcloud_img[:, :, c][word_mask]` with `word_mask = alpha > 0` */
  method CopyText(result: array3<Byte>, wc: array3<Byte>, c: nat)
    requires result != wc
    requires result.Length0 == wc.Length0 && result.Length1 == wc.Length1
    requires result.Length2 == Channels && wc.Length2 == Channels && c < Channels
    modifies result
    ensures forall i, j, k :: 0 <= i < result.Length0 && 0 <= j < result.Length1 && 0 <= k < Channels ==>
      result[i, j, k] == if k == c && wc[i, j, Alpha] > 0 then wc[i, j, k] else old(result[i, j, k])
  {
    for i := 0 to result.Length0
      invariant forall r, j, k :: 0 <= r < i && 0 <= j < result.Length1 && 0 <= k < Channels ==>
        result[r, j, k] == if k == c && wc[r, j, Alpha] > 0 then wc[r, j, k] else old(result[r, j, k])
      invariant forall r, j, k :: i <= r < result.Length0 && 0 <= j < result.Length1 && 0 <= k < Channels ==>
        result[r, j, k] == old(result[r, j, k])
    {
      for j := 0 to result.Length1
        invariant forall r, l, k :: 0 <= r < i && 0 <= l < result.Length1 && 0 <= k < Channels ==>
          result[r, l, k] == if k == c && wc[r, l, Alpha] > 0 then wc[r, l, k] else old(result[r, l, k])
        invariant forall l, k :: 0 <= l < j && 0 <= k < Channels ==>
          result[i, l, k] == if k == c && wc[i, l, Alpha] > 0 then wc[i, l, k] else old(result[i, l, k])
        invariant forall r, l, k ::
          (0 <= r < result.Length0 && 0 <= l < result.Length1 && 0 <= k < Channels && (r > i || (r == i && l >= j))) ==>
          result[r, l, k] == old(result[r, l, k])
      {
        if wc[i, j, Alpha] > 0 {
          result[i, j, c] := wc[i, j, c];
        }
      }
    }
  }

  /**
   * The compositing step of `generate_wordcloud`: a zero image of the word
   * cloud's shape, black and opaque where the resized mask is 0, then every
   * channel of the pixels with text copied from the word cloud.
   */
  method Composite(wc: array3<Byte>, resizedMask: array2<Byte>) returns (result: array3<Byte>)
    requires wc.Length2 == Channels
    requires resizedMask.Length0 == wc.Length0 && resizedMask.Length1 == wc.Length1
    ensures fresh(result)
    ensures result.Length0 == wc.Length0 && result.Length1 == wc.Length1 && result.Length2 == Channels
    ensures forall i, j :: 0 <= i < result.Length0 && 0 <= j < result.Length1 ==>
      Pixel(result, i, j) == CompositePixel(Pixel(wc, i, j), resizedMask[i, j])
  {
    result := new Byte[wc.Length0, wc.Length1, Channels]((i, j, k) => 0);
    for c := 0 to 3
      invariant forall i, j, k :: 0 <= i < result.Length0 && 0 <= j < result.Length1 && 0 <= k < Channels ==>
        result[i, j, k] == 0
    {
      FillOutside(result, resizedMask, c, 0);
    }
    FillOutside(result, resizedMask, Alpha, 255);
    for c := 0 to Channels
      invariant forall i, j, k :: 0 <= i < result.Length0 && 0 <= j < result.Length1 && 0 <= k < Channels ==>
        result[i, j, k] == if k < c && wc[i, j, Alpha] > 0 then wc[i, j, k] else Background(resizedMask[i, j], k)
    {
      CopyText(result, wc, c);
    }
    forall i, j | 0 <= i < result.Length0 && 0 <= j < result.Length1
      ensures Pixel(result, i, j) == CompositePixel(Pixel(wc, i, j), resizedMask[i, j])
    {
      assert result[i, j, 0] == (if wc[i, j, Alpha] > 0 then wc[i, j, 0] else Background(resizedMask[i, j], 0));
    }
  }

  /**
   * The three cases of a composited pixel: a pixel with text is kept as is,
   * and a pixel without text is opaque exactly when it lies outside the outline.
   */
  lemma CompositeCases(p: seq<Byte>, m: Byte)
    requires |p| == Channels
    ensures p[Alpha] > 0 ==> CompositePixel(p, m) == p
    ensures p[Alpha] == 0 ==> CompositePixel(p, m)[..Alpha] == [0, 0, 0]
    ensures p[Alpha] == 0 ==> (CompositePixel(p, m)[Alpha] == 255 <==> m == 0)
    ensures p[Alpha] == 0 ==> (CompositePixel(p, m)[Alpha] == 0 <==> m != 0)
  {
  }

  /** A composited pixel is transparent exactly when it has no text and lies inside the outline. */
  lemma TransparentIff(p: seq<Byte>, m: Byte)
    requires |p| == Channels
    ensures CompositePixel(p, m)[Alpha] == 0 <==> p[Alpha] == 0 && m != 0
  {
  }

  /**
   * Against an alpha-threshold mask of the same image, a pixel without text
   * is opaque black where the source alpha was above 50 and transparent where
   * it was at most 50.
   */
  lemma CompositeOverAlphaMask(p: seq<Byte>, a: Byte)
    requires |p| == Channels && p[Alpha] == 0
    ensures a > AlphaThreshold ==> CompositePixel(p, MaskValue(a)) == OpaqueBlack
    ensures a <= AlphaThreshold ==> CompositePixel(p, MaskValue(a)) == Transparent
  {
  }
}
