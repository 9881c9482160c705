/** The mask algebra of watermark.py: inner and outer masks grown and shrunk
    from the letter mask, the edge ring between them, and the split of the
    input image into the part under the inner mask and the part outside the
    outer mask. Dilation and erosion are library calls; they are parameters
    here, and all the model assumes of them is that dilation only adds pixels
    and erosion only removes them. */
module Masks {
  import opened Images

  type Mask = seq<seq<bool>>

  /** A boolean mask repeated along a third axis of three channels. */
  type Triple = t: seq<bool> | |t| == 3 witness [false, false, false]

  /** `a` and `b` have the same shape and every pixel of `a` is a pixel of `b`. */
  predicate Within(a: Mask, b: Mask)
  {
    SameShape(a, b) &&
    forall r, c :: 0 <= r < |a| && 0 <= c < |a[r]| && a[r][c] ==> b[r][c]
  }

  /** Dilation keeps the shape and only adds pixels. */
  ghost predicate Dilating(dilate: Mask -> Mask)
  {
    forall m: Mask :: Within(m, dilate(m))
  }

  /** Erosion keeps the shape and only removes pixels. */
  ghost predicate Eroding(erode: Mask -> Mask)
  {
    forall m: Mask :: Within(erode(m), m)
  }

  /** `get_inner_and_outer_masks`: the inner mask is the letter mask dilated
      once and eroded twice; the outer mask is it dilated twice. When dilation
      only adds pixels and erosion only removes them, the once-dilated mask lies
      between the two: it contains the inner mask and the outer mask contains it. */
  function InnerAndOuterMasks(mask: Mask, dilate: Mask -> Mask, erode: Mask -> Mask): (masks: (Mask, Mask))
    ensures Dilating(dilate) && Eroding(erode) ==>
              Within(masks.0, dilate(mask)) && Within(dilate(mask), masks.1) && Within(mask, dilate(mask))
  {
    (erode(erode(dilate(mask))), dilate(dilate(mask)))
  }

  /** Whatever the structuring element, the inner mask lies within the outer
      mask, and the letter mask lies within the outer mask. */
  lemma InnerWithinOuter(mask: Mask, dilate: Mask -> Mask, erode: Mask -> Mask)
    requires Dilating(dilate) && Eroding(erode)
    ensures Within(InnerAndOuterMasks(mask, dilate, erode).0, InnerAndOuterMasks(mask, dilate, erode).1)
    ensures Within(mask, InnerAndOuterMasks(mask, dilate, erode).1)
    ensures SameShape(InnerAndOuterMasks(mask, dilate, erode).0, mask)
  {
  }

  /** `logical_and(logical_not(inner), outer)` written as 255/0 bytes. */
  function EdgeMask(inner: Mask, outer: Mask): (edge: seq<seq<Byte>>)
    requires SameShape(inner, outer)
    ensures SameShape(edge, outer)
    ensures forall r, c :: 0 <= r < |outer| && 0 <= c < |outer[r]| ==>
              (edge[r][c] == 255 <==> outer[r][c] && !inner[r][c]) && (edge[r][c] == 0 || edge[r][c] == 255)
  {
    seq(|outer|, r requires 0 <= r < |outer| =>
      seq(|outer[r]|, c requires 0 <= c < |outer[r]| => if !inner[r][c] && outer[r][c] then 255 else 0))
  }

  /** The edge ring never meets the inner mask and lies within the outer mask;
      when the inner mask lies within the outer mask, the ring and the inner
      mask together are exactly the outer mask. */
  lemma EdgeRingPartitionsOuter(inner: Mask, outer: Mask)
    requires SameShape(inner, outer)
    ensures forall r, c :: 0 <= r < |outer| && 0 <= c < |outer[r]| && EdgeMask(inner, outer)[r][c] != 0 ==>
              !inner[r][c] && outer[r][c]
    ensures Within(inner, outer) ==>
              forall r, c :: 0 <= r < |outer| && 0 <= c < |outer[r]| ==>
                (outer[r][c] <==> EdgeMask(inner, outer)[r][c] == 255 || inner[r][c])
  {
  }

  /** `np.stack([mask] * 3, axis=2)`. */
  function TripleMask(mask: Mask): (t: seq<seq<Triple>>)
    ensures SameShape(t, mask)
    ensures forall r, c, k :: 0 <= r < |mask| && 0 <= c < |mask[r]| && 0 <= k < 3 ==> t[r][c][k] == mask[r][c]
  {
    seq(|mask|, r requires 0 <= r < |mask| =>
      seq(|mask[r]|, c requires 0 <= c < |mask[r]| => [mask[r][c], mask[r][c], mask[r][c]]))
  }

  /** `np.where(cond, a, b)` on three-channel images of one shape. */
  function Where(cond: seq<seq<Triple>>, a: Image, b: Image): (im: Image)
    requires SameShape(cond, a) && SameShape(a, b)
    ensures SameShape(im, a)
    ensures forall r, c, k :: 0 <= r < |a| && 0 <= c < |a[r]| && 0 <= k < 3 ==>
              im[r][c][k] == (if cond[r][c][k] then a[r][c][k] else b[r][c][k])
  {
    seq(|a|, r requires 0 <= r < |a| =>
      seq(|a[r]|, c requires 0 <= c < |a[r]| =>
        [if cond[r][c][0] then a[r][c][0] else b[r][c][0],
         if cond[r][c][1] then a[r][c][1] else b[r][c][1],
         if cond[r][c][2] then a[r][c][2] else b[r][c][2]]))
  }

  /** The scalar 0 of `np.where`, broadcast to the shape of `im`. */
  function ZerosLike(im: Image): (z: Image)
    ensures SameShape(z, im)
    ensures forall r, c :: 0 <= r < |im| && 0 <= c < |im[r]| ==> z[r][c] == BLACK
  {
    seq(|im|, r requires 0 <= r < |im| => seq(|im[r]|, c requires 0 <= c < |im[r]| => BLACK))
  }

  /** The masks and images `main` derives once the inner and outer masks exist. */
  datatype Split = Split(edgeMask: seq<seq<Byte>>, innerImage: Image, outerImage: Image)

  /** The edge mask, the input kept under the inner mask, and the input kept outside the outer mask. */
  function SplitImage(im: Image, inner: Mask, outer: Mask): (s: Split)
    requires SameShape(inner, im) && SameShape(outer, im)
    ensures SameShape(s.edgeMask, im) && SameShape(s.innerImage, im) && SameShape(s.outerImage, im)
    ensures forall r, c :: 0 <= r < |im| && 0 <= c < |im[r]| ==>
              (s.edgeMask[r][c] == 255 <==> outer[r][c] && !inner[r][c]) &&
              (s.edgeMask[r][c] == 0 || s.edgeMask[r][c] == 255) &&
              s.innerImage[r][c] == (if inner[r][c] then im[r][c] else BLACK) &&
              s.outerImage[r][c] == (if outer[r][c] then BLACK else im[r][c])
  {
    Split(EdgeMask(inner, outer),
          Where(TripleMask(inner), im, ZerosLike(im)),
          Where(TripleMask(outer), ZerosLike(im), im))
  }

  /** The inner image is the input where the inner mask holds and 0 elsewhere;
      the outer image is 0 where the outer mask holds and the input elsewhere.
      When the inner mask lies within the outer mask, no sample is taken from
      the input by both, and the two images add up to the input everywhere
      except on the edge ring, where both are 0. */
  lemma SplitTakesEachSampleOnce(im: Image, inner: Mask, outer: Mask)
    requires SameShape(inner, im) && SameShape(outer, im)
    ensures var s := SplitImage(im, inner, outer);
            SameShape(s.edgeMask, im) && SameShape(s.innerImage, im) && SameShape(s.outerImage, im) &&
            forall r, c, k :: 0 <= r < |im| && 0 <= c < |im[r]| && 0 <= k < 3 ==>
              s.innerImage[r][c][k] == (if inner[r][c] then im[r][c][k] else 0) &&
              s.outerImage[r][c][k] == (if outer[r][c] then 0 else im[r][c][k])
    ensures Within(inner, outer) ==>
              var s := SplitImage(im, inner, outer);
              forall r, c, k :: 0 <= r < |im| && 0 <= c < |im[r]| && 0 <= k < 3 ==>
                (s.innerImage[r][c][k] == 0 || s.outerImage[r][c][k] == 0) &&
                s.innerImage[r][c][k] + s.outerImage[r][c][k] == (if s.edgeMask[r][c] == 255 then 0 else im[r][c][k])
  {
  }

  /** Lines 167-173 of `main`: from the letter mask to the edge mask and the
      inner and outer images. Dilation and erosion keep the shape, so the masks
      match the image; the inner mask lies within the outer mask, and so the
      split takes each sample of the input at most once; no letter pixel
      reaches the outer image. The edge ring and the two images are those of
      the masks `get_inner_and_outer_masks` returns. */
  function MaskStages(im: Image, letterMask: Mask, dilate: Mask -> Mask, erode: Mask -> Mask): (s: Split)
    requires SameShape(letterMask, im) && Dilating(dilate) && Eroding(erode)
    ensures SameShape(s.edgeMask, im) && SameShape(s.innerImage, im) && SameShape(s.outerImage, im)
    ensures forall r, c, k :: 0 <= r < |im| && 0 <= c < |im[r]| && 0 <= k < 3 ==>
              (s.innerImage[r][c][k] == 0 || s.outerImage[r][c][k] == 0) &&
              s.innerImage[r][c][k] + s.outerImage[r][c][k] == (if s.edgeMask[r][c] == 255 then 0 else im[r][c][k])
    ensures forall r, c :: 0 <= r < |im| && 0 <= c < |im[r]| && letterMask[r][c] ==> s.outerImage[r][c] == BLACK
    ensures var masks := InnerAndOuterMasks(letterMask, dilate, erode);
            Within(masks.0, masks.1) && Within(letterMask, masks.1) &&
            forall r, c :: 0 <= r < |im| && 0 <= c < |im[r]| ==>
              (s.edgeMask[r][c] == 255 <==> masks.1[r][c] && !masks.0[r][c]) &&
              s.innerImage[r][c] == (if masks.0[r][c] then im[r][c] else BLACK) &&
              s.outerImage[r][c] == (if masks.1[r][c] then BLACK else im[r][c])
  {
    var masks := InnerAndOuterMasks(letterMask, dilate, erode);
    InnerWithinOuter(letterMask, dilate, erode);
    SplitTakesEachSampleOnce(im, masks.0, masks.1);
    SplitImage(im, masks.0, masks.1)
  }
}
