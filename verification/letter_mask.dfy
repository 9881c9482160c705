/** The letter mask of watermark.py: saturation is thresholded, the flagged
    pixels are labelled into connected components, each label is coloured from
    a table that blacks out the background and small components, and a pixel is
    marked when the channels of its colour add up to something non-zero in
    8-bit arithmetic. */
module LetterMask {
  import opened Images
  import opened ColourMap

  /** Saturation at or below this level is flagged as possible lettering. */
  const SATURATION_THRESHOLD := 42
  /** The value a flagged pixel gets in the thresholded image. */
  const FLAG_VALUE := 255
  /** Components with fewer pixels than this are noise. */
  const POPULATION_THRESHOLD := 170

  /** Inverse binary threshold: 0 where the saturation exceeds the threshold, 255 elsewhere. */
  function ThresholdInv(sat: seq<seq<Byte>>): (flags: seq<seq<Byte>>)
    ensures SameShape(flags, sat)
    ensures forall r, c :: 0 <= r < |sat| && 0 <= c < |sat[r]| ==>
              (flags[r][c] != 0 <==> sat[r][c] <= SATURATION_THRESHOLD) && (flags[r][c] == 0 || flags[r][c] == FLAG_VALUE)
  {
    seq(|sat|, r requires 0 <= r < |sat| =>
      seq(|sat[r]|, c requires 0 <= c < |sat[r]| => if sat[r][c] > SATURATION_THRESHOLD then 0 else FLAG_VALUE))
  }

  /** What the labelling library guarantees of its output for `n` components:
      one label per pixel, each below `n`, and label 0 exactly on the pixels
      that were not flagged. */
  predicate IsLabelling(flags: seq<seq<Byte>>, labels: seq<seq<nat>>, n: nat)
  {
    SameShape(labels, flags) && LabelsBelow(labels, n) &&
    forall r, c :: 0 <= r < |labels| && 0 <= c < |labels[r]| ==> (labels[r][c] == 0 <==> flags[r][c] == 0)
  }

  /** Every label of the grid is below `n`, so it indexes a table of `n` rows. */
  predicate LabelsBelow(labels: seq<seq<nat>>, n: nat)
  {
    forall r, c :: 0 <= r < |labels| && 0 <= c < |labels[r]| ==> labels[r][c] < n
  }

  /** Fancy indexing `table[labels]`: every pixel takes the colour of its label. */
  function Colourise(table: seq<Pixel>, labels: seq<seq<nat>>): (im: Image)
    requires LabelsBelow(labels, |table|)
    ensures SameShape(im, labels)
    ensures forall r, c :: 0 <= r < |labels| && 0 <= c < |labels[r]| ==> im[r][c] == table[labels[r][c]]
  {
    seq(|labels|, r requires 0 <= r < |labels| =>
      seq(|labels[r]|, c requires 0 <= c < |labels[r]| => table[labels[r][c]]))
  }

  /** `uint8 + uint8` in numpy: the sum wraps modulo 256. */
  function AddU8(a: Byte, b: Byte): Byte
  {
    (a + b) % 256
  }

  /** The per-pixel channel sum as the source computes it, channel 0 plus channel 1 plus channel 2, each addition in uint8. */
  function ChannelSum(p: Pixel): Byte
  {
    AddU8(AddU8(p[0], p[1]), p[2])
  }

  /** The channel sum of a pixel in unbounded integers. */
  function WideSum(p: Pixel): int
  {
    p[0] as int + p[1] as int + p[2] as int
  }

  /** The mask of a coloured image, as written: marked where the wrapped channel sum is positive. */
  function MarkColoured(im: Image): (mask: seq<seq<bool>>)
    ensures SameShape(mask, im)
  {
    seq(|im|, r requires 0 <= r < |im| =>
      seq(|im[r]|, c requires 0 <= c < |im[r]| => ChannelSum(im[r][c]) > 0))
  }

  /** The letter mask as the source builds it from the labelling, its
      statistics and the draws for the filtered table: a pixel is marked
      exactly when its label is a component of at least 170 pixels other than
      the background and the drawn colour's channels do not add up to a
      multiple of 256. */
  function LetterMaskOf(stats: seq<ComponentStat>, labels: seq<seq<nat>>, pick: (nat, nat) -> Draw): (mask: seq<seq<bool>>)
    requires LabelsBelow(labels, |stats|)
    ensures SameShape(mask, labels)
    ensures forall r, c :: 0 <= r < |labels| && 0 <= c < |labels[r]| ==>
              (mask[r][c] <==>
                 labels[r][c] != 0 && stats[labels[r][c]].area >= POPULATION_THRESHOLD &&
                 (3 + pick(labels[r][c], 0) + pick(labels[r][c], 1) + pick(labels[r][c], 2)) % 256 != 0)
  {
    MarkColoured(Colourise(ColourTable(stats, POPULATION_THRESHOLD, pick), labels))
  }

  /** A pixel is marked exactly when the sum of its three channels is not a
      multiple of 256; a black pixel is therefore never marked. */
  lemma MarkedIffWrappedSumNonZero(im: Image, r: nat, c: nat)
    requires r < |im| && c < |im[r]|
    ensures MarkColoured(im)[r][c] <==> WideSum(im[r][c]) % 256 != 0
    ensures im[r][c] == BLACK ==> !MarkColoured(im)[r][c]
  {
  }

  /** The letter mask holds exactly on pixels of a non-background component of
      at least 170 pixels whose colour's channel sum does not wrap to zero; so it
      never holds on a pixel of high saturation, on the background, or on a
      small component. */
  lemma LetterMaskContents(sat: seq<seq<Byte>>, labels: seq<seq<nat>>, stats: seq<ComponentStat>, pick: (nat, nat) -> Draw)
    requires IsLabelling(ThresholdInv(sat), labels, |stats|)
    ensures SameShape(LetterMaskOf(stats, labels, pick), sat)
    ensures forall r, c :: 0 <= r < |sat| && 0 <= c < |sat[r]| ==>
              (LetterMaskOf(stats, labels, pick)[r][c] <==>
                 labels[r][c] != 0 && stats[labels[r][c]].area >= POPULATION_THRESHOLD &&
                 (1 + pick(labels[r][c], 0) + 1 + pick(labels[r][c], 1) + 1 + pick(labels[r][c], 2)) % 256 != 0)
    ensures forall r, c :: 0 <= r < |sat| && 0 <= c < |sat[r]| && LetterMaskOf(stats, labels, pick)[r][c] ==>
              sat[r][c] <= SATURATION_THRESHOLD && labels[r][c] != 0 && stats[labels[r][c]].area >= POPULATION_THRESHOLD
  {
  }

  /** The filtered colouring promises every kept component a non-zero colour;
      but the channels are added in uint8, so a 20-by-20 block of low
      saturation, labelled as one component of 400 pixels and coloured
      (1, 1, 254), is dropped from the letter mask in its entirety. */
  lemma WrappedSumDropsLargeComponent()
    ensures var stats := [ComponentStat(0, 0, 0, 0, 0), ComponentStat(0, 0, 20, 20, 400)];
            var pick: (nat, nat) -> Draw := (i: nat, j: nat) => if j == 2 then 253 else 0;
            var sat: seq<seq<Byte>> := seq(20, _ => seq(20, _ => 10));
            var labels: seq<seq<nat>> := seq(20, _ => seq(20, _ => 1));
            IsLabelling(ThresholdInv(sat), labels, |stats|) &&
            stats[1].area >= POPULATION_THRESHOLD &&
            ColourTable(stats, POPULATION_THRESHOLD, pick)[1] == [1, 1, 254] &&
            forall r, c :: 0 <= r < 20 && 0 <= c < 20 ==> !LetterMaskOf(stats, labels, pick)[r][c]
  {
  }

  /** The intended mask: marked where the colour has any non-zero channel, i.e.
      where the channel sum, taken without wrapping, is positive. */
  function MarkColouredWidened(im: Image): (mask: seq<seq<bool>>)
    ensures SameShape(mask, im)
    ensures forall r, c :: 0 <= r < |im| && 0 <= c < |im[r]| ==>
              (mask[r][c] <==> im[r][c] != BLACK)
  {
    seq(|im|, r requires 0 <= r < |im| =>
      seq(|im[r]|, c requires 0 <= c < |im[r]| => WideSum(im[r][c]) > 0))
  }

  /** The letter mask built with the widened sum. */
  function IntendedLetterMaskOf(stats: seq<ComponentStat>, labels: seq<seq<nat>>, pick: (nat, nat) -> Draw): seq<seq<bool>>
    requires LabelsBelow(labels, |stats|)
  {
    MarkColouredWidened(Colourise(ColourTable(stats, POPULATION_THRESHOLD, pick), labels))
  }

  /** With the widened sum the letter mask is exactly the set of low-saturation
      pixels that belong to a component of at least 170 pixels, whatever
      colours are drawn. */
  lemma IntendedLetterMaskExact(sat: seq<seq<Byte>>, labels: seq<seq<nat>>, stats: seq<ComponentStat>, pick: (nat, nat) -> Draw)
    requires IsLabelling(ThresholdInv(sat), labels, |stats|)
    ensures SameShape(IntendedLetterMaskOf(stats, labels, pick), sat)
    ensures forall r, c :: 0 <= r < |sat| && 0 <= c < |sat[r]| ==>
              (IntendedLetterMaskOf(stats, labels, pick)[r][c] <==>
                 sat[r][c] <= SATURATION_THRESHOLD && stats[labels[r][c]].area >= POPULATION_THRESHOLD)
  {
  }

  /** `create_letter_mask` from the thresholding on: both colour tables are
      built (the filtered one for the mask, the unfiltered one only for
      display), every pixel is coloured by its label, and the letter mask is
      taken from the filtered colouring. `labels` and `stats` stand for the
      output of 4-connected component labelling of the thresholded image. */
  method CreateLetterMask(sat: seq<seq<Byte>>, labels: seq<seq<nat>>, stats: seq<ComponentStat>,
                          bigPick: (nat, nat) -> Draw, allPick: (nat, nat) -> Draw)
    returns (letterMask: seq<seq<bool>>, bigBlobImage: Image, allBlobImage: Image)
    requires IsLabelling(ThresholdInv(sat), labels, |stats|)
    ensures SameShape(letterMask, sat) && SameShape(bigBlobImage, sat) && SameShape(allBlobImage, sat)
    ensures bigBlobImage == Colourise(ColourTable(stats, POPULATION_THRESHOLD, bigPick), labels)
    ensures allBlobImage == Colourise(ColourTable(stats, 0, allPick), labels)
    ensures letterMask == LetterMaskOf(stats, labels, bigPick)
    ensures forall r, c :: 0 <= r < |sat| && 0 <= c < |sat[r]| && letterMask[r][c] ==>
              sat[r][c] <= SATURATION_THRESHOLD && labels[r][c] != 0 && stats[labels[r][c]].area >= POPULATION_THRESHOLD
    ensures forall r, c :: 0 <= r < |sat| && 0 <= c < |sat[r]| ==>
              (allBlobImage[r][c] == BLACK <==> sat[r][c] > SATURATION_THRESHOLD)
  {
    var bigBlobColourMap := MakeColourMap(stats, POPULATION_THRESHOLD, bigPick);
    var allBlobColourMap := MakeColourMap(stats, 0, allPick);
    bigBlobImage := Colourise(TableOf(bigBlobColourMap), labels);
    allBlobImage := Colourise(TableOf(allBlobColourMap), labels);
    letterMask := MarkColoured(bigBlobImage);
    LetterMaskContents(sat, labels, stats, bigPick);
    ghost var flags := ThresholdInv(sat);
    forall r, c | 0 <= r < |sat| && 0 <= c < |sat[r]|
      ensures allBlobImage[r][c] == BLACK <==> sat[r][c] > SATURATION_THRESHOLD
    {
      RowsOfTable(stats, 0, allPick, labels[r][c]);
      assert labels[r][c] != 0 <==> flags[r][c] != 0;
    }
  }
}
