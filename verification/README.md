# Watermark masks and scanner contour selection, modelled in Dafny

This project models the parts of two image-processing scripts whose behaviour
does not live inside the vision library they call.

In `watermark.py` these parts are:

- the colour table that blacks out the background and small connected
  components (`make_random_color_map_with_stats`);
- the thresholding and label lookup of `create_letter_mask`, and the 8-bit
  channel sum that turns a coloured image into the letter mask
  (`coloured_image_to_edge_mark`);
- the inner and outer masks (`get_inner_and_outer_masks`), the edge ring
  between them, `triple_mask`, and the `np.where` split of the input image in
  `main`.

In `scanner.py` it is the rule that picks the sheet's outline: sort the
contours by area, largest first, keep five, and take the first whose polygon
approximation has four vertices.

Modules:

- `Images` (`images.dfy`): bytes, 3-byte pixels and grid shapes.
- `ColourMap` (`colour_map.dfy`): the colour table. The method fills a
  preallocated `array2` row by row, as the source does. It is proved equal to
  the table function `ColourTable`, and lemmas state what the table promises.
- `LetterMask` (`letter_mask.dfy`): the inverse threshold at 42, the labelling
  contract, the label lookup, the wrapped channel sum and `CreateLetterMask`.
- `Masks` (`masks.dfy`): the mask algebra. Dilation and erosion are function
  parameters. Only two things are assumed of them: dilation keeps the shape
  and only adds pixels (`Dilating`), and erosion keeps the shape and only
  removes pixels (`Eroding`).
- `Scanner` (`scanner.dfy`): the stable sort by area, the cut to five, the
  search loop, and an explicit `ScreenContourUnbound` outcome. That outcome
  stands for the name error the script raises at line 53 when no candidate
  has four vertices.

Inputs that stand for library results or for the environment:

- The saturation channel is given.
- The label grid and the per-label statistics of connected-component labelling
  are given. `IsLabelling` states what the labeller guarantees: one label per
  pixel, every label below the number of statistics rows, and label 0 exactly
  on unflagged pixels.
- Each random channel value is `1 + pick(row, channel)`, where
  `pick: (nat, nat) -> Draw` returns a value in 0..254, as
  `random.randint(0, 254)` does.
- A contour carries its area (a `real`) and its polygon approximation as given
  fields.

The letter mask follows the code's arithmetic. The comments at
watermark.py:28 and watermark.py:31 say that small regions and the
background are made black and that big regions get a non-zero random colour.
The mask is then meant to hold on every pixel of a big region. The code,
however, adds the three `uint8` channels, and that sum wraps modulo 256. The
model follows the code (`MarkColoured`, `LetterMaskContents`); the wrap is
recorded under Findings.

## Model

| member | source | states |
|---|---|---|
| `ColourMap.MakeColourMap` | watermark.py:22-33 | returns a fresh table of exactly `len(stats)` rows of three bytes, filled row by row, equal to `ColourTable` |
| `ColourMap.RowsOfTable` | watermark.py:26-31 | a row is black exactly when it is row 0 or the threshold is non-zero and the component's population is below it; every other row has all three channels in 1..255, each one more than its draw |
| `ColourMap.BackgroundIsBlack` | watermark.py:27-28 | row 0 (the background) is black whatever the threshold |
| `ColourMap.SmallComponentsAreBlack` | watermark.py:27-28 | with a non-zero threshold, every row whose population is below it is black |
| `ColourMap.UnfilteredTableColoursEveryComponent` | watermark.py:26-31 | with the default threshold 0, no row other than row 0 has a zero channel |
| `LetterMask.ThresholdInv` | watermark.py:48 | inverse binary threshold: a pixel is flagged (255) exactly when its saturation is at most 42, and is 0 otherwise |
| `LetterMask.Colourise` | watermark.py:56-57 | `table[labels]`: the result has the label grid's shape and every pixel is the table row of its label |
| `LetterMask.MarkColoured` | watermark.py:35-38 | the mask of a coloured image has the image's shape |
| `LetterMask.MarkedIffWrappedSumNonZero` | watermark.py:35-38 | a pixel is marked exactly when (c0 + c1 + c2) mod 256 is non-zero, because the `uint8` sum wraps; a black pixel is never marked |
| `LetterMask.LetterMaskOf` | watermark.py:54-61 | the letter mask has the label grid's shape; a pixel is marked exactly when its label is not the background, its component has at least 170 pixels, and the three drawn channels (each draw plus one) do not add up to a multiple of 256 |
| `LetterMask.LetterMaskContents` | watermark.py:48-61 | the letter mask holds exactly on pixels with a non-zero label whose component has at least 170 pixels and whose colour sum does not wrap to 0; so it never holds on saturation above 42, on label 0, or on a component below 170 pixels |
| `LetterMask.WrappedSumDropsLargeComponent` | watermark.py:36-37 | a 20-by-20 low-saturation block labelled as one 400-pixel component and coloured (1, 1, 254) is left out of the letter mask in its entirety |
| `LetterMask.MarkColouredWidened` | watermark.py:35-38 | corrected marking: a pixel is marked exactly when its colour is not black |
| `LetterMask.IntendedLetterMaskExact` | watermark.py:48-61 | with the corrected marking, the letter mask is exactly the pixels with saturation at most 42 whose component has at least 170 pixels |
| `LetterMask.CreateLetterMask` | watermark.py:40-63 | builds both colourings and the letter mask from the filtered table; the mask never holds on saturation above 42, on label 0, or on a small component; the unfiltered colouring is black exactly where saturation is above 42 |
| `Masks.InnerAndOuterMasks` | watermark.py:65-73 | inner is the letter mask dilated once and eroded twice, outer is it dilated twice; when dilation only adds pixels and erosion only removes them, the once-dilated mask contains the inner mask and lies within the outer mask, and it contains the letter mask |
| `Masks.InnerWithinOuter` | watermark.py:65-73 | if dilation only adds pixels and erosion only removes them, the inner mask lies within the outer mask and the letter mask lies within the outer mask (the intent of the comments at lines 164-165) |
| `Masks.EdgeMask` | watermark.py:168-169 | the edge mask is 255 exactly where the outer mask holds and the inner mask does not, and 0 everywhere else |
| `Masks.EdgeRingPartitionsOuter` | watermark.py:168-169 | the edge ring never meets the inner mask and lies within the outer mask; when inner lies within outer, the ring and the inner mask together make up exactly the outer mask |
| `Masks.TripleMask` | watermark.py:75-76 | every one of the three channels of the stacked mask equals the mask |
| `Masks.Where` | watermark.py:172-173 | each sample comes from the first image where the condition holds and from the second elsewhere |
| `Masks.SplitImage` | watermark.py:168-173 | the edge mask is 255 exactly where the outer mask holds and the inner does not, 0 elsewhere; the inner image is the input pixel under the inner mask and black elsewhere; the outer image is black under the outer mask and the input pixel elsewhere |
| `Masks.SplitTakesEachSampleOnce` | watermark.py:172-173 | the inner image is the input under the inner mask and 0 elsewhere; the outer image is 0 under the outer mask and the input elsewhere; when inner lies within outer, no sample is in both, and the two add up to the input everywhere except on the edge ring, where both are 0 |
| `Masks.MaskStages` | watermark.py:167-173 | with the masks `get_inner_and_outer_masks` returns for the letter mask: inner lies within outer and the letter mask within outer; the edge mask is 255 exactly on outer and not inner; the inner image is the input under inner and black elsewhere; the outer image is black under outer and the input elsewhere; hence no input sample is in both images, the two add up to the input outside the ring, and no letter pixel reaches the outer image |
| `Scanner.Insert` | scanner.py:37 | inserting a new index into a list ordered by (area descending, input position ascending) keeps the list ordered and adds exactly that index |
| `Scanner.SortedIndices` | scanner.py:37 | the sort order is a list of the positions 0..n-1, each position once, ordered by area descending, with ties in input order |
| `Scanner.SortByArea` | scanner.py:37 | the sorted list is the input permuted by a bijection of positions; areas do not increase along it; contours of equal area keep their input order, as Python's stable `sorted` does with `reverse=True` |
| `Scanner.Candidates` | scanner.py:37 | the candidate list has min(5, number of contours) entries |
| `Scanner.CandidatesAreTheLargest` | scanner.py:37 | the candidates are the first entries of the sorted list, in descending area order; no contour left out is larger than any candidate |
| `Scanner.FirstQuad` | scanner.py:40-49 | gives the position of the first candidate whose approximation has four vertices (every earlier one has a different count), or nothing when no candidate has four |
| `Scanner.FindScreenContour` | scanner.py:40-49 | returns the approximation of the first four-vertex candidate, and stops after examining it: no later candidate is examined; if no candidate has four vertices, every candidate is examined and nothing is bound |
| `Scanner.LocateScreen` | scanner.py:37-53 | an outline comes out exactly when one of the top min(5, n) contours has a four-vertex approximation, and it is the first such approximation; otherwise the outcome is `ScreenContourUnbound`, the name error at line 53 |
| `Scanner.ChosenIsLargestQuad` | scanner.py:37-49 | no contour with a four-vertex approximation, among the candidates or not, has a larger area than the chosen one |

## Left out

- Colour conversion (`cvtColor` to HSV and grey) is a library call. The saturation channel is an input.
- Connected-component labelling is a library call. The label grid and statistics are inputs, constrained by `IsLabelling`. The model does not check that a statistics row's population equals the number of pixels with that label.
- `binary_dilation` and `binary_erosion` are library calls. They are parameters assumed only to grow (respectively shrink) a mask. The comment "inner mask is smaller than letter mask" (watermark.py:165) is not stated. It does not follow from those assumptions, and the model does not claim it.
- The pixel counts printed by `get_inner_and_outer_masks` are console output and are not modelled.
- `random.randint` is replaced by the `pick` parameter. The order in which draws are consumed is not modelled, only the value each channel receives.
- `hist_match`, `balance_histograms_using_v` and the `balanced_inner_image + outer_image` sum (watermark.py:78-129, 181) are not modelled. They use floating-point quantiles, `np.interp` and the HSV round trip.
- `fill_in` (watermark.py:131-149) is not modelled. Its inpainting, and the in-place writes of the channels it inpaints, are library behaviour.
- All reading, writing and display of images is not modelled, including the hard-coded paths and the argument parsing of scanner.py.
- The scanner's edge detection, contour finding, `contourArea`, `arcLength` and `approxPolyDP` are library calls. Area and approximation are contour fields, so the 2% perimeter tolerance is not modelled.
- The resize ratio, the perspective transform (transform.py is not part of this model) and the adaptive threshold of the warped image are not modelled.
- `LetterMask.CreateLetterMask` takes the thresholded image's labelling as input; it does not call a labeller.
- `LetterMask.MarkColoured`: its contract states only the shape. What each pixel becomes is stated by `MarkedIffWrappedSumNonZero` and `LetterMaskContents`.

## Findings

| source | as written | input that shows it | evidently intended | confidence | as-written member | corrected member |
|---|---|---|---|---|---|---|
| watermark.py:36-37 | the three channels are added as `uint8`, so the sum wraps modulo 256 before the `> 0` test | a 20-by-20 block of low-saturation pixels forming one 400-pixel component whose filtered colour is drawn as (1, 1, 254) (channel sums 256 or 512 in general) | every pixel of a component of at least 170 pixels is in the letter mask, since such rows are given a "non-zero" colour (line 31) | not executed | `LetterMask.WrappedSumDropsLargeComponent` | `LetterMask.IntendedLetterMaskExact` |

The mask stages after the letter mask (`Masks.MaskStages` and the lemmas
beside it) take the letter mask as a parameter. They hold for the corrected
mask `IntendedLetterMaskOf` exactly as they do for the mask as written.
