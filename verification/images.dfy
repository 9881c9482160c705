/** Samples, pixels and grids shared by the watermark pipeline.
    Images and masks are numpy arrays in the source; here a grid is a
    sequence of rows, and a 3-channel image is a grid of 3-byte pixels. */
module Images {

  /** An unsigned 8-bit sample (numpy `uint8`). */
  type Byte = x: int | 0 <= x < 256

  /** Three channels of one pixel, or one row of a colour table. */
  type Pixel = p: seq<Byte> | |p| == 3 witness [0, 0, 0]

  /** A 3-channel, 8-bit image. */
  type Image = seq<seq<Pixel>>

  const BLACK: Pixel := [0, 0, 0]

  /** Both grids have the same number of rows, and matching rows have the same length. */
  predicate SameShape<A, B>(a: seq<seq<A>>, b: seq<seq<B>>)
  {
    |a| == |b| && forall r :: 0 <= r < |a| ==> |a[r]| == |b[r]|
  }
}
