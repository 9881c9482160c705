/** The colour table of watermark.py: one row of three bytes per connected
    component, black for the background and (when a population threshold is
    set) for components that are too small, a random non-zero colour for the
    others. */
module ColourMap {
  import opened Images

  /** One row of the statistics returned by connected-component labelling:
      the bounding box and, in column 4, the number of pixels of the component. */
  datatype ComponentStat = ComponentStat(left: int, top: int, width: int, height: int, area: int)

  /** A value that `random.randint(0, 254)` may return. */
  type Draw = x: int | 0 <= x <= 254

  /** Row `i` is painted black: it is the background, or the threshold is set
      and the component has fewer pixels than the threshold. */
  predicate Blackened(stats: seq<ComponentStat>, popThresh: int, i: nat)
    requires i < |stats|
  {
    (popThresh != 0 && stats[i].area < popThresh) || i == 0
  }

  /** The colour row `i` receives; `pick(i, j)` is the random draw for channel `j` of row `i`. */
  function RowColour(stats: seq<ComponentStat>, popThresh: int, pick: (nat, nat) -> Draw, i: nat): Pixel
    requires i < |stats|
  {
    if Blackened(stats, popThresh, i) then BLACK
    else [1 + pick(i, 0), 1 + pick(i, 1), 1 + pick(i, 2)]
  }

  /** The whole table, as a value. */
  function ColourTable(stats: seq<ComponentStat>, popThresh: int, pick: (nat, nat) -> Draw): seq<Pixel>
  {
    seq(|stats|, i requires 0 <= i < |stats| => RowColour(stats, popThresh, pick, i))
  }

  /** The rows of an n-by-3 byte array, as a table value. */
  function TableOf(a: array2<Byte>): (table: seq<Pixel>)
    requires a.Length1 == 3
    reads a
    ensures |table| == a.Length0
    ensures forall i, j :: 0 <= i < a.Length0 && 0 <= j < 3 ==> table[i][j] == a[i, j]
  {
    seq(a.Length0, i requires 0 <= i < a.Length0 reads a => [a[i, 0], a[i, 1], a[i, 2]])
  }

  /** Preallocates a zero table of `|stats|` rows and three channels and fills it
      row by row: black rows are reset to zero, every other row gets one random
      draw plus one in each channel. */
  method MakeColourMap(stats: seq<ComponentStat>, popThresh: int, pick: (nat, nat) -> Draw)
    returns (colourMap: array2<Byte>)
    ensures fresh(colourMap)
    ensures colourMap.Length0 == |stats| && colourMap.Length1 == 3
    ensures TableOf(colourMap) == ColourTable(stats, popThresh, pick)
  {
    var n := |stats|;
    colourMap := new Byte[n, 3]((i, j) => 0);
    for i := 0 to n
      invariant forall k, j :: 0 <= k < i && 0 <= j < 3 ==> colourMap[k, j] == RowColour(stats, popThresh, pick, k)[j]
    {
      if (popThresh != 0 && stats[i].area < popThresh) || i == 0 {
        colourMap[i, 0], colourMap[i, 1], colourMap[i, 2] := 0, 0, 0;
      } else {
        for j := 0 to 3
          invariant forall k, c :: 0 <= k < i && 0 <= c < 3 ==> colourMap[k, c] == RowColour(stats, popThresh, pick, k)[c]
          invariant forall c :: 0 <= c < j ==> colourMap[i, c] == 1 + pick(i, c)
        {
          colourMap[i, j] := 1 + pick(i, j);
        }
      }
    }
    ghost var table := TableOf(colourMap);
    assert forall k :: 0 <= k < n ==> table[k] == RowColour(stats, popThresh, pick, k);
  }

  /** The table has one row per component; a row is black exactly when it is
      the background or a component below a non-zero threshold, and every other
      row has all three channels in 1..255, each one more than its draw. */
  lemma RowsOfTable(stats: seq<ComponentStat>, popThresh: int, pick: (nat, nat) -> Draw, i: nat)
    requires i < |stats|
    ensures |ColourTable(stats, popThresh, pick)| == |stats|
    ensures ColourTable(stats, popThresh, pick)[i] == BLACK <==> i == 0 || (popThresh != 0 && stats[i].area < popThresh)
    ensures !Blackened(stats, popThresh, i) ==>
              forall j :: 0 <= j < 3 ==>
                1 <= ColourTable(stats, popThresh, pick)[i][j] <= 255 &&
                ColourTable(stats, popThresh, pick)[i][j] == 1 + pick(i, j)
  {
  }

  /** Row 0, the background, is black whatever the threshold. */
  lemma BackgroundIsBlack(stats: seq<ComponentStat>, popThresh: int, pick: (nat, nat) -> Draw)
    requires |stats| > 0
    ensures ColourTable(stats, popThresh, pick)[0] == BLACK
  {
  }

  /** With a threshold set, every component below it is black. */
  lemma SmallComponentsAreBlack(stats: seq<ComponentStat>, popThresh: int, pick: (nat, nat) -> Draw)
    requires popThresh != 0
    ensures forall i :: 0 <= i < |stats| && stats[i].area < popThresh ==> ColourTable(stats, popThresh, pick)[i] == BLACK
  {
  }

  /** Without a threshold (the default 0), no row but the background is black:
      every other row has no zero channel. */
  lemma UnfilteredTableColoursEveryComponent(stats: seq<ComponentStat>, pick: (nat, nat) -> Draw)
    ensures forall i, j :: 0 < i < |stats| && 0 <= j < 3 ==> ColourTable(stats, 0, pick)[i][j] != 0
  {
  }
}
