/** The contour selection of scanner.py: the contours found in the edge map are
    sorted by enclosed area, largest first, the first five are kept, and the
    first of those whose polygon approximation has four vertices is taken as the
    outline of the sheet of paper. Area and approximation are library results;
    each contour carries them as given fields. */
module Scanner {

  datatype Option<T> = None | Some(value: T)

  datatype Point = Point(x: int, y: int)

  /** A contour, reduced to what the selection reads of it: its enclosed area
      and its polygon approximation (within 2% of its perimeter), as the
      library computes them. */
  datatype Contour = Contour(area: real, approx: seq<Point>)

  /** How many of the largest contours are examined. */
  const MAX_CANDIDATES := 5
  /** The number of vertices of the sheet's outline. */
  const QUAD_VERTICES := 4

  function Min(a: int, b: int): int
  {
    if a <= b then a else b
  }

  /** In the order of a stable sort by descending area, contour `i` comes before
      contour `j`: it is larger, or as large and earlier in the input. */
  predicate Precedes(cs: seq<Contour>, i: nat, j: nat)
    requires i < |cs| && j < |cs|
  {
    cs[i].area > cs[j].area || (cs[i].area == cs[j].area && i < j)
  }

  /** `s` lists indices of `cs`, each strictly before the next in that order. */
  predicate OrderedByArea(cs: seq<Contour>, s: seq<nat>)
  {
    (forall p :: 0 <= p < |s| ==> s[p] < |cs|) &&
    forall p, q :: 0 <= p < q < |s| ==> Precedes(cs, s[p], s[q])
  }

  /** Inserts index `i` into an ordered list of indices, after every index that precedes it. */
  function Insert(cs: seq<Contour>, i: nat, s: seq<nat>): (t: seq<nat>)
    requires i < |cs| && i !in s && OrderedByArea(cs, s)
    ensures |t| == |s| + 1
    ensures forall x: nat :: x in t <==> x == i || x in s
    ensures OrderedByArea(cs, t)
  {
    if s == [] then [i]
    else if Precedes(cs, s[0], i) then
      var rest := Insert(cs, i, s[1..]);
      assert forall x :: x in s[1..] ==> x in s;
      assert forall x :: x in rest ==> Precedes(cs, s[0], x) by {
        forall x | x in rest ensures Precedes(cs, s[0], x) {
          if x != i {
            var q :| 0 <= q < |s[1..]| && s[1..][q] == x;
            assert s[q + 1] == x;
          }
        }
      }
      [s[0]] + rest
    else
      [i] + s
  }

  /** The indices `0 .. n - 1` of `cs`, in stable descending order of area. */
  function SortedIndices(cs: seq<Contour>, n: nat): (s: seq<nat>)
    requires n <= |cs|
    ensures |s| == n
    ensures forall x: nat :: x in s <==> x < n
    ensures OrderedByArea(cs, s)
  {
    if n == 0 then [] else Insert(cs, n - 1, SortedIndices(cs, n - 1))
  }

  /** `sorted(contours, key=contourArea, reverse=True)`: the input permuted by
      a bijection on positions, in non-increasing order of area, and stable:
      contours of equal area keep their input order. */
  function SortByArea(cs: seq<Contour>): (sorted: seq<Contour>)
    ensures |sorted| == |cs|
    ensures var idx := SortedIndices(cs, |cs|);
            |idx| == |cs| &&
            (forall p :: 0 <= p < |cs| ==> idx[p] < |cs| && sorted[p] == cs[idx[p]]) &&
            (forall i :: 0 <= i < |cs| ==> i in idx) &&
            (forall p, q :: 0 <= p < q < |cs| ==> idx[p] != idx[q]) &&
            (forall p, q :: 0 <= p < q < |cs| ==> sorted[p].area >= sorted[q].area) &&
            (forall p, q :: 0 <= p < q < |cs| && sorted[p].area == sorted[q].area ==> idx[p] < idx[q])
  {
    var idx := SortedIndices(cs, |cs|);
    seq(|cs|, p requires 0 <= p < |cs| => cs[idx[p]])
  }

  /** The sorted list cut to its first five entries (`[:5]`). */
  function Candidates(cs: seq<Contour>): (cands: seq<Contour>)
    ensures |cands| == Min(MAX_CANDIDATES, |cs|)
  {
    SortByArea(cs)[..Min(MAX_CANDIDATES, |cs|)]
  }

  /** A position below `k` of `s` is an entry of the prefix `s[..k]`. */
  lemma PrefixHolds(s: seq<nat>, q: nat, k: nat)
    requires q < |s| && k <= |s|
    ensures q < k ==> s[q] in s[..k]
  {
  }

  /** The candidates are the first `min(5, n)` contours of the sorted list; no
      contour left out is larger than any candidate. */
  lemma CandidatesAreTheLargest(cs: seq<Contour>)
    ensures var idx := SortedIndices(cs, |cs|);
            var cands := Candidates(cs);
            (forall p :: 0 <= p < |cands| ==> cands[p] == cs[idx[p]]) &&
            (forall p, q :: 0 <= p < q < |cands| ==> cands[p].area >= cands[q].area) &&
            (forall i, p :: 0 <= i < |cs| && i !in idx[..|cands|] && 0 <= p < |cands| ==> cs[i].area <= cands[p].area)
  {
    var idx := SortedIndices(cs, |cs|);
    var cands := Candidates(cs);
    forall i, p | 0 <= i < |cs| && i !in idx[..|cands|] && 0 <= p < |cands|
      ensures cs[i].area <= cands[p].area
    {
      assert i in idx;
      var q :| 0 <= q < |idx| && idx[q] == i;
      PrefixHolds(idx, q, |cands|);
      assert Precedes(cs, idx[p], idx[q]);
    }
  }

  /** The position of the first candidate whose approximation has four vertices. */
  function FirstQuad(cands: seq<Contour>): (k: Option<nat>)
    ensures k.Some? ==> k.value < |cands| && |cands[k.value].approx| == QUAD_VERTICES &&
                        forall p :: 0 <= p < k.value ==> |cands[p].approx| != QUAD_VERTICES
    ensures k.None? ==> forall p :: 0 <= p < |cands| ==> |cands[p].approx| != QUAD_VERTICES
  {
    if cands == [] then None
    else if |cands[0].approx| == QUAD_VERTICES then Some(0)
    else match FirstQuad(cands[1..])
      case None => None
      case Some(k) => Some(k + 1)
  }

  /** The loop over the candidates: each one is approximated in turn, and the
      first approximation with four vertices is kept and ends the loop. Returns
      that approximation, if any, and how many candidates were examined. */
  method FindScreenContour(cands: seq<Contour>) returns (screenContour: Option<seq<Point>>, examined: nat)
    ensures examined <= |cands|
    ensures screenContour.Some? ==>
              0 < examined && screenContour.value == cands[examined - 1].approx &&
              |screenContour.value| == QUAD_VERTICES &&
              forall p :: 0 <= p < examined - 1 ==> |cands[p].approx| != QUAD_VERTICES
    ensures screenContour.None? ==>
              examined == |cands| && forall p :: 0 <= p < |cands| ==> |cands[p].approx| != QUAD_VERTICES
    ensures match FirstQuad(cands)
              case Some(k) => screenContour == Some(cands[k].approx) && examined == k + 1
              case None => screenContour == None
  {
    screenContour := None;
    examined := 0;
    while examined < |cands|
      invariant examined <= |cands|
      invariant forall p :: 0 <= p < examined ==> |cands[p].approx| != QUAD_VERTICES
    {
      var approximate := cands[examined].approx;
      examined := examined + 1;
      if |approximate| == QUAD_VERTICES {
        screenContour := Some(approximate);
        break;
      }
    }
  }

  /** What the script reaches at the drawing step: the outline, or a name error
      because `screenContour` was never bound. */
  datatype Outcome = Outline(screenContour: seq<Point>) | ScreenContourUnbound

  /** Lines 37-53 of the script: sort and cut the contours, search them, and
      use the result. */
  method LocateScreen(contours: seq<Contour>) returns (outcome: Outcome)
    ensures outcome.Outline? <==>
              exists p :: 0 <= p < Min(MAX_CANDIDATES, |contours|) && |Candidates(contours)[p].approx| == QUAD_VERTICES
    ensures outcome.Outline? ==>
              |outcome.screenContour| == QUAD_VERTICES &&
              FirstQuad(Candidates(contours)).Some? &&
              outcome.screenContour == Candidates(contours)[FirstQuad(Candidates(contours)).value].approx
  {
    var cands := Candidates(contours);
    var screenContour, _ := FindScreenContour(cands);
    match screenContour
    case Some(approximate) => outcome := Outline(approximate);
    case None => outcome := ScreenContourUnbound;
  }

  /** The outline is taken from the four-vertex contour of largest area: no
      contour whose approximation has four vertices, among the candidates or
      not, is larger than the chosen one. */
  lemma ChosenIsLargestQuad(cs: seq<Contour>)
    requires FirstQuad(Candidates(cs)).Some?
    ensures var k := FirstQuad(Candidates(cs)).value;
            forall i :: 0 <= i < |cs| && |cs[i].approx| == QUAD_VERTICES ==> cs[i].area <= Candidates(cs)[k].area
  {
    var idx := SortedIndices(cs, |cs|);
    var cands := Candidates(cs);
    var k := FirstQuad(cands).value;
    forall i | 0 <= i < |cs| && |cs[i].approx| == QUAD_VERTICES
      ensures cs[i].area <= cands[k].area
    {
      assert i in idx;
      var q :| 0 <= q < |idx| && idx[q] == i;
      assert SortByArea(cs)[q] == cs[i];
      assert q < |cands| ==> cands[q] == cs[i];
      if q > k {
        assert Precedes(cs, idx[k], idx[q]);
      }
    }
  }
}
