/** Single image planes, regions of interest and the pixel operations the
    cavity pipeline applies to whole planes: inversion, bitwise AND, and the
    ImageJ filters it calls, which stay abstract. */
module Planes {
  import opened Wrappers

  /** One width x height plane, indexed p[x][y]. */
  type Plane = seq<seq<nat>>

  /** A region of interest as a membership test on pixel coordinates
      (`Roi.contains(x, y)`). */
  type Roi = (int, int) -> bool

  predicate HasDims(p: Plane, w: nat, h: nat)
  {
    |p| == w && forall x | 0 <= x < w :: |p[x]| == h
  }

  function Pow2(n: nat): (r: nat)
    ensures r >= 1
  {
    if n == 0 then 1 else 2 * Pow2(n - 1)
  }

  /** `Math.pow(2.0, bitDepth) - 1`: the largest value of a pixel. */
  function MaxValue(bitDepth: nat): nat
  {
    Pow2(bitDepth) - 1
  }

  /** Every pixel is background (0) or foreground (max). */
  predicate IsBinary(p: Plane, max: nat)
  {
    forall x, y | 0 <= x < |p| && 0 <= y < |p[x]| :: p[x][y] == 0 || p[x][y] == max
  }

  /** "Make Inverse": the complement of a selection. */
  function MakeInverse(r: Roi): Roi
  {
    (x: int, y: int) => !r(x, y)
  }

  /** "Invert" of one pixel of an 8- or 16-bit image. */
  function InvertValue(v: nat, max: nat): nat
  {
    if v >= max then 0 else max - v
  }

  /** "Invert" of a whole plane. */
  function InvertPlane(p: Plane, max: nat): (r: Plane)
    ensures |r| == |p| && forall x | 0 <= x < |p| :: |r[x]| == |p[x]|
  {
    seq(|p|, x requires 0 <= x < |p| => seq(|p[x]|, y requires 0 <= y < |p[x]| => InvertValue(p[x][y], max)))
  }

  /** Inverting a binary plane swaps foreground and background. */
  lemma InvertBinary(p: Plane, max: nat, x: int, y: int)
    requires IsBinary(p, max) && max > 0
    requires 0 <= x < |p| && 0 <= y < |p[x]|
    ensures IsBinary(InvertPlane(p, max), max)
    ensures InvertPlane(p, max)[x][y] == max <==> p[x][y] == 0
  {
  }

  /** Inverting twice gives back every plane whose values do not exceed max. */
  lemma InvertInvolution(p: Plane, max: nat)
    requires forall x, y | 0 <= x < |p| && 0 <= y < |p[x]| :: p[x][y] <= max
    ensures InvertPlane(InvertPlane(p, max), max) == p
  {
    var q := InvertPlane(InvertPlane(p, max), max);
    forall x | 0 <= x < |p|
      ensures q[x] == p[x]
    {
    }
  }

  /** Whether a filter run while the selection sel is set may change pixel
      (x,y): inside the selection, or anywhere when there is none. */
  predicate InSelection(sel: Option<Roi>, x: int, y: int)
  {
    sel.None? || sel.value(x, y)
  }

  /** A filter that supports masking ("Invert", "Despeckle") run on p while
      sel is set, where q is what it computes on the whole plane: q inside
      the selection, p unchanged outside it. */
  function Masked(p: Plane, q: Plane, sel: Option<Roi>): (r: Plane)
    requires |q| == |p| && forall x | 0 <= x < |p| :: |q[x]| == |p[x]|
    ensures |r| == |p| && forall x | 0 <= x < |p| :: |r[x]| == |p[x]|
  {
    seq(|p|, x requires 0 <= x < |p| => seq(|p[x]|, y requires 0 <= y < |p[x]| =>
      if InSelection(sel, x, y) then q[x][y] else p[x][y]))
  }

  /** Without a selection the filter acts on the whole plane; with one it is
      the identity outside it; binary inputs give a binary result. */
  lemma MaskedMeaning(p: Plane, q: Plane, sel: Option<Roi>, max: nat)
    requires |q| == |p| && forall x | 0 <= x < |p| :: |q[x]| == |p[x]|
    ensures sel.None? ==> Masked(p, q, sel) == q
    ensures forall x, y | 0 <= x < |p| && 0 <= y < |p[x]| && !InSelection(sel, x, y) ::
      Masked(p, q, sel)[x][y] == p[x][y]
    ensures IsBinary(p, max) && IsBinary(q, max) ==> IsBinary(Masked(p, q, sel), max)
  {
    if sel.None? {
      var r := Masked(p, q, sel);
      forall x | 0 <= x < |p|
        ensures r[x] == q[x]
      {
      }
    }
  }

  /** One pixel of `segmentImage`: v is the intensity tested, current the
      value already stored. With a dark background pixels below the threshold
      become 0, otherwise pixels above it do; the other pixels become max, or
      keep their value when keepIntensities is set. */
  function SegmentValue(v: nat, current: nat, threshold: real, max: nat, keepIntensities: bool, darkBackground: bool): nat
  {
    if (darkBackground && (v as real) < threshold) || (!darkBackground && (v as real) > threshold) then 0
    else if keepIntensities then current
    else max
  }

  /** The segmentation polarity: without keepIntensities the result is binary,
      and it is background exactly where the test zeroes the pixel; with
      keepIntensities a pixel is either zeroed or keeps its value. */
  lemma SegmentValueMeaning(v: nat, current: nat, threshold: real, max: nat, keepIntensities: bool, darkBackground: bool)
    requires max > 0
    ensures !keepIntensities ==> SegmentValue(v, current, threshold, max, false, darkBackground) in {0, max}
    ensures !keepIntensities ==> (SegmentValue(v, current, threshold, max, false, darkBackground) == 0 <==>
      if darkBackground then (v as real) < threshold else (v as real) > threshold)
    ensures keepIntensities ==> SegmentValue(v, current, threshold, max, true, darkBackground) in {0, current}
    ensures keepIntensities && current > 0 ==> (SegmentValue(v, current, threshold, max, true, darkBackground) == current <==>
      if darkBackground then (v as real) >= threshold else (v as real) <= threshold)
  {
  }

  /** The binarisation of `getRegionsAboveZeroAsROI`: 255 where the voxel is
      above zero, 0 elsewhere. */
  function AboveZero(v: nat): (r: nat)
    ensures r == 0 || r == 255
    ensures r == 255 <==> v > 0
  {
    if v > 0 then 255 else 0
  }

  /** The (0,0) correction of `getRegionsAboveZeroAsROI`: the selection roi
      is inverted when it disagrees at (0,0) with the closed binary image,
      whose voxel there is v00. */
  function BoundaryCorrected(roi: Roi, v00: nat): (r: Roi)
  {
    if roi(0, 0) then (if v00 == 0 then MakeInverse(roi) else roi)
    else (if v00 > 0 then MakeInverse(roi) else roi)
  }

  /** After the correction the region holds (0,0) exactly when the closed
      image is foreground there, and it is the selection or its complement. */
  lemma BoundaryCorrectedMeaning(roi: Roi, v00: nat)
    ensures BoundaryCorrected(roi, v00)(0, 0) <==> v00 > 0
    ensures BoundaryCorrected(roi, v00) == roi || BoundaryCorrected(roi, v00) == MakeInverse(roi)
    ensures forall x, y :: BoundaryCorrected(roi, v00)(x, y) == (roi(x, y) == (roi(0, 0) == (v00 > 0)))
  {
  }

  /** Java's `&` on non-negative integers. */
  function BitAnd(a: nat, b: nat): (r: nat)
    ensures r <= a && r <= b
  {
    if a == 0 || b == 0 then 0
    else 2 * BitAnd(a / 2, b / 2) + (if a % 2 == 1 && b % 2 == 1 then 1 else 0)
  }

  lemma {:induction false} BitAndSelf(a: nat)
    ensures BitAnd(a, a) == a
  {
    if a != 0 {
      BitAndSelf(a / 2);
    }
  }

  lemma {:induction false} BitAndCommutes(a: nat, b: nat)
    ensures BitAnd(a, b) == BitAnd(b, a)
  {
    if a != 0 && b != 0 {
      BitAndCommutes(a / 2, b / 2);
    }
  }

  /** On the values of a binary image, AND is foreground exactly where both
      operands are foreground. */
  lemma BitAndBinary(a: nat, b: nat, max: nat)
    requires a == 0 || a == max
    requires b == 0 || b == max
    ensures BitAnd(a, b) == 0 || BitAnd(a, b) == max
    ensures BitAnd(a, b) == max && max > 0 <==> a == max && b == max && max > 0
  {
    BitAndSelf(max);
  }

  /** ImageCalculator "AND": pixel by pixel over a's dimensions. */
  function AndPlanes(a: Plane, b: Plane): (r: Plane)
    requires |b| == |a| && forall x | 0 <= x < |a| :: |b[x]| == |a[x]|
    ensures |r| == |a| && forall x | 0 <= x < |a| :: |r[x]| == |a[x]|
  {
    seq(|a|, x requires 0 <= x < |a| => seq(|a[x]|, y requires 0 <= y < |a[x]| => BitAnd(a[x][y], b[x][y])))
  }

  /** The ImageJ operations the plug-in calls but that are not part of this
      model: the rank filters "Maximum..." and "Minimum..." with a radius,
      "Fill Holes", "Despeckle", "Create Selection" (no selection is null)
      and the upper bound of an auto-threshold method within an optional
      selection. */
  datatype Library = Library(
    maximum: (Plane, real) -> Plane,
    minimum: (Plane, real) -> Plane,
    fillHoles: Plane -> Plane,
    despeckle: Plane -> Plane,
    createSelection: Plane -> Option<Roi>,
    upperThreshold: (Plane, Option<Roi>, string) -> real)

  /** The only facts the model uses about the library filters: they keep a
      plane's dimensions and map binary planes to binary planes. */
  ghost predicate WellBehaved(lib: Library)
  {
    (forall p, w, h, r | HasDims(p, w, h) :: HasDims(lib.maximum(p, r), w, h)) &&
    (forall p, w, h, r | HasDims(p, w, h) :: HasDims(lib.minimum(p, r), w, h)) &&
    (forall p, w, h | HasDims(p, w, h) :: HasDims(lib.fillHoles(p), w, h)) &&
    (forall p, w, h | HasDims(p, w, h) :: HasDims(lib.despeckle(p), w, h)) &&
    (forall p, m, r | IsBinary(p, m) :: IsBinary(lib.maximum(p, r), m)) &&
    (forall p, m, r | IsBinary(p, m) :: IsBinary(lib.minimum(p, r), m)) &&
    (forall p, m | IsBinary(p, m) :: IsBinary(lib.fillHoles(p), m)) &&
    (forall p, m | IsBinary(p, m) :: IsBinary(lib.despeckle(p), m))
  }
}
