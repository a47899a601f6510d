/** The cavity pipeline of `run` as functions on one plane: segmentation
    against the upper auto-threshold bound (or the custom threshold),
    optional masking outside the above-zero region, which also stays the
    image's selection, optional despeckle inside that selection, the mask R
    with filled holes and removed noise computed on a copy, and the result
    (M inverted inside the selection) AND R, optionally hole-filled. */
module Cavity {
  import opened Wrappers
  import opened Planes
  import opened Preferences

  /** A plane of an image: at least one column and one row, all columns of
      the same height. */
  predicate IsImage(p: Plane)
  {
    |p| >= 1 && |p[0]| >= 1 && HasDims(p, |p|, |p[0]|)
  }

  lemma MaxValuePositive(bitDepth: nat)
    requires bitDepth >= 1
    ensures MaxValue(bitDepth) >= 1
  {
  }

  /** The binarisation loop of `getRegionsAboveZeroAsROI`. */
  function BinarisePlane(p: Plane): (r: Plane)
    ensures |r| == |p| && forall x | 0 <= x < |p| :: |r[x]| == |p[x]|
  {
    seq(|p|, x requires 0 <= x < |p| => seq(|p[x]|, y requires 0 <= y < |p[x]| => AboveZero(p[x][y])))
  }

  /** `segmentImage(tempImp, threshold, 0, tempImp, 0, false, false)` on
      one plane. */
  function SegmentPlane(p: Plane, threshold: real, max: nat): (r: Plane)
    ensures |r| == |p| && forall x | 0 <= x < |p| :: |r[x]| == |p[x]|
  {
    seq(|p|, x requires 0 <= x < |p| => seq(|p[x]|, y requires 0 <= y < |p[x]| =>
      SegmentValue(p[x][y], p[x][y], threshold, max, false, false)))
  }

  /** `setRegionsOutsideRoiToZero` on one plane. */
  function ZeroOutside(p: Plane, roi: Roi): (r: Plane)
    ensures |r| == |p| && forall x | 0 <= x < |p| :: |r[x]| == |p[x]|
  {
    seq(|p|, x requires 0 <= x < |p| => seq(|p[x]|, y requires 0 <= y < |p[x]| =>
      if roi(x, y) then p[x][y] else 0))
  }

  /** The binarised channel after "Maximum..." and then "Minimum...": still
      binary and of the channel's shape. */
  function ClosedAboveZero(lib: Library, p: Plane, radius: real): (r: Plane)
    requires WellBehaved(lib) && IsImage(p)
    ensures HasDims(r, |p|, |p[0]|) && IsBinary(r, 255)
  {
    var b := BinarisePlane(p);
    assert HasDims(b, |p|, |p[0]|) && IsBinary(b, 255);
    assert HasDims(lib.maximum(b, radius), |p|, |p[0]|) && IsBinary(lib.maximum(b, radius), 255);
    assert HasDims(lib.minimum(lib.maximum(b, radius), radius), |p|, |p[0]|);
    assert IsBinary(lib.minimum(lib.maximum(b, radius), radius), 255);
    lib.minimum(lib.maximum(b, radius), radius)
  }

  /** `getRegionsAboveZeroAsROI`: the selection of the closed binarised
      channel, corrected at (0,0); None where no selection exists and
      `roi.contains` fails on null. */
  function AboveZeroRoi(lib: Library, p: Plane, radius: real): Option<Roi>
    requires WellBehaved(lib) && IsImage(p)
  {
    var closed := ClosedAboveZero(lib, p, radius);
    match lib.createSelection(closed)
    case None => None
    case Some(roi) => Some(BoundaryCorrected(roi, closed[0][0]))
  }

  /** The region holds (0,0) exactly when the closed binary image, not the
      channel itself, is foreground at (0,0). */
  lemma {:induction false} AboveZeroRoiOrigin(lib: Library, p: Plane, radius: real)
    requires WellBehaved(lib) && IsImage(p)
    ensures AboveZeroRoi(lib, p, radius).Some? <==> lib.createSelection(ClosedAboveZero(lib, p, radius)).Some?
    ensures AboveZeroRoi(lib, p, radius).Some? ==>
      (AboveZeroRoi(lib, p, radius).value(0, 0) <==> ClosedAboveZero(lib, p, radius)[0][0] == 255)
  {
    var closed := ClosedAboveZero(lib, p, radius);
    match lib.createSelection(closed)
    case None =>
    case Some(roi) =>
      BoundaryCorrectedMeaning(roi, closed[0][0]);
  }

  /** The binary mask M of `run` before "Despeckle": None when the
      above-zero region is needed but has no selection. */
  function SegmentedMask(lib: Library, st: Settings, p: Plane, max: nat): (r: Option<Plane>)
    requires WellBehaved(lib) && IsImage(p)
    ensures r.Some? ==> HasDims(r.value, |p|, |p[0]|)
  {
    if !IsCustom(st) then
      if st.excludeZeroRegions then
        match AboveZeroRoi(lib, p, st.closeGapsRadius)
        case None => None
        case Some(roi) =>
          Some(ZeroOutside(SegmentPlane(p, lib.upperThreshold(p, Some(roi), st.chosenAlgorithm), max), roi))
      else
        Some(SegmentPlane(p, lib.upperThreshold(p, None, st.chosenAlgorithm), max))
    else
      Some(SegmentPlane(p, st.customThr, max))
  }

  /** `getFillHolesAndRemoveNoise`: "Fill Holes", then "Minimum...", then
      "Maximum...", on a copy of the mask; the result has the mask's shape. */
  function FillHolesAndRemoveNoise(lib: Library, m: Plane, radius: real): (r: Plane)
    requires WellBehaved(lib) && IsImage(m)
    ensures HasDims(r, |m|, |m[0]|)
  {
    assert HasDims(lib.fillHoles(m), |m|, |m[0]|);
    assert HasDims(lib.minimum(lib.fillHoles(m), radius), |m|, |m[0]|);
    assert HasDims(lib.maximum(lib.minimum(lib.fillHoles(m), radius), radius), |m|, |m[0]|);
    lib.maximum(lib.minimum(lib.fillHoles(m), radius), radius)
  }

  /** R of a binary mask is binary. */
  lemma FillHolesAndRemoveNoiseBinary(lib: Library, m: Plane, radius: real, max: nat)
    requires WellBehaved(lib) && IsImage(m) && IsBinary(m, max)
    ensures IsBinary(FillHolesAndRemoveNoise(lib, m, radius), max)
  {
    assert IsBinary(lib.fillHoles(m), max);
    assert IsBinary(lib.minimum(lib.fillHoles(m), radius), max);
    assert IsBinary(lib.maximum(lib.minimum(lib.fillHoles(m), radius), radius), max);
  }

  /** The selection `tempImp` carries from line 506 on: the above-zero
      region on the auto-threshold path with excludeZeroRegions, and none
      otherwise (the copy `copyChannel` makes starts without one). Nothing
      clears it before "Despeckle" and "Invert" run. */
  function MaskSelection(lib: Library, st: Settings, p: Plane): Option<Roi>
    requires WellBehaved(lib) && IsImage(p)
  {
    if !IsCustom(st) && st.excludeZeroRegions then AboveZeroRoi(lib, p, st.closeGapsRadius) else None
  }

  /** M after the optional "Despeckle", which acts only inside the
      selection. */
  function DespeckledMask(lib: Library, st: Settings, p: Plane, max: nat): (r: Option<Plane>)
    requires WellBehaved(lib) && IsImage(p)
    ensures r.Some? <==> SegmentedMask(lib, st, p, max).Some?
    ensures r.Some? ==> HasDims(r.value, |p|, |p[0]|)
  {
    match SegmentedMask(lib, st, p, max)
    case None => None
    case Some(m0) =>
      assert HasDims(lib.despeckle(m0), |p|, |p[0]|);
      Some(if st.despeckle then Masked(m0, lib.despeckle(m0), MaskSelection(lib, st, p)) else m0)
  }

  /** `AND create` of M, inverted inside the selection sel, with R
      computed on the whole of M. */
  function CavityMask(lib: Library, m: Plane, sel: Option<Roi>, radius: real, max: nat): (r: Plane)
    requires WellBehaved(lib) && IsImage(m)
    ensures HasDims(r, |m|, |m[0]|)
  {
    AndPlanes(Masked(m, InvertPlane(m, max), sel), FillHolesAndRemoveNoise(lib, m, radius))
  }

  /** The mask `run` saves as channel 1: None where `run` fails on a null
      region. */
  function FinalMask(lib: Library, st: Settings, p: Plane, max: nat): Option<Plane>
    requires WellBehaved(lib) && IsImage(p)
  {
    match DespeckledMask(lib, st, p, max)
    case None => None
    case Some(m) =>
      var c := CavityMask(lib, m, MaskSelection(lib, st, p), st.removeRadius, max);
      Some(if st.fillHoles then lib.fillHoles(c) else c)
  }

  // ---------------------------------------------------------------------
  // Properties
  // ---------------------------------------------------------------------

  /** The segmentation polarity with a bright background: a pixel becomes
      background exactly when it is above the threshold, and max otherwise. */
  lemma SegmentPlaneMeaning(p: Plane, threshold: real, max: nat)
    requires max > 0
    ensures IsBinary(SegmentPlane(p, threshold, max), max)
    ensures forall x, y | 0 <= x < |p| && 0 <= y < |p[x]| ::
      (SegmentPlane(p, threshold, max)[x][y] == 0 <==> (p[x][y] as real) > threshold)
  {
    var r := SegmentPlane(p, threshold, max);
    forall x, y | 0 <= x < |p| && 0 <= y < |p[x]|
      ensures (r[x][y] == 0 || r[x][y] == max) && (r[x][y] == 0 <==> (p[x][y] as real) > threshold)
    {
      SegmentValueMeaning(p[x][y], p[x][y], threshold, max, false, false);
    }
  }

  /** M is binary and has the channel's shape; after masking with the
      above-zero region it is background outside that region. */
  lemma {:induction false} SegmentedMaskMeaning(lib: Library, st: Settings, p: Plane, max: nat)
    requires WellBehaved(lib) && IsImage(p) && max > 0
    ensures SegmentedMask(lib, st, p, max).Some? ==>
      HasDims(SegmentedMask(lib, st, p, max).value, |p|, |p[0]|) && IsBinary(SegmentedMask(lib, st, p, max).value, max)
    ensures !IsCustom(st) && st.excludeZeroRegions && AboveZeroRoi(lib, p, st.closeGapsRadius).Some? ==>
      forall x, y | 0 <= x < |p| && 0 <= y < |p[0]| && !AboveZeroRoi(lib, p, st.closeGapsRadius).value(x, y) ::
        SegmentedMask(lib, st, p, max).value[x][y] == 0
  {
    if !IsCustom(st) && st.excludeZeroRegions {
      match AboveZeroRoi(lib, p, st.closeGapsRadius)
      case None =>
      case Some(roi) =>
        SegmentPlaneMeaning(p, lib.upperThreshold(p, Some(roi), st.chosenAlgorithm), max);
    } else if !IsCustom(st) {
      SegmentPlaneMeaning(p, lib.upperThreshold(p, None, st.chosenAlgorithm), max);
    } else {
      SegmentPlaneMeaning(p, st.customThr, max);
    }
  }

  /** M after "Despeckle" is still binary, and outside the selection it is
      still background, as `setRegionsOutsideRoiToZero` left it. */
  lemma {:induction false} DespeckledMaskMeaning(lib: Library, st: Settings, p: Plane, max: nat)
    requires WellBehaved(lib) && IsImage(p) && max > 0
    ensures DespeckledMask(lib, st, p, max).Some? ==> IsBinary(DespeckledMask(lib, st, p, max).value, max)
    ensures DespeckledMask(lib, st, p, max).Some? ==>
      forall x, y | 0 <= x < |p| && 0 <= y < |p[0]| && !InSelection(MaskSelection(lib, st, p), x, y) ::
        DespeckledMask(lib, st, p, max).value[x][y] == 0
  {
    SegmentedMaskMeaning(lib, st, p, max);
    match SegmentedMask(lib, st, p, max)
    case None =>
    case Some(m0) =>
      var sel := MaskSelection(lib, st, p);
      assert HasDims(lib.despeckle(m0), |p|, |p[0]|) && IsBinary(lib.despeckle(m0), max);
      MaskedMeaning(m0, lib.despeckle(m0), sel, max);
  }

  /** The cavity mask before hole filling, for any binary M and selection:
      binary, and foreground exactly where R is foreground and M, after the
      inversion inside the selection, is foreground (M background inside
      the selection, M foreground outside it). */
  lemma {:induction false} CavityMaskMeaning(lib: Library, m: Plane, sel: Option<Roi>, radius: real, max: nat)
    requires WellBehaved(lib) && IsImage(m) && IsBinary(m, max) && max > 0
    ensures IsBinary(CavityMask(lib, m, sel, radius, max), max)
    ensures forall x, y | 0 <= x < |m| && 0 <= y < |m[0]| ::
      CavityMask(lib, m, sel, radius, max)[x][y] == max <==>
        FillHolesAndRemoveNoise(lib, m, radius)[x][y] == max &&
        (if InSelection(sel, x, y) then m[x][y] == 0 else m[x][y] == max)
  {
    var r := FillHolesAndRemoveNoise(lib, m, radius);
    FillHolesAndRemoveNoiseBinary(lib, m, radius, max);
    var c := CavityMask(lib, m, sel, radius, max);
    var inv := Masked(m, InvertPlane(m, max), sel);
    forall x, y | 0 <= x < |m| && 0 <= y < |m[0]|
      ensures (c[x][y] == 0 || c[x][y] == max) &&
        (c[x][y] == max <==> r[x][y] == max && (if InSelection(sel, x, y) then m[x][y] == 0 else m[x][y] == max))
    {
      InvertBinary(m, max, x, y);
      BitAndBinary(inv[x][y], r[x][y], max);
    }
  }

  /** The cavity mask `run` computes before hole filling is foreground
      exactly where R is foreground, M is background, and the pixel lies in
      the selection (everywhere, when there is none): outside the above-zero
      region it is background. */
  lemma {:induction false} PipelineCavityMeaning(lib: Library, st: Settings, p: Plane, max: nat)
    requires WellBehaved(lib) && IsImage(p) && max > 0
    ensures DespeckledMask(lib, st, p, max).Some? ==>
      var m := DespeckledMask(lib, st, p, max).value;
      var sel := MaskSelection(lib, st, p);
      forall x, y | 0 <= x < |p| && 0 <= y < |p[0]| ::
        CavityMask(lib, m, sel, st.removeRadius, max)[x][y] == max <==>
          FillHolesAndRemoveNoise(lib, m, st.removeRadius)[x][y] == max && m[x][y] == 0 && InSelection(sel, x, y)
  {
    DespeckledMaskMeaning(lib, st, p, max);
    match DespeckledMask(lib, st, p, max)
    case None =>
    case Some(m) =>
      CavityMaskMeaning(lib, m, MaskSelection(lib, st, p), st.removeRadius, max);
  }

  /** The final mask, when there is one, is binary and has the channel's
      shape. */
  lemma {:induction false} FinalMaskShape(lib: Library, st: Settings, p: Plane, max: nat)
    requires WellBehaved(lib) && IsImage(p) && max > 0
    ensures FinalMask(lib, st, p, max).Some? ==>
      HasDims(FinalMask(lib, st, p, max).value, |p|, |p[0]|) && IsBinary(FinalMask(lib, st, p, max).value, max)
  {
    DespeckledMaskMeaning(lib, st, p, max);
    match DespeckledMask(lib, st, p, max)
    case None =>
    case Some(m) =>
      var sel := MaskSelection(lib, st, p);
      CavityMaskMeaning(lib, m, sel, st.removeRadius, max);
      var c := CavityMask(lib, m, sel, st.removeRadius, max);
      assert HasDims(lib.fillHoles(c), |p|, |p[0]|) && IsBinary(lib.fillHoles(c), max);
  }

  /** The run fails only where the above-zero region is needed and "Create
      Selection" found nothing. */
  lemma {:induction false} FinalMaskFails(lib: Library, st: Settings, p: Plane, max: nat)
    requires WellBehaved(lib) && IsImage(p) && max > 0
    ensures FinalMask(lib, st, p, max).None? <==>
      !IsCustom(st) && st.excludeZeroRegions && lib.createSelection(ClosedAboveZero(lib, p, st.closeGapsRadius)).None?
  {
    AboveZeroRoiOrigin(lib, p, st.closeGapsRadius);
  }

  /** With a custom threshold the zero-region settings play no part: there
      is no selection and M is the plain segmentation. */
  lemma CustomIgnoresZeroRegions(lib: Library, st: Settings, p: Plane, max: nat, exclude: bool, radius: real)
    requires WellBehaved(lib) && IsImage(p) && IsCustom(st)
    ensures FinalMask(lib, st, p, max) == FinalMask(lib, st.(excludeZeroRegions := exclude, closeGapsRadius := radius), p, max)
    ensures MaskSelection(lib, st, p).None?
    ensures SegmentedMask(lib, st, p, max) == Some(SegmentPlane(p, st.customThr, max))
  {
  }
}
