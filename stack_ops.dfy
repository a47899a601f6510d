/** The plug-in's own pixel loops over whole hyperstacks: channel
    extraction, threshold segmentation, masking outside a region, the
    above-zero region with its boundary correction, the mask clean-up on a
    duplicate, and the two-channel output image with its labels. */
module StackOps {
  import opened Wrappers
  import opened Text
  import opened Planes
  import opened Hyperstacks
  import opened Cavity

  /** `copyChannel(imp, channel, false, false)`: a new one-channel stack of
      the same width, height, slices, frames and bit depth whose voxels are
      those of the chosen channel. */
  method CopyChannel(imp: Hyperstack, channel: int) returns (impNew: Hyperstack)
    requires imp.Valid()
    ensures fresh(impNew) && fresh(impNew.voxels) && fresh(impNew.labels) && impNew.Valid()
    ensures impNew.width == imp.width && impNew.height == imp.height && impNew.nChannels == 1
    ensures impNew.nSlices == imp.nSlices && impNew.nFrames == imp.nFrames && impNew.bitDepth == imp.bitDepth
    ensures forall s, f, x, y | 0 <= s < imp.nSlices && 0 <= f < imp.nFrames && 0 <= x < imp.width && 0 <= y < imp.height ::
      impNew.voxels[impNew.PlaneOf(1, s, f), x, y] == imp.voxels[imp.PlaneOf(channel, s, f), x, y]
    ensures forall n | 0 <= n < impNew.labels.Length :: impNew.labels[n] == None
  {
    impNew := new Hyperstack(imp.width, imp.height, 1, imp.nSlices, imp.nFrames, imp.bitDepth);
    for x := 0 to imp.width
      modifies impNew.voxels
      invariant forall s, f, x', y | 0 <= s < imp.nSlices && 0 <= f < imp.nFrames && 0 <= x' < x && 0 <= y < imp.height ::
        impNew.voxels[impNew.PlaneOf(1, s, f), x', y] == imp.voxels[imp.PlaneOf(channel, s, f), x', y]
    {
      for y := 0 to imp.height
        modifies impNew.voxels
        invariant forall s, f, x', y' | 0 <= s < imp.nSlices && 0 <= f < imp.nFrames && 0 <= x' < x && 0 <= y' < imp.height ::
          impNew.voxels[impNew.PlaneOf(1, s, f), x', y'] == imp.voxels[imp.PlaneOf(channel, s, f), x', y']
        invariant forall s, f, y' | 0 <= s < imp.nSlices && 0 <= f < imp.nFrames && 0 <= y' < y ::
          impNew.voxels[impNew.PlaneOf(1, s, f), x, y'] == imp.voxels[imp.PlaneOf(channel, s, f), x, y']
      {
        CopyVoxels(imp, channel, impNew, 1, x, y, v => v);
      }
    }
  }

  /** The slice and frame loops at one pixel (x, y): the voxels of channel
      c of src at (x, y), mapped by g, go to channel cNew of dst, for every
      slice and frame; no other voxel of dst changes. */
  method CopyVoxels(src: Hyperstack, c: int, dst: Hyperstack, cNew: int, x: int, y: int, g: nat -> nat)
    requires src.Valid() && dst.Valid() && dst.voxels != src.voxels
    requires dst.width == src.width && dst.height == src.height
    requires dst.nSlices == src.nSlices && dst.nFrames == src.nFrames && 1 <= cNew <= dst.nChannels
    requires 0 <= x < src.width && 0 <= y < src.height
    modifies dst.voxels
    ensures forall s, f | 0 <= s < src.nSlices && 0 <= f < src.nFrames ::
      dst.voxels[dst.PlaneOf(cNew, s, f), x, y] == g(src.voxels[src.PlaneOf(c, s, f), x, y])
    ensures forall n, x', y' | 0 <= n < dst.voxels.Length0 && 0 <= x' < dst.width && 0 <= y' < dst.height ::
      dst.voxels[n, x', y'] == old(dst.voxels[n, x', y']) || (x' == x && y' == y && dst.ChannelOf(n) == cNew)
  {
    dst.ChannelPlanesDistinct(cNew);
    for s := 0 to src.nSlices
      invariant forall s', f | 0 <= s' < s && 0 <= f < src.nFrames ::
        dst.voxels[dst.PlaneOf(cNew, s', f), x, y] == g(src.voxels[src.PlaneOf(c, s', f), x, y])
      invariant forall n, x', y' | 0 <= n < dst.voxels.Length0 && 0 <= x' < dst.width && 0 <= y' < dst.height ::
        dst.voxels[n, x', y'] == old(dst.voxels[n, x', y']) || (x' == x && y' == y && dst.ChannelOf(n) == cNew)
    {
      for f := 0 to src.nFrames
        invariant forall s', f' | 0 <= s' < s && 0 <= f' < src.nFrames ::
          dst.voxels[dst.PlaneOf(cNew, s', f'), x, y] == g(src.voxels[src.PlaneOf(c, s', f'), x, y])
        invariant forall f' | 0 <= f' < f ::
          dst.voxels[dst.PlaneOf(cNew, s, f'), x, y] == g(src.voxels[src.PlaneOf(c, s, f'), x, y])
        invariant forall n, x', y' | 0 <= n < dst.voxels.Length0 && 0 <= x' < dst.width && 0 <= y' < dst.height ::
          dst.voxels[n, x', y'] == old(dst.voxels[n, x', y']) || (x' == x && y' == y && dst.ChannelOf(n) == cNew)
      {
        var index := src.PlaneOf(c, s, f);
        var indexNew := dst.PlaneOf(cNew, s, f);
        dst.PlaneOfIndex(cNew, s + 1, f + 1);
        dst.voxels[indexNew, x, y] := g(src.voxels[index, x, y]);
      }
    }
  }

  /** Two planes of the same shape that agree at every pixel are equal. */
  lemma PlaneExt(p: Plane, q: Plane, w: nat, h: nat)
    requires HasDims(p, w, h) && HasDims(q, w, h)
    requires forall x, y | 0 <= x < w && 0 <= y < h :: p[x][y] == q[x][y]
    ensures p == q
  {
    forall x | 0 <= x < w
      ensures p[x] == q[x]
    {
    }
  }

  /** `segmentImage(imp, threshold, z, impTemp, zTemp, keepIntensities,
      darkbackground)`: plane z of imp is segmented by the intensities of
      plane zTemp of impTemp as they were before the call (imp and impTemp
      may be the same stack); no other plane of imp changes. */
  method SegmentImage(imp: Hyperstack, threshold: real, z: int, impTemp: Hyperstack, zTemp: int,
                      keepIntensities: bool, darkBackground: bool)
    requires imp.Valid() && impTemp.Valid()
    requires 0 <= z < imp.voxels.Length0 && 0 <= zTemp < impTemp.voxels.Length0
    requires imp.width <= impTemp.width && imp.height <= impTemp.height
    modifies imp.voxels
    ensures forall x, y | 0 <= x < imp.width && 0 <= y < imp.height ::
      imp.voxels[z, x, y] == SegmentValue(old(impTemp.voxels[zTemp, x, y]), old(imp.voxels[z, x, y]),
        threshold, MaxValue(imp.bitDepth), keepIntensities, darkBackground)
    ensures forall n, x, y | 0 <= n < imp.voxels.Length0 && n != z && 0 <= x < imp.width && 0 <= y < imp.height ::
      imp.voxels[n, x, y] == old(imp.voxels[n, x, y])
  {
    var maxValue := MaxValue(imp.bitDepth);
    for x := 0 to imp.width
      invariant forall x', y | 0 <= x' < x && 0 <= y < imp.height ::
        imp.voxels[z, x', y] == SegmentValue(old(impTemp.voxels[zTemp, x', y]), old(imp.voxels[z, x', y]),
          threshold, maxValue, keepIntensities, darkBackground)
      invariant forall x', y | x <= x' < imp.width && 0 <= y < imp.height ::
        imp.voxels[z, x', y] == old(imp.voxels[z, x', y]) && impTemp.voxels[zTemp, x', y] == old(impTemp.voxels[zTemp, x', y])
      invariant forall n, x', y | 0 <= n < imp.voxels.Length0 && n != z && 0 <= x' < imp.width && 0 <= y < imp.height ::
        imp.voxels[n, x', y] == old(imp.voxels[n, x', y])
    {
      for y := 0 to imp.height
        invariant forall x', y' | 0 <= x' < x && 0 <= y' < imp.height ::
          imp.voxels[z, x', y'] == SegmentValue(old(impTemp.voxels[zTemp, x', y']), old(imp.voxels[z, x', y']),
            threshold, maxValue, keepIntensities, darkBackground)
        invariant forall y' | 0 <= y' < y ::
          imp.voxels[z, x, y'] == SegmentValue(old(impTemp.voxels[zTemp, x, y']), old(imp.voxels[z, x, y']),
            threshold, maxValue, keepIntensities, darkBackground)
        invariant forall x', y' | x < x' < imp.width && 0 <= y' < imp.height ::
          imp.voxels[z, x', y'] == old(imp.voxels[z, x', y']) && impTemp.voxels[zTemp, x', y'] == old(impTemp.voxels[zTemp, x', y'])
        invariant forall y' | y <= y' < imp.height ::
          imp.voxels[z, x, y'] == old(imp.voxels[z, x, y']) && impTemp.voxels[zTemp, x, y'] == old(impTemp.voxels[zTemp, x, y'])
        invariant forall n, x', y' | 0 <= n < imp.voxels.Length0 && n != z && 0 <= x' < imp.width && 0 <= y' < imp.height ::
          imp.voxels[n, x', y'] == old(imp.voxels[n, x', y'])
      {
        var pxIntensity := impTemp.voxels[zTemp, x, y];
        if (darkBackground && (pxIntensity as real) < threshold) || (!darkBackground && (pxIntensity as real) > threshold) {
          imp.voxels[z, x, y] := 0;
        } else if !keepIntensities {
          imp.voxels[z, x, y] := maxValue;
        }
      }
    }
  }

  /** `setRegionsOutsideRoiToZero(imp, channel, regionRoi)`: in every slice
      and frame of the channel, voxels outside the region become 0 and voxels
      inside keep their value; the other channels do not change. */
  method SetRegionsOutsideRoiToZero(imp: Hyperstack, channel: int, regionRoi: Roi)
    requires imp.Valid()
    modifies imp.voxels
    ensures forall s, f, x, y | 0 <= s < imp.nSlices && 0 <= f < imp.nFrames && 0 <= x < imp.width && 0 <= y < imp.height ::
      imp.voxels[imp.PlaneOf(channel, s, f), x, y] == if regionRoi(x, y) then old(imp.voxels[imp.PlaneOf(channel, s, f), x, y]) else 0
    ensures forall n, x, y | 0 <= n < imp.voxels.Length0 && 0 <= x < imp.width && 0 <= y < imp.height &&
      imp.ChannelOf(n) != Clamp(channel, 1, imp.nChannels) :: imp.voxels[n, x, y] == old(imp.voxels[n, x, y])
  {
    for x := 0 to imp.width
      invariant forall s, f, x', y | 0 <= s < imp.nSlices && 0 <= f < imp.nFrames && 0 <= x' < x && 0 <= y < imp.height ::
        imp.voxels[imp.PlaneOf(channel, s, f), x', y] == if regionRoi(x', y) then old(imp.voxels[imp.PlaneOf(channel, s, f), x', y]) else 0
      invariant forall n, x', y | 0 <= n < imp.voxels.Length0 && 0 <= x' < imp.width && 0 <= y < imp.height ::
        imp.voxels[n, x', y] == old(imp.voxels[n, x', y]) || (x' < x && imp.ChannelOf(n) == Clamp(channel, 1, imp.nChannels))
    {
      for y := 0 to imp.height
        invariant forall s, f, x', y' | 0 <= s < imp.nSlices && 0 <= f < imp.nFrames && 0 <= x' < x && 0 <= y' < imp.height ::
          imp.voxels[imp.PlaneOf(channel, s, f), x', y'] == if regionRoi(x', y') then old(imp.voxels[imp.PlaneOf(channel, s, f), x', y']) else 0
        invariant forall s, f, y' | 0 <= s < imp.nSlices && 0 <= f < imp.nFrames && 0 <= y' < y ::
          imp.voxels[imp.PlaneOf(channel, s, f), x, y'] == if regionRoi(x, y') then old(imp.voxels[imp.PlaneOf(channel, s, f), x, y']) else 0
        invariant forall n, x', y' | 0 <= n < imp.voxels.Length0 && 0 <= x' < imp.width && 0 <= y' < imp.height ::
          imp.voxels[n, x', y'] == old(imp.voxels[n, x', y']) ||
          ((x' < x || (x' == x && y' < y)) && imp.ChannelOf(n) == Clamp(channel, 1, imp.nChannels))
      {
        ZeroVoxelsOutside(imp, channel, regionRoi, x, y);
      }
    }
  }

  /** The slice and frame loops of `setRegionsOutsideRoiToZero` at one
      pixel (x, y). */
  method ZeroVoxelsOutside(imp: Hyperstack, channel: int, regionRoi: Roi, x: int, y: int)
    requires imp.Valid() && 0 <= x < imp.width && 0 <= y < imp.height
    modifies imp.voxels
    ensures forall s, f | 0 <= s < imp.nSlices && 0 <= f < imp.nFrames ::
      imp.voxels[imp.PlaneOf(channel, s, f), x, y] == if regionRoi(x, y) then old(imp.voxels[imp.PlaneOf(channel, s, f), x, y]) else 0
    ensures forall n, x', y' | 0 <= n < imp.voxels.Length0 && 0 <= x' < imp.width && 0 <= y' < imp.height ::
      imp.voxels[n, x', y'] == old(imp.voxels[n, x', y']) ||
      (x' == x && y' == y && imp.ChannelOf(n) == Clamp(channel, 1, imp.nChannels))
  {
    var c := Clamp(channel, 1, imp.nChannels);
    imp.ChannelPlanesDistinct(c);
    for s := 0 to imp.nSlices
      invariant forall s', f | 0 <= s' < s && 0 <= f < imp.nFrames ::
        imp.voxels[imp.PlaneOf(c, s', f), x, y] == if regionRoi(x, y) then old(imp.voxels[imp.PlaneOf(c, s', f), x, y]) else 0
      invariant forall s', f | s <= s' < imp.nSlices && 0 <= f < imp.nFrames ::
        imp.voxels[imp.PlaneOf(c, s', f), x, y] == old(imp.voxels[imp.PlaneOf(c, s', f), x, y])
      invariant forall n, x', y' | 0 <= n < imp.voxels.Length0 && 0 <= x' < imp.width && 0 <= y' < imp.height ::
        imp.voxels[n, x', y'] == old(imp.voxels[n, x', y']) || (x' == x && y' == y && imp.ChannelOf(n) == c)
    {
      for f := 0 to imp.nFrames
        invariant forall s', f' | 0 <= s' < s && 0 <= f' < imp.nFrames ::
          imp.voxels[imp.PlaneOf(c, s', f'), x, y] == if regionRoi(x, y) then old(imp.voxels[imp.PlaneOf(c, s', f'), x, y]) else 0
        invariant forall f' | 0 <= f' < f ::
          imp.voxels[imp.PlaneOf(c, s, f'), x, y] == if regionRoi(x, y) then old(imp.voxels[imp.PlaneOf(c, s, f'), x, y]) else 0
        invariant forall s', f' | s <= s' < imp.nSlices && 0 <= f' < imp.nFrames && (s' > s || f' >= f) ::
          imp.voxels[imp.PlaneOf(c, s', f'), x, y] == old(imp.voxels[imp.PlaneOf(c, s', f'), x, y])
        invariant forall n, x', y' | 0 <= n < imp.voxels.Length0 && 0 <= x' < imp.width && 0 <= y' < imp.height ::
          imp.voxels[n, x', y'] == old(imp.voxels[n, x', y']) || (x' == x && y' == y && imp.ChannelOf(n) == c)
      {
        ZeroVoxel(imp, c, regionRoi, x, y, s, f);
      }
    }
    forall s, f | 0 <= s < imp.nSlices && 0 <= f < imp.nFrames
      ensures imp.PlaneOf(channel, s, f) == imp.PlaneOf(c, s, f)
    {
      imp.SamePlaneClamped(channel, s, f);
    }
  }

  /** One pass of those loops: the voxel (x, y) of the plane of channel c
      at slice s and frame f becomes 0 outside the region; no other voxel
      changes. */
  method ZeroVoxel(imp: Hyperstack, c: int, regionRoi: Roi, x: int, y: int, s: int, f: int)
    requires imp.Valid() && 1 <= c <= imp.nChannels && 0 <= x < imp.width && 0 <= y < imp.height
    requires 0 <= s < imp.nSlices && 0 <= f < imp.nFrames
    modifies imp.voxels
    ensures imp.voxels[imp.PlaneOf(c, s, f), x, y] == if regionRoi(x, y) then old(imp.voxels[imp.PlaneOf(c, s, f), x, y]) else 0
    ensures imp.ChannelOf(imp.PlaneOf(c, s, f)) == c
    ensures forall n, x', y' | 0 <= n < imp.voxels.Length0 && 0 <= x' < imp.width && 0 <= y' < imp.height &&
      (n != imp.PlaneOf(c, s, f) || x' != x || y' != y) :: imp.voxels[n, x', y'] == old(imp.voxels[n, x', y'])
  {
    var index := imp.PlaneOf(c, s, f);
    imp.PlaneOfIndex(c, s + 1, f + 1);
    if !regionRoi(x, y) {
      imp.voxels[index, x, y] := 0;
    }
  }

  /** `IJ.run(img, filter, ...)` on the current (first) plane: plane 0 is
      replaced by the filter's result; no other plane changes. */
  method ApplyFilter(img: Hyperstack, filter: Plane -> Plane)
    requires img.Valid() && HasDims(filter(img.Plane(0)), img.width, img.height)
    modifies img.voxels
    ensures img.Plane(0) == filter(old(img.Plane(0)))
    ensures forall n, x, y | 0 < n < img.voxels.Length0 && 0 <= x < img.width && 0 <= y < img.height ::
      img.voxels[n, x, y] == old(img.voxels[n, x, y])
  {
    var p := filter(img.Plane(0));
    img.SetPlane(0, p);
  }

  /** `getRegionsAboveZeroAsROI(imp, channel, closeHolesRadius)`: the
      channel is binarised into a new 8-bit stack (255 above zero, 0
      elsewhere), closed by "Maximum..." and "Minimum...", selected, and the
      selection is inverted when it disagrees at (0,0) with the closed image.
      None stands for the null selection on which `roi.contains` fails. */
  method GetRegionsAboveZeroAsRoi(imp: Hyperstack, channel: int, closeHolesRadius: real, lib: Library)
    returns (roi: Option<Roi>)
    requires imp.Valid() && WellBehaved(lib)
    ensures roi == AboveZeroRoi(lib, imp.Plane(imp.PlaneOf(channel, 0, 0)), closeHolesRadius)
  {
    var tempImp := new Hyperstack(imp.width, imp.height, 1, imp.nSlices, imp.nFrames, 8);
    for x := 0 to imp.width
      modifies tempImp.voxels
      invariant forall s, f, x', y | 0 <= s < imp.nSlices && 0 <= f < imp.nFrames && 0 <= x' < x && 0 <= y < imp.height ::
        tempImp.voxels[tempImp.PlaneOf(1, s, f), x', y] == AboveZero(imp.voxels[imp.PlaneOf(channel, s, f), x', y])
    {
      for y := 0 to imp.height
        modifies tempImp.voxels
        invariant forall s, f, x', y' | 0 <= s < imp.nSlices && 0 <= f < imp.nFrames && 0 <= x' < x && 0 <= y' < imp.height ::
          tempImp.voxels[tempImp.PlaneOf(1, s, f), x', y'] == AboveZero(imp.voxels[imp.PlaneOf(channel, s, f), x', y'])
        invariant forall s, f, y' | 0 <= s < imp.nSlices && 0 <= f < imp.nFrames && 0 <= y' < y ::
          tempImp.voxels[tempImp.PlaneOf(1, s, f), x, y'] == AboveZero(imp.voxels[imp.PlaneOf(channel, s, f), x, y'])
      {
        CopyVoxels(imp, channel, tempImp, 1, x, y, AboveZero);
      }
    }
    ghost var src := imp.Plane(imp.PlaneOf(channel, 0, 0));
    assert tempImp.PlaneOf(1, 0, 0) == 0;
    PlaneExt(tempImp.Plane(0), BinarisePlane(src), imp.width, imp.height);
    assert HasDims(lib.maximum(tempImp.Plane(0), closeHolesRadius), imp.width, imp.height);
    ApplyFilter(tempImp, p => lib.maximum(p, closeHolesRadius));
    assert HasDims(lib.minimum(tempImp.Plane(0), closeHolesRadius), imp.width, imp.height);
    ApplyFilter(tempImp, p => lib.minimum(p, closeHolesRadius));
    assert tempImp.Plane(0) == ClosedAboveZero(lib, src, closeHolesRadius);
    var selection := lib.createSelection(tempImp.Plane(0));
    if selection.None? {
      return None;
    }
    var r := selection.value;
    if r(0, 0) {
      if tempImp.voxels[0, 0, 0] == 0 {
        r := MakeInverse(r);
      }
    } else {
      if tempImp.voxels[0, 0, 0] > 0 {
        r := MakeInverse(r);
      }
    }
    roi := Some(r);
  }

  /** `getFillHolesAndRemoveNoise(imp, closeHolesRadius)`: works on a new
      duplicate, so the mask imp itself is left unchanged (the method
      modifies nothing that exists before the call). */
  method GetFillHolesAndRemoveNoise(imp: Hyperstack, closeHolesRadius: real, lib: Library) returns (tempImp: Hyperstack)
    requires imp.Valid() && WellBehaved(lib)
    ensures fresh(tempImp) && fresh(tempImp.voxels) && tempImp.Valid()
    ensures tempImp.width == imp.width && tempImp.height == imp.height && tempImp.nChannels == imp.nChannels
    ensures tempImp.nSlices == imp.nSlices && tempImp.nFrames == imp.nFrames && tempImp.bitDepth == imp.bitDepth
    ensures tempImp.Plane(0) == FillHolesAndRemoveNoise(lib, imp.Plane(0), closeHolesRadius)
  {
    tempImp := imp.Duplicate();
    PlaneExt(tempImp.Plane(0), imp.Plane(0), imp.width, imp.height);
    ghost var m := imp.Plane(0);
    assert HasDims(lib.fillHoles(m), imp.width, imp.height);
    ApplyFilter(tempImp, lib.fillHoles);
    assert HasDims(lib.minimum(lib.fillHoles(m), closeHolesRadius), imp.width, imp.height);
    ApplyFilter(tempImp, p => lib.minimum(p, closeHolesRadius));
    assert HasDims(lib.maximum(lib.minimum(lib.fillHoles(m), closeHolesRadius), closeHolesRadius), imp.width, imp.height);
    ApplyFilter(tempImp, p => lib.maximum(p, closeHolesRadius));
  }

  /** `ImageCalculator.run("AND create", a, b)`: a new single-plane image
      holding the bitwise AND of the current planes of a and b. */
  method AndCreate(a: Hyperstack, b: Hyperstack) returns (c: Hyperstack)
    requires a.Valid() && b.Valid() && b.width == a.width && b.height == a.height
    ensures fresh(c) && fresh(c.voxels) && fresh(c.labels) && c.Valid()
    ensures c.width == a.width && c.height == a.height && c.bitDepth == a.bitDepth
    ensures c.nChannels == 1 && c.nSlices == 1 && c.nFrames == 1
    ensures c.Plane(0) == AndPlanes(a.Plane(0), b.Plane(0))
  {
    c := new Hyperstack(a.width, a.height, 1, 1, 1, a.bitDepth);
    c.SetPlane(0, AndPlanes(a.Plane(0), b.Plane(0)));
  }

  /** The description of an unlabelled plane: "Channel c Ss/nS Tf/nF" with
      1-based slice and frame numbers. */
  function DefaultSliceLabel(channelID: int, s: int, nSlices: int, f: int, nFrames: int): (r: string)
    ensures StartsWith(r, "Channel ") && |r| > 8
  {
    var rest := IntToString(channelID) + LabelTail(IntToString(s + 1), IntToString(nSlices), IntToString(f + 1), IntToString(nFrames));
    assert ("Channel " + rest)[..8] == "Channel ";
    "Channel " + rest
  }

  /** The description of an unlabelled plane names its plane: equal
      descriptions come from the same channel, slice, frame and stack
      sizes. */
  lemma {:induction false} DefaultSliceLabelInjective(c1: int, s1: int, nS1: int, f1: int, nF1: int,
                                                     c2: int, s2: int, nS2: int, f2: int, nF2: int)
    requires 0 <= c1 && 0 <= s1 && 0 <= nS1 && 0 <= f1 && 0 <= nF1
    requires 0 <= c2 && 0 <= s2 && 0 <= nS2 && 0 <= f2 && 0 <= nF2
    requires DefaultSliceLabel(c1, s1, nS1, f1, nF1) == DefaultSliceLabel(c2, s2, nS2, f2, nF2)
    ensures c1 == c2 && s1 == s2 && nS1 == nS2 && f1 == f2 && nF1 == nF2
  {
    var t1 := LabelTail(IntToString(s1 + 1), IntToString(nS1), IntToString(f1 + 1), IntToString(nF1));
    var t2 := LabelTail(IntToString(s2 + 1), IntToString(nS2), IntToString(f2 + 1), IntToString(nF2));
    DropPrefix("Channel ", IntToString(c1) + t1, IntToString(c2) + t2);
    DigitsThenSplit(IntToString(c1), t1, IntToString(c2), t2);
    NatToStringInjective(c1, c2);
    LabelTailInjective(s1 + 1, nS1, f1 + 1, nF1, s2 + 1, nS2, f2 + 1, nF2);
  }

  /** What follows the channel number in a plane description:
      " S<slice>/<slices> T<frame>/<frames>". */
  function LabelTail(s: string, nS: string, f: string, nF: string): (r: string)
    ensures |r| > 0 && r[0] == ' '
  {
    " S" + (s + ("/" + (nS + (" T" + (f + ("/" + nF))))))
  }

  lemma {:induction false} LabelTailInjective(s1: nat, nS1: nat, f1: nat, nF1: nat, s2: nat, nS2: nat, f2: nat, nF2: nat)
    requires LabelTail(NatToString(s1), NatToString(nS1), NatToString(f1), NatToString(nF1)) ==
      LabelTail(NatToString(s2), NatToString(nS2), NatToString(f2), NatToString(nF2))
    ensures s1 == s2 && nS1 == nS2 && f1 == f2 && nF1 == nF2
  {
    var a1, b1, c1, d1 := NatToString(s1), NatToString(nS1), NatToString(f1), NatToString(nF1);
    var a2, b2, c2, d2 := NatToString(s2), NatToString(nS2), NatToString(f2), NatToString(nF2);
    DropPrefix(" S", a1 + ("/" + (b1 + (" T" + (c1 + ("/" + d1))))), a2 + ("/" + (b2 + (" T" + (c2 + ("/" + d2))))));
    DigitsThenSplit(a1, "/" + (b1 + (" T" + (c1 + ("/" + d1)))), a2, "/" + (b2 + (" T" + (c2 + ("/" + d2)))));
    DropPrefix("/", b1 + (" T" + (c1 + ("/" + d1))), b2 + (" T" + (c2 + ("/" + d2))));
    DigitsThenSplit(b1, " T" + (c1 + ("/" + d1)), b2, " T" + (c2 + ("/" + d2)));
    DropPrefix(" T", c1 + ("/" + d1), c2 + ("/" + d2));
    DigitsThenSplit(c1, "/" + d1, c2, "/" + d2);
    DropPrefix("/", d1, d2);
    NatToStringInjective(s1, s2);
    NatToStringInjective(nS1, nS2);
    NatToStringInjective(f1, f2);
    NatToStringInjective(nF1, nF2);
  }

  /** The text copied into an output label: the source plane's label, or its
      description when that label is null or empty. */
  function SliceCopyString(sliceLabel: Option<string>, channelID: int, s: int, nSlices: int, f: int, nFrames: int): string
  {
    if sliceLabel.None? || sliceLabel.value == "" then DefaultSliceLabel(channelID, s, nSlices, f, nFrames)
    else sliceLabel.value
  }

  /** The label of an unsegmented plane of the output. */
  function OutputLabel(sliceLabel: Option<string>, channelID: int, s: int, nSlices: int, f: int, nFrames: int): string
  {
    "segm " + SliceCopyString(sliceLabel, channelID, s, nSlices, f, nFrames)
  }

  /** Output labels start with "segm " and carry the source label when it
      has one; otherwise they describe the plane, so they are never just the
      prefix. */
  lemma OutputLabelMeaning(sliceLabel: Option<string>, channelID: int, s: int, nSlices: int, f: int, nFrames: int)
    ensures StartsWith(OutputLabel(sliceLabel, channelID, s, nSlices, f, nFrames), "segm ")
    ensures |OutputLabel(sliceLabel, channelID, s, nSlices, f, nFrames)| > 5
    ensures sliceLabel.Some? && sliceLabel.value != "" ==>
      OutputLabel(sliceLabel, channelID, s, nSlices, f, nFrames)[5..] == sliceLabel.value
    ensures sliceLabel.None? || sliceLabel.value == "" ==>
      StartsWith(OutputLabel(sliceLabel, channelID, s, nSlices, f, nFrames)[5..], "Channel ")
  {
    var copy := SliceCopyString(sliceLabel, channelID, s, nSlices, f, nFrames);
    var r := "segm " + copy;
    assert r[..5] == "segm ";
    assert r[5..] == copy;
  }

  /** Two unlabelled planes of the same channel and stack that differ in
      slice or frame get different output labels. */
  lemma {:induction false} UnlabelledOutputLabelsDistinct(l1: Option<string>, l2: Option<string>, channelID: int,
                                                         s1: int, f1: int, s2: int, f2: int, nSlices: int, nFrames: int)
    requires l1.None? || l1.value == ""
    requires l2.None? || l2.value == ""
    requires 0 <= channelID && 0 <= nSlices && 0 <= nFrames
    requires 0 <= s1 && 0 <= f1 && 0 <= s2 && 0 <= f2 && (s1 != s2 || f1 != f2)
    ensures OutputLabel(l1, channelID, s1, nSlices, f1, nFrames) != OutputLabel(l2, channelID, s2, nSlices, f2, nFrames)
  {
    var d1 := DefaultSliceLabel(channelID, s1, nSlices, f1, nFrames);
    var d2 := DefaultSliceLabel(channelID, s2, nSlices, f2, nFrames);
    if "segm " + d1 == "segm " + d2 {
      DropPrefix("segm ", d1, d2);
      DefaultSliceLabelInjective(channelID, s1, nSlices, f1, nFrames, channelID, s2, nSlices, f2, nFrames);
    }
  }

  /** The two-channel output of `run` when the duplicate channel is
      included: channel 1 is the segmented mask, channel 2 the unprocessed
      channel of imp; only the planes of channel 2 get labels. */
  method BuildDuplicateChannelOutput(imp: Hyperstack, tempImp: Hyperstack, channelID: int) returns (outImp: Hyperstack)
    requires imp.Valid() && tempImp.Valid()
    requires tempImp.width == imp.width && tempImp.height == imp.height
    requires tempImp.nSlices == imp.nSlices && tempImp.nFrames == imp.nFrames
    ensures fresh(outImp) && fresh(outImp.voxels) && fresh(outImp.labels) && outImp.Valid()
    ensures outImp.width == imp.width && outImp.height == imp.height && outImp.nChannels == 2
    ensures outImp.nSlices == imp.nSlices && outImp.nFrames == imp.nFrames && outImp.bitDepth == imp.bitDepth
    ensures forall s, f, x, y | 0 <= s < imp.nSlices && 0 <= f < imp.nFrames && 0 <= x < imp.width && 0 <= y < imp.height ::
      outImp.voxels[outImp.PlaneOf(1, s, f), x, y] == tempImp.voxels[tempImp.PlaneOf(1, s, f), x, y] &&
      outImp.voxels[outImp.PlaneOf(2, s, f), x, y] == imp.voxels[imp.PlaneOf(channelID, s, f), x, y]
    ensures forall s, f | 0 <= s < imp.nSlices && 0 <= f < imp.nFrames ::
      outImp.labels[outImp.PlaneOf(1, s, f)] == None &&
      outImp.labels[outImp.PlaneOf(2, s, f)] ==
        Some(OutputLabel(imp.labels[imp.PlaneOf(channelID, s, f)], channelID, s, imp.nSlices, f, imp.nFrames))
  {
    outImp := new Hyperstack(imp.width, imp.height, 2, imp.nSlices, imp.nFrames, imp.bitDepth);
    outImp.ChannelOfPlanes(1);
    outImp.ChannelOfPlanes(2);
    for x := 0 to imp.width
      modifies outImp.voxels
      invariant forall s, f, x', y | 0 <= s < imp.nSlices && 0 <= f < imp.nFrames && 0 <= x' < x && 0 <= y < imp.height ::
        outImp.voxels[outImp.PlaneOf(1, s, f), x', y] == tempImp.voxels[tempImp.PlaneOf(1, s, f), x', y] &&
        outImp.voxels[outImp.PlaneOf(2, s, f), x', y] == imp.voxels[imp.PlaneOf(channelID, s, f), x', y]
    {
      for y := 0 to imp.height
        modifies outImp.voxels
        invariant forall s, f, x', y' | 0 <= s < imp.nSlices && 0 <= f < imp.nFrames && 0 <= x' < x && 0 <= y' < imp.height ::
          outImp.voxels[outImp.PlaneOf(1, s, f), x', y'] == tempImp.voxels[tempImp.PlaneOf(1, s, f), x', y'] &&
          outImp.voxels[outImp.PlaneOf(2, s, f), x', y'] == imp.voxels[imp.PlaneOf(channelID, s, f), x', y']
        invariant forall s, f, y' | 0 <= s < imp.nSlices && 0 <= f < imp.nFrames && 0 <= y' < y ::
          outImp.voxels[outImp.PlaneOf(1, s, f), x, y'] == tempImp.voxels[tempImp.PlaneOf(1, s, f), x, y'] &&
          outImp.voxels[outImp.PlaneOf(2, s, f), x, y'] == imp.voxels[imp.PlaneOf(channelID, s, f), x, y']
      {
        CopyVoxels(tempImp, 1, outImp, 1, x, y, v => v);
        CopyVoxels(imp, channelID, outImp, 2, x, y, v => v);
      }
    }
    LabelDuplicateChannel(imp, outImp, channelID);
  }

  /** The label loop of `run`: every plane of channel 2 of outImp is named
      after the corresponding plane of the chosen channel of imp; only
      labels change, and those of channel 1 stay null. */
  method LabelDuplicateChannel(imp: Hyperstack, outImp: Hyperstack, channelID: int)
    requires imp.Valid() && outImp.Valid() && outImp.nChannels == 2
    requires outImp.nSlices == imp.nSlices && outImp.nFrames == imp.nFrames
    requires forall s, f | 0 <= s < imp.nSlices && 0 <= f < imp.nFrames :: outImp.labels[outImp.PlaneOf(1, s, f)] == None
    requires outImp.labels != imp.labels
    modifies outImp.labels
    ensures forall s, f | 0 <= s < imp.nSlices && 0 <= f < imp.nFrames ::
      outImp.labels[outImp.PlaneOf(1, s, f)] == None &&
      outImp.labels[outImp.PlaneOf(2, s, f)] ==
        Some(OutputLabel(imp.labels[imp.PlaneOf(channelID, s, f)], channelID, s, imp.nSlices, f, imp.nFrames))
  {
    outImp.ChannelOfPlanes(1);
    outImp.ChannelOfPlanes(2);
    outImp.ChannelPlanesDistinct(2);
    for s := 0 to outImp.nSlices
      modifies outImp.labels
      invariant forall s', f | 0 <= s' < s && 0 <= f < imp.nFrames ::
        outImp.labels[outImp.PlaneOf(2, s', f)] ==
          Some(OutputLabel(imp.labels[imp.PlaneOf(channelID, s', f)], channelID, s', imp.nSlices, f, imp.nFrames))
      invariant forall s', f | 0 <= s' < imp.nSlices && 0 <= f < imp.nFrames :: outImp.labels[outImp.PlaneOf(1, s', f)] == None
    {
      for f := 0 to outImp.nFrames
        modifies outImp.labels
        invariant forall s', f' | 0 <= s' < s && 0 <= f' < imp.nFrames ::
          outImp.labels[outImp.PlaneOf(2, s', f')] ==
            Some(OutputLabel(imp.labels[imp.PlaneOf(channelID, s', f')], channelID, s', imp.nSlices, f', imp.nFrames))
        invariant forall f' | 0 <= f' < f ::
          outImp.labels[outImp.PlaneOf(2, s, f')] ==
            Some(OutputLabel(imp.labels[imp.PlaneOf(channelID, s, f')], channelID, s, imp.nSlices, f', imp.nFrames))
        invariant forall s', f' | 0 <= s' < imp.nSlices && 0 <= f' < imp.nFrames :: outImp.labels[outImp.PlaneOf(1, s', f')] == None
      {
        LabelPlane(imp, outImp, channelID, s, f);
      }
    }
  }

  /** One pass of the label loop: the plane (2, s, f) of outImp gets its
      label and no other label changes. */
  method LabelPlane(imp: Hyperstack, outImp: Hyperstack, channelID: int, s: int, f: int)
    requires imp.Valid() && outImp.Valid() && outImp.nChannels == 2
    requires outImp.nSlices == imp.nSlices && outImp.nFrames == imp.nFrames
    requires 0 <= s < imp.nSlices && 0 <= f < imp.nFrames
    requires outImp.labels != imp.labels
    modifies outImp.labels
    ensures outImp.labels[outImp.PlaneOf(2, s, f)] ==
      Some(OutputLabel(imp.labels[imp.PlaneOf(channelID, s, f)], channelID, s, imp.nSlices, f, imp.nFrames))
    ensures forall n | 0 <= n < outImp.labels.Length && n != outImp.PlaneOf(2, s, f) :: outImp.labels[n] == old(outImp.labels[n])
  {
    var indexOld := imp.PlaneOf(channelID, s, f);
    var indexNew := outImp.PlaneOf(2, s, f);
    var copyStr := SliceCopyString(imp.labels[indexOld], channelID, s, outImp.nSlices, f, outImp.nFrames);
    outImp.labels[indexNew] := Some("segm " + copyStr);
  }
}
