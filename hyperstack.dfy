/** An ImageJ hyperstack: nChannels x nSlices x nFrames planes of
    width x height voxels, stored as one flat stack of planes in
    channel-fastest order, and one label per plane. */
module Hyperstacks {
  import opened Wrappers
  import opened Planes

  /** Clamp v into lo..hi, as `getStackIndex` does with its arguments. */
  function Clamp(v: int, lo: int, hi: int): (r: int)
    requires lo <= hi
    ensures lo <= r <= hi
    ensures lo <= v <= hi ==> r == v
  {
    if v < lo then lo else if v > hi then hi else v
  }

  lemma MulMono(a: int, b: int, k: nat)
    requires a <= b
    ensures a * k <= b * k
  {
  }

  class Hyperstack {
    const width: nat
    const height: nat
    const nChannels: nat
    const nSlices: nat
    const nFrames: nat
    const bitDepth: nat
    /** voxels[n, x, y]: the voxel at (x, y) of plane n (0-based). */
    const voxels: array3<nat>
    /** The slice label of plane n; None is a null label. */
    const labels: array<Option<string>>

    predicate Valid()
    {
      1 <= width && 1 <= height && 1 <= nChannels && 1 <= nSlices && 1 <= nFrames &&
      voxels.Length0 == nChannels * nSlices * nFrames &&
      voxels.Length1 == width && voxels.Length2 == height &&
      labels.Length == voxels.Length0
    }

    /** `IJ.createHyperStack`: all voxels zero, all labels null. */
    constructor (w: nat, h: nat, c: nat, s: nat, f: nat, depth: nat)
      requires 1 <= w && 1 <= h && 1 <= c && 1 <= s && 1 <= f
      ensures Valid()
      ensures width == w && height == h && nChannels == c && nSlices == s && nFrames == f && bitDepth == depth
      ensures fresh(voxels) && fresh(labels)
      ensures forall n, x, y | 0 <= n < voxels.Length0 && 0 <= x < w && 0 <= y < h :: voxels[n, x, y] == 0
      ensures forall n | 0 <= n < labels.Length :: labels[n] == None
    {
      width, height, nChannels, nSlices, nFrames, bitDepth := w, h, c, s, f, depth;
      voxels := new nat[c * s * f, w, h]((n, x, y) => 0);
      labels := new Option<string>[c * s * f](n => None);
    }

    /** `getStackIndex(c, z, t)`: the 1-based number of a plane, with every
        argument first clamped into its range. */
    function StackIndex(c: int, z: int, t: int): int
      requires Valid()
    {
      var c', z', t' := Clamp(c, 1, nChannels), Clamp(z, 1, nSlices), Clamp(t, 1, nFrames);
      (t' - 1) * nChannels * nSlices + (z' - 1) * nChannels + c'
    }

    /** The 0-based plane `getStackIndex(c, z, t) - 1`: always a plane of the
        stack, whatever the arguments. */
    function Index(c: int, z: int, t: int): (n: int)
      requires Valid()
      ensures 0 <= n < nChannels * nSlices * nFrames
    {
      var c', z', t' := Clamp(c, 1, nChannels), Clamp(z, 1, nSlices), Clamp(t, 1, nFrames);
      IndexBound(c' - 1, z' - 1, t' - 1);
      StackIndex(c, z, t) - 1
    }

    lemma IndexBound(c: nat, z: nat, t: nat)
      requires Valid() && c < nChannels && z < nSlices && t < nFrames
      ensures 0 <= t * nChannels * nSlices + z * nChannels + c < nChannels * nSlices * nFrames
    {
      MulMono(z, nSlices - 1, nChannels);
      assert z * nChannels + c < nSlices * nChannels;
      MulMono(t, nFrames - 1, nChannels * nSlices);
      assert t * nChannels * nSlices == t * (nChannels * nSlices);
      assert (nFrames - 1) * (nChannels * nSlices) + nChannels * nSlices == nChannels * nSlices * nFrames;
    }

    /** The channel, slice and frame (1-based) of plane n. */
    function ChannelOf(n: nat): int
      requires Valid()
    {
      n % nChannels + 1
    }

    function SliceOf(n: nat): int
      requires Valid()
    {
      (n / nChannels) % nSlices + 1
    }

    function FrameOf(n: nat): int
      requires Valid()
    {
      n / nChannels / nSlices + 1
    }

    /** Every plane is addressed by its own channel, slice and frame, and
        these are in range. */
    lemma {:induction false} IndexOfPlane(n: nat)
      requires Valid() && n < nChannels * nSlices * nFrames
      ensures 1 <= ChannelOf(n) <= nChannels && 1 <= SliceOf(n) <= nSlices && 1 <= FrameOf(n) <= nFrames
      ensures Index(ChannelOf(n), SliceOf(n), FrameOf(n)) == n
    {
      var C, S := nChannels, nSlices;
      var q := n / C;
      var t := q / S;
      var z := q % S;
      assert n < C * (S * nFrames);
      DivLess(n, C, S * nFrames);
      DivLess(q, S, nFrames);
      assert n == q * C + n % C;
      assert q * C == t * S * C + z * C by {
        assert q == t * S + z;
      }
      assert t * C * S == t * S * C;
    }

    /** Decoding the plane of in-range arguments gives them back. */
    lemma {:induction false} PlaneOfIndex(c: int, z: int, t: int)
      requires Valid()
      requires 1 <= c <= nChannels && 1 <= z <= nSlices && 1 <= t <= nFrames
      ensures ChannelOf(Index(c, z, t)) == c && SliceOf(Index(c, z, t)) == z && FrameOf(Index(c, z, t)) == t
    {
      var n := Index(c, z, t);
      var q := (t - 1) * nSlices + (z - 1);
      assert n == q * nChannels + (c - 1) by {
        assert (t - 1) * nChannels * nSlices == (t - 1) * nSlices * nChannels;
      }
      DivMod(n, nChannels, q, c - 1);
      DivMod(q, nSlices, t - 1, z - 1);
    }

    /** Distinct in-range arguments address distinct planes. */
    lemma IndexInjective(c1: int, z1: int, t1: int, c2: int, z2: int, t2: int)
      requires Valid()
      requires 1 <= c1 <= nChannels && 1 <= z1 <= nSlices && 1 <= t1 <= nFrames
      requires 1 <= c2 <= nChannels && 1 <= z2 <= nSlices && 1 <= t2 <= nFrames
      requires Index(c1, z1, t1) == Index(c2, z2, t2)
      ensures c1 == c2 && z1 == z2 && t1 == t2
    {
      PlaneOfIndex(c1, z1, t1);
      PlaneOfIndex(c2, z2, t2);
    }

    /** The plane of channel c at the 0-based slice s and frame f that the
        pixel loops count: `getStackIndex(c, s + 1, f + 1) - 1`. */
    function PlaneOf(c: int, s: int, f: int): (n: int)
      requires Valid()
      ensures 0 <= n < voxels.Length0
    {
      Index(c, s + 1, f + 1)
    }

    /** Out-of-range channels address the planes of the nearest channel. */
    lemma SamePlaneClamped(c: int, s: int, f: int)
      requires Valid()
      ensures PlaneOf(c, s, f) == PlaneOf(Clamp(c, 1, nChannels), s, f)
    {
    }

    /** The planes of an in-range channel belong to that channel. */
    lemma ChannelOfPlanes(c: int)
      requires Valid() && 1 <= c <= nChannels
      ensures forall s, f | 0 <= s < nSlices && 0 <= f < nFrames :: ChannelOf(PlaneOf(c, s, f)) == c
    {
      forall s, f | 0 <= s < nSlices && 0 <= f < nFrames
        ensures ChannelOf(PlaneOf(c, s, f)) == c
      {
        PlaneOfIndex(c, s + 1, f + 1);
      }
    }

    /** The planes of one channel, for every slice and frame, are distinct. */
    lemma ChannelPlanesDistinct(c: int)
      requires Valid() && 1 <= c <= nChannels
      ensures forall s1, f1, s2, f2 | 0 <= s1 < nSlices && 0 <= f1 < nFrames && 0 <= s2 < nSlices && 0 <= f2 < nFrames
        && (s1 != s2 || f1 != f2) :: PlaneOf(c, s1, f1) != PlaneOf(c, s2, f2)
    {
      forall s1, f1, s2, f2 | 0 <= s1 < nSlices && 0 <= f1 < nFrames && 0 <= s2 < nSlices && 0 <= f2 < nFrames
        && PlaneOf(c, s1, f1) == PlaneOf(c, s2, f2)
        ensures s1 == s2 && f1 == f2
      {
        IndexInjective(c, s1 + 1, f1 + 1, c, s2 + 1, f2 + 1);
      }
    }

    /** Plane n as a value. */
    function Plane(n: int): (p: Plane)
      requires Valid() && 0 <= n < voxels.Length0
      reads voxels
      ensures HasDims(p, width, height)
      ensures forall x, y | 0 <= x < width && 0 <= y < height :: p[x][y] == voxels[n, x, y]
    {
      seq(width, x requires 0 <= x < width reads voxels =>
        seq(height, y requires 0 <= y < height reads voxels => voxels[n, x, y]))
    }

    /** Overwrite plane n with p; every other voxel is left as it was. */
    method SetPlane(n: int, p: Plane)
      requires Valid() && 0 <= n < voxels.Length0 && HasDims(p, width, height)
      modifies voxels
      ensures Plane(n) == p
      ensures forall m, x, y | 0 <= m < voxels.Length0 && m != n && 0 <= x < width && 0 <= y < height ::
        voxels[m, x, y] == old(voxels[m, x, y])
    {
      for x := 0 to width
        invariant forall x', y | 0 <= x' < x && 0 <= y < height :: voxels[n, x', y] == p[x'][y]
        invariant forall m, x', y | 0 <= m < voxels.Length0 && m != n && 0 <= x' < width && 0 <= y < height ::
          voxels[m, x', y] == old(voxels[m, x', y])
      {
        for y := 0 to height
          invariant forall x', y' | 0 <= x' < x && 0 <= y' < height :: voxels[n, x', y'] == p[x'][y']
          invariant forall y' | 0 <= y' < y :: voxels[n, x, y'] == p[x][y']
          invariant forall m, x', y' | 0 <= m < voxels.Length0 && m != n && 0 <= x' < width && 0 <= y' < height ::
            voxels[m, x', y'] == old(voxels[m, x', y'])
        {
          voxels[n, x, y] := p[x][y];
        }
      }
      var q := Plane(n);
      forall x | 0 <= x < width
        ensures q[x] == p[x]
      {
      }
    }

    /** `ImagePlus.duplicate()`: a new stack of the same shape, voxels and
        labels. */
    method Duplicate() returns (d: Hyperstack)
      requires Valid()
      ensures fresh(d) && fresh(d.voxels) && fresh(d.labels) && d.Valid()
      ensures d.width == width && d.height == height && d.nChannels == nChannels && d.nSlices == nSlices
      ensures d.nFrames == nFrames && d.bitDepth == bitDepth
      ensures forall n, x, y | 0 <= n < voxels.Length0 && 0 <= x < width && 0 <= y < height ::
        d.voxels[n, x, y] == voxels[n, x, y]
      ensures d.labels[..] == labels[..]
    {
      d := new Hyperstack(width, height, nChannels, nSlices, nFrames, bitDepth);
      for n := 0 to voxels.Length0
        invariant forall n', x, y | 0 <= n' < n && 0 <= x < width && 0 <= y < height :: d.voxels[n', x, y] == voxels[n', x, y]
        invariant forall n' | 0 <= n' < n :: d.labels[n'] == labels[n']
      {
        d.labels[n] := labels[n];
        for x := 0 to width
          modifies d.voxels
          invariant forall n', x', y | 0 <= n' < n && 0 <= x' < width && 0 <= y < height :: d.voxels[n', x', y] == voxels[n', x', y]
          invariant forall x', y | 0 <= x' < x && 0 <= y < height :: d.voxels[n, x', y] == voxels[n, x', y]
        {
          for y := 0 to height
            modifies d.voxels
            invariant forall n', x', y' | 0 <= n' < n && 0 <= x' < width && 0 <= y' < height :: d.voxels[n', x', y'] == voxels[n', x', y']
            invariant forall x', y' | 0 <= x' < x && 0 <= y' < height :: d.voxels[n, x', y'] == voxels[n, x', y']
            invariant forall y' | 0 <= y' < y :: d.voxels[n, x, y'] == voxels[n, x, y']
          {
            d.voxels[n, x, y] := voxels[n, x, y];
          }
        }
      }
    }
  }

  lemma DivMod(n: int, d: int, q: int, r: int)
    requires d > 0 && 0 <= r < d && n == q * d + r
    ensures n / d == q && n % d == r
  {
    var q0, r0 := n / d, n % d;
    assert (q - q0) * d == r0 - r;
    MulBetween(q - q0, d);
  }

  /** A multiple of d strictly between -d and d is zero. */
  lemma MulBetween(k: int, d: int)
    requires d > 0 && -d < k * d < d
    ensures k == 0
  {
    if k >= 1 {
      MulMono(1, k, d);
    } else if k <= -1 {
      MulMono(k, -1, d);
    }
  }

  lemma DivLess(n: nat, d: nat, k: nat)
    requires d > 0 && n < d * k
    ensures n / d < k
  {
    var q := n / d;
    assert q * d <= n;
    if q >= k {
      MulMono(k, q, d);
    }
  }
}
