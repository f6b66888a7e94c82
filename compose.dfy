/** The mask compositor: the masked write of `_thread_returned`, which sets
    the selected label wherever the segmentation is nonzero, either on a 2-D
    label array or on the depth slice of a 3-D label volume that the slice
    read shows. */
module Compose {
  import opened Wrappers
  import opened NdArrays
  import opened ViewerDims
  import opened Slicing

  /** `mask` is a 2-D array of shape `(h, w)`. */
  predicate MaskFits(mask: NdArray, h: nat, w: nat) {
    mask.Plane? && mask.Valid() && mask.h == h && mask.w == w
  }

  /** `p[mask > 0] = selected` on a 2-D array value. */
  function PaintedPlane(p: NdArray, mask: NdArray, selected: int): (r: NdArray)
    requires p.Plane? && p.Valid() && MaskFits(mask, p.h, p.w)
    ensures r.Plane? && r.Valid() && r.h == p.h && r.w == p.w
  {
    Plane(p.h, p.w, seq(p.h, i requires 0 <= i < p.h =>
      seq(p.w, j requires 0 <= j < p.w => if mask.px[i][j] > 0 then selected else p.px[i][j])))
  }

  /** Voxel `(c0, c1, c2)` of a volume of extents `(n0, n1, n2)` lies on the
      slice `s` of the view transposed by `axes` at a position where the mask
      is set. */
  predicate Hit(axes: seq<nat>, s: nat, mask: NdArray, n0: nat, n1: nat, n2: nat, c0: int, c1: int, c2: int)
    requires IsPerm3(axes) && MaskFits(mask, Pick(axes[1], n0, n1, n2), Pick(axes[2], n0, n1, n2))
    requires 0 <= c0 < n0 && 0 <= c1 < n1 && 0 <= c2 < n2
  {
    Pick(axes[0], c0, c1, c2) == s && mask.px[Pick(axes[1], c0, c1, c2)][Pick(axes[2], c0, c1, c2)] > 0
  }

  /** `v.transpose(axes)[s][mask > 0] = selected` on a 3-D array value: the
      transposed view shares its voxels with `v`, so the write lands in `v`. */
  function PaintedVolume(v: NdArray, axes: seq<nat>, s: nat, mask: NdArray, selected: int): (r: NdArray)
    requires v.Cube? && v.Valid() && IsPerm3(axes) && MaskFits(mask, Extent(v, axes[1]), Extent(v, axes[2]))
    ensures r.Cube? && r.Valid() && r.Shape() == v.Shape()
    ensures forall c0, c1, c2 ::
      0 <= c0 < v.n0 && 0 <= c1 < v.n1 && 0 <= c2 < v.n2 && Pick(axes[0], c0, c1, c2) != s ==>
        r.vox[c0][c1][c2] == v.vox[c0][c1][c2]
  {
    Cube(v.n0, v.n1, v.n2, seq(v.n0, c0 requires 0 <= c0 < v.n0 =>
      seq(v.n1, c1 requires 0 <= c1 < v.n1 =>
        seq(v.n2, c2 requires 0 <= c2 < v.n2 =>
          if Hit(axes, s, mask, v.n0, v.n1, v.n2, c0, c1, c2) then selected else v.vox[c0][c1][c2]))))
  }

  /** The write-back through the transposed view changes exactly the voxels
      the slice read returns: reading the slice after the write gives the
      slice read before it, painted by the mask. */
  lemma SliceOfPaintedVolume(v: NdArray, axes: seq<nat>, s: nat, mask: NdArray, selected: int)
    requires v.Cube? && v.Valid() && IsPerm3(axes) && s < Extent(v, axes[0])
    requires MaskFits(mask, Extent(v, axes[1]), Extent(v, axes[2]))
    ensures SliceVolume(PaintedVolume(v, axes, s, mask, selected), axes, s) ==
            PaintedPlane(SliceVolume(v, axes, s), mask, selected)
  {
    var after := SliceVolume(PaintedVolume(v, axes, s, mask, selected), axes, s);
    var painted := PaintedPlane(SliceVolume(v, axes, s), mask, selected);
    forall i, j | 0 <= i < mask.h && 0 <= j < mask.w
      ensures after.px[i][j] == painted.px[i][j]
    {
      ViewOfPlace(axes, s, i, j);
    }
    assert forall i | 0 <= i < mask.h :: after.px[i] == painted.px[i];
  }

  /** Writing the same mask twice leaves a 2-D selected array as writing it once. */
  lemma PaintedPlaneIdempotent(p: NdArray, mask: NdArray, selected: int)
    requires p.Plane? && p.Valid() && MaskFits(mask, p.h, p.w)
    ensures PaintedPlane(PaintedPlane(p, mask, selected), mask, selected) == PaintedPlane(p, mask, selected)
  {
    var once := PaintedPlane(p, mask, selected);
    var twice := PaintedPlane(once, mask, selected);
    assert forall i | 0 <= i < p.h :: twice.px[i] == once.px[i];
  }

  /** Writing the same mask twice leaves a 3-D selected volume as writing it once. */
  lemma PaintedVolumeIdempotent(v: NdArray, axes: seq<nat>, s: nat, mask: NdArray, selected: int)
    requires v.Cube? && v.Valid() && IsPerm3(axes) && MaskFits(mask, Extent(v, axes[1]), Extent(v, axes[2]))
    ensures PaintedVolume(PaintedVolume(v, axes, s, mask, selected), axes, s, mask, selected) ==
            PaintedVolume(v, axes, s, mask, selected)
  {
    var once := PaintedVolume(v, axes, s, mask, selected);
    var twice := PaintedVolume(once, axes, s, mask, selected);
    assert forall c0, c1 | 0 <= c0 < v.n0 && 0 <= c1 < v.n1 :: twice.vox[c0][c1] == once.vox[c0][c1];
    assert forall c0 | 0 <= c0 < v.n0 :: twice.vox[c0] == once.vox[c0];
  }

  /** The selected array has the shape numpy's masked assignment needs: for a
      2-D image the mask's own shape; for a 3-D image a volume whose slice
      `s` along `axes[0]` exists and has the mask's shape. */
  predicate WriteFits(labels: NdArray, mask: NdArray, ndim: nat, axes: seq<nat>, s: nat)
    requires (ndim == 2 || ndim == 3) && (ndim == 3 ==> IsPerm3(axes))
  {
    if ndim == 2 then labels.Plane? && MaskFits(mask, labels.h, labels.w)
    else labels.Cube? && s < Extent(labels, axes[0]) && MaskFits(mask, Extent(labels, axes[1]), Extent(labels, axes[2]))
  }

  /** The masked write of `_thread_returned` on selected value `labels`: `None`
      when numpy would refuse the assignment (it raises before writing). */
  function WriteBack(labels: NdArray, mask: NdArray, ndim: nat, axes: seq<nat>, s: nat, selected: int): (r: Option<NdArray>)
    requires labels.Valid() && (ndim == 2 || ndim == 3) && (ndim == 3 ==> IsPerm3(axes))
    ensures r.Some? <==> WriteFits(labels, mask, ndim, axes, s)
    ensures r.Some? ==> r.value.Valid() && r.value.Shape() == labels.Shape()
  {
    if !WriteFits(labels, mask, ndim, axes, s) then None
    else if ndim == 2 then Some(PaintedPlane(labels, mask, selected))
    else Some(PaintedVolume(labels, axes, s, mask, selected))
  }

  /** On a 2-D selected array, the write sets exactly the positions where the
      mask is nonzero and keeps every other value. */
  lemma WriteBackPlane(labels: NdArray, mask: NdArray, axes: seq<nat>, s: nat, selected: int)
    requires labels.Valid() && WriteFits(labels, mask, 2, axes, s)
    ensures var r := WriteBack(labels, mask, 2, axes, s, selected).value;
      forall i, j :: 0 <= i < labels.h && 0 <= j < labels.w ==>
        r.px[i][j] == (if mask.px[i][j] > 0 then selected else labels.px[i][j])
  {
  }

  /** On a 3-D selected volume, the write sets `selected` exactly on the voxels of
      depth slice `s` whose position in the slice read is set in the mask;
      every other voxel, in particular every voxel of another slice, keeps
      its value. */
  lemma WriteBackVolume(labels: NdArray, mask: NdArray, axes: seq<nat>, s: nat, selected: int)
    requires labels.Valid() && IsPerm3(axes) && WriteFits(labels, mask, 3, axes, s)
    ensures var r := WriteBack(labels, mask, 3, axes, s, selected).value;
      (forall i, j :: 0 <= i < mask.h && 0 <= j < mask.w ==>
        ViewAt(r, axes, s, i, j) == (if mask.px[i][j] > 0 then selected else ViewAt(labels, axes, s, i, j))) &&
      (forall c0, c1, c2 ::
        0 <= c0 < labels.n0 && 0 <= c1 < labels.n1 && 0 <= c2 < labels.n2 && Pick(axes[0], c0, c1, c2) != s ==>
          r.vox[c0][c1][c2] == labels.vox[c0][c1][c2])
  {
    var r := WriteBack(labels, mask, 3, axes, s, selected).value;
    forall i, j | 0 <= i < mask.h && 0 <= j < mask.w
      ensures ViewAt(r, axes, s, i, j) == (if mask.px[i][j] > 0 then selected else ViewAt(labels, axes, s, i, j))
    {
      ViewOfPlace(axes, s, i, j);
    }
  }

  /** Applying the same write twice gives the labels of applying it once. */
  lemma WriteBackIdempotent(labels: NdArray, mask: NdArray, ndim: nat, axes: seq<nat>, s: nat, selected: int)
    requires labels.Valid() && (ndim == 2 || ndim == 3) && (ndim == 3 ==> IsPerm3(axes))
    requires WriteFits(labels, mask, ndim, axes, s)
    ensures WriteBack(labels, mask, ndim, axes, s, selected).Some?
    ensures WriteBack(WriteBack(labels, mask, ndim, axes, s, selected).value, mask, ndim, axes, s, selected) ==
            WriteBack(labels, mask, ndim, axes, s, selected)
  {
    if ndim == 2 {
      PaintedPlaneIdempotent(labels, mask, selected);
    } else {
      PaintedVolumeIdempotent(labels, axes, s, mask, selected);
    }
  }

  /** The value of a 2-D selected array. */
  function GridValue(a: array2<int>): (r: NdArray)
    reads a
    ensures r.Plane? && r.Valid() && r.h == a.Length0 && r.w == a.Length1
    ensures forall i, j :: 0 <= i < a.Length0 && 0 <= j < a.Length1 ==> r.px[i][j] == a[i, j]
  {
    Plane(a.Length0, a.Length1, seq(a.Length0, i requires 0 <= i < a.Length0 reads a =>
      seq(a.Length1, j requires 0 <= j < a.Length1 reads a => a[i, j])))
  }

  /** The value of a 3-D selected volume. */
  ghost function VolumeValue(a: array3<int>): (r: NdArray)
    reads a
    ensures r.Cube? && r.Valid() && r.Shape() == [a.Length0, a.Length1, a.Length2]
    ensures forall c0, c1, c2 :: 0 <= c0 < a.Length0 && 0 <= c1 < a.Length1 && 0 <= c2 < a.Length2 ==>
      r.vox[c0][c1][c2] == a[c0, c1, c2]
  {
    Cube(a.Length0, a.Length1, a.Length2, seq(a.Length0, c0 requires 0 <= c0 < a.Length0 reads a =>
      seq(a.Length1, c1 requires 0 <= c1 < a.Length1 reads a =>
        seq(a.Length2, c2 requires 0 <= c2 < a.Length2 reads a => a[c0, c1, c2]))))
  }

  /** `labels.data[mask] = selected` on a 2-D selected array, position by position. */
  method PaintPlane(a: array2<int>, mask: NdArray, selected: int)
    requires MaskFits(mask, a.Length0, a.Length1)
    modifies a
    ensures GridValue(a) == PaintedPlane(old(GridValue(a)), mask, selected)
  {
    ghost var before := GridValue(a);
    for i := 0 to a.Length0
      invariant forall r, c :: 0 <= r < a.Length0 && 0 <= c < a.Length1 ==>
        a[r, c] == if r < i && mask.px[r][c] > 0 then selected else before.px[r][c]
    {
      for j := 0 to a.Length1
        invariant forall r, c :: 0 <= r < a.Length0 && 0 <= c < a.Length1 ==>
          a[r, c] == if (r < i || (r == i && c < j)) && mask.px[r][c] > 0 then selected else before.px[r][c]
      {
        if mask.px[i][j] > 0 {
          a[i, j] := selected;
        }
      }
    }
    ghost var after := GridValue(a);
    ghost var painted := PaintedPlane(before, mask, selected);
    assert forall r | 0 <= r < a.Length0 :: after.px[r] == painted.px[r];
  }

  /** Row `i` of the masked write through the transposed view: for each
      column `j` of the slice, the voxel the slice read shows at `(i, j)`. */
  method PaintSliceRow(a: array3<int>, axes: seq<nat>, s: nat, mask: NdArray, selected: int, i: nat)
    requires IsPerm3(axes) && s < Pick(axes[0], a.Length0, a.Length1, a.Length2)
    requires MaskFits(mask, Pick(axes[1], a.Length0, a.Length1, a.Length2), Pick(axes[2], a.Length0, a.Length1, a.Length2))
    requires i < mask.h
    modifies a
    ensures forall c0, c1, c2 :: 0 <= c0 < a.Length0 && 0 <= c1 < a.Length1 && 0 <= c2 < a.Length2 ==>
      a[c0, c1, c2] ==
        if Pick(axes[1], c0, c1, c2) == i && Hit(axes, s, mask, a.Length0, a.Length1, a.Length2, c0, c1, c2)
        then selected else old(a[c0, c1, c2])
  {
    ghost var n0, n1, n2 := a.Length0, a.Length1, a.Length2;
    for j := 0 to mask.w
      invariant forall c0, c1, c2 :: 0 <= c0 < n0 && 0 <= c1 < n1 && 0 <= c2 < n2 ==>
        a[c0, c1, c2] ==
          if Pick(axes[1], c0, c1, c2) == i && Pick(axes[2], c0, c1, c2) < j && Hit(axes, s, mask, n0, n1, n2, c0, c1, c2)
          then selected else old(a[c0, c1, c2])
    {
      var c0, c1, c2 := Place(axes, 0, s, i, j), Place(axes, 1, s, i, j), Place(axes, 2, s, i, j);
      ViewOfPlace(axes, s, i, j);
      if mask.px[i][j] > 0 {
        a[c0, c1, c2] := selected;
      }
    }
  }

  /** `labels.data.transpose(axes)[s][mask] = selected` on a 3-D label volume:
      one write per position `(i, j)` of the slice, at the voxel that the
      slice read shows there. */
  method PaintSlice(a: array3<int>, axes: seq<nat>, s: nat, mask: NdArray, selected: int)
    requires IsPerm3(axes) && s < Pick(axes[0], a.Length0, a.Length1, a.Length2)
    requires MaskFits(mask, Pick(axes[1], a.Length0, a.Length1, a.Length2), Pick(axes[2], a.Length0, a.Length1, a.Length2))
    modifies a
    ensures VolumeValue(a) == PaintedVolume(old(VolumeValue(a)), axes, s, mask, selected)
  {
    ghost var before := VolumeValue(a);
    ghost var n0, n1, n2 := a.Length0, a.Length1, a.Length2;
    for i := 0 to mask.h
      invariant forall c0, c1, c2 :: 0 <= c0 < n0 && 0 <= c1 < n1 && 0 <= c2 < n2 ==>
        a[c0, c1, c2] ==
          if Pick(axes[1], c0, c1, c2) < i && Hit(axes, s, mask, n0, n1, n2, c0, c1, c2)
          then selected else before.vox[c0][c1][c2]
    {
      PaintSliceRow(a, axes, s, mask, selected, i);
    }
    ghost var after := VolumeValue(a);
    ghost var painted := PaintedVolume(before, axes, s, mask, selected);
    assert forall c0, c1 | 0 <= c0 < n0 && 0 <= c1 < n1 :: after.vox[c0][c1] == painted.vox[c0][c1];
    assert forall c0 | 0 <= c0 < n0 :: after.vox[c0] == painted.vox[c0];
  }
}
