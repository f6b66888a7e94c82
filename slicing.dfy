/** The image layer and the 2-D slice of it that the viewer currently shows
    (the `ndim`, `image_data_slice` properties of the widget). */
module Slicing {
  import opened Wrappers
  import opened NdArrays
  import opened ViewerDims

  /** An image layer: its data and whether napari treats it as RGB
      (a trailing channel axis on a 2-D image). */
  datatype ImageLayer = ImageLayer(data: NdArray, rgb: bool)
  {
    /** napari only tags an array with a trailing channel axis as RGB. */
    predicate Valid() {
      data.Valid() && (rgb ==> data.Cube?)
    }
  }

  /** The `ndim` property: 2 for an RGB image, otherwise the array's rank. */
  function Ndim(image: Option<ImageLayer>): (r: Option<nat>)
    ensures r.None? <==> image.None?
    ensures r.Some? ==> r.value == 2 || r.value == 3
    ensures r == Some(2) <==> image.Some? && (image.value.rgb || image.value.data.Plane?)
    ensures r.Some? ==> image.value.rgb || r.value == |image.value.data.Shape()|
  {
    match image
    case None => None
    case Some(layer) => if layer.rgb then Some(2) else Some(|layer.data.Shape()|)
  }

  /** What the slice read needs of the viewer's state: a 3-D image has a
      3-entry step vector, and outside 3-D view the slider position on the
      depth axis lies within the image. napari does not guarantee the
      latter, since the slider range spans every layer; the caller must. */
  ghost predicate Fits(image: ImageLayer, dims: Dims) {
    image.Valid() && dims.Valid() &&
    (Ndim(Some(image)) == Some(3) ==>
      |dims.currentStep| == 3 &&
      (!dims.In3DView() ==>
        dims.currentStep[MissingAxis(dims.displayed)] < Extent(image.data, MissingAxis(dims.displayed))))
  }

  /** Element `(i, j)` of `v.transpose(axes)[s]`. */
  function ViewAt(v: NdArray, axes: seq<nat>, s: nat, i: nat, j: nat): int
    requires v.Cube? && v.Valid() && IsPerm3(axes)
    requires s < Extent(v, axes[0]) && i < Extent(v, axes[1]) && j < Extent(v, axes[2])
  {
    v.vox[Place(axes, 0, s, i, j)][Place(axes, 1, s, i, j)][Place(axes, 2, s, i, j)]
  }

  /** `v.transpose(axes)[s]`: the 2-D slice at position `s` of axis `axes[0]`,
      with rows along `axes[1]` and columns along `axes[2]`. */
  function SliceVolume(v: NdArray, axes: seq<nat>, s: nat): (r: NdArray)
    requires v.Cube? && v.Valid() && IsPerm3(axes) && s < Extent(v, axes[0])
    ensures r.Plane? && r.Valid() && r.h == Extent(v, axes[1]) && r.w == Extent(v, axes[2])
    ensures forall c0, c1, c2 ::
      0 <= c0 < v.n0 && 0 <= c1 < v.n1 && 0 <= c2 < v.n2 && Pick(axes[0], c0, c1, c2) == s ==>
        r.px[Pick(axes[1], c0, c1, c2)][Pick(axes[2], c0, c1, c2)] == v.vox[c0][c1][c2]
  {
    var h, w := Extent(v, axes[1]), Extent(v, axes[2]);
    var r := Plane(h, w, seq(h, i requires 0 <= i < h => seq(w, j requires 0 <= j < w => ViewAt(v, axes, s, i, j))));
    forall c0, c1, c2 |
      0 <= c0 < v.n0 && 0 <= c1 < v.n1 && 0 <= c2 < v.n2 && Pick(axes[0], c0, c1, c2) == s
      ensures r.px[Pick(axes[1], c0, c1, c2)][Pick(axes[2], c0, c1, c2)] == v.vox[c0][c1][c2]
    {
      PlaceOfView(axes, c0, c1, c2);
    }
    r
  }

  /** The `image_data_slice` property: nothing without an image, the image
      itself when it is 2-D (RGB included), and the slice the viewer shows
      when it is 3-D. */
  function ImageDataSlice(image: Option<ImageLayer>, dims: Dims): (r: Option<NdArray>)
    requires dims.Valid()
    requires image.Some? ==> Fits(image.value, dims)
    ensures image.None? ==> r.None?
    ensures Ndim(image) == Some(2) ==> r == Some(image.value.data)
    ensures Ndim(image) == Some(3) ==> (r.None? <==> dims.In3DView())
    ensures Ndim(image) == Some(3) && r.Some? ==>
      var v, d := image.value.data, dims.displayed;
      r.value.Plane? && r.value.Valid() &&
      r.value.h == Extent(v, d[0]) && r.value.w == Extent(v, d[1]) &&
      forall c0, c1, c2 ::
        0 <= c0 < v.n0 && 0 <= c1 < v.n1 && 0 <= c2 < v.n2 &&
        Pick(MissingAxis(d), c0, c1, c2) == dims.currentStep[MissingAxis(d)] ==>
          r.value.px[Pick(d[0], c0, c1, c2)][Pick(d[1], c0, c1, c2)] == v.vox[c0][c1][c2]
  {
    match image
    case None => None
    case Some(layer) =>
      if Ndim(image) == Some(2) then Some(layer.data)
      else
        match Axes(Ndim(image), dims)
        case None => None
        case Some(axes) => Some(SliceVolume(layer.data, axes, CurrentStep(Ndim(image), dims).value))
  }
}
