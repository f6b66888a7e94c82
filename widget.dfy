/** The `RemBGWidget` panel with its Qt wiring left out: the layers it has
    selected, the region-of-interest gating and crop/paste of
    `_remove_background`, the early returns of `_trigger_remove_background`
    and the label creation and write-back of `_thread_returned`, run as one
    sequential pipeline. */
module Widget {
  import opened Wrappers
  import opened NdArrays
  import opened ViewerDims
  import opened Slicing
  import opened Predict
  import opened Compose

  /** A bounding box as `regionprops_table` reports it: rows `[x0, x1)`,
      columns `[y0, y1)`. */
  datatype Box = Box(x0: nat, y0: nat, x1: nat, y1: nat)

  /** A shapes layer: the type of each of its shapes, and the bounding box
      of the max-projected raster of its shapes (for a 3-D image the raster
      is projected over every depth slice), `None` when that raster is
      empty. */
  datatype ShapesLayer = ShapesLayer(shapeType: seq<string>, bbox: Option<Box>)

  /** The backing array of a labels layer, mutated in place. */
  datatype LabelData = Grid(g: array2<int>) | Volume(v: array3<int>)
  {
    function Obj(): object {
      if Grid? then g else v
    }

    ghost function Value(): (r: NdArray)
      reads Obj()
      ensures r.Valid() && r.Plane? == Grid?
    {
      if Grid? then GridValue(g) else VolumeValue(v)
    }
  }

  /** A labels layer: its array and the label value the user has selected. */
  class Labels {
    const data: LabelData
    const selectedLabel: int

    constructor (data: LabelData, selectedLabel: int)
      ensures this.data == data && this.selectedLabel == selectedLabel
    {
      this.data := data;
      this.selectedLabel := selectedLabel;
    }
  }

  /** The label napari selects in a labels layer it has just created. */
  const DefaultSelectedLabel := 1

  /** The condition under which `_remove_background` restricts the model to
      the region of interest: one shape, a rectangle, and not a 3-D image
      seen in a transposed orientation. */
  function RoiGate(shapes: Option<ShapesLayer>, ndim: Option<nat>, axes: seq<nat>): bool
    requires |axes| > 0
  {
    shapes.Some? && |shapes.value.shapeType| == 1 && shapes.value.shapeType[0] == "rectangle" &&
    !(ndim == Some(3) && axes[0] != 0)
  }

  /** For a 3-D image whose depth axis is not axis 0, that is, whenever axis 0
      is displayed, the region of interest is ignored. */
  lemma TransposedViewIgnoresRoi(shapes: Option<ShapesLayer>, dims: Dims)
    requires dims.Valid() && !dims.In3DView() && |dims.currentStep| == 3
    requires 0 in dims.displayed
    ensures !RoiGate(shapes, Some(3), Axes(Some(3), dims).value)
  {
  }

  /** A zero mask of shape `(h, w)` with `pred` copied into rows `[r0, r1)`
      and columns `[q0, q1)`. */
  function Pasted(h: nat, w: nat, r0: nat, r1: nat, q0: nat, q1: nat, pred: NdArray): (seg: NdArray)
    requires r0 <= r1 <= h && q0 <= q1 <= w && MaskFits(pred, r1 - r0, q1 - q0)
    ensures MaskFits(seg, h, w)
  {
    Plane(h, w, seq(h, i requires 0 <= i < h => seq(w, j requires 0 <= j < w =>
      if r0 <= i < r1 && q0 <= j < q1 then pred.px[i - r0][j - q0] else 0)))
  }

  /** The paste of `_remove_background`: `np.zeros` of the slice's height and
      width, then `segmentation[x0:x1, y0:y1] = segmentation_roi_adjusted`. */
  method Paste(h: nat, w: nat, r0: nat, r1: nat, q0: nat, q1: nat, pred: NdArray) returns (seg: NdArray)
    requires r0 <= r1 <= h && q0 <= q1 <= w && MaskFits(pred, r1 - r0, q1 - q0)
    ensures MaskFits(seg, h, w)
    ensures forall i, j :: 0 <= i < h && 0 <= j < w ==>
      seg.px[i][j] == if r0 <= i < r1 && q0 <= j < q1 then pred.px[i - r0][j - q0] else 0
  {
    var mask := new int[h, w]((i, j) => 0);
    for i := r0 to r1
      invariant forall x, y :: 0 <= x < h && 0 <= y < w ==>
        mask[x, y] == if r0 <= x < i && q0 <= y < q1 then pred.px[x - r0][y - q0] else 0
    {
      for j := q0 to q1
        invariant forall x, y :: 0 <= x < h && 0 <= y < w ==>
          mask[x, y] == if (r0 <= x < i || (x == i && y < j)) && q0 <= y < q1 then pred.px[x - r0][y - q0] else 0
      {
        mask[i, j] := pred.px[i - r0][j - q0];
      }
    }
    seg := GridValue(mask);
  }

  /** The region-of-interest path: a zero mask of the slice's height and
      width, with the model's mask of the crop `slice[x0:x1, y0:y1]` pasted
      back into the box. */
  function RoiSegmentation(slice: NdArray, box: Box, remove: NdArray -> Rgba): (seg: NdArray)
    requires slice.Valid() && PreservesSize(remove)
    ensures MaskFits(seg, slice.Rows(), slice.Cols())
    ensures forall i, j :: 0 <= i < seg.h && 0 <= j < seg.w ==> seg.px[i][j] == 0 || seg.px[i][j] == 1
    ensures forall i, j ::
      (0 <= i < seg.h && 0 <= j < seg.w &&
       !(Selects(box.x0, box.x1, slice.Rows(), i) && Selects(box.y0, box.y1, slice.Cols(), j))) ==>
        seg.px[i][j] == 0
    ensures forall i, j ::
      (0 <= i < seg.h && 0 <= j < seg.w &&
       Selects(box.x0, box.x1, slice.Rows(), i) && Selects(box.y0, box.y1, slice.Cols(), j)) ==>
        var (r0, r1) := SliceBounds(box.x0, box.x1, slice.Rows());
        var (q0, q1) := SliceBounds(box.y0, box.y1, slice.Cols());
        seg.px[i][j] == RembgPredict(remove, Crop(slice, r0, r1, q0, q1)).px[i - r0][j - q0]
  {
    var (r0, r1) := SliceBounds(box.x0, box.x1, slice.Rows());
    var (q0, q1) := SliceBounds(box.y0, box.y1, slice.Cols());
    Pasted(slice.Rows(), slice.Cols(), r0, r1, q0, q1, RembgPredict(remove, Crop(slice, r0, r1, q0, q1)))
  }

  /** What `_remove_background` returns on `slice`: the model's mask of the
      whole slice, or of the region of interest when `gate` holds; `None`
      when the region's raster is empty (indexing the empty table fails). */
  function Segmentation(slice: NdArray, shapes: Option<ShapesLayer>, gate: bool, remove: NdArray -> Rgba): (r: Option<NdArray>)
    requires slice.Valid() && PreservesSize(remove)
    requires gate ==> shapes.Some?
    ensures r.None? <==> gate && shapes.value.bbox.None?
    ensures r.Some? ==> MaskFits(r.value, slice.Rows(), slice.Cols())
  {
    if !gate then Some(RembgPredict(remove, slice))
    else
      match shapes.value.bbox
      case None => None
      case Some(box) => Some(RoiSegmentation(slice, box, remove))
  }

  /** The zero-filled label array `_thread_returned` creates: shaped like the
      image, without the channel axis when the image is RGB. */
  function ZerosLike(image: ImageLayer): (z: NdArray)
    requires image.Valid()
    ensures z.Valid()
    ensures z.Shape() == if image.rgb then image.data.Shape()[..2] else image.data.Shape()
    ensures z.Plane? ==> forall i, j :: 0 <= i < z.h && 0 <= j < z.w ==> z.px[i][j] == 0
    ensures z.Cube? ==> forall i, j, k :: 0 <= i < z.n0 && 0 <= j < z.n1 && 0 <= k < z.n2 ==> z.vox[i][j][k] == 0
  {
    if image.rgb || image.data.Plane? then ZeroPlane(image.data.Rows(), image.data.Cols())
    else ZeroCube(image.data.n0, image.data.n1, image.data.n2)
  }

  /** A label array freshly created for the image always takes the mask
      computed from the image's slice: the write-back cannot fail on it. */
  lemma NewLabelsTakeMask(image: ImageLayer, dims: Dims, shapes: Option<ShapesLayer>, remove: NdArray -> Rgba)
    requires Fits(image, dims) && !dims.In3DView() && PreservesSize(remove)
    requires var ndim := Ndim(Some(image));
      RoiGate(shapes, ndim, Axes(ndim, dims).value) ==> shapes.Some?
    ensures var ndim := Ndim(Some(image));
      var axes := Axes(ndim, dims).value;
      var seg := Segmentation(ImageDataSlice(Some(image), dims).value, shapes, RoiGate(shapes, ndim, axes), remove);
      seg.Some? ==> WriteFits(ZerosLike(image), seg.value, ndim.value, axes, CurrentStep(ndim, dims).value)
  {
    var ndim := Ndim(Some(image));
    var axes := Axes(ndim, dims).value;
    if ndim == Some(3) {
      assert axes[0] == MissingAxis(dims.displayed);
    }
  }

  /** `viewer.add_labels(np.zeros_like(...))`: a new labels layer over a
      zero array shaped for the image. */
  method NewLabels(image: ImageLayer) returns (layer: Labels)
    requires image.Valid()
    ensures fresh(layer) && fresh(layer.data.Obj())
    ensures layer.data.Value() == ZerosLike(image) && layer.selectedLabel == DefaultSelectedLabel
  {
    var data: LabelData;
    if image.rgb || image.data.Plane? {
      var a := new int[image.data.Rows(), image.data.Cols()]((i, j) => 0);
      data := Grid(a);
      assert forall i | 0 <= i < a.Length0 :: GridValue(a).px[i] == ZerosLike(image).px[i];
    } else {
      var a := new int[image.data.n0, image.data.n1, image.data.n2]((i, j, k) => 0);
      data := Volume(a);
      ghost var z := ZerosLike(image);
      assert forall i, j | 0 <= i < a.Length0 && 0 <= j < a.Length1 :: VolumeValue(a).vox[i][j] == z.vox[i][j];
      assert forall i | 0 <= i < a.Length0 :: VolumeValue(a).vox[i] == z.vox[i];
    }
    layer := new Labels(data, DefaultSelectedLabel);
  }

  /** The masked write of `_thread_returned` on the layer's array:
      `data[mask] = selected_label` for a 2-D image and
      `data.transpose(axes)[current_step][mask] = selected_label` for a 3-D
      one; `false`, with nothing written, when numpy would refuse the
      assignment. */
  method Paint(data: LabelData, seg: NdArray, ndim: nat, axes: seq<nat>, step: nat, selected: int) returns (ok: bool)
    requires seg.Plane? && seg.Valid() && (ndim == 2 || ndim == 3) && (ndim == 3 ==> IsPerm3(axes))
    modifies data.Obj()
    ensures ok == WriteBack(old(data.Value()), seg, ndim, axes, step, selected).Some?
    ensures data.Value() == if ok then WriteBack(old(data.Value()), seg, ndim, axes, step, selected).value else old(data.Value())
  {
    match data {
      case Grid(g) =>
        ok := ndim == 2 && MaskFits(seg, g.Length0, g.Length1);
        if ok {
          PaintPlane(g, seg, selected);
        }
      case Volume(v) =>
        ok := ndim == 3 && step < Pick(axes[0], v.Length0, v.Length1, v.Length2) &&
              MaskFits(seg, Pick(axes[1], v.Length0, v.Length1, v.Length2), Pick(axes[2], v.Length0, v.Length1, v.Length2));
        if ok {
          PaintSlice(v, axes, step, seg, selected);
        }
    }
  }

  /** How a click ended: declined before any work, failed in the worker,
      refused by the label array, or written. */
  datatype Outcome = Declined | WorkerFailed | WriteFailed | Written

  class RemBGWidget {
    /** The viewer's dimension state. */
    var dims: Dims
    /** What the image, result and region-of-interest combo boxes show;
        `None`/`null` for an empty box. */
    var imageChoice: Option<ImageLayer>
    var resultChoice: Labels?
    var roiChoice: Option<ShapesLayer>
    /** The layers the widget has selected. */
    var imageLayer: Option<ImageLayer>
    var labelsLayer: Labels?
    var shapesLayer: Option<ShapesLayer>

    /** The widget as its construction leaves it: the layer fields take the
        combo boxes' selections. */
    constructor (dims: Dims, imageChoice: Option<ImageLayer>, resultChoice: Labels?, roiChoice: Option<ShapesLayer>)
      ensures this.dims == dims && this.imageChoice == imageChoice
      ensures this.resultChoice == resultChoice && this.roiChoice == roiChoice
      ensures imageLayer == imageChoice && labelsLayer == resultChoice && shapesLayer == roiChoice
    {
      this.dims := dims;
      this.imageChoice := imageChoice;
      this.resultChoice := resultChoice;
      this.roiChoice := roiChoice;
      imageLayer := imageChoice;
      labelsLayer := resultChoice;
      shapesLayer := roiChoice;
    }

    /** An image is selected, it fits the viewer, and the viewer shows 2-D. */
    ghost predicate Ready()
      reads this
    {
      imageLayer.Some? && Fits(imageLayer.value, dims) && !dims.In3DView()
    }

    /** The array of the labels layer chosen in the result combo box. */
    function Target(): set<object>
      reads this`resultChoice
    {
      if resultChoice == null then {} else {resultChoice.data.Obj()}
    }

    ghost function Slice(): (r: NdArray)
      reads this
      requires Ready()
      ensures r.Valid()
    {
      ImageDataSlice(imageLayer, dims).value
    }

    ghost function Gate(): bool
      reads this
      requires Ready()
    {
      RoiGate(shapesLayer, Ndim(imageLayer), Axes(Ndim(imageLayer), dims).value)
    }

    /** `_remove_background`: the model's mask of the visible slice, or of
        its region of interest pasted into a zero mask. */
    method RemoveBackground(remove: NdArray -> Rgba) returns (seg: Option<NdArray>)
      requires Ready() && PreservesSize(remove)
      ensures seg == Segmentation(Slice(), shapesLayer, Gate(), remove)
      ensures !Gate() ==> seg == Some(RembgPredict(remove, Slice()))
      ensures Gate() ==> (seg.None? <==> shapesLayer.value.bbox.None?)
      ensures Gate() && seg.Some? ==>
        var box := shapesLayer.value.bbox.value;
        forall i, j ::
          (0 <= i < seg.value.h && 0 <= j < seg.value.w &&
           !(Selects(box.x0, box.x1, Slice().Rows(), i) && Selects(box.y0, box.y1, Slice().Cols(), j))) ==>
            seg.value.px[i][j] == 0
    {
      var slice := ImageDataSlice(imageLayer, dims).value;
      var ndim := Ndim(imageLayer);
      var axes := Axes(ndim, dims).value;
      if !RoiGate(shapesLayer, ndim, axes) {
        return Some(RembgPredict(remove, slice));
      }
      match shapesLayer.value.bbox {
        case None =>
          return None;
        case Some(box) =>
          var (r0, r1) := SliceBounds(box.x0, box.x1, slice.Rows());
          var (q0, q1) := SliceBounds(box.y0, box.y1, slice.Cols());
          var pred := RembgPredict(remove, Crop(slice, r0, r1, q0, q1));
          var roi := Paste(slice.Rows(), slice.Cols(), r0, r1, q0, q1, pred);
          ghost var spec := RoiSegmentation(slice, box, remove);
          assert forall x | 0 <= x < roi.h :: roi.px[x] == spec.px[x];
          assert roi == spec;
          return Some(roi);
      }
    }

    /** The label value the write-back starts from: the chosen layer's
        array, or a zero array when no layer is chosen. */
    ghost function LabelsBefore(image: ImageLayer): NdArray
      reads this`resultChoice, Target()
      requires image.Valid()
    {
      if resultChoice == null then ZerosLike(image) else resultChoice.data.Value()
    }

    /** `_thread_returned`: select the chosen labels layer, or create a zero
        one, and write its selected label wherever `seg` is nonzero. */
    method ThreadReturned(seg: NdArray) returns (ok: bool)
      requires Ready() && seg.Plane? && seg.Valid()
      modifies this`labelsLayer, Target()
      ensures old(resultChoice) != null ==> labelsLayer == old(resultChoice)
      ensures old(resultChoice) == null ==>
        fresh(labelsLayer) && fresh(labelsLayer.data.Obj()) && labelsLayer.selectedLabel == DefaultSelectedLabel
      ensures var ndim := Ndim(imageLayer);
        var written := WriteBack(old(LabelsBefore(imageLayer.value)), seg, ndim.value, Axes(ndim, dims).value,
                                 CurrentStep(ndim, dims).value, if labelsLayer == null then 0 else labelsLayer.selectedLabel);
        ok == written.Some? &&
        labelsLayer != null &&
        labelsLayer.data.Value() == if ok then written.value else old(LabelsBefore(imageLayer.value))
    {
      if resultChoice == null {
        labelsLayer := NewLabels(imageLayer.value);
      } else {
        labelsLayer := resultChoice;
      }
      var ndim := Ndim(imageLayer).value;
      ok := Paint(labelsLayer.data, seg, ndim, Axes(Some(ndim), dims).value,
                  CurrentStep(Some(ndim), dims).value, labelsLayer.selectedLabel);
    }

    /** The worker and its callback: segment the visible slice and write
        the mask back, unless the worker fails. */
    method SegmentAndWrite(remove: NdArray -> Rgba) returns (outcome: Outcome)
      requires Ready() && PreservesSize(remove)
      modifies this`labelsLayer, Target()
      ensures outcome != Declined
      ensures outcome == WorkerFailed <==> Segmentation(Slice(), shapesLayer, Gate(), remove).None?
      ensures outcome == WorkerFailed ==> labelsLayer == old(labelsLayer) && unchanged(Target())
      ensures (outcome == WriteFailed || outcome == Written) && old(resultChoice) != null ==>
        labelsLayer == old(resultChoice)
      ensures (outcome == WriteFailed || outcome == Written) && old(resultChoice) == null ==>
        fresh(labelsLayer) && fresh(labelsLayer.data.Obj()) && labelsLayer.selectedLabel == DefaultSelectedLabel
      ensures outcome == WriteFailed || outcome == Written ==>
        var seg := Segmentation(Slice(), shapesLayer, Gate(), remove).value;
        var ndim := Ndim(imageLayer);
        var written := WriteBack(old(LabelsBefore(imageLayer.value)), seg, ndim.value, Axes(ndim, dims).value,
                                 CurrentStep(ndim, dims).value, if labelsLayer == null then 0 else labelsLayer.selectedLabel);
        (outcome == Written <==> written.Some?) && labelsLayer != null &&
        labelsLayer.data.Value() == if outcome == Written then written.value else old(LabelsBefore(imageLayer.value))
    {
      var seg := RemoveBackground(remove);
      if seg.None? {
        return WorkerFailed;
      }
      var ok := ThreadReturned(seg.value);
      outcome := if ok then Written else WriteFailed;
    }

    /** `_trigger_remove_background` followed by the worker and its callback:
        nothing happens in 3-D view or without an image; otherwise the
        chosen layers are selected, the slice is segmented and the mask is
        written back. */
    method TriggerRemoveBackground(remove: NdArray -> Rgba) returns (outcome: Outcome)
      requires dims.Valid() && PreservesSize(remove)
      requires imageChoice.Some? ==> Fits(imageChoice.value, dims)
      modifies this`imageLayer, this`shapesLayer, this`labelsLayer, Target()
      ensures outcome == Declined <==> dims.In3DView() || imageChoice.None?
      ensures outcome == Declined ==>
        imageLayer == old(imageLayer) && shapesLayer == old(shapesLayer) && labelsLayer == old(labelsLayer) &&
        unchanged(Target())
      ensures outcome != Declined ==>
        imageLayer == imageChoice && shapesLayer == roiChoice && Ready() &&
        (outcome == WorkerFailed <==> Segmentation(Slice(), shapesLayer, Gate(), remove).None?)
      ensures outcome == WorkerFailed ==> labelsLayer == old(labelsLayer) && unchanged(Target())
      ensures (outcome == WriteFailed || outcome == Written) && old(resultChoice) != null ==>
        labelsLayer == old(resultChoice)
      ensures (outcome == WriteFailed || outcome == Written) && old(resultChoice) == null ==>
        fresh(labelsLayer) && fresh(labelsLayer.data.Obj()) && labelsLayer.selectedLabel == DefaultSelectedLabel
      ensures outcome == WriteFailed || outcome == Written ==>
        var seg := Segmentation(Slice(), shapesLayer, Gate(), remove).value;
        var ndim := Ndim(imageLayer);
        var written := WriteBack(old(LabelsBefore(imageChoice.value)), seg, ndim.value, Axes(ndim, dims).value,
                                 CurrentStep(ndim, dims).value, if labelsLayer == null then 0 else labelsLayer.selectedLabel);
        (outcome == Written <==> written.Some?) && labelsLayer != null &&
        labelsLayer.data.Value() == if outcome == Written then written.value else old(LabelsBefore(imageChoice.value))
    {
      if dims.In3DView() {
        return Declined;
      }
      if imageChoice.None? {
        return Declined;
      }
      ghost var before := LabelsBefore(imageChoice.value);
      imageLayer := imageChoice;
      shapesLayer := roiChoice;
      assert LabelsBefore(imageLayer.value) == before;
      outcome := SegmentAndWrite(remove);
    }
  }
}
