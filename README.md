# napari-rembg: slice bookkeeping, ROI crop and mask write-back

napari-rembg is a napari plugin panel (`RemBGWidget`). The user picks an image layer
(2-D, 3-D or RGB) and presses "Select foreground". The panel runs the `rembg`
background-removal model on the 2-D slice the viewer currently shows, or only on a
rectangular region of interest drawn in a shapes layer. It then writes the selected
label into a labels layer wherever the model found foreground. If no labels layer is
chosen, it first creates a zero-filled one.

This project models the index bookkeeping behind that button:

- `ViewerDims` (`dims.dfy`): the viewer's dimension state. It defines the `axes`
  permutation, which puts the non-displayed (depth) axis first, and `current_step`,
  the slider position on that axis. It also holds the two coordinate maps between a
  voxel and its position in the transposed view, and lemmas that they are inverses.
- `Slicing` (`slicing.dfy`): the image layer, `ndim` and `image_data_slice`, i.e.
  `image.transpose(axes)[current_step]` for a 3-D image.
- `Predict` (`predict.dfy`): `rembg_predict`. The model is a function parameter
  `remove`. What is modelled is the post-processing: the channel mean, the `!= 0`
  threshold and the resulting 0/1 mask.
- `Compose` (`compose.dfy`): the masked write of `_thread_returned`. It works on
  array values (`WriteBack`, `PaintedPlane`, `PaintedVolume`) and on arrays in place
  (`PaintPlane`, `PaintSlice`, over `array2`/`array3`). The lemmas say that the write
  goes through the same transposed view as the read, that other slices do not
  change, and that writing twice is the same as writing once.
- `Widget` (`widget.dfy`): the ROI gate, the crop/paste of `_remove_background`, the
  zero label array, and the `RemBGWidget` class. The class holds the layer fields
  that `_trigger_remove_background` and `_thread_returned` reassign. The labels
  layer is a class whose array is mutated in place.
- `NdArrays` (`ndarrays.dfy`): numpy arrays with an explicit shape, Python's
  clamping slice bounds, and crops. `Wrappers` (`wrappers.dfy`) holds `Option`
  (Python's `None`).

Inputs from outside the source are parameters or fields:
- the viewer's `dims` (`ndisplay`, `displayed`, `current_step`);
- what each combo box currently shows;
- the model `remove`;
- the bounding box that `regionprops_table` reports for the rasterised rectangle.

The model assumes one thing about `remove` (`PreservesSize`): it returns an image
with the same height and width as its input. `rembg.remove` is not part of this
model. A click is modelled as one sequential call: trigger, then worker, then
callback.

## Model

| member | source | states |
|---|---|---|
| `ViewerDims.MissingAxis` | src/napari_rembg/_widget.py:107 | the inserted index is the one element of {0,1,2} that is not displayed |
| `ViewerDims.Axes` | src/napari_rembg/_widget.py:100-109 | nothing in 3-D view; otherwise the displayed dims for a non-3-D image; for a 3-D image a permutation of {0,1,2} whose tail is the displayed dims and whose head is the depth axis |
| `ViewerDims.CurrentStep` | src/napari_rembg/_widget.py:111-114 | for a 3-D image outside 3-D view, the slider position of the non-displayed dimension; otherwise the step of `displayed[0]`; `None` in 3-D view, where the source differs (see Left out) |
| `ViewerDims.PlaceOfView` | src/napari_rembg/_widget.py:126 | reading a voxel's coordinates through `axes` and placing them back gives the same voxel |
| `ViewerDims.ViewOfPlace` | src/napari_rembg/_widget.py:126 | placing a transposed position (s, i, j) into the array and reading it through `axes` gives (s, i, j) back |
| `Slicing.Ndim` | src/napari_rembg/_widget.py:90-98 | nothing without an image; 2 for an RGB image; otherwise the array's rank |
| `Slicing.SliceVolume` | src/napari_rembg/_widget.py:126 | `v.transpose(axes)[s]` has shape (extent of `axes[1]`, extent of `axes[2]`), and every voxel with coordinate `s` on `axes[0]` appears at its (axes[1], axes[2]) position |
| `Slicing.ImageDataSlice` | src/napari_rembg/_widget.py:116-126 | nothing without an image; the image itself when ndim is 2; for ndim 3 (outside 3-D view) the plane whose element at (c[d0], c[d1]) is the voxel c for every voxel c on the current depth step |
| `Predict.ChannelSumZero` | src/napari_rembg/_widget.py:14-15 | a pixel's uint8 channels sum to zero exactly when every channel is zero |
| `Predict.Binarize` | src/napari_rembg/_widget.py:14-16 | a pixel becomes 1 exactly when some channel is nonzero (or it has no channel: the mean is NaN), and 0 otherwise |
| `Predict.RembgPredict` | src/napari_rembg/_widget.py:11-17 | the mask has the input's height and width, holds only 0 and 1, and is 1 exactly where the model's output has a nonzero channel |
| `NdArrays.SliceBounds` | src/napari_rembg/_widget.py:191 | the Python slice `lo:hi` selects exactly the indices k with lo <= k < hi within the axis extent |
| `NdArrays.Crop` | src/napari_rembg/_widget.py:191 | `a[r0:r1, q0:q1]` has shape (r1-r0, q1-q0) and holds a's element (r0+i, q0+j) at (i, j), channel axis kept whole |
| `Widget.RoiGate` | src/napari_rembg/_widget.py:173-176 | the ROI path needs a shapes layer with exactly one shape, of type rectangle, and not a 3-D image with `axes[0] != 0` |
| `Widget.TransposedViewIgnoresRoi` | src/napari_rembg/_widget.py:176 | for a 3-D image with axis 0 displayed, the ROI is never used |
| `Widget.Paste` | src/napari_rembg/_widget.py:190-193 | the mask has the full slice shape, equals the crop's prediction inside the box, and is 0 everywhere else |
| `Widget.Pasted` | src/napari_rembg/_widget.py:190-193 | `np.zeros((h, w))` with the box's prediction pasted in is a 2-D mask of shape (h, w); `Widget.Paste` states its every element |
| `Widget.RoiSegmentation` | src/napari_rembg/_widget.py:185-193 | on the ROI path the result has the slice's height and width, is 0 at every position outside rows [x0,x1) x cols [y0,y1), and inside the box equals the model's mask of the crop `slice[x0:x1, y0:y1]` |
| `Widget.Segmentation` | src/napari_rembg/_widget.py:173-197 | the worker fails exactly when the ROI path is taken and the rasterised region is empty; otherwise the mask has the slice's height and width |
| `Widget.RemBGWidget.RemoveBackground` | src/napari_rembg/_widget.py:169-197 | without the gate, the model's mask of the whole slice; with it, the ROI mask (0 outside the box), or a failure when the region is empty |
| `Widget.ZerosLike` | src/napari_rembg/_widget.py:219-223 | the new label array is all zero and has the image's shape, without the trailing channel axis for an RGB image |
| `Widget.NewLabels` | src/napari_rembg/_widget.py:219-223 | a fresh labels layer over a fresh array whose value is `ZerosLike(image)`, with napari's default selected label |
| `Widget.NewLabelsTakeMask` | src/napari_rembg/_widget.py:219-232 | a label array created for an image always accepts the mask computed from that same image's slice (the image chosen at the trigger; see Left out for the source's re-selection) |
| `Compose.PaintedPlane` | src/napari_rembg/_widget.py:230 | `data[mask] = selected_label` on a 2-D array value keeps its shape; `Compose.WriteBackPlane` states each position's new value |
| `Compose.PaintedVolume` | src/napari_rembg/_widget.py:232 | the write through the transposed view keeps the volume's shape and leaves every voxel off depth slice `s` unchanged |
| `Compose.WriteBack` | src/napari_rembg/_widget.py:227-232 | the write succeeds exactly when numpy accepts the assignment's shapes, and then keeps the label array's shape |
| `Compose.WriteBackPlane` | src/napari_rembg/_widget.py:229-230 | for ndim 2, every position with mask > 0 becomes the selected label and every other position keeps its value |
| `Compose.WriteBackVolume` | src/napari_rembg/_widget.py:231-232 | for ndim 3, the voxel read at (i, j) of depth slice `s` becomes the label where the mask is set and keeps its value elsewhere; voxels of other slices do not change |
| `Compose.SliceOfPaintedVolume` | src/napari_rembg/_widget.py:232 | reading slice `s` after the write gives the slice read before it, painted by the mask: the write touches exactly the voxels that `image_data_slice` reads (cf. line 126) |
| `Compose.PaintedPlaneIdempotent` | src/napari_rembg/_widget.py:230 | writing the same mask twice on a 2-D label array equals writing it once |
| `Compose.PaintedVolumeIdempotent` | src/napari_rembg/_widget.py:232 | writing the same mask twice on a 3-D label volume equals writing it once |
| `Compose.WriteBackIdempotent` | src/napari_rembg/_widget.py:227-232 | the masked write, applied again to its own result, gives the same labels |
| `Compose.PaintPlane` | src/napari_rembg/_widget.py:230 | in place on an `array2`, the new contents are the old contents painted by the mask |
| `Compose.PaintSliceRow` | src/napari_rembg/_widget.py:232 | in place, row i of the transposed slice is painted and every other voxel keeps its value |
| `Compose.PaintSlice` | src/napari_rembg/_widget.py:232 | in place on an `array3`, the new contents are the old volume painted through `transpose(axes)[s]` |
| `Widget.Paint` | src/napari_rembg/_widget.py:227-232 | on the layer's own array, reports whether numpy's shapes fit, and then leaves exactly the `WriteBack` value; on failure nothing changes |
| `Widget.RemBGWidget.constructor` | src/napari_rembg/_widget.py:24-26 | the layer fields start as the combo boxes' selections, as the construction-time layer refresh at line 67 leaves them |
| `Widget.RemBGWidget.ThreadReturned` | src/napari_rembg/_widget.py:218-232 | reuses the chosen labels layer or creates a zero one; its array then holds the `WriteBack` of the mask, or is unchanged when numpy would refuse |
| `Widget.RemBGWidget.SegmentAndWrite` | src/napari_rembg/_widget.py:213-232 | the worker's mask is passed to the callback; a failed worker writes nothing; otherwise the chosen labels layer, or a fresh one with label 1, holds the `WriteBack` of the mask with that layer's label |
| `Widget.RemBGWidget.TriggerRemoveBackground` | src/napari_rembg/_widget.py:199-232 | nothing at all changes in 3-D view or with no image chosen; otherwise the image and ROI layers take the combo boxes' choices, and the chosen labels layer (mutated in place) or a fresh one with label 1 gets the write-back of the segmentation with its selected label |

## Left out

- The Qt widget tree, the progress bar and the combo-box population (`_on_layer_change`, lines 135-159): these are UI plumbing. The combo boxes' current selections are fields set by the caller.
- `@thread_worker`, `worker.start` and the `returned` hookup: a click is one sequential call. The viewer's state cannot change between reading the slice and writing the mask, as it could in the host.
- `rembg.remove` and the `PIL.Image.fromarray` conversion (line 13): this is an external model. It is the parameter `remove`, assumed to keep its input's height and width.
- `shapes_layer.to_labels()`, the max-projection and `regionprops_table` (lines 178-183): these are napari and scikit-image internals. Their bounding box is given with the shapes layer. An empty raster, where indexing the empty table raises, is `bbox = None`.
- Floating-point `np.mean` (lines 14 and 221): only the nonzero-mean outcome and the shape effect are modelled.
- `_on_slice_change` (lines 161-167) and the `refresh()` calls: host side effects on layers, with nothing returned to check.
- The `image_data` property's `data is None` case (line 77) cannot be represented: an image layer always has an array.
- The `selected_label` property (lines 128-133) is read directly as the labels layer's `selectedLabel`. A new layer takes 1, napari's default, which is not part of this source.
- ViewerDims.CurrentStep: in 3-D render view it returns `None`. The source evaluates `np.array(step)[None][0]` there, which is the whole step vector. The trigger returns early in that view, so this value is never used.
- Widget.RemBGWidget.ThreadReturned: the write-back uses the image chosen at the trigger. In the source, `viewer.add_labels` (taken when no labels layer is chosen) fires the layer-inserted event. Its handler `_on_layer_change` refills the image combo box and resets `image_layer` to the first listed 2-D or 3-D image. The later reads of `ndim`, `axes` and `current_step` then use that image. Lines 229-232 read only `ndim`, `axes`, `current_step` and `selected_label` from it, never its shape, so a re-selected image with the same `ndim` gives exactly the model's write. When the first listed image's `ndim` differs from the segmented one's, the source does one of two things. A 3-D first image over a 2-D label array makes `transpose(axes)` raise, and nothing is written. A 2-D first image over a 3-D label array takes `data[mask] = selected_label`: this raises when the mask's shape differs from the array's first two extents, and otherwise paints whole columns along the third axis. The model instead writes the mask through the segmented image's view, and `Widget.NewLabelsTakeMask` holds only for the image chosen at the trigger.
- Widget.RemBGWidget.TriggerRemoveBackground: it requires the slider position on the depth axis to lie within the image's depth extent. napari's slider range spans every layer, so with a deeper layer loaded the source's `transpose(axes)[current_step]` (line 126) raises `IndexError` in the worker; that failure is not modelled.
- Slicing.ImageDataSlice: for a 3-D image in 3-D render view it returns `None`. The source would call `transpose(None)` there. The trigger returns early in that view, so this path is never reached.
- Compose.WriteBack: for a 2-D image and a 3-D label array whose first two extents match the mask, numpy would paint whole columns along the third axis. The model treats this as a shape mismatch and writes nothing.
- Pixel values are unbounded integers. The uint8 cast of the mask (line 16) is exact because the mask holds only 0 and 1.
