/** The viewer's dimension state and the axis bookkeeping derived from it:
    the `axes` permutation that puts the non-displayed (depth) axis first,
    and the slider position on that axis. */
module ViewerDims {
  import opened Wrappers

  /** A snapshot of the viewer's `dims`: how many dimensions are rendered,
      which ones are displayed, and the slider position of every dimension. */
  datatype Dims = Dims(ndisplay: nat, displayed: seq<nat>, currentStep: seq<nat>)
  {
    predicate In3DView() { ndisplay == 3 }

    /** What the viewer guarantees: it has 2 or 3 dimensions, and in 2-D view
        it displays two distinct ones of them. */
    predicate Valid() {
      (|currentStep| == 2 || |currentStep| == 3) &&
      (!In3DView() ==>
        |displayed| == 2 && displayed[0] != displayed[1] &&
        displayed[0] < |currentStep| && displayed[1] < |currentStep|)
    }
  }

  /** `axes` is an ordering of the three axes 0, 1 and 2. */
  predicate IsPerm3(axes: seq<nat>) {
    |axes| == 3 && axes[0] < 3 && axes[1] < 3 && axes[2] < 3 &&
    axes[0] != axes[1] && axes[0] != axes[2] && axes[1] != axes[2]
  }

  /** The element of `{0, 1, 2} - set(displayed)`. */
  function MissingAxis(displayed: seq<nat>): (k: nat)
    requires |displayed| == 2 && displayed[0] != displayed[1] && displayed[0] < 3 && displayed[1] < 3
    ensures k < 3 && k !in displayed
    ensures forall m :: 0 <= m < 3 && m !in displayed ==> m == k
  {
    if 0 !in displayed then 0 else if 1 !in displayed then 1 else 2
  }

  /** The `axes` property: nothing in 3-D view; otherwise the displayed
      dimensions, with the missing one put in front when the image is 3-D. */
  function Axes(ndim: Option<nat>, dims: Dims): (r: Option<seq<nat>>)
    requires dims.Valid()
    ensures r.None? <==> dims.In3DView()
    ensures r.Some? && ndim != Some(3) ==> r.value == dims.displayed
    ensures r.Some? && ndim == Some(3) ==>
      IsPerm3(r.value) && r.value[1..] == dims.displayed && r.value[0] !in dims.displayed
  {
    if dims.In3DView() then None
    else if ndim == Some(3) then Some([MissingAxis(dims.displayed)] + dims.displayed)
    else Some(dims.displayed)
  }

  /** The `current_step` property: the slider position of dimension `axes[0]`. */
  function CurrentStep(ndim: Option<nat>, dims: Dims): (r: Option<nat>)
    requires dims.Valid()
    requires ndim == Some(3) ==> |dims.currentStep| == 3
    ensures r.None? <==> dims.In3DView()
    ensures r.Some? && ndim == Some(3) ==>
      forall k :: 0 <= k < 3 && k !in dims.displayed ==> r.value == dims.currentStep[k]
    ensures r.Some? && ndim != Some(3) ==> r.value == dims.currentStep[dims.displayed[0]]
  {
    match Axes(ndim, dims)
    case None => None
    case Some(axes) => Some(dims.currentStep[axes[0]])
  }

  /** Coordinate `k` of the voxel `(c0, c1, c2)`. */
  function Pick(k: nat, c0: int, c1: int, c2: int): int {
    if k == 0 then c0 else if k == 1 then c1 else c2
  }

  /** Coordinate `k`, in the array, of position `(s, i, j)` of the array
      transposed by `axes`: the inverse of reading coordinates through `axes`. */
  function Place(axes: seq<nat>, k: nat, s: int, i: int, j: int): int
    requires IsPerm3(axes)
  {
    if k == axes[0] then s else if k == axes[1] then i else j
  }

  /** Transposing by `axes` and then placing back gives the same voxel. */
  lemma PlaceOfView(axes: seq<nat>, c0: int, c1: int, c2: int)
    requires IsPerm3(axes)
    ensures forall k :: 0 <= k < 3 ==>
      Place(axes, k, Pick(axes[0], c0, c1, c2), Pick(axes[1], c0, c1, c2), Pick(axes[2], c0, c1, c2)) == Pick(k, c0, c1, c2)
  {
  }

  /** Placing a transposed position and reading it back through `axes`
      gives the same position. */
  lemma ViewOfPlace(axes: seq<nat>, s: int, i: int, j: int)
    requires IsPerm3(axes)
    ensures Pick(axes[0], Place(axes, 0, s, i, j), Place(axes, 1, s, i, j), Place(axes, 2, s, i, j)) == s
    ensures Pick(axes[1], Place(axes, 0, s, i, j), Place(axes, 1, s, i, j), Place(axes, 2, s, i, j)) == i
    ensures Pick(axes[2], Place(axes, 0, s, i, j), Place(axes, 1, s, i, j), Place(axes, 2, s, i, j)) == j
  {
  }
}
