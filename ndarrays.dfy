/** The numpy arrays the widget handles: 2-D or 3-D, with their shape carried
    explicitly as numpy does, so that an extent of zero keeps the others. */
module NdArrays {

  /** True when `g` is a `h` x `w` grid. */
  predicate IsGrid<T>(g: seq<seq<T>>, h: nat, w: nat) {
    |g| == h && forall i :: 0 <= i < h ==> |g[i]| == w
  }

  datatype NdArray =
    | Plane(h: nat, w: nat, px: seq<seq<int>>)
    | Cube(n0: nat, n1: nat, n2: nat, vox: seq<seq<seq<int>>>)
  {
    /** The nested sequences have the shape the array declares. */
    predicate Valid() {
      match this
      case Plane(h, w, px) => IsGrid(px, h, w)
      case Cube(n0, n1, n2, vox) => |vox| == n0 && forall i :: 0 <= i < n0 ==> IsGrid(vox[i], n1, n2)
    }

    /** The numpy `shape`. */
    function Shape(): seq<nat> {
      if Plane? then [h, w] else [n0, n1, n2]
    }

    /** `shape[0]` and `shape[1]`: the extents a 2-D crop works on. */
    function Rows(): nat { if Plane? then h else n0 }
    function Cols(): nat { if Plane? then w else n1 }
  }

  /** Extent of a 3-D array along axis `k`. */
  function Extent(a: NdArray, k: nat): nat
    requires a.Cube?
  {
    if k == 0 then a.n0 else if k == 1 then a.n1 else a.n2
  }

  /** Index `k` of an axis of extent `n` is selected by the Python slice `lo:hi`. */
  predicate Selects(lo: nat, hi: nat, n: nat, k: int) {
    lo <= k < hi && k < n
  }

  /** The half-open range `[start, stop)` that the Python slice `lo:hi` selects
      on an axis of extent `n`: bounds past the end are clamped and a reversed
      slice is empty. */
  function SliceBounds(lo: nat, hi: nat, n: nat): (r: (nat, nat))
    ensures r.0 <= r.1 <= n
    ensures forall k :: Selects(lo, hi, n, k) <==> r.0 <= k < r.1
  {
    var start := if lo < n then lo else n;
    var stop := if hi < n then hi else n;
    (start, if stop < start then start else stop)
  }

  /** `a[r0:r1, q0:q1]` on in-range bounds: the block of rows `[r0, r1)` and
      columns `[q0, q1)`, keeping a trailing channel axis whole. */
  function Crop(a: NdArray, r0: nat, r1: nat, q0: nat, q1: nat): (b: NdArray)
    requires a.Valid() && r0 <= r1 <= a.Rows() && q0 <= q1 <= a.Cols()
    ensures b.Valid() && b.Plane? == a.Plane?
    ensures b.Rows() == r1 - r0 && b.Cols() == q1 - q0
    ensures a.Cube? ==> b.n2 == a.n2
    ensures a.Plane? ==> forall i, j :: 0 <= i < r1 - r0 && 0 <= j < q1 - q0 ==> b.px[i][j] == a.px[r0 + i][q0 + j]
    ensures a.Cube? ==> forall i, j :: 0 <= i < r1 - r0 && 0 <= j < q1 - q0 ==> b.vox[i][j] == a.vox[r0 + i][q0 + j]
  {
    match a
    case Plane(h, w, px) =>
      Plane(r1 - r0, q1 - q0, seq(r1 - r0, i requires 0 <= i < r1 - r0 => px[r0 + i][q0..q1]))
    case Cube(n0, n1, n2, vox) =>
      Cube(r1 - r0, q1 - q0, n2, seq(r1 - r0, i requires 0 <= i < r1 - r0 => vox[r0 + i][q0..q1]))
  }

  /** An all-zero 2-D array of the given shape (`np.zeros((h, w))`). */
  function ZeroPlane(h: nat, w: nat): (z: NdArray)
    ensures z.Plane? && z.Valid() && z.h == h && z.w == w
    ensures forall i, j :: 0 <= i < h && 0 <= j < w ==> z.px[i][j] == 0
  {
    Plane(h, w, seq(h, i => seq(w, j => 0)))
  }

  /** An all-zero 3-D array of the given shape. */
  function ZeroCube(n0: nat, n1: nat, n2: nat): (z: NdArray)
    ensures z.Cube? && z.Valid() && z.Shape() == [n0, n1, n2]
    ensures forall i, j, k :: 0 <= i < n0 && 0 <= j < n1 && 0 <= k < n2 ==> z.vox[i][j][k] == 0
  {
    Cube(n0, n1, n2, seq(n0, i => seq(n1, j => seq(n2, k => 0))))
  }
}
