/** `rembg_predict`: the external background-removal model, and the
    post-processing that turns its output into a 0/1 mask. */
module Predict {
  import opened NdArrays

  newtype uint8 = x: int | 0 <= x < 256

  /** The model's output as numpy sees it: height x width x channels. */
  type Rgba = seq<seq<seq<uint8>>>

  /** What the model is assumed to promise: it returns an image with the
      height and width of the image it is given. */
  ghost predicate PreservesSize(remove: NdArray -> Rgba) {
    forall a: NdArray :: a.Valid() ==> IsGrid(remove(a), a.Rows(), a.Cols())
  }

  function ChannelSum(px: seq<uint8>): int {
    if px == [] then 0 else px[0] as int + ChannelSum(px[1..])
  }

  /** Channel values are never negative, so they sum to zero exactly when
      every one of them is zero. */
  lemma {:induction false} ChannelSumZero(px: seq<uint8>)
    ensures ChannelSum(px) >= 0
    ensures ChannelSum(px) == 0 <==> forall k :: 0 <= k < |px| ==> px[k] == 0
  {
    if px != [] {
      ChannelSumZero(px[1..]);
      assert forall k :: 1 <= k < |px| ==> px[k] == px[1..][k - 1];
    }
  }

  /** One pixel of `seg[np.mean(seg, axis=2) != 0] = 1`: the mean of its
      channels is nonzero (or, with no channel at all, NaN) when the pixel
      becomes 1, and it is 0 otherwise. */
  function Binarize(px: seq<uint8>): (b: int)
    ensures b == 0 || b == 1
    ensures b == 1 <==> |px| == 0 || exists k :: 0 <= k < |px| && px[k] != 0
  {
    ChannelSumZero(px);
    if |px| == 0 || ChannelSum(px) != 0 then 1 else 0
  }

  /** `rembg_predict(image)`: the model's output reduced to a 0/1 mask with
      the image's height and width. */
  function RembgPredict(remove: NdArray -> Rgba, image: NdArray): (m: NdArray)
    requires image.Valid() && PreservesSize(remove)
    ensures m.Plane? && m.Valid() && m.h == image.Rows() && m.w == image.Cols()
    ensures forall i, j :: 0 <= i < m.h && 0 <= j < m.w ==>
      (m.px[i][j] == 0 || m.px[i][j] == 1) &&
      (m.px[i][j] == 1 <==> |remove(image)[i][j]| == 0 || exists k :: 0 <= k < |remove(image)[i][j]| && remove(image)[i][j][k] != 0)
  {
    var out := remove(image);
    var h, w := image.Rows(), image.Cols();
    Plane(h, w, seq(h, i requires 0 <= i < h => seq(w, j requires 0 <= j < w => Binarize(out[i][j]))))
  }
}
