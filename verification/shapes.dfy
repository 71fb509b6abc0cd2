/** Small arithmetic and shape helpers shared by the runtime and export models. */
module Shapes {

  function Min(a: int, b: int): int { if a <= b then a else b }

  function Max(a: int, b: int): int { if a >= b then a else b }

  /** A spectrogram row of `bins` zeros: the padding both pipelines append. */
  function ZeroRow(bins: nat): (r: seq<real>)
    ensures |r| == bins && forall i :: 0 <= i < bins ==> r[i] == 0.0
  {
    seq(bins, _ => 0.0)
  }
}
