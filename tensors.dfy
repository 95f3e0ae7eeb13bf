/** Dense tensors as nested sequences, and the handful of element-wise and
    reduction operations the encoder and the aggregator perform on them.

    Learned activations are `real`s; the numeric layers that produce them are
    parameters of the model and nothing is assumed about their values. */
module Tensors {

  /** One feature vector (the last tensor axis). */
  type Vec = seq<real>

  /** A time series of feature vectors, `[time_steps][features]`. */
  type Series = seq<Vec>

  /** The all-zero vector of width `h`. */
  function Zeros(h: nat): Vec
  {
    seq(h, _ => 0.0)
  }

  /** `s.any()`: true iff some element of `s` is true. */
  function AnyTrue(s: seq<bool>): (r: bool)
    ensures r <==> exists i :: 0 <= i < |s| && s[i]
  {
    if |s| == 0 then false
    else AnyTrue(s[..|s| - 1]) || s[|s| - 1]
  }

  /** `[B][N][H]` tensors `a` and `c` have the same shape. */
  predicate SameShape3(a: seq<seq<Vec>>, c: seq<seq<Vec>>)
  {
    && |a| == |c|
    && (forall b :: 0 <= b < |a| ==> |a[b]| == |c[b]|)
    && (forall b, n :: 0 <= b < |a| && 0 <= n < |a[b]| ==> |a[b][n]| == |c[b][n]|)
  }

  /** Element-wise sum of two tensors of the same shape (`a + c`). */
  function Add3(a: seq<seq<Vec>>, c: seq<seq<Vec>>): (r: seq<seq<Vec>>)
    requires SameShape3(a, c)
    ensures SameShape3(r, a)
    ensures forall b, n, h :: 0 <= b < |a| && 0 <= n < |a[b]| && 0 <= h < |a[b][n]| ==> r[b][n][h] == a[b][n][h] + c[b][n][h]
  {
    seq(|a|, b requires 0 <= b < |a| =>
      seq(|a[b]|, n requires 0 <= n < |a[b]| =>
        seq(|a[b][n]|, h requires 0 <= h < |a[b][n]| => a[b][n][h] + c[b][n][h])))
  }

  /** Every time step of every entity of a mask tensor has at least one channel,
      so that channel 0 (`masks[:, :, :, 0]`) exists. */
  predicate HasChannel0(masks: seq<seq<Series>>)
  {
    forall b, n, t :: 0 <= b < |masks| && 0 <= n < |masks[b]| && 0 <= t < |masks[b][n]| ==> |masks[b][n][t]| > 0
  }

  /** `masks[:, :, :, 0]`: channel 0 of a `[B][N][T][C]` mask tensor. */
  function Channel0(masks: seq<seq<Series>>): (m0: seq<seq<seq<real>>>)
    requires HasChannel0(masks)
    ensures |m0| == |masks|
    ensures forall b :: 0 <= b < |masks| ==> |m0[b]| == |masks[b]|
    ensures forall b, n :: 0 <= b < |masks| && 0 <= n < |masks[b]| ==> |m0[b][n]| == |masks[b][n]|
    ensures forall b, n, t :: 0 <= b < |masks| && 0 <= n < |masks[b]| && 0 <= t < |masks[b][n]| ==>
              m0[b][n][t] == masks[b][n][t][0]
  {
    seq(|masks|, b requires 0 <= b < |masks| =>
      seq(|masks[b]|, n requires 0 <= n < |masks[b]| =>
        seq(|masks[b][n]|, t requires 0 <= t < |masks[b][n]| => masks[b][n][t][0])))
  }

  /** `~m.bool()` on a row of mask values: a position is valid iff its mask is 0
      (the masks use 1 for padding and 0 for data). */
  function ValidWhereZero(m: seq<real>): (r: seq<bool>)
    ensures |r| == |m|
    ensures forall t :: 0 <= t < |m| ==> (r[t] <==> m[t] == 0.0)
  {
    seq(|m|, t requires 0 <= t < |m| => !(m[t] != 0.0))
  }

  /** Every entry of a row of mask values is 0 or 1. */
  predicate Binary(m: seq<real>)
  {
    forall t :: 0 <= t < |m| ==> m[t] == 0.0 || m[t] == 1.0
  }
}
