/** The Python correction helpers of `mc_cc0.corrections`: the
    Benjamini–Hochberg cutoff `bh_threshold`, the stratum weights
    `ihw_weights` (with the stratum of every hypothesis given), and the final
    rescaling step of `apply_ihw`. Numbers are exact reals. */
module Corrections {
  import opened SeqMath

  // ---------------------------------------------------------------------
  // bh_threshold

  /** The BH line at 1-based rank k of m: (k/m)·q. For a level q >= 0 it
      stays within [0, q] at every rank. */
  function Crit(k: nat, m: nat, q: real): (c: real)
    requires m > 0
    ensures 1 <= k <= m && q >= 0.0 ==> 0.0 <= c <= q
  {
    var f := k as real / m as real;
    assert 1 <= k <= m ==> 0.0 < f <= 1.0;
    assert 1 <= k <= m && q >= 0.0 ==> f * q <= 1.0 * q;
    f * q
  }

  /** Rank k (1-based) of the sorted p-values lies on or under the BH line.
      For a level q >= 0 a passing p-value is at most q, and a p-value of
      at most 0 always passes. */
  predicate Passes(p: seq<real>, q: real, k: nat)
    requires 1 <= k <= |p|
    ensures q >= 0.0 && Passes(p, q, k) ==> p[k - 1] <= q
    ensures q >= 0.0 && p[k - 1] <= 0.0 ==> Passes(p, q, k)
  {
    p[k - 1] <= Crit(k, |p|, q)
  }

  /** The largest rank k <= n that passes, or 0 when none of ranks 1..n
      does: one past the last true position of a mask that has a true
      entry, and 0 for an all-false mask. */
  function LastPassing(p: seq<real>, q: real, n: nat): (k: nat)
    requires n <= |p|
    ensures k <= n
    ensures k > 0 ==> Passes(p, q, k)
    ensures forall j :: k < j <= n ==> !Passes(p, q, j)
  {
    if n == 0 then 0
    else if Passes(p, q, n) then n
    else LastPassing(p, q, n - 1)
  }

  /** A rank that passes while every higher rank fails is the one
      LastPassing finds. */
  lemma LastPassingUnique(p: seq<real>, q: real, k: nat)
    requires 1 <= k <= |p| && Passes(p, q, k)
    requires forall j :: k < j <= |p| ==> !Passes(p, q, j)
    ensures LastPassing(p, q, |p|) == k
  {
  }

  /** `bh_threshold(pvals, q)`: the BH line at the largest passing rank of
      the sorted p-values, or 0 when no rank passes (the empty input
      included). */
  function BhThreshold(pvals: seq<real>, q: real): (t: real)
    ensures (forall j :: 1 <= j <= |pvals| ==> !Passes(Sort(pvals), q, j)) ==> t == 0.0
    ensures forall k :: 1 <= k <= |pvals| && Passes(Sort(pvals), q, k)
                        && (forall j :: k < j <= |pvals| ==> !Passes(Sort(pvals), q, j))
                        ==> t == Crit(k, |pvals|, q)
    ensures q >= 0.0 ==> 0.0 <= t <= q
  {
    var p := Sort(pvals);
    var k := LastPassing(p, q, |p|);
    if k == 0 then 0.0 else Crit(k, |p|, q)
  }

  /** The threshold depends only on the multiset of p-values, not on their
      order: the input is sorted first. */
  lemma BhThresholdPermutationInvariant(a: seq<real>, b: seq<real>, q: real)
    requires multiset(a) == multiset(b)
    ensures BhThreshold(a, q) == BhThreshold(b, q)
  {
    SortedUnique(Sort(a), Sort(b));
  }

  // ---------------------------------------------------------------------
  // ihw_weights

  /** The default of `ihw_weights`' smoothing constant eps, 1e-12. */
  const DefaultEps: real := 0.000000000001

  /** The unscaled weight of hypothesis i: the reciprocal of the mean p of
      its bin plus eps, so positive. */
  function IhwRawWeight(pvals: seq<real>, bins: seq<nat>, eps: real, i: nat): (w: real)
    requires |bins| == |pvals| && i < |pvals|
    requires eps > 0.0
    requires forall j :: 0 <= j < |pvals| ==> pvals[j] >= 0.0
    ensures w > 0.0
    ensures w * (GroupMean(pvals, bins, bins[i]) + eps) == 1.0
  {
    GroupMeanNonNegative(pvals, bins, bins[i]);
    1.0 / (GroupMean(pvals, bins, bins[i]) + eps)
  }

  function IhwRawWeights(pvals: seq<real>, bins: seq<nat>, eps: real): (raw: seq<real>)
    requires |bins| == |pvals|
    requires eps > 0.0
    requires forall j :: 0 <= j < |pvals| ==> pvals[j] >= 0.0
    ensures |raw| == |pvals|
    ensures forall i :: 0 <= i < |raw| ==> raw[i] > 0.0
  {
    seq(|pvals|, i requires 0 <= i < |pvals| => IhwRawWeight(pvals, bins, eps, i))
  }

  /** The weights `ihw_weights` returns: the raw weights scaled by
      m / (their sum); one positive weight per hypothesis. */
  function IhwSpec(pvals: seq<real>, bins: seq<nat>, eps: real): (w: seq<real>)
    requires |bins| == |pvals|
    requires eps > 0.0
    requires forall j :: 0 <= j < |pvals| ==> pvals[j] >= 0.0
    ensures |w| == |pvals|
    ensures forall i :: 0 <= i < |w| ==> w[i] > 0.0
  {
    var raw := IhwRawWeights(pvals, bins, eps);
    if raw == [] then []
    else
      NormaliseProperties(raw, |pvals| as real);
      Normalise(raw, |pvals| as real)
  }

  /** `ihw_weights(pvals, covariate)` with the bin of every hypothesis given:
      per-bin mean p-values, the column of raw weights 1/(mean + eps), then
      the column scaled in place so that it sums to m. */
  method IhwWeights(pvals: seq<real>, bins: seq<nat>, eps: real) returns (w: seq<real>)
    requires |bins| == |pvals|
    requires eps > 0.0
    requires forall j :: 0 <= j < |pvals| ==> pvals[j] >= 0.0
    ensures w == IhwSpec(pvals, bins, eps)
  {
    var m := |pvals|;
    var meanP := GroupMeans(pvals, bins);
    var weight := new real[m];
    for i := 0 to m
      invariant forall k :: 0 <= k < i ==> weight[k] == IhwRawWeight(pvals, bins, eps, k)
    {
      GroupMeanNonNegative(pvals, bins, bins[i]);
      weight[i] := 1.0 / (meanP[bins[i]] + eps);
    }
    ghost var raw := IhwRawWeights(pvals, bins, eps);
    assert weight[..] == raw;
    var total := ColumnSum(weight);
    if m > 0 {
      SumPositive(raw);
      ScaleInPlace(weight, m as real / total);
    }
    w := weight[..];
  }

  /** `ihw_weights` called without eps: the weights with eps = 1e-12, one
      positive weight per hypothesis, summing to m. */
  method IhwWeightsDefault(pvals: seq<real>, bins: seq<nat>) returns (w: seq<real>)
    requires |bins| == |pvals|
    requires forall j :: 0 <= j < |pvals| ==> pvals[j] >= 0.0
    ensures w == IhwSpec(pvals, bins, DefaultEps)
    ensures |w| == |pvals| && forall i :: 0 <= i < |w| ==> w[i] > 0.0
    ensures Sum(w) == |pvals| as real
  {
    w := IhwWeights(pvals, bins, DefaultEps);
    IhwWeightsShape(pvals, bins, DefaultEps);
  }

  /** Hypotheses sharing a bin get one weight, every weight is positive, and
      the weights sum to m. */
  lemma IhwWeightsShape(pvals: seq<real>, bins: seq<nat>, eps: real)
    requires |bins| == |pvals|
    requires eps > 0.0
    requires forall k :: 0 <= k < |pvals| ==> pvals[k] >= 0.0
    ensures forall i, j :: 0 <= i < |pvals| && 0 <= j < |pvals| && bins[i] == bins[j] ==>
              IhwSpec(pvals, bins, eps)[i] == IhwSpec(pvals, bins, eps)[j]
    ensures forall i :: 0 <= i < |pvals| ==> IhwSpec(pvals, bins, eps)[i] > 0.0
    ensures Sum(IhwSpec(pvals, bins, eps)) == |pvals| as real
  {
    var raw := IhwRawWeights(pvals, bins, eps);
    if raw != [] {
      NormaliseProperties(raw, |pvals| as real);
      forall i, j | 0 <= i < |pvals| && 0 <= j < |pvals| && bins[i] == bins[j]
        ensures IhwSpec(pvals, bins, eps)[i] == IhwSpec(pvals, bins, eps)[j]
      {
        IhwSameBinSameRaw(pvals, bins, eps, i, j);
      }
    }
  }

  lemma IhwSameBinSameRaw(pvals: seq<real>, bins: seq<nat>, eps: real, i: nat, j: nat)
    requires |bins| == |pvals|
    requires eps > 0.0
    requires forall k :: 0 <= k < |pvals| ==> pvals[k] >= 0.0
    requires i < |pvals| && j < |pvals| && bins[i] == bins[j]
    ensures IhwRawWeights(pvals, bins, eps)[i] == IhwRawWeights(pvals, bins, eps)[j]
  {
    assert IhwRawWeights(pvals, bins, eps)[i] == IhwRawWeight(pvals, bins, eps, i);
    assert IhwRawWeights(pvals, bins, eps)[j] == IhwRawWeight(pvals, bins, eps, j);
  }

  /** A bin with a smaller mean p-value gets a strictly larger weight. */
  lemma IhwSmallerMeanLargerWeight(pvals: seq<real>, bins: seq<nat>, eps: real, i: nat, j: nat)
    requires |bins| == |pvals|
    requires eps > 0.0
    requires forall k :: 0 <= k < |pvals| ==> pvals[k] >= 0.0
    requires i < |pvals| && j < |pvals|
    requires GroupMean(pvals, bins, bins[i]) < GroupMean(pvals, bins, bins[j])
    ensures IhwSpec(pvals, bins, eps)[i] > IhwSpec(pvals, bins, eps)[j]
  {
    var raw := IhwRawWeights(pvals, bins, eps);
    IhwRawOrder(pvals, bins, eps, i, j);
    SumPositive(raw);
    NormaliseKeepsOrder(raw, |pvals| as real);
  }

  lemma IhwRawOrder(pvals: seq<real>, bins: seq<nat>, eps: real, i: nat, j: nat)
    requires |bins| == |pvals|
    requires eps > 0.0
    requires forall k :: 0 <= k < |pvals| ==> pvals[k] >= 0.0
    requires i < |pvals| && j < |pvals|
    requires GroupMean(pvals, bins, bins[i]) < GroupMean(pvals, bins, bins[j])
    ensures IhwRawWeights(pvals, bins, eps)[i] > IhwRawWeights(pvals, bins, eps)[j]
  {
    GroupMeanNonNegative(pvals, bins, bins[i]);
    ReciprocalDecreasing(GroupMean(pvals, bins, bins[i]) + eps, GroupMean(pvals, bins, bins[j]) + eps);
    assert IhwRawWeights(pvals, bins, eps)[i] == IhwRawWeight(pvals, bins, eps, i);
    assert IhwRawWeights(pvals, bins, eps)[j] == IhwRawWeight(pvals, bins, eps, j);
  }

  lemma ReciprocalDecreasing(a: real, b: real)
    requires 0.0 < a < b
    ensures 1.0 / a > 1.0 / b
  {
    assert (1.0 / a) * a == 1.0 && (1.0 / b) * b == 1.0;
    assert (1.0 / b) * a < (1.0 / b) * b;
  }

  // ---------------------------------------------------------------------
  // apply_ihw: weighting before and rescaling after the BY step

  /** The weighted p-values: every p-value divided by its weight. */
  function WeightedP(p: seq<real>, w: seq<real>): (pw: seq<real>)
    requires |p| == |w|
    requires forall i :: 0 <= i < |w| ==> w[i] > 0.0
    ensures |pw| == |p|
  {
    seq(|p|, i requires 0 <= i < |p| => p[i] / w[i])
  }

  /** One element of the final rescaling: the adjusted value times the
      weight, capped at 1. */
  function CappedProduct(padj: real, w: real): (r: real)
    ensures r <= 1.0 && r <= padj * w
    ensures r == 1.0 || r == padj * w
  {
    Min(padj * w, 1.0)
  }

  /** The corrected p-values, elementwise the smaller of the reweighted
      adjusted value and 1. */
  function RescaleIhw(padj: seq<real>, w: seq<real>): (pcorr: seq<real>)
    requires |padj| == |w|
    ensures |pcorr| == |padj|
    ensures forall i :: 0 <= i < |pcorr| ==> pcorr[i] <= 1.0 && pcorr[i] <= padj[i] * w[i]
    ensures forall i :: 0 <= i < |pcorr| ==> pcorr[i] == 1.0 || pcorr[i] == padj[i] * w[i]
  {
    seq(|padj|, i requires 0 <= i < |padj| => CappedProduct(padj[i], w[i]))
  }

  /** Rescaling undoes the weighting: an adjustment that never lowers a
      weighted p-value leaves every corrected value at least min(p, 1), and
      the identity adjustment gives back exactly min(p, 1). */
  lemma RescaleUndoesWeighting(p: seq<real>, w: seq<real>, padj: seq<real>)
    requires |p| == |w| == |padj|
    requires forall i :: 0 <= i < |w| ==> w[i] > 0.0
    requires forall i :: 0 <= i < |p| ==> padj[i] >= WeightedP(p, w)[i]
    ensures forall i :: 0 <= i < |p| ==> RescaleIhw(padj, w)[i] >= Min(p[i], 1.0)
    ensures padj == WeightedP(p, w) ==> forall i :: 0 <= i < |p| ==> RescaleIhw(padj, w)[i] == Min(p[i], 1.0)
  {
    forall i | 0 <= i < |p| ensures padj[i] * w[i] >= p[i] && (padj[i] == p[i] / w[i] ==> padj[i] * w[i] == p[i]) {
      assert (p[i] / w[i]) * w[i] == p[i];
      assert padj[i] * w[i] >= (p[i] / w[i]) * w[i];
    }
  }
}
