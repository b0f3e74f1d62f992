/** The computations inside the command-line front end `mc_cc0.cli`: the
    weighting steps of the fallback IHW path (`_fallback_apply_ihw`, with the
    stratum of every hypothesis given), the BH cutoff drawn on the plot
    (`k_cut`, `y_cut`) and the default plot file name. */
module Cli {
  import opened SeqMath
  import Corrections

  // ---------------------------------------------------------------------
  // _fallback_apply_ihw: stratum weights

  /** The floor 1e-8 used for the raw weights and the final clip. */
  const WeightFloor: real := 0.00000001

  /** How the covariate was binned: `Degenerate` when the quantile edges
      collapse to fewer than two distinct values, otherwise the stratum of
      every hypothesis (the `np.digitize` result). */
  datatype Binning = Degenerate | Strata(ids: seq<nat>)

  predicate WellBinned(m: nat, binning: Binning)
  {
    binning.Strata? ==> |binning.ids| == m
  }

  /** The mean covariate of the stratum of each hypothesis. */
  function StratumMeans(cov: seq<real>, ids: seq<nat>): (means: seq<real>)
    requires |cov| == |ids|
    ensures |means| == |cov|
  {
    seq(|cov|, i requires 0 <= i < |cov| => GroupMean(cov, ids, ids[i]))
  }

  /** `raw_w` of a stratum with mean covariate `mean`, where lo and hi are the
      smallest and largest stratum means: the distance from lo (or, when
      lower is better, to hi) plus 1e-8, clipped below at 1e-8. The clip
      only bites for a mean outside [lo, hi]. */
  function RawWeight(mean: real, lo: real, hi: real, higherIsBetter: bool): (w: real)
    ensures w >= WeightFloor
    ensures higherIsBetter && lo <= mean ==> w == (mean - lo) + WeightFloor
    ensures !higherIsBetter && mean <= hi ==> w == (hi - mean) + WeightFloor
  {
    Max((if higherIsBetter then mean - lo else hi - mean) + WeightFloor, WeightFloor)
  }

  /** The raw weight of the stratum of each hypothesis; every one is at least
      1e-8. */
  function RawWeights(means: seq<real>, higherIsBetter: bool): (raw: seq<real>)
    requires means != []
    ensures |raw| == |means|
    ensures forall i :: 0 <= i < |raw| ==> raw[i] >= WeightFloor
  {
    var lo, hi := SeqMin(means), SeqMax(means);
    seq(|means|, i requires 0 <= i < |means| => RawWeight(means[i], lo, hi, higherIsBetter))
  }

  /** The scale of the raw stratum weights: m over their total when that
      total is positive, else 1. It is positive, and when the raw total is
      positive it brings that total to m. */
  function RawScale(m: nat, totalRaw: real): (c: real)
    ensures m >= 1 ==> c > 0.0
    ensures totalRaw > 0.0 ==> c * totalRaw == m as real
  {
    if totalRaw > 0.0 then m as real / totalRaw else 1.0
  }

  /** The pre-clip weights of a stratified binning: raw weights times the
      scale. */
  function ScaledRaw(raw: seq<real>, m: nat): (w: seq<real>)
    ensures |w| == |raw|
  {
    Scale(raw, RawScale(m, Sum(raw)))
  }

  /** The weights before the final clip and renormalisation: all ones for a
      degenerate binning, otherwise each stratum's raw weight times the
      scale. */
  function PreClipWeights(m: nat, cov: seq<real>, binning: Binning, higherIsBetter: bool): (w: seq<real>)
    requires m >= 1 && |cov| == m && WellBinned(m, binning)
    ensures |w| == m
  {
    match binning
    case Degenerate => seq(m, _ => 1.0)
    case Strata(ids) => ScaledRaw(RawWeights(StratumMeans(cov, ids), higherIsBetter), m)
  }

  /** The weights `_fallback_apply_ihw` returns: the pre-clip weights
      clipped below at 1e-8 and rescaled to sum to m. */
  function FallbackSpec(m: nat, cov: seq<real>, binning: Binning, higherIsBetter: bool): (w: seq<real>)
    requires m >= 1 && |cov| == m && WellBinned(m, binning)
    ensures |w| == m
  {
    var clipped := ClipBelow(PreClipWeights(m, cov, binning, higherIsBetter), WeightFloor);
    SumPositive(clipped);
    Normalise(clipped, m as real)
  }

  /** `raw_w` per stratum: the mean covariate of each stratum, shifted by
      the smallest (or from the largest) stratum mean. */
  method StratumRawWeights(cov: seq<real>, ids: seq<nat>, higherIsBetter: bool) returns (rawW: map<nat, real>)
    requires |cov| >= 1 && |ids| == |cov|
    ensures forall s :: s in rawW <==> s in ids
    ensures forall i :: 0 <= i < |ids| ==> rawW[ids[i]] == RawWeights(StratumMeans(cov, ids), higherIsBetter)[i]
  {
    var m := |cov|;
    var meanCov := GroupMeans(cov, ids);
    var hypMeans := seq(m, i requires 0 <= i < m => meanCov[ids[i]]);
    forall i | 0 <= i < m ensures hypMeans[i] == StratumMeans(cov, ids)[i] {
      assert ids[i] in ids;
    }
    assert hypMeans == StratumMeans(cov, ids);
    var lo, hi := SeqMin(hypMeans), SeqMax(hypMeans);
    rawW := map s | s in meanCov :: RawWeight(meanCov[s], lo, hi, higherIsBetter);
    forall i | 0 <= i < m ensures rawW[ids[i]] == RawWeights(hypMeans, higherIsBetter)[i] {
      assert ids[i] in ids;
    }
  }

  /** The scaled weight map: every stratum's raw weight times the scale,
      over the same strata. */
  function ScaleMap(rawW: map<nat, real>, scale: real): (wMap: map<nat, real>)
    ensures wMap.Keys == rawW.Keys
    ensures scale > 0.0 ==> forall s :: s in wMap ==> (wMap[s] > 0.0 <==> rawW[s] > 0.0)
    ensures scale > 0.0 ==> forall a, b :: a in wMap && b in wMap && rawW[a] < rawW[b] ==> wMap[a] < wMap[b]
  {
    map s | s in rawW :: rawW[s] * scale
  }

  /** The weight of every hypothesis looked up by its stratum, 1 for a
      stratum missing from the map. */
  function LookupOrOne(ids: seq<nat>, wMap: map<nat, real>): (w: seq<real>)
    ensures |w| == |ids|
    ensures forall i :: 0 <= i < |ids| && ids[i] in wMap ==> w[i] == wMap[ids[i]]
    ensures forall i :: 0 <= i < |ids| && ids[i] !in wMap ==> w[i] == 1.0
    ensures forall i, j :: 0 <= i < |ids| && 0 <= j < |ids| && ids[i] == ids[j] ==> w[i] == w[j]
  {
    seq(|ids|, i requires 0 <= i < |ids| => if ids[i] in wMap then wMap[ids[i]] else 1.0)
  }

  /** Every stratum has an entry, so looking up the scaled map is scaling
      the looked-up raw weights. */
  lemma LookupScaledMap(ids: seq<nat>, rawW: map<nat, real>, scale: real)
    requires forall i :: 0 <= i < |ids| ==> ids[i] in rawW
    ensures LookupOrOne(ids, ScaleMap(rawW, scale))
            == Scale(seq(|ids|, i requires 0 <= i < |ids| => rawW[ids[i]]), scale)
  {
    var perHyp := seq(|ids|, i requires 0 <= i < |ids| => rawW[ids[i]]);
    forall i | 0 <= i < |ids| ensures LookupOrOne(ids, ScaleMap(rawW, scale))[i] == Scale(perHyp, scale)[i] {
      assert ScaleMap(rawW, scale)[ids[i]] == rawW[ids[i]] * scale;
    }
  }

  /** The stratified branch of `_fallback_apply_ihw` up to `w_per_hypothesis`:
      `raw_w`, the scale, and the `w_map` lookup with its default 1.0. */
  method StratumWeights(cov: seq<real>, ids: seq<nat>, higherIsBetter: bool) returns (w0: seq<real>)
    requires |cov| >= 1 && |ids| == |cov|
    ensures w0 == PreClipWeights(|cov|, cov, Strata(ids), higherIsBetter)
  {
    var m := |cov|;
    var rawW := StratumRawWeights(cov, ids, higherIsBetter);
    var perHyp := seq(m, i requires 0 <= i < m => rawW[ids[i]]);
    assert perHyp == RawWeights(StratumMeans(cov, ids), higherIsBetter);
    var scale := RawScale(m, Sum(perHyp));
    var wMap := ScaleMap(rawW, scale);
    w0 := LookupOrOne(ids, wMap);
    forall i | 0 <= i < m ensures ids[i] in rawW {
      assert ids[i] in ids;
    }
    LookupScaledMap(ids, rawW, scale);
  }

  /** The weighting steps of `_fallback_apply_ihw(pvals, covariate, ...)`:
      all ones for a degenerate binning, otherwise the stratum weights; then
      the clip at 1e-8 and the in-place renormalisation that brings the
      weights' sum to m. */
  method FallbackWeights(pvals: seq<real>, cov: seq<real>, binning: Binning, higherIsBetter: bool)
    returns (weights: seq<real>)
    requires |pvals| >= 1 && |cov| == |pvals| && WellBinned(|pvals|, binning)
    ensures weights == FallbackSpec(|pvals|, cov, binning, higherIsBetter)
  {
    var m := |pvals|;
    var w0: seq<real>;
    if binning.Degenerate? {
      w0 := seq(m, _ => 1.0);
    } else {
      w0 := StratumWeights(cov, binning.ids, higherIsBetter);
    }
    var w := new real[m](i => if 0 <= i < |w0| then w0[i] else 0.0);
    assert w[..] == w0;
    ClipInPlace(w, WeightFloor);
    var total := ColumnSum(w);
    SumPositive(w[..]);
    ScaleInPlace(w, m as real / total);
    weights := w[..];
  }

  /** Scaling the raw weights keeps them positive and keeps their order. */
  lemma ScaledRawFacts(raw: seq<real>, m: nat)
    requires m >= 1
    requires forall i :: 0 <= i < |raw| ==> raw[i] >= WeightFloor
    ensures forall i :: 0 <= i < |raw| ==> ScaledRaw(raw, m)[i] > 0.0
    ensures forall i, j :: 0 <= i < |raw| && 0 <= j < |raw| && raw[i] <= raw[j] ==>
              ScaledRaw(raw, m)[i] <= ScaledRaw(raw, m)[j]
  {
    ScalePositiveKeepsOrder(raw, RawScale(m, Sum(raw)));
  }

  /** The final weights are positive and sum to m. */
  lemma FallbackPositiveSumToM(m: nat, cov: seq<real>, binning: Binning, higherIsBetter: bool)
    requires m >= 1 && |cov| == m && WellBinned(m, binning)
    ensures forall i :: 0 <= i < m ==> FallbackSpec(m, cov, binning, higherIsBetter)[i] > 0.0
    ensures Sum(FallbackSpec(m, cov, binning, higherIsBetter)) == m as real
  {
    var clipped := ClipBelow(PreClipWeights(m, cov, binning, higherIsBetter), WeightFloor);
    NormaliseProperties(clipped, m as real);
  }

  /** A degenerate binning gives every hypothesis weight 1. */
  lemma FallbackDegenerateAllOnes(m: nat, cov: seq<real>, higherIsBetter: bool)
    requires m >= 1 && |cov| == m
    ensures forall i :: 0 <= i < m ==> FallbackSpec(m, cov, Degenerate, higherIsBetter)[i] == 1.0
  {
    var ones := PreClipWeights(m, cov, Degenerate, higherIsBetter);
    var clipped := ClipBelow(ones, WeightFloor);
    assert forall i :: 0 <= i < m ==> clipped[i] == 1.0;
    SumConstant(clipped, 1.0);
    assert m as real / Sum(clipped) == 1.0;
  }

  /** The raw weight grows with the stratum mean when higher is better and
      shrinks with it otherwise. */
  lemma RawWeightMonotone(a: real, b: real, lo: real, hi: real, higherIsBetter: bool)
    requires a <= b
    ensures higherIsBetter ==> RawWeight(a, lo, hi, higherIsBetter) <= RawWeight(b, lo, hi, higherIsBetter)
    ensures !higherIsBetter ==> RawWeight(a, lo, hi, higherIsBetter) >= RawWeight(b, lo, hi, higherIsBetter)
  {
  }

  /** Ordering of the pre-clip weights by stratum mean. */
  lemma PreClipOrdered(m: nat, cov: seq<real>, ids: seq<nat>, higherIsBetter: bool, i: nat, j: nat)
    requires m >= 1 && |cov| == m && |ids| == m
    requires i < m && j < m
    requires StratumMeans(cov, ids)[i] <= StratumMeans(cov, ids)[j]
    ensures higherIsBetter ==>
              PreClipWeights(m, cov, Strata(ids), higherIsBetter)[i] <= PreClipWeights(m, cov, Strata(ids), higherIsBetter)[j]
    ensures !higherIsBetter ==>
              PreClipWeights(m, cov, Strata(ids), higherIsBetter)[i] >= PreClipWeights(m, cov, Strata(ids), higherIsBetter)[j]
  {
    var means := StratumMeans(cov, ids);
    var raw := RawWeights(means, higherIsBetter);
    RawWeightMonotone(means[i], means[j], SeqMin(means), SeqMax(means), higherIsBetter);
    ScaledRawFacts(raw, m);
  }

  /** With `higher_is_better` a stratum with a larger mean covariate gets a
      final weight at least as large; without it the order reverses. */
  lemma FallbackOrderedByMean(m: nat, cov: seq<real>, ids: seq<nat>, higherIsBetter: bool, i: nat, j: nat)
    requires m >= 1 && |cov| == m && |ids| == m
    requires i < m && j < m
    requires StratumMeans(cov, ids)[i] <= StratumMeans(cov, ids)[j]
    ensures higherIsBetter ==>
              FallbackSpec(m, cov, Strata(ids), higherIsBetter)[i] <= FallbackSpec(m, cov, Strata(ids), higherIsBetter)[j]
    ensures !higherIsBetter ==>
              FallbackSpec(m, cov, Strata(ids), higherIsBetter)[i] >= FallbackSpec(m, cov, Strata(ids), higherIsBetter)[j]
  {
    var pre := PreClipWeights(m, cov, Strata(ids), higherIsBetter);
    var clipped := ClipBelow(pre, WeightFloor);
    PreClipOrdered(m, cov, ids, higherIsBetter, i, j);
    NormaliseProperties(clipped, m as real);
    if higherIsBetter {
      assert clipped[i] <= clipped[j];
    } else {
      assert clipped[i] >= clipped[j];
    }
  }

  /** Hypotheses in the same stratum get the same final weight. */
  lemma FallbackSameStratumSameWeight(m: nat, cov: seq<real>, ids: seq<nat>, higherIsBetter: bool, i: nat, j: nat)
    requires m >= 1 && |cov| == m && |ids| == m
    requires i < m && j < m && ids[i] == ids[j]
    ensures FallbackSpec(m, cov, Strata(ids), higherIsBetter)[i] == FallbackSpec(m, cov, Strata(ids), higherIsBetter)[j]
  {
    assert StratumMeans(cov, ids)[i] == StratumMeans(cov, ids)[j];
    FallbackOrderedByMean(m, cov, ids, higherIsBetter, i, j);
    FallbackOrderedByMean(m, cov, ids, higherIsBetter, j, i);
  }

  // ---------------------------------------------------------------------
  // The BH cutoff drawn on the plot

  /** The plotted cutoff: the rank `k_cut` and, when it is positive, the
      height `y_cut` of the BH line there. */
  datatype Cutoff = Cutoff(k: nat, y: Option<real>)

  /** `k_cut` and `y_cut` for p-values pvals at level alpha. */
  function PlotCutoff(pvals: seq<real>, alpha: real): (c: Cutoff)
    ensures c.k <= |pvals|
    ensures c.k == 0 ==> forall j :: 1 <= j <= |pvals| ==> !Corrections.Passes(Sort(pvals), alpha, j)
    ensures (forall j :: 1 <= j <= |pvals| ==> !Corrections.Passes(Sort(pvals), alpha, j)) ==> c.k == 0
    ensures c.k > 0 ==> Corrections.Passes(Sort(pvals), alpha, c.k)
    ensures forall j :: c.k < j <= |pvals| ==> !Corrections.Passes(Sort(pvals), alpha, j)
    ensures c.y.Some? <==> c.k > 0
  {
    var p := Sort(pvals);
    var k := Corrections.LastPassing(p, alpha, |p|);
    assert k > 0 ==> !(forall j :: 1 <= j <= |pvals| ==> !Corrections.Passes(p, alpha, j));
    Cutoff(k, if k > 0 then Some(Corrections.Crit(k, |p|, alpha)) else None)
  }

  /** The plotted height agrees with `bh_threshold`: `y_cut` is the threshold
      whenever a rank passes, and the threshold is 0 when none does. */
  lemma PlotCutoffMatchesThreshold(pvals: seq<real>, alpha: real)
    ensures PlotCutoff(pvals, alpha).y.Some? ==>
              PlotCutoff(pvals, alpha).y.value == Corrections.BhThreshold(pvals, alpha)
    ensures PlotCutoff(pvals, alpha).y.None? ==> Corrections.BhThreshold(pvals, alpha) == 0.0
  {
    var c := PlotCutoff(pvals, alpha);
    var p := Sort(pvals);
    if c.k > 0 {
      Corrections.LastPassingUnique(p, alpha, c.k);
      assert Corrections.LastPassing(p, alpha, |p|) == c.k;
      assert Corrections.BhThreshold(pvals, alpha) == Corrections.Crit(c.k, |pvals|, alpha);
    } else {
      assert Corrections.LastPassing(p, alpha, |p|) == 0;
    }
  }

  // ---------------------------------------------------------------------
  // The default plot path

  /** The position of the last occurrence of ch in s, if any. */
  function LastIndexOf(s: string, ch: char): (r: Option<nat>)
    ensures r.None? <==> ch !in s
    ensures r.Some? ==> r.value < |s| && s[r.value] == ch && ch !in s[r.value + 1..]
  {
    if s == [] then None
    else if s[|s| - 1] == ch then Some(|s| - 1)
    else
      var r := LastIndexOf(s[..|s| - 1], ch);
      assert r.Some? ==> s[r.value + 1..] == s[..|s| - 1][r.value + 1..] + [s[|s| - 1]];
      assert s == s[..|s| - 1] + [s[|s| - 1]];
      r
  }

  /** Splitting s once at its last '.' and keeping the left part: s up to
      its last '.', or all of s when it has none. */
  function BeforeLastDot(s: string): (r: string)
    ensures r <= s
    ensures '.' !in s ==> r == s
    ensures '.' in s ==> |r| < |s| && s[|r|] == '.' && '.' !in s[|r| + 1..]
  {
    match LastIndexOf(s, '.')
    case None => s
    case Some(k) => s[..k]
  }

  const PlotSuffix: string := "_bh_plot.png"

  /** The plot file name as written: an explicit non-empty plot path wins;
      otherwise `out` loses its text from the last '.' on, wherever that
      '.' is, and gains the plot suffix. */
  function PlotPath(plotOut: Option<string>, out: string): (path: string)
    ensures plotOut.Some? && plotOut.value != "" ==> path == plotOut.value
    ensures !(plotOut.Some? && plotOut.value != "") && '.' !in out ==> path == out + PlotSuffix
    ensures !(plotOut.Some? && plotOut.value != "") && '.' in out ==>
              path == out[..LastIndexOf(out, '.').value] + PlotSuffix
  {
    if plotOut.Some? && plotOut.value != "" then plotOut.value
    else BeforeLastDot(out) + PlotSuffix
  }

  /** The rewrite as written also cuts at a '.' in a directory name: for
      `--out a.b/c` the plot goes to `a_bh_plot.png`, outside directory
      `a.b/`. */
  lemma PlotPathLeavesDirectory()
    ensures PlotPath(None, "a.b/c") == "a_bh_plot.png"
    ensures !("a.b/" <= PlotPath(None, "a.b/c"))
  {
    assert LastIndexOf("a.b/c", '.') == Some(1) by {
      assert "a.b/c"[..4] == "a.b/";
      assert "a.b/"[..3] == "a.b";
      assert "a.b"[..2] == "a.";
    }
    assert BeforeLastDot("a.b/c") == "a";
    assert PlotPath(None, "a.b/c")[1] == '_';
  }

  /** The start of the last path component of s: just after its last '/',
      or 0. */
  function FileNameStart(s: string): (i: nat)
    ensures i <= |s|
    ensures '/' !in s[i..]
    ensures i > 0 ==> s[i - 1] == '/'
  {
    match LastIndexOf(s, '/')
    case None => 0
    case Some(d) => d + 1
  }

  /** s without the extension of its last path component: cut at the last
      '.' only when it comes after the last '/'. */
  function StripExtension(s: string): (r: string)
    ensures r <= s
  {
    match LastIndexOf(s, '.')
    case None => s
    case Some(k) => if k >= FileNameStart(s) then s[..k] else s
  }

  /** The stripped name keeps the directory part; it drops exactly the text
      from the last '.' on when that '.' is in the file name, and nothing
      otherwise. */
  lemma StripExtensionKeepsDirectory(s: string)
    ensures s[..FileNameStart(s)] <= StripExtension(s)
    ensures '.' !in s[FileNameStart(s)..] ==> StripExtension(s) == s
    ensures '.' in s[FileNameStart(s)..] ==>
              && LastIndexOf(s, '.').Some?
              && FileNameStart(s) <= LastIndexOf(s, '.').value
              && StripExtension(s) == s[..LastIndexOf(s, '.').value]
  {
    var start := FileNameStart(s);
    var dot := LastIndexOf(s, '.');
    if dot.None? {
      assert StripExtension(s) == s;
      assert s[0..] == s;
      AbsentFromLaterSuffix(s, '.', 0, start);
    } else if dot.value >= start {
      var k := dot.value;
      assert StripExtension(s) == s[..k];
      PresentInSuffix(s, '.', start, k);
      PrefixOfPrefix(s, start, k);
    } else {
      var k := dot.value;
      assert StripExtension(s) == s;
      AbsentFromLaterSuffix(s, '.', k + 1, start);
    }
  }

  lemma AbsentFromLaterSuffix(s: string, ch: char, a: nat, b: nat)
    requires a <= b <= |s|
    requires ch !in s[a..]
    ensures ch !in s[b..]
  {
    assert s[b..] == s[a..][b - a..];
  }

  lemma PresentInSuffix(s: string, ch: char, a: nat, k: nat)
    requires a <= k < |s| && s[k] == ch
    ensures ch in s[a..]
  {
    assert s[a..][k - a] == ch;
  }

  lemma PrefixOfPrefix(s: string, a: nat, b: nat)
    requires a <= b <= |s|
    ensures s[..a] <= s[..b]
  {
    assert s[..b][..a] == s[..a];
  }

  /** The default plot path with the extension removed from the file name
      only: the plot lands in the directory of `out`. */
  function PlotPathInSameDirectory(plotOut: Option<string>, out: string): (path: string)
    ensures plotOut.Some? && plotOut.value != "" ==> path == plotOut.value
    ensures !(plotOut.Some? && plotOut.value != "") ==>
              out[..FileNameStart(out)] <= path && path == StripExtension(out) + PlotSuffix
  {
    if plotOut.Some? && plotOut.value != "" then plotOut.value
    else
      StripExtensionKeepsDirectory(out);
      StripExtension(out) + PlotSuffix
  }

  /** When `out` names no directory the two rewrites agree. */
  lemma PlotPathsAgreeWithoutDirectory(plotOut: Option<string>, out: string)
    requires '/' !in out
    ensures PlotPath(plotOut, out) == PlotPathInSameDirectory(plotOut, out)
  {
    assert FileNameStart(out) == 0;
    assert out[FileNameStart(out)..] == out;
  }
}
