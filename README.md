# Multiple-comparisons toolkit: a verified model of its arithmetic core

This project models the parts of the multiple-comparisons toolkit (`mc_cc0` and
its browser calculator) that compute something themselves rather than handing
the work to statsmodels. All numbers are exact reals.

- **Step-wise adjustment** (`docs/app.js`), module `StepAdjust`:
  - `sortWithIndex`, modelled as a stable sort of (value, position) pairs.
  - `unsort`.
  - Holm's step-down (`holmAdjust`).
  - The Benjamini–Hochberg and Benjamini–Yekutieli step-ups (`bhAdjust`, `byAdjust`).
  - The reject map of `run`.

  Each adjuster's loop is a method over an array. It is proved equal to a
  rank-order specification function: `HolmRunning` is a running maximum from 0;
  `StepUpRunning` is a running minimum from 1, taken from the top rank down.
  The properties are proved about those functions and carried back to the
  original positions.
- **BH cutoff** (`bh_threshold` in `corrections.py`, and the plotted
  `k_cut`/`y_cut` in `cli.py`), modules `Corrections` and `Cli`. The largest
  1-based rank k with `p_(k) <= (k/m)·q`.
- **Stratum weights**:
  - `ihw_weights`: 1/(mean p of the bin + eps), scaled to sum to m.
  - The final rescaling `min(p_adj·w, 1)` of `apply_ihw`.
  - The weighting steps of `_fallback_apply_ihw`: shifted stratum means, a
    floor of 1e-8, the `w_map` lookup, the clip, and the in-place
    renormalisation.

  The bin or stratum of every hypothesis is an input. The column operations are
  methods on arrays (`SeqMath.ColumnSum`, `ScaleInPlace`, `ClipInPlace`) and
  the per-group operations are loops building maps (`SeqMath.GroupMeans`).
- **Decision advisor** (`recommend`), module `DecisionFlow`.
- **Guardrail** (`var_eff`, `check_guardrail`), module `Guardrail`. Infinity is
  modelled by a datatype `Ext = Inf | Fin(real)`.
- **Default plot path** (`cli.py` line 153), module `Cli`.

`SeqMath` holds the shared vocabulary: sums, scaling, normalising, clipping,
group means, and a sort (`np.sort`) with the fact that a sorted permutation is
unique.

## Model

| member | source | states |
|---|---|---|
| StepAdjust.SortWithIndex | docs/app.js:6-8 | one entry per input value |
| StepAdjust.SortWithIndexIsRanking | docs/app.js:6-8 | the entries are in ascending value order, ties keep their input order, each entry's value is the input value at its remembered position, and the positions form a permutation of 0..m-1 |
| StepAdjust.StableSortStable | docs/app.js:7 | the stable sort of entries whose positions increase is sorted by (value, position) |
| StepAdjust.Unsort | docs/app.js:10-14 | for a permutation `order`, the output has length `order.length` and holds `valuesSorted[k]` at position `order[k]` for every k |
| StepAdjust.UnsortInvertsSort | docs/app.js:6-14 | unsorting the sorted values by their positions gives back the input exactly |
| StepAdjust.HolmRankOrder | docs/app.js:21-28 | the loop's array equals the Holm running maximum in rank order |
| StepAdjust.HolmCurveProperties | docs/app.js:21-28 | in ascending-p order the Holm values never decrease, each is at least `min(1, (m-j)·p_(j))`, and each lies in [0, 1] |
| StepAdjust.HolmAdjust | docs/app.js:17-31 | output has the input's length and holds the Holm rank-order value of each p-value at its original position |
| StepAdjust.HolmOutputFacts | docs/app.js:17-31 | at original positions a smaller p-value never gets a larger Holm value, and every value lies in [0, 1] |
| StepAdjust.StepUpCurveProperties | docs/app.js:38-45 | in ascending-p order the step-up values never decrease, each is at most `min(1, m/(j+1)·c·p_(j))`, each is at most 1, and each is at least 0 for non-negative p and c |
| StepAdjust.BhTopRank | docs/app.js:39-44 | the top rank's BH value is `min(1, p_(m))` |
| StepAdjust.BhRankOrder | docs/app.js:38-45 | the downward loop's array equals the BH running minimum in rank order |
| StepAdjust.BhAdjust | docs/app.js:34-48 | output has the input's length and holds the BH rank-order value of each p-value at its original position |
| StepAdjust.Harmonic | docs/app.js:53 | the BY constant 1 + 1/2 + … + 1/m is never negative and is at least 1 for m >= 1 |
| StepAdjust.ByRankOrder | docs/app.js:56-63 | the downward loop's array equals the step-up running minimum with the factor `(m/(j+1))·c` |
| StepAdjust.ByAdjust | docs/app.js:51-66 | output has the input's length and holds the BY rank-order value (c the harmonic number) at each original position |
| StepAdjust.StepUpOutputFacts | docs/app.js:34-66 | at original positions a smaller p-value never gets a larger BH/BY value, every value is at most 1, and at least 0 for non-negative p |
| StepAdjust.StepUpDominates | docs/app.js:59-62 | with c >= 1 and non-negative p, the running minimum from each rank is at least the BH one |
| StepAdjust.LargerFactorPlacedHigher | docs/app.js:34-66 | for non-negative p-values, any step-up factor c >= 1 gives every position a value at least its BH value |
| StepAdjust.ByAtLeastBh | docs/app.js:51-66 | for non-negative p-values, every position's BY value is at least its BH value |
| StepAdjust.RejectMap | docs/app.js:81 | one flag per adjusted value, true exactly when that value is <= alpha; rejection is closed downwards, so any hypothesis whose adjusted value is no larger than a rejected one's is rejected |
| StepAdjust.RejectMapMonotoneInAlpha | docs/app.js:81 | raising alpha never takes a rejection back, and an alpha below every adjusted value rejects nothing |
| StepAdjust.Run | docs/app.js:72-81 | no table exactly when no p-values were given; otherwise the adjuster picked by name ("fdr_bh", "fdr_by", anything else Holm), flags equal to the reject map, and a rejected p-value implies every strictly smaller one is rejected |
| Corrections.LastPassing | src/mc_cc0/corrections.py:95-98 | the result is 0 or a passing rank, and every higher rank up to n fails |
| Corrections.LastPassingUnique | src/mc_cc0/corrections.py:95-98 | a passing rank above which every rank fails is the one the search finds, so the largest passing rank is unique |
| Corrections.BhThreshold | src/mc_cc0/corrections.py:91-99 | 0 when no sorted rank passes (empty input included); otherwise `(k/m)·q` for the largest passing rank k; within [0, q] when q >= 0 |
| Corrections.BhThresholdPermutationInvariant | src/mc_cc0/corrections.py:92 | any two inputs with the same multiset of p-values give the same threshold |
| Corrections.Crit | src/mc_cc0/corrections.py:94 | for 1 <= k <= m and q >= 0 the BH line `(k/m)·q` at rank k lies in [0, q] |
| Corrections.Passes | src/mc_cc0/corrections.py:95 | for q >= 0, a passing sorted p-value is at most q, and a p-value of at most 0 always passes |
| Corrections.IhwRawWeight | src/mc_cc0/corrections.py:47-48 | the raw weight is positive and is the reciprocal of the bin's mean p-value plus eps |
| Corrections.IhwRawWeights | src/mc_cc0/corrections.py:47-48 | one raw weight per hypothesis, each positive |
| Corrections.IhwSpec | src/mc_cc0/corrections.py:47-51 | one weight per hypothesis, each positive |
| Corrections.IhwWeights | src/mc_cc0/corrections.py:43-51 | the column built and scaled in place equals the bin reciprocal weights normalised to sum to m |
| Corrections.IhwWeightsDefault | src/mc_cc0/corrections.py:28-51 | with the default eps = 1e-12 the weights are those of the general case, each positive, summing to m |
| Corrections.IhwWeightsShape | src/mc_cc0/corrections.py:47-50 | hypotheses in one bin get one weight, every weight is positive, and the weights sum to m |
| Corrections.IhwSmallerMeanLargerWeight | src/mc_cc0/corrections.py:47-48 | a bin with a strictly smaller mean p-value gets a strictly larger weight |
| Corrections.WeightedP | src/mc_cc0/corrections.py:85 | one weighted p-value per hypothesis |
| Corrections.CappedProduct | src/mc_cc0/corrections.py:87 | the capped value is at most 1, at most `p_adj·w`, and equal to one of the two |
| Corrections.RescaleIhw | src/mc_cc0/corrections.py:87 | same length as the input; each value is at most 1, at most `p_adj·w`, and equal to one of the two |
| Corrections.RescaleUndoesWeighting | src/mc_cc0/corrections.py:85-87 | if the adjustment never lowers a weighted p-value, each corrected value is at least `min(p, 1)`; the identity adjustment gives exactly `min(p, 1)` |
| SeqMath.GroupMeans | src/mc_cc0/cli.py:44-45 | the map has exactly the groups present, each mapped to the mean of its members |
| SeqMath.GroupCounts | src/mc_cc0/cli.py:45 | the group sizes behind the group means: the map has exactly the groups present, each mapped to its size |
| SeqMath.GroupMeanNonNegative | src/mc_cc0/corrections.py:47 | the mean of a group of non-negative values is non-negative |
| SeqMath.ColumnSum | src/mc_cc0/corrections.py:50 | the loop's total is the sum of the column |
| SeqMath.ScaleInPlace | src/mc_cc0/corrections.py:50 | the column becomes the old column times c, element by element |
| SeqMath.ClipInPlace | src/mc_cc0/cli.py:62 | the column becomes the old column clipped below at the bound |
| SeqMath.ClipBelow | src/mc_cc0/cli.py:62 | every clipped value is at least the bound and at least the original, and equals one of the two |
| SeqMath.NormaliseProperties | src/mc_cc0/cli.py:63 | normalising a positive column to a positive total gives that sum, keeps every value positive, and keeps both the strict and non-strict order of any two values |
| SeqMath.Sort | src/mc_cc0/corrections.py:92 | the result is sorted and a permutation of the input |
| SeqMath.SortedUnique | src/mc_cc0/corrections.py:92 | two sorted sequences with the same multiset are equal |
| SeqMath.SeqMin | src/mc_cc0/cli.py:47 | an element of the sequence that is at most every element |
| SeqMath.SeqMax | src/mc_cc0/cli.py:49 | an element of the sequence that is at least every element |
| Cli.RawWeight | src/mc_cc0/cli.py:46-50 | the raw weight is at least 1e-8; for a mean within [lo, hi] the clip does not bite and the weight is the distance from the smallest mean (or to the largest, when lower is better) plus 1e-8 |
| Cli.RawWeights | src/mc_cc0/cli.py:46-50 | one raw weight per hypothesis, each at least 1e-8 |
| Cli.RawScale | src/mc_cc0/cli.py:56 | the scale is positive for m >= 1, and when the raw total is positive it brings that total to m |
| Cli.StratumRawWeights | src/mc_cc0/cli.py:44-50 | `raw_w` has an entry for exactly the strata present, and the entry of each hypothesis's stratum is its raw weight |
| Cli.ScaleMap | src/mc_cc0/cli.py:57-58 | `w_map` has exactly the strata of `raw_w`; for a positive scale it keeps each weight's sign and the strict order of any two weights |
| Cli.LookupOrOne | src/mc_cc0/cli.py:59 | one weight per hypothesis: its stratum's entry, or 1 for a stratum without one; hypotheses of one stratum get one weight |
| Cli.LookupScaledMap | src/mc_cc0/cli.py:57-59 | when every stratum has an entry, looking up the scaled map is scaling the looked-up raw weights |
| Cli.StratumWeights | src/mc_cc0/cli.py:42-59 | `w_per_hypothesis` looked up per hypothesis equals the scaled raw weights |
| Cli.FallbackWeights | src/mc_cc0/cli.py:32-63 | the weights computed (ones when degenerate, else stratum weights; then clipped and renormalised in place) equal the clipped pre-clip weights normalised to m |
| Cli.FallbackPositiveSumToM | src/mc_cc0/cli.py:62-63 | for m >= 1 every final weight is positive and they sum to m |
| Cli.FallbackDegenerateAllOnes | src/mc_cc0/cli.py:38-40 | with collapsed quantile edges every final weight is 1 |
| Cli.RawWeightMonotone | src/mc_cc0/cli.py:46-49 | the raw weight grows with the stratum mean when higher is better and shrinks with it otherwise |
| Cli.ScaledRawFacts | src/mc_cc0/cli.py:56-57 | scaling the raw weights keeps them positive and keeps their order |
| Cli.PreClipOrdered | src/mc_cc0/cli.py:46-57 | the pre-clip weights follow the stratum means' order, reversed when lower is better |
| Cli.FallbackOrderedByMean | src/mc_cc0/cli.py:46-63 | with `higher_is_better` a larger stratum mean gets a final weight at least as large; without it the order reverses |
| Cli.FallbackSameStratumSameWeight | src/mc_cc0/cli.py:57-59 | hypotheses in the same stratum get the same final weight |
| Cli.PlotCutoff | src/mc_cc0/cli.py:130-138 | `k_cut` is in [0, m]; it is 0 exactly when no sorted rank passes; otherwise it passes and every higher rank fails; `y_cut` is present exactly when `k_cut > 0` |
| Cli.PlotCutoffMatchesThreshold | src/mc_cc0/cli.py:136-138 | `y_cut` equals `bh_threshold(pvals, alpha)` whenever present, and the threshold is 0 when it is absent |
| Cli.LastIndexOf | src/mc_cc0/cli.py:153 | none exactly when the character is absent; otherwise a position holding it with none after it |
| Cli.BeforeLastDot | src/mc_cc0/cli.py:153 | a prefix of the text; all of it when it has no '.', otherwise exactly the part before its last '.' |
| Cli.PlotPath | src/mc_cc0/cli.py:153 | a non-empty `--plot-out` is used as is; otherwise `out` without a '.' gets the suffix appended, and `out` with one is cut at its last '.' before the suffix |
| Cli.PlotPathLeavesDirectory | src/mc_cc0/cli.py:153 | for `out = "a.b/c"` the plot path is `"a_bh_plot.png"`, which does not start with the directory `a.b/` |
| Cli.StripExtension | src/mc_cc0/cli.py:153 | the stripped name is a prefix of the original |
| Cli.StripExtensionKeepsDirectory | src/mc_cc0/cli.py:153 | the directory part is kept; the text from the last '.' is dropped only when that '.' is in the file name |
| Cli.PlotPathInSameDirectory | src/mc_cc0/cli.py:153 | a non-empty `--plot-out` is used as is; otherwise the path starts with the directory of `out` and is its stripped name plus the suffix |
| Cli.PlotPathsAgreeWithoutDirectory | src/mc_cc0/cli.py:153 | when `out` has no '/', the path as written and the corrected path coincide |
| DecisionFlow.Context | src/mc_cc0/decision_flow.py:4-11 | the six fields of the `Context` record, one for one, as the inputs `recommend` reads |
| DecisionFlow.Recommend | src/mc_cc0/decision_flow.py:13-29 | the name is one of the seven. "tukey_hsd" iff anova is "pairwise"; "scheffe" iff "contrasts"; otherwise "online_fdr" iff online. Offline and confirmatory: "hochberg" iff independent, else "holm". Offline and not confirmatory: "fdr_bh" iff independent or prds, else "fdr_by" |
| DecisionFlow.RecommendIgnoresSizeAndCost | src/mc_cc0/decision_flow.py:13-29 | changing `m` or `cost_fp` never changes the recommendation |
| DecisionFlow.RecommendFamilyByPurpose | src/mc_cc0/decision_flow.py:20-29 | without ANOVA or online testing, a confirmatory study gets "hochberg" or "holm" and any other study "fdr_bh" or "fdr_by" |
| Guardrail.VarEff | src/mc_cc0/ssm_guardrail.py:3-6 | infinite exactly when n <= 3; otherwise a value v > 1 with `(v - 1)·(n - 3) = 2` |
| Guardrail.VarEffDecreasing | src/mc_cc0/ssm_guardrail.py:6 | strictly decreasing in n for n > 3 |
| Guardrail.Gamma | src/mc_cc0/ssm_guardrail.py:10 | infinite exactly when `var_eff` is; otherwise at least 1.0000001, equal to `var_eff` exactly when `var_eff >= 1.0000001`, and otherwise the floor |
| Guardrail.GammaIsVarEffUpTo | src/mc_cc0/ssm_guardrail.py:10 | `gamma == var_eff(n)` exactly when n <= 20000003 |
| Guardrail.CheckGuardrail | src/mc_cc0/ssm_guardrail.py:8-19 | `ok` iff n >= n_min. n and n_min are echoed, var_eff and gamma are as above, and gamma is infinite for n <= 3 and otherwise > 1. The message is "OK" iff ok, and otherwise is the fixed text naming n_min |
| Guardrail.CheckGuardrailDefault | src/mc_cc0/ssm_guardrail.py:8 | the default minimum is 1000: `ok` iff n >= 1000 |
| Guardrail.NatToStringRoundTrip | src/mc_cc0/ssm_guardrail.py:18 | reading back the decimal text of a natural number gives that number |
| Guardrail.IntToString | src/mc_cc0/ssm_guardrail.py:18 | the decimal text of n: digits that read back as n, after a '-' when n is negative |
| Guardrail.FailureMessage | src/mc_cc0/ssm_guardrail.py:18 | the failure message is never "OK", starts with the fixed text up to "need >= " and ends with ')' |
| Guardrail.FailureMessageNamesNMin | src/mc_cc0/ssm_guardrail.py:18 | the failure message holds n_min's decimal digits between "need >= " and the closing parenthesis |

## Left out

- `apply_correction` and the `multipletests` calls (`corrections.py` lines 20-25 and 86, `cli.py` line 66) are left out: they call statsmodels, whose code is not part of this model. The BY result of `apply_ihw` is therefore the input `p_adj` of `Corrections.RescaleIhw`. The fallback is modelled up to its weights (`Cli.FallbackWeights`); its division `p / weights` and its BY call (`cli.py` lines 65-66) are left out. Nothing here claims the browser adjusters equal statsmodels.
- `anova_posthoc.py` (a wrapper over statsmodels' Tukey HSD) is not part of this model.
- Bin construction is left out: `pd.qcut` in `ihw_weights` and `np.quantile`/`np.unique`/`np.digitize` in the fallback follow library quantile semantics. The bin or stratum of every hypothesis is an input, and a collapsed set of quantile edges is the `Binning.Degenerate` case.
- The command-line surface is left out: argparse, CSV reading and writing, JSON output, and matplotlib drawing. Only the cutoff computation and the plot path string are modelled.
- In `docs/app.js`, `parsePvals` (`parseFloat` parsing), the HTML that `run` builds, and the event wiring are host I/O and are left out. `StepAdjust.Run` starts from the parsed p-values.
- IEEE floating point, NaN and infinite inputs are not modelled: numbers are exact reals. The weight floor 1e-8 (`Cli.WeightFloor`), the default eps 1e-12 of `ihw_weights` (`Corrections.DefaultEps`) and the gamma floor 1.0000001 (`Guardrail.GammaFloor`) are exact constants. eps is otherwise a parameter, and the IHW properties hold for every eps > 0.
- StepAdjust.Unsort requires `order` to be a permutation of 0..n-1, which is all the adjusters ever pass. The holes JavaScript leaves for other orders are not modelled.
- StepAdjust.ByAtLeastBh is stated for non-negative p-values only. With a negative p-value a larger factor makes the term smaller.
- Corrections.IhwWeights, Corrections.IhwSpec and the IHW lemmas require p-values >= 0 and eps > 0. That is the range the source documents; other inputs can make a bin mean plus eps zero or negative.
- Cli.FallbackWeights requires m >= 1, because `np.quantile` raises on an empty covariate.
- Cli.FallbackWeights computes `total_raw` as a sum over hypotheses, not over strata weighted by `value_counts`. The two are equal: each stratum's raw weight appears once per member. The smallest and largest stratum means are likewise taken over the per-hypothesis means, which contain the same values.
- Cli.FallbackWeights is modelled as a standalone function. `apply_ihw` exists, so `_HAS_APPLY_IHW` is true (`cli.py` lines 8-12). The call at `cli.py` lines 179-180 then passes `higher_is_better`, which `apply_ihw` does not accept, so the command line never reaches the fallback.
- StepAdjust.SortWithIndex models JavaScript's `Array.prototype.sort` with a numeric comparator as a stable sort by value.

## Findings

| source | as written | input that shows it | evidently intended | confidence | as-written member | corrected member |
|---|---|---|---|---|---|---|
| src/mc_cc0/cli.py:153 | the default plot path cuts `--out` at its last '.', even when that '.' is in a directory name | `--out a.b/c` (no `--plot-out`) gives `a_bh_plot.png`, outside directory `a.b/` | drop only the extension of the file name, so the plot lands beside the output file (`a.b/c_bh_plot.png`) | medium, not executed | Cli.PlotPathLeavesDirectory | Cli.PlotPathInSameDirectory |
