/** The method advisor of `mc_cc0.decision_flow`: a first-match rule table
    from a description of the study to the name of a correction method. */
module DecisionFlow {

  /** The `Context` record. The comments in the source list the expected
      values of the string fields; any other string is accepted. */
  datatype Context = Context(
    purpose: string,      // "confirmatory" or "exploratory"
    m: int,
    independence: string, // "independent", "prds", "arbitrary" or "unknown"
    online: bool,
    anova: string,        // "none", "pairwise" or "contrasts"
    costFp: string        // "high", "medium" or "low"
  )

  /** The seven names `recommend` can return. */
  const MethodNames: set<string> :=
    {"tukey_hsd", "scheffe", "online_fdr", "hochberg", "holm", "fdr_bh", "fdr_by"}

  /** No post-hoc ANOVA rule and no online rule applies. */
  predicate Offline(ctx: Context)
  {
    ctx.anova != "pairwise" && ctx.anova != "contrasts" && !ctx.online
  }

  /** `recommend(context)`: post-hoc ANOVA comparisons first, then online
      testing, then FWER control for confirmatory studies and FDR control
      for everything else, chosen by the dependence structure. */
  function Recommend(ctx: Context): (r: string)
    ensures r in MethodNames
    ensures r == "tukey_hsd" <==> ctx.anova == "pairwise"
    ensures r == "scheffe" <==> ctx.anova == "contrasts"
    ensures r == "online_fdr" <==> ctx.anova != "pairwise" && ctx.anova != "contrasts" && ctx.online
    ensures r == "hochberg" <==>
              Offline(ctx) && ctx.purpose == "confirmatory" && ctx.independence == "independent"
    ensures r == "holm" <==>
              Offline(ctx) && ctx.purpose == "confirmatory" && ctx.independence != "independent"
    ensures r == "fdr_bh" <==>
              Offline(ctx) && ctx.purpose != "confirmatory"
              && (ctx.independence == "independent" || ctx.independence == "prds")
    ensures r == "fdr_by" <==>
              Offline(ctx) && ctx.purpose != "confirmatory"
              && ctx.independence != "independent" && ctx.independence != "prds"
  {
    if ctx.anova == "pairwise" then "tukey_hsd"
    else if ctx.anova == "contrasts" then "scheffe"
    else if ctx.online then "online_fdr"
    else if ctx.purpose == "confirmatory" then
      if ctx.independence == "independent" then "hochberg"
      else if ctx.independence in ["unknown", "arbitrary", "prds"] then "holm"
      else "holm"
    else if ctx.independence in ["independent", "prds"] then "fdr_bh"
    else "fdr_by"
  }

  /** The number of hypotheses and the cost of a false positive never
      change the recommendation. */
  lemma RecommendIgnoresSizeAndCost(ctx: Context, m: int, costFp: string)
    ensures Recommend(ctx.(m := m, costFp := costFp)) == Recommend(ctx)
  {
  }

  /** A confirmatory study without ANOVA or online testing always gets a
      family-wise method, and any other such study a false-discovery-rate
      method. */
  lemma RecommendFamilyByPurpose(ctx: Context)
    requires Offline(ctx)
    ensures ctx.purpose == "confirmatory" ==> Recommend(ctx) in {"hochberg", "holm"}
    ensures ctx.purpose != "confirmatory" ==> Recommend(ctx) in {"fdr_bh", "fdr_by"}
  {
  }
}
