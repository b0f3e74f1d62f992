/** The browser calculator's own step-wise p-value adjustments (docs/app.js):
    the stable sort that remembers each p-value's position, the inverse
    placement `unsort`, Holm's step-down, Benjamini–Hochberg's and
    Benjamini–Yekutieli's step-up, and the reject map of `run`.

    Each adjuster ranks the p-values ascending, fills an array `adj` in rank
    order with a running maximum (Holm) or a running minimum from the top rank
    down (BH, BY), and puts `adj[k]` back at the original position of the
    k-th smallest p-value. The values computed in rank order are specified by
    HolmRunning and StepUpRunning; the lemmas below say what those are. */
module StepAdjust {
  import opened SeqMath

  // ---------------------------------------------------------------------
  // sortWithIndex and unsort

  /** One entry of `sortWithIndex`: a p-value and its original position. */
  datatype Ranked = Ranked(v: real, i: nat)

  /** Every element of arr paired with its position. */
  function Indexed(arr: seq<real>): seq<Ranked>
  {
    seq(|arr|, k requires 0 <= k < |arr| => Ranked(arr[k], k))
  }

  /** a comes strictly before b in a stable ascending sort by value:
      smaller value, or equal value and earlier original position. */
  predicate Precedes(a: Ranked, b: Ranked)
  {
    a.v < b.v || (a.v == b.v && a.i < b.i)
  }

  predicate StablySorted(s: seq<Ranked>)
  {
    forall k, l :: 0 <= k < l < |s| ==> Precedes(s[k], s[l])
  }

  predicate PositionsIncrease(s: seq<Ranked>)
  {
    forall k, l :: 0 <= k < l < |s| ==> s[k].i < s[l].i
  }

  /** Insertion of x into t under the by-value comparator of `sortWithIndex`:
      x goes before the first entry whose value it does not exceed. */
  function InsertByValue(x: Ranked, t: seq<Ranked>): (r: seq<Ranked>)
    ensures |r| == |t| + 1
    ensures multiset(r) == multiset(t) + multiset{x}
  {
    if t == [] || x.v <= t[0].v then [x] + t
    else
      assert t == [t[0]] + t[1..];
      [t[0]] + InsertByValue(x, t[1..])
  }

  /** Inserting an entry whose position precedes every position in a stably
      sorted t keeps it stably sorted. */
  lemma {:induction false} InsertByValueStable(x: Ranked, t: seq<Ranked>)
    requires StablySorted(t)
    requires forall y :: y in t ==> x.i < y.i
    ensures StablySorted(InsertByValue(x, t))
  {
    if t == [] || x.v <= t[0].v {
      forall l | 0 <= l < |t| ensures Precedes(x, t[l]) {
        assert t[l] in t;
        if l > 0 { assert Precedes(t[0], t[l]); }
      }
    } else {
      var u := InsertByValue(x, t[1..]);
      assert forall y :: y in t[1..] ==> y in t;
      InsertByValueStable(x, t[1..]);
      forall l | 0 <= l < |u| ensures Precedes(t[0], u[l]) {
        assert u[l] in multiset(u);
        if u[l] != x {
          assert u[l] in multiset(t[1..]);
          var k :| 0 <= k < |t[1..]| && t[1..][k] == u[l];
          assert t[k + 1] == u[l];
        }
      }
      assert InsertByValue(x, t) == [t[0]] + u;
    }
  }

  /** Insertion sort: stable, as JavaScript's `Array.prototype.sort` is. */
  function StableSort(s: seq<Ranked>): (r: seq<Ranked>)
    ensures |r| == |s|
    ensures multiset(r) == multiset(s)
  {
    if s == [] then []
    else
      assert s == [s[0]] + s[1..];
      InsertByValue(s[0], StableSort(s[1..]))
  }

  /** Sorting entries listed in increasing position gives a stable sort. */
  lemma {:induction false} StableSortStable(s: seq<Ranked>)
    requires PositionsIncrease(s)
    ensures StablySorted(StableSort(s))
  {
    if s != [] {
      var t := StableSort(s[1..]);
      StableSortStable(s[1..]);
      forall y | y in t ensures s[0].i < y.i {
        assert y in multiset(s[1..]);
      }
      InsertByValueStable(s[0], t);
    }
  }

  /** The permutation-and-order facts every ranking of arr satisfies. */
  predicate IsRanking(r: seq<Ranked>, arr: seq<real>)
  {
    && |r| == |arr|
    && StablySorted(r)
    && (forall k :: 0 <= k < |r| ==> r[k].i < |arr| && arr[r[k].i] == r[k].v)
    && (forall j :: 0 <= j < |arr| ==> j in Order(r))
  }

  /** `sortWithIndex(arr)`: the entries of arr sorted by value. */
  function SortWithIndex(arr: seq<real>): (r: seq<Ranked>)
    ensures |r| == |arr|
  {
    StableSort(Indexed(arr))
  }

  /** sortWithIndex lists the entries in ascending order of value, ties kept
      in their original order, each remembering where it came from; its
      positions form a permutation of 0..|arr|-1. */
  lemma SortWithIndexIsRanking(arr: seq<real>)
    ensures IsRanking(SortWithIndex(arr), arr)
    ensures IsPermutation(Order(SortWithIndex(arr)))
  {
    var r := SortWithIndex(arr);
    var ix := Indexed(arr);
    assert PositionsIncrease(ix);
    StableSortStable(ix);
    RankingEntriesFromInput(arr, r);
    RankingCoversPositions(arr, r);
    forall k, l | 0 <= k < l < |r| ensures r[k].i != r[l].i {
      assert Precedes(r[k], r[l]);
    }
  }

  lemma RankingEntriesFromInput(arr: seq<real>, r: seq<Ranked>)
    requires multiset(r) == multiset(Indexed(arr))
    ensures forall k :: 0 <= k < |r| ==> r[k].i < |arr| && arr[r[k].i] == r[k].v
  {
    var ix := Indexed(arr);
    forall k | 0 <= k < |r| ensures r[k].i < |arr| && arr[r[k].i] == r[k].v {
      assert r[k] in multiset(ix);
      var j :| 0 <= j < |ix| && ix[j] == r[k];
    }
  }

  lemma RankingCoversPositions(arr: seq<real>, r: seq<Ranked>)
    requires multiset(r) == multiset(Indexed(arr))
    ensures forall j :: 0 <= j < |arr| ==> j in Order(r)
  {
    var ix := Indexed(arr);
    forall j | 0 <= j < |arr| ensures j in Order(r) {
      assert ix[j] in multiset(r);
      var k :| 0 <= k < |r| && r[k] == ix[j];
      assert Order(r)[k] == j;
    }
  }

  /** The values of a ranking, in rank order. */
  function Values(r: seq<Ranked>): (vs: seq<real>)
    ensures |vs| == |r|
  {
    seq(|r|, k requires 0 <= k < |r| => r[k].v)
  }

  /** The original positions of a ranking, in rank order. */
  function Order(r: seq<Ranked>): (order: seq<nat>)
    ensures |order| == |r|
  {
    seq(|r|, k requires 0 <= k < |r| => r[k].i)
  }

  /** order lists every position 0..|order|-1 exactly once. */
  predicate IsPermutation(order: seq<nat>)
  {
    && (forall k :: 0 <= k < |order| ==> order[k] < |order|)
    && (forall k, l :: 0 <= k < l < |order| ==> order[k] != order[l])
  }

  /** out holds vs rearranged so that vs[k] sits at position order[k]. */
  predicate Placed(out: seq<real>, vs: seq<real>, order: seq<nat>)
  {
    && |out| == |order| == |vs|
    && forall k :: 0 <= k < |order| ==> order[k] < |out| && out[order[k]] == vs[k]
  }

  /** `unsort(valuesSorted, order)`: writes valuesSorted[k] at position
      order[k] of a fresh array of length |order|. */
  method Unsort(valuesSorted: seq<real>, order: seq<nat>) returns (out: seq<real>)
    requires |valuesSorted| == |order|
    requires IsPermutation(order)
    ensures Placed(out, valuesSorted, order)
  {
    var a := new real[|order|];
    for k := 0 to |order|
      invariant forall k' :: 0 <= k' < k ==> a[order[k']] == valuesSorted[k']
    {
      a[order[k]] := valuesSorted[k];
    }
    out := a[..];
  }

  /** Putting the sorted values back where they came from restores the input:
      unsort is the inverse of sortWithIndex. */
  lemma UnsortInvertsSort(pvals: seq<real>, out: seq<real>)
    requires Placed(out, Values(SortWithIndex(pvals)), Order(SortWithIndex(pvals)))
    ensures out == pvals
  {
    var r := SortWithIndex(pvals);
    SortWithIndexIsRanking(pvals);
    forall j | 0 <= j < |pvals| ensures out[j] == pvals[j] {
      assert j in Order(r);
      var k :| 0 <= k < |r| && Order(r)[k] == j;
    }
  }

  /** Monotone in rank order carries over to the original positions: a
      smaller p-value never gets a larger adjusted value. */
  lemma PlacedMonotone(pvals: seq<real>, vs: seq<real>, out: seq<real>)
    requires Placed(out, vs, Order(SortWithIndex(pvals)))
    requires forall k, l :: 0 <= k <= l < |vs| ==> vs[k] <= vs[l]
    ensures forall a, b :: 0 <= a < |pvals| && 0 <= b < |pvals| && pvals[a] < pvals[b] ==> out[a] <= out[b]
  {
    var r := SortWithIndex(pvals);
    SortWithIndexIsRanking(pvals);
    forall a, b | 0 <= a < |pvals| && 0 <= b < |pvals| && pvals[a] < pvals[b]
      ensures out[a] <= out[b]
    {
      assert a in Order(r);
      var k :| 0 <= k < |r| && Order(r)[k] == a;
      assert b in Order(r);
      var l :| 0 <= l < |r| && Order(r)[l] == b;
    }
  }

  /** Every value at an original position is one of the rank-order values,
      so bounds that hold in rank order hold at every position. */
  lemma PlacedCovers(pvals: seq<real>, vs: seq<real>, out: seq<real>)
    requires Placed(out, vs, Order(SortWithIndex(pvals)))
    ensures forall a :: 0 <= a < |out| ==> out[a] in vs
  {
    var r := SortWithIndex(pvals);
    SortWithIndexIsRanking(pvals);
    forall a | 0 <= a < |out| ensures out[a] in vs {
      assert a in Order(r);
      var k :| 0 <= k < |r| && Order(r)[k] == a;
      assert 0 <= k < |vs| && out[a] == vs[k];
    }
  }

  // ---------------------------------------------------------------------
  // Holm step-down

  /** The capped Holm term of rank j (0-based) among m = |p|: min(1, (m-j)·p[j]). */
  function HolmTerm(p: seq<real>, j: nat): real
    requires j < |p|
  {
    Min(1.0, (|p| - j) as real * p[j])
  }

  /** The running maximum, started at 0, of the first n Holm terms: the
      adjusted value of rank n-1. */
  function HolmRunning(p: seq<real>, n: nat): real
    requires n <= |p|
  {
    if n == 0 then 0.0 else Max(HolmRunning(p, n - 1), HolmTerm(p, n - 1))
  }

  /** Holm-adjusted values in rank order. */
  function HolmCurve(p: seq<real>): (adj: seq<real>)
    ensures |adj| == |p|
  {
    seq(|p|, j requires 0 <= j < |p| => HolmRunning(p, j + 1))
  }

  /** HolmRunning(p, n) is the maximum of 0 and the first n terms: it bounds
      each of them, equals one of them or 0, and lies in [0, 1]. */
  lemma {:induction false} HolmRunningIsMax(p: seq<real>, n: nat)
    requires n <= |p|
    ensures forall j :: 0 <= j < n ==> HolmTerm(p, j) <= HolmRunning(p, n)
    ensures HolmRunning(p, n) == 0.0 || exists j :: 0 <= j < n && HolmRunning(p, n) == HolmTerm(p, j)
    ensures 0.0 <= HolmRunning(p, n) <= 1.0
  {
    if n > 0 {
      HolmRunningIsMax(p, n - 1);
    }
  }

  lemma {:induction false} HolmRunningMonotone(p: seq<real>, n: nat, n': nat)
    requires n <= n' <= |p|
    ensures HolmRunning(p, n) <= HolmRunning(p, n')
    decreases n' - n
  {
    if n < n' {
      HolmRunningMonotone(p, n, n' - 1);
    }
  }

  /** In ascending-p order the Holm values never decrease, each is at least
      its own term min(1, (m-j)·p[j]), and all lie in [0, 1]. */
  lemma HolmCurveProperties(p: seq<real>)
    ensures forall i, j :: 0 <= i <= j < |p| ==> HolmCurve(p)[i] <= HolmCurve(p)[j]
    ensures forall j :: 0 <= j < |p| ==> HolmCurve(p)[j] >= HolmTerm(p, j)
    ensures forall j :: 0 <= j < |p| ==> 0.0 <= HolmCurve(p)[j] <= 1.0
  {
    forall i, j | 0 <= i <= j < |p| ensures HolmCurve(p)[i] <= HolmCurve(p)[j] {
      HolmRunningMonotone(p, i + 1, j + 1);
    }
    forall j | 0 <= j < |p| ensures HolmCurve(p)[j] >= HolmTerm(p, j) && 0.0 <= HolmCurve(p)[j] <= 1.0 {
      HolmRunningIsMax(p, j + 1);
    }
  }

  /** The loop of `holmAdjust` over the sorted values p: a running maximum,
      started at 0, of min(1, (m-j)·p[j]) for j = 0 .. m-1. */
  method HolmRankOrder(p: seq<real>) returns (adj: seq<real>)
    ensures adj == HolmCurve(p)
  {
    var m := |p|;
    var a := new real[m];
    var prev := 0.0;
    for j := 0 to m
      invariant prev == HolmRunning(p, j)
      invariant forall k :: 0 <= k < j ==> a[k] == HolmRunning(p, k + 1)
    {
      var factor := (m - j) as real;
      var val := Min(1.0, factor * p[j]);
      assert val == HolmTerm(p, j);
      a[j] := Max(prev, val);
      prev := a[j];
    }
    adj := a[..];
  }

  /** `holmAdjust(pvals)`: the Holm values computed in ascending-p order and
      placed back at the original positions. */
  method HolmAdjust(pvals: seq<real>) returns (out: seq<real>)
    ensures |out| == |pvals|
    ensures Placed(out, HolmCurve(Values(SortWithIndex(pvals))), Order(SortWithIndex(pvals)))
  {
    var ranked := SortWithIndex(pvals);
    var p := Values(ranked);
    var adj := HolmRankOrder(p);
    var order := Order(ranked);
    SortWithIndexIsRanking(pvals);
    out := Unsort(adj, order);
  }

  /** What the Holm output inherits at the original positions from its
      rank-order curve: a smaller p-value never gets a larger adjusted value,
      and every adjusted value lies in [0, 1]. */
  lemma HolmOutputFacts(pvals: seq<real>, out: seq<real>)
    requires Placed(out, HolmCurve(Values(SortWithIndex(pvals))), Order(SortWithIndex(pvals)))
    ensures forall a, b :: 0 <= a < |pvals| && 0 <= b < |pvals| && pvals[a] < pvals[b] ==> out[a] <= out[b]
    ensures forall a :: 0 <= a < |out| ==> 0.0 <= out[a] <= 1.0
  {
    var p := Values(SortWithIndex(pvals));
    HolmCurveProperties(p);
    PlacedMonotone(pvals, HolmCurve(p), out);
    PlacedCovers(pvals, HolmCurve(p), out);
  }

  // ---------------------------------------------------------------------
  // Benjamini–Hochberg and Benjamini–Yekutieli step-up

  /** The capped step-up term of rank j (0-based): min(1, (m/(j+1))·c·p[j]),
      with c = 1 for BH and c = H_m for BY. */
  function StepUpTerm(p: seq<real>, c: real, j: nat): real
    requires j < |p|
  {
    Min(1.0, ((|p| as real / (j + 1) as real) * c) * p[j])
  }

  /** The running minimum, started at 1, of the terms of ranks j..m-1: the
      adjusted value of rank j. */
  function StepUpRunning(p: seq<real>, c: real, j: nat): real
    requires j <= |p|
    decreases |p| - j
  {
    if j == |p| then 1.0 else Min(StepUpRunning(p, c, j + 1), StepUpTerm(p, c, j))
  }

  /** Step-up adjusted values in rank order. */
  function StepUpCurve(p: seq<real>, c: real): (adj: seq<real>)
    ensures |adj| == |p|
  {
    seq(|p|, j requires 0 <= j < |p| => StepUpRunning(p, c, j))
  }

  /** StepUpRunning(p, c, j) is the minimum of 1 and the terms of ranks j and
      above: it is bounded by each of them, equals one of them or 1, and is
      non-negative when the p-values and c are. */
  lemma {:induction false} StepUpRunningIsMin(p: seq<real>, c: real, j: nat)
    requires j <= |p|
    ensures forall i :: j <= i < |p| ==> StepUpRunning(p, c, j) <= StepUpTerm(p, c, i)
    ensures StepUpRunning(p, c, j) == 1.0 || exists i :: j <= i < |p| && StepUpRunning(p, c, j) == StepUpTerm(p, c, i)
    ensures StepUpRunning(p, c, j) <= 1.0
    ensures c >= 0.0 && (forall i :: 0 <= i < |p| ==> p[i] >= 0.0) ==> StepUpRunning(p, c, j) >= 0.0
    decreases |p| - j
  {
    if j < |p| {
      StepUpRunningIsMin(p, c, j + 1);
      if c >= 0.0 && p[j] >= 0.0 {
        var f := |p| as real / (j + 1) as real;
        assert f >= 0.0;
        assert (f * c) * p[j] >= 0.0;
      }
    }
  }

  lemma {:induction false} StepUpRunningMonotone(p: seq<real>, c: real, j: nat, j': nat)
    requires j <= j' <= |p|
    ensures StepUpRunning(p, c, j) <= StepUpRunning(p, c, j')
    decreases j' - j
  {
    if j < j' {
      StepUpRunningMonotone(p, c, j + 1, j');
    }
  }

  /** In ascending-p order the step-up values never decrease, each is at
      most its own term, and all are at most 1 (and at least 0 for
      non-negative p-values and c). */
  lemma StepUpCurveProperties(p: seq<real>, c: real)
    ensures forall i, j :: 0 <= i <= j < |p| ==> StepUpCurve(p, c)[i] <= StepUpCurve(p, c)[j]
    ensures forall j :: 0 <= j < |p| ==> StepUpCurve(p, c)[j] <= StepUpTerm(p, c, j)
    ensures forall j :: 0 <= j < |p| ==> StepUpCurve(p, c)[j] <= 1.0
    ensures c >= 0.0 && (forall i :: 0 <= i < |p| ==> p[i] >= 0.0) ==>
              forall j :: 0 <= j < |p| ==> StepUpCurve(p, c)[j] >= 0.0
  {
    forall i, j | 0 <= i <= j < |p| ensures StepUpCurve(p, c)[i] <= StepUpCurve(p, c)[j] {
      StepUpRunningMonotone(p, c, i, j);
    }
    forall j | 0 <= j < |p|
      ensures StepUpCurve(p, c)[j] <= StepUpTerm(p, c, j) && StepUpCurve(p, c)[j] <= 1.0
      ensures c >= 0.0 && (forall i :: 0 <= i < |p| ==> p[i] >= 0.0) ==> StepUpCurve(p, c)[j] >= 0.0
    {
      StepUpRunningIsMin(p, c, j);
    }
  }

  /** The BH value of the largest p-value is that p-value itself, capped at 1. */
  lemma BhTopRank(p: seq<real>)
    requires |p| > 0
    ensures StepUpCurve(p, 1.0)[|p| - 1] == Min(1.0, p[|p| - 1])
  {
    var m := |p|;
    assert (m as real / m as real) * 1.0 == 1.0;
    assert StepUpCurve(p, 1.0)[m - 1] == Min(StepUpRunning(p, 1.0, m), StepUpTerm(p, 1.0, m - 1));
  }

  /** A larger multiplier never lowers a step-up value: with c >= 1 and
      non-negative p-values, every rank's value is at least the BH value. */
  lemma {:induction false} StepUpDominates(p: seq<real>, c: real, j: nat)
    requires j <= |p|
    requires c >= 1.0
    requires forall i :: 0 <= i < |p| ==> p[i] >= 0.0
    ensures StepUpRunning(p, c, j) >= StepUpRunning(p, 1.0, j)
    decreases |p| - j
  {
    if j < |p| {
      StepUpDominates(p, c, j + 1);
      var f := |p| as real / (j + 1) as real;
      assert f >= 0.0;
      assert (f * c) * p[j] >= (f * 1.0) * p[j] by {
        assert f * p[j] >= 0.0;
        assert (f * c) * p[j] == c * (f * p[j]);
      }
    }
  }

  /** The BY constant, the harmonic sum 1 + 1/2 + ... + 1/m accumulated
      from the first term on; it is never negative and at least 1 once
      there is a term. */
  function Harmonic(m: nat): (h: real)
    ensures h >= 0.0
    ensures m >= 1 ==> h >= 1.0
  {
    if m == 0 then 0.0
    else
      assert 1.0 / m as real > 0.0;
      Harmonic(m - 1) + 1.0 / m as real
  }

  /** One step of the step-up loops: the running minimum from rank j + 1
      combined with the product of the factor and p[j], capped at 1, is the
      running minimum from rank j. */
  lemma StepUpStep(p: seq<real>, c: real, j: nat, factor: real, next: real)
    requires j < |p|
    requires factor == (|p| as real / (j + 1) as real) * c
    requires next == StepUpRunning(p, c, j + 1)
    ensures Min(next, Min(1.0, factor * p[j])) == StepUpRunning(p, c, j)
  {
    assert StepUpTerm(p, c, j) == Min(1.0, factor * p[j]);
    assert StepUpRunning(p, c, j) == Min(next, StepUpTerm(p, c, j));
  }

  /** The loop of `bhAdjust` over the sorted values p: a running minimum,
      started at 1 and taken from the largest p-value down, of
      min(1, m/(j+1)·p[j]). */
  method BhRankOrder(p: seq<real>) returns (adj: seq<real>)
    ensures adj == StepUpCurve(p, 1.0)
  {
    var m := |p|;
    var a := new real[m];
    var next := 1.0;
    for j := m downto 0
      invariant next == StepUpRunning(p, 1.0, j)
      invariant forall k :: j <= k < m ==> a[k] == StepUpRunning(p, 1.0, k)
    {
      var factor := m as real / (j + 1) as real;
      StepUpStep(p, 1.0, j, factor, next);
      next := Min(next, Min(1.0, factor * p[j]));
      a[j] := next;
    }
    adj := a[..];
  }

  /** `bhAdjust(pvals)`: the BH values computed in ascending-p order and
      placed back at the original positions. */
  method BhAdjust(pvals: seq<real>) returns (out: seq<real>)
    ensures |out| == |pvals|
    ensures Placed(out, StepUpCurve(Values(SortWithIndex(pvals)), 1.0), Order(SortWithIndex(pvals)))
  {
    var ranked := SortWithIndex(pvals);
    var p := Values(ranked);
    var adj := BhRankOrder(p);
    var order := Order(ranked);
    SortWithIndexIsRanking(pvals);
    out := Unsort(adj, order);
  }

  /** The loop of `byAdjust` over the sorted values p: as BH's, with every
      factor multiplied by c. */
  method ByRankOrder(p: seq<real>, c: real) returns (adj: seq<real>)
    ensures adj == StepUpCurve(p, c)
  {
    var m := |p|;
    var a := new real[m];
    var next := 1.0;
    for j := m downto 0
      invariant next == StepUpRunning(p, c, j)
      invariant forall k :: j <= k < m ==> a[k] == StepUpRunning(p, c, k)
    {
      var factor := (m as real / (j + 1) as real) * c;
      StepUpStep(p, c, j, factor, next);
      next := Min(next, Min(1.0, factor * p[j]));
      a[j] := next;
    }
    adj := a[..];
  }

  /** `byAdjust(pvals)`: c = H_m, then the BY values computed in ascending-p
      order and placed back at the original positions. */
  method ByAdjust(pvals: seq<real>) returns (out: seq<real>)
    ensures |out| == |pvals|
    ensures Placed(out, StepUpCurve(Values(SortWithIndex(pvals)), Harmonic(|pvals|)), Order(SortWithIndex(pvals)))
  {
    var c := Harmonic(|pvals|);
    var ranked := SortWithIndex(pvals);
    var p := Values(ranked);
    var adj := ByRankOrder(p, c);
    var order := Order(ranked);
    SortWithIndexIsRanking(pvals);
    out := Unsort(adj, order);
  }

  /** What a step-up output inherits at the original positions from its
      rank-order curve: a smaller p-value never gets a larger adjusted value,
      every value is at most 1, and at least 0 when the p-values and c are. */
  lemma StepUpOutputFacts(pvals: seq<real>, c: real, out: seq<real>)
    requires Placed(out, StepUpCurve(Values(SortWithIndex(pvals)), c), Order(SortWithIndex(pvals)))
    ensures forall a, b :: 0 <= a < |pvals| && 0 <= b < |pvals| && pvals[a] < pvals[b] ==> out[a] <= out[b]
    ensures forall a :: 0 <= a < |out| ==> out[a] <= 1.0
    ensures c >= 0.0 && (forall a :: 0 <= a < |pvals| ==> pvals[a] >= 0.0) ==> forall a :: 0 <= a < |out| ==> out[a] >= 0.0
  {
    var r := SortWithIndex(pvals);
    var p := Values(r);
    var curve := StepUpCurve(p, c);
    StepUpCurveProperties(p, c);
    PlacedMonotone(pvals, curve, out);
    PlacedCovers(pvals, curve, out);
    if c >= 0.0 && forall a :: 0 <= a < |pvals| ==> pvals[a] >= 0.0 {
      SortedValuesNonNegative(pvals);
    }
  }

  /** BY is at least as conservative as BH: for non-negative p-values every
      position's BY-adjusted value is at least its BH-adjusted value. */
  lemma ByAtLeastBh(pvals: seq<real>, bhAdj: seq<real>, byAdj: seq<real>)
    requires forall a :: 0 <= a < |pvals| ==> pvals[a] >= 0.0
    requires Placed(bhAdj, StepUpCurve(Values(SortWithIndex(pvals)), 1.0), Order(SortWithIndex(pvals)))
    requires Placed(byAdj, StepUpCurve(Values(SortWithIndex(pvals)), Harmonic(|pvals|)), Order(SortWithIndex(pvals)))
    ensures |byAdj| == |bhAdj| == |pvals|
    ensures forall a :: 0 <= a < |pvals| ==> byAdj[a] >= bhAdj[a]
  {
    if |pvals| > 0 {
      LargerFactorPlacedHigher(pvals, Harmonic(|pvals|), bhAdj, byAdj);
    }
  }

  /** The BH output against that of any step-up factor c >= 1, position by
      position. */
  lemma LargerFactorPlacedHigher(pvals: seq<real>, c: real, bhAdj: seq<real>, byAdj: seq<real>)
    requires c >= 1.0
    requires forall a :: 0 <= a < |pvals| ==> pvals[a] >= 0.0
    requires Placed(bhAdj, StepUpCurve(Values(SortWithIndex(pvals)), 1.0), Order(SortWithIndex(pvals)))
    requires Placed(byAdj, StepUpCurve(Values(SortWithIndex(pvals)), c), Order(SortWithIndex(pvals)))
    ensures forall a :: 0 <= a < |pvals| ==> byAdj[a] >= bhAdj[a]
  {
    var p := Values(SortWithIndex(pvals));
    SortedValuesNonNegative(pvals);
    StepUpCurveDominates(p, c);
    PlacedPointwise(pvals, bhAdj, StepUpCurve(p, 1.0), byAdj, StepUpCurve(p, c));
  }

  /** A factor c >= 1 raises the whole step-up curve of non-negative
      p-values. */
  lemma StepUpCurveDominates(p: seq<real>, c: real)
    requires c >= 1.0
    requires forall i :: 0 <= i < |p| ==> p[i] >= 0.0
    ensures forall k :: 0 <= k < |p| ==> StepUpCurve(p, 1.0)[k] <= StepUpCurve(p, c)[k]
  {
    forall k | 0 <= k < |p| ensures StepUpCurve(p, 1.0)[k] <= StepUpCurve(p, c)[k] {
      StepUpDominates(p, c, k);
    }
  }

  /** The p-values in rank order are non-negative when the input ones are. */
  lemma SortedValuesNonNegative(pvals: seq<real>)
    requires forall a :: 0 <= a < |pvals| ==> pvals[a] >= 0.0
    ensures forall k :: 0 <= k < |pvals| ==> Values(SortWithIndex(pvals))[k] >= 0.0
  {
    var r := SortWithIndex(pvals);
    SortWithIndexIsRanking(pvals);
    forall k | 0 <= k < |pvals| ensures Values(r)[k] >= 0.0 {
      assert Values(r)[k] == r[k].v == pvals[r[k].i];
    }
  }

  /** Two curves placed by the same ranking keep their pointwise order at
      every original position. */
  lemma PlacedPointwise(pvals: seq<real>, lo: seq<real>, vlo: seq<real>, hi: seq<real>, vhi: seq<real>)
    requires Placed(lo, vlo, Order(SortWithIndex(pvals)))
    requires Placed(hi, vhi, Order(SortWithIndex(pvals)))
    requires forall k :: 0 <= k < |vlo| ==> vlo[k] <= vhi[k]
    ensures forall a :: 0 <= a < |pvals| ==> lo[a] <= hi[a]
  {
    var r := SortWithIndex(pvals);
    SortWithIndexIsRanking(pvals);
    forall a | 0 <= a < |pvals| ensures lo[a] <= hi[a] {
      assert a in Order(r);
      var k :| 0 <= k < |r| && Order(r)[k] == a;
      assert lo[a] == vlo[k] && hi[a] == vhi[k];
    }
  }

  // ---------------------------------------------------------------------
  // run: method dispatch and the reject map

  /** The reject flags: an adjusted value at most alpha rejects. Rejection
      is closed downwards: a hypothesis whose adjusted value is no larger
      than that of a rejected one is rejected too. */
  function RejectMap(padj: seq<real>, alpha: real): (reject: seq<bool>)
    ensures |reject| == |padj|
    ensures forall i :: 0 <= i < |padj| ==> (reject[i] <==> padj[i] <= alpha)
    ensures forall a, b :: 0 <= a < |padj| && 0 <= b < |padj| && padj[a] <= padj[b] && reject[b] ==> reject[a]
  {
    seq(|padj|, i requires 0 <= i < |padj| => padj[i] <= alpha)
  }

  /** Raising alpha never takes a rejection back, and a level below every
      adjusted value rejects nothing. */
  lemma RejectMapMonotoneInAlpha(padj: seq<real>, alpha: real, alpha2: real)
    requires alpha <= alpha2
    ensures forall i :: 0 <= i < |padj| && RejectMap(padj, alpha)[i] ==> RejectMap(padj, alpha2)[i]
    ensures (forall i :: 0 <= i < |padj| ==> padj[i] > alpha2) ==> forall i :: 0 <= i < |padj| ==> !RejectMap(padj, alpha2)[i]
  {
  }

  /** What `run` shows: a message when no p-value was parsed, otherwise the
      adjusted values and reject flags. */
  datatype Outcome = NoPValues | Table(padj: seq<real>, reject: seq<bool>)

  /** `run` after parsing: choose the adjuster by method name (anything but
      "fdr_bh" and "fdr_by" means Holm) and threshold at alpha. */
  method Run(pvals: seq<real>, alpha: real, methodName: string) returns (result: Outcome)
    ensures result.NoPValues? <==> pvals == []
    ensures result.Table? ==> |result.padj| == |result.reject| == |pvals|
    ensures result.Table? ==> result.reject == RejectMap(result.padj, alpha)
    ensures result.Table? && methodName == "fdr_bh" ==>
              Placed(result.padj, StepUpCurve(Values(SortWithIndex(pvals)), 1.0), Order(SortWithIndex(pvals)))
    ensures result.Table? && methodName == "fdr_by" ==>
              Placed(result.padj, StepUpCurve(Values(SortWithIndex(pvals)), Harmonic(|pvals|)), Order(SortWithIndex(pvals)))
    ensures result.Table? && methodName != "fdr_bh" && methodName != "fdr_by" ==>
              Placed(result.padj, HolmCurve(Values(SortWithIndex(pvals))), Order(SortWithIndex(pvals)))
    ensures result.Table? ==> forall a, b ::
              (0 <= a < |pvals| && 0 <= b < |pvals| && pvals[a] < pvals[b] && result.reject[b]) ==> result.reject[a]
  {
    if |pvals| == 0 {
      return NoPValues;
    }
    var padj: seq<real>;
    if methodName == "fdr_bh" {
      padj := BhAdjust(pvals);
      StepUpOutputFacts(pvals, 1.0, padj);
    } else if methodName == "fdr_by" {
      padj := ByAdjust(pvals);
      StepUpOutputFacts(pvals, Harmonic(|pvals|), padj);
    } else {
      padj := HolmAdjust(pvals);
      HolmOutputFacts(pvals, padj);
    }
    var reject := RejectMap(padj, alpha);
    result := Table(padj, reject);
  }
}
