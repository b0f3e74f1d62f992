/** Arithmetic over finite sequences of reals shared by the correction
    procedures: minimum and maximum, left-to-right sums, grouped means (the
    `groupby(...).mean()` step of the weighting code), sortedness, and the
    ascending sort that `np.sort` performs. Numbers are exact reals. */
module SeqMath {

  datatype Option<T> = None | Some(value: T)

  function Min(a: real, b: real): real { if a <= b then a else b }

  function Max(a: real, b: real): real { if a >= b then a else b }

  // ---------------------------------------------------------------------
  // Sums

  /** Sum of a sequence, accumulated from the left as `reduce` and the
      source's summing loops do. */
  function Sum(s: seq<real>): real
  {
    if s == [] then 0.0 else Sum(s[..|s| - 1]) + s[|s| - 1]
  }

  /** Every element multiplied by c (a column scaled in place). */
  function Scale(s: seq<real>, c: real): (r: seq<real>)
    ensures |r| == |s|
  {
    seq(|s|, i requires 0 <= i < |s| => s[i] * c)
  }

  lemma {:induction false} SumScale(s: seq<real>, c: real)
    ensures Sum(Scale(s, c)) == c * Sum(s)
  {
    if s != [] {
      var n := |s| - 1;
      assert forall i :: 0 <= i < n ==> Scale(s, c)[..n][i] == Scale(s[..n], c)[i];
      assert Scale(s, c)[..n] == Scale(s[..n], c);
      SumScale(s[..n], c);
    }
  }

  /** A column rescaled so that it sums to `total`: every element times
      total over the column's sum. */
  function Normalise(s: seq<real>, total: real): (r: seq<real>)
    requires Sum(s) != 0.0
    ensures |r| == |s|
  {
    Scale(s, total / Sum(s))
  }

  /** Normalising a positive column to a positive total makes it sum to that
      total, keeps every element positive and keeps the order of any two
      elements (strict and non-strict). */
  lemma NormaliseProperties(s: seq<real>, total: real)
    requires s != []
    requires forall i :: 0 <= i < |s| ==> s[i] > 0.0
    requires total > 0.0
    ensures Sum(s) > 0.0
    ensures Sum(Normalise(s, total)) == total
    ensures forall i :: 0 <= i < |s| ==> Normalise(s, total)[i] > 0.0
    ensures forall i, j :: 0 <= i < |s| && 0 <= j < |s| && s[i] <= s[j] ==>
              Normalise(s, total)[i] <= Normalise(s, total)[j]
    ensures forall i, j :: 0 <= i < |s| && 0 <= j < |s| && s[i] < s[j] ==>
              Normalise(s, total)[i] < Normalise(s, total)[j]
  {
    NormaliseSum(s, total);
    NormaliseKeepsOrder(s, total);
  }

  lemma NormaliseSum(s: seq<real>, total: real)
    requires s != []
    requires forall i :: 0 <= i < |s| ==> s[i] > 0.0
    requires total > 0.0
    ensures Sum(s) > 0.0
    ensures Sum(Normalise(s, total)) == total
  {
    SumPositive(s);
    var t := Sum(s);
    var c := total / t;
    QuotientFacts(total, t);
    assert c * t == total;
    ScaledSumIs(s, c, total);
    assert Normalise(s, total) == Scale(s, c);
  }

  lemma NormaliseKeepsOrder(s: seq<real>, total: real)
    requires Sum(s) > 0.0
    requires forall i :: 0 <= i < |s| ==> s[i] > 0.0
    requires total > 0.0
    ensures forall i :: 0 <= i < |s| ==> Normalise(s, total)[i] > 0.0
    ensures forall i, j :: 0 <= i < |s| && 0 <= j < |s| && s[i] <= s[j] ==>
              Normalise(s, total)[i] <= Normalise(s, total)[j]
    ensures forall i, j :: 0 <= i < |s| && 0 <= j < |s| && s[i] < s[j] ==>
              Normalise(s, total)[i] < Normalise(s, total)[j]
  {
    QuotientFacts(total, Sum(s));
    ScalePositiveKeepsOrder(s, total / Sum(s));
  }

  lemma ScaledSumIs(s: seq<real>, c: real, t: real)
    requires c * Sum(s) == t
    ensures Sum(Scale(s, c)) == t
  {
    SumScale(s, c);
  }

  /** A quotient of positives is positive and undoes the division. */
  lemma QuotientFacts(a: real, b: real)
    requires a > 0.0 && b > 0.0
    ensures a / b > 0.0 && (a / b) * b == a
  {
  }

  /** Scaling a positive column by a positive constant keeps every element
      positive and keeps the order of any two elements. */
  lemma ScalePositiveKeepsOrder(s: seq<real>, c: real)
    requires c > 0.0
    requires forall i :: 0 <= i < |s| ==> s[i] > 0.0
    ensures forall i :: 0 <= i < |s| ==> Scale(s, c)[i] > 0.0
    ensures forall i, j :: 0 <= i < |s| && 0 <= j < |s| && s[i] <= s[j] ==> Scale(s, c)[i] <= Scale(s, c)[j]
    ensures forall i, j :: 0 <= i < |s| && 0 <= j < |s| && s[i] < s[j] ==> Scale(s, c)[i] < Scale(s, c)[j]
  {
    var r := Scale(s, c);
    forall i | 0 <= i < |s| ensures r[i] > 0.0 {
      MulPositiveMonotone(0.0, s[i], c);
    }
    forall i, j | 0 <= i < |s| && 0 <= j < |s| && s[i] <= s[j] ensures r[i] <= r[j] {
      MulPositiveMonotone(s[i], s[j], c);
    }
    forall i, j | 0 <= i < |s| && 0 <= j < |s| && s[i] < s[j] ensures r[i] < r[j] {
      MulPositiveMonotone(s[i], s[j], c);
    }
  }

  /** Multiplying by a positive constant keeps order, strict and non-strict. */
  lemma MulPositiveMonotone(a: real, b: real, c: real)
    requires c > 0.0
    ensures a <= b ==> a * c <= b * c
    ensures a < b ==> a * c < b * c
  {
  }

  lemma {:induction false} SumPositive(s: seq<real>)
    requires forall i :: 0 <= i < |s| ==> s[i] > 0.0
    ensures s != [] ==> Sum(s) > 0.0
    ensures Sum(s) >= 0.0
  {
    if s != [] {
      SumPositive(s[..|s| - 1]);
    }
  }

  /** A sequence of n equal values x sums to n·x. */
  lemma {:induction false} SumConstant(s: seq<real>, x: real)
    requires forall i :: 0 <= i < |s| ==> s[i] == x
    ensures Sum(s) == |s| as real * x
  {
    if s != [] {
      SumConstant(s[..|s| - 1], x);
    }
  }

  /** Extending a prefix by one element extends its sum by that element. */
  lemma SumPrefixStep(s: seq<real>, i: nat)
    requires i < |s|
    ensures Sum(s[..i + 1]) == Sum(s[..i]) + s[i]
  {
    assert s[..i + 1][..i] == s[..i];
  }

  /** Every element raised to at least lo (`clip(lower=lo)`). */
  function ClipBelow(s: seq<real>, lo: real): (r: seq<real>)
    ensures |r| == |s|
    ensures forall i :: 0 <= i < |s| ==> r[i] >= lo && r[i] >= s[i] && (r[i] == lo || r[i] == s[i])
  {
    seq(|s|, i requires 0 <= i < |s| => Max(s[i], lo))
  }

  /** The smallest element of a non-empty sequence (`Series.min()`). */
  function SeqMin(s: seq<real>): (r: real)
    requires s != []
    ensures forall i :: 0 <= i < |s| ==> r <= s[i]
    ensures r in s
  {
    if |s| == 1 then s[0] else Min(SeqMin(s[..|s| - 1]), s[|s| - 1])
  }

  /** The largest element of a non-empty sequence (`Series.max()`). */
  function SeqMax(s: seq<real>): (r: real)
    requires s != []
    ensures forall i :: 0 <= i < |s| ==> s[i] <= r
    ensures r in s
  {
    if |s| == 1 then s[0] else Max(SeqMax(s[..|s| - 1]), s[|s| - 1])
  }

  /** The sum of an array column, accumulated left to right. */
  method ColumnSum(a: array<real>) returns (total: real)
    ensures total == Sum(a[..])
  {
    total := 0.0;
    for i := 0 to a.Length
      invariant total == Sum(a[..i])
    {
      SumPrefixStep(a[..], i);
      assert a[..][..i + 1] == a[..i + 1] && a[..][..i] == a[..i];
      total := total + a[i];
    }
    assert a[..a.Length] == a[..];
  }

  /** Multiplies every element of a column by c in place (an in-place multiply). */
  method ScaleInPlace(a: array<real>, c: real)
    modifies a
    ensures a[..] == Scale(old(a[..]), c)
  {
    for i := 0 to a.Length
      invariant forall k :: 0 <= k < i ==> a[k] == old(a[k]) * c
      invariant forall k :: i <= k < a.Length ==> a[k] == old(a[k])
    {
      a[i] := a[i] * c;
    }
    assert forall k :: 0 <= k < a.Length ==> a[..][k] == Scale(old(a[..]), c)[k];
  }

  /** Raises every element of a column to at least lo in place (`np.clip`). */
  method ClipInPlace(a: array<real>, lo: real)
    modifies a
    ensures a[..] == ClipBelow(old(a[..]), lo)
  {
    for i := 0 to a.Length
      invariant forall k :: 0 <= k < i ==> a[k] == Max(old(a[k]), lo)
      invariant forall k :: i <= k < a.Length ==> a[k] == old(a[k])
    {
      a[i] := Max(a[i], lo);
    }
    assert forall k :: 0 <= k < a.Length ==> a[..][k] == ClipBelow(old(a[..]), lo)[k];
  }

  // ---------------------------------------------------------------------
  // Grouped sums, counts and means: xs[i] belongs to group keys[i].

  /** Number of rows whose key is k. */
  function GroupCount(keys: seq<nat>, k: nat): (c: nat)
    ensures c <= |keys|
    ensures c > 0 <==> k in keys
  {
    if keys == [] then 0
    else
      assert keys == keys[..|keys| - 1] + [keys[|keys| - 1]];
      GroupCount(keys[..|keys| - 1], k) + (if keys[|keys| - 1] == k then 1 else 0)
  }

  /** Sum of xs over the rows whose key is k. */
  function GroupSum(xs: seq<real>, keys: seq<nat>, k: nat): (s: real)
    requires |xs| == |keys|
    ensures k !in keys ==> s == 0.0
    ensures (forall i :: 0 <= i < |xs| ==> xs[i] >= 0.0) ==> s >= 0.0
  {
    if keys == [] then 0.0
    else
      var n := |keys| - 1;
      assert keys == keys[..n] + [keys[n]];
      GroupSum(xs[..n], keys[..n], k) + (if keys[n] == k then xs[n] else 0.0)
  }

  /** Mean of xs over the rows whose key is k (a `groupby(k).mean()` cell). */
  function GroupMean(xs: seq<real>, keys: seq<nat>, k: nat): real
    requires |xs| == |keys|
    requires k in keys
  {
    GroupSum(xs, keys, k) / GroupCount(keys, k) as real
  }

  lemma GroupMeanNonNegative(xs: seq<real>, keys: seq<nat>, k: nat)
    requires |xs| == |keys| && k in keys
    requires forall i :: 0 <= i < |xs| ==> xs[i] >= 0.0
    ensures GroupMean(xs, keys, k) >= 0.0
  {
    var s, c := GroupSum(xs, keys, k), GroupCount(keys, k) as real;
    assert s >= 0.0 && c > 0.0;
    assert s / c >= 0.0;
  }

  /** Extending the rows by row i changes only the sum (count) of group
      keys[i]. */
  lemma GroupPrefixStep(xs: seq<real>, keys: seq<nat>, i: nat)
    requires |xs| == |keys| && i < |keys|
    ensures forall k :: GroupSum(xs[..i + 1], keys[..i + 1], k)
                        == GroupSum(xs[..i], keys[..i], k) + (if keys[i] == k then xs[i] else 0.0)
  {
    assert xs[..i + 1][..i] == xs[..i];
    assert keys[..i + 1][..i] == keys[..i];
  }

  lemma GroupCountPrefixStep(keys: seq<nat>, i: nat)
    requires i < |keys|
    ensures forall k :: GroupCount(keys[..i + 1], k)
                        == GroupCount(keys[..i], k) + (if keys[i] == k then 1 else 0)
  {
    assert keys[..i + 1][..i] == keys[..i];
  }

  /** One accumulating pass: the sum of xs over each group seen. */
  method GroupSums(xs: seq<real>, keys: seq<nat>) returns (sums: map<nat, real>)
    requires |xs| == |keys|
    ensures forall k :: k in sums <==> k in keys
    ensures forall k :: k in sums ==> sums[k] == GroupSum(xs, keys, k)
  {
    sums := map[];
    for i := 0 to |keys|
      invariant forall k :: k in sums <==> k in keys[..i]
      invariant forall k :: k in sums ==> sums[k] == GroupSum(xs[..i], keys[..i], k)
    {
      var k := keys[i];
      GroupPrefixStep(xs, keys, i);
      assert keys[..i + 1] == keys[..i] + [k];
      if k in sums {
        sums := sums[k := sums[k] + xs[i]];
      } else {
        sums := sums[k := xs[i]];
      }
    }
    assert keys[..|keys|] == keys && xs[..|xs|] == xs;
  }

  /** One counting pass: the number of rows of each group seen
      (`value_counts`). */
  method GroupCounts(keys: seq<nat>) returns (counts: map<nat, nat>)
    ensures forall k :: k in counts <==> k in keys
    ensures forall k :: k in counts ==> counts[k] == GroupCount(keys, k)
  {
    counts := map[];
    for i := 0 to |keys|
      invariant forall k :: k in counts <==> k in keys[..i]
      invariant forall k :: k in counts ==> counts[k] == GroupCount(keys[..i], k)
    {
      var k := keys[i];
      GroupCountPrefixStep(keys, i);
      assert keys[..i + 1] == keys[..i] + [k];
      if k in counts {
        counts := counts[k := counts[k] + 1];
      } else {
        counts := counts[k := 1];
      }
    }
    assert keys[..|keys|] == keys;
  }

  /** Per-group means of xs: the accumulating pass, then one dividing pass,
      as a `groupby(...).mean()` does. */
  method GroupMeans(xs: seq<real>, keys: seq<nat>) returns (means: map<nat, real>)
    requires |xs| == |keys|
    ensures forall k :: k in means <==> k in keys
    ensures forall k :: k in means ==> means[k] == GroupMean(xs, keys, k)
  {
    var sums := GroupSums(xs, keys);
    var counts := GroupCounts(keys);
    means := map[];
    for i := 0 to |keys|
      invariant forall k :: k in means <==> k in keys[..i]
      invariant forall k :: k in means ==> means[k] == GroupMean(xs, keys, k)
    {
      var k := keys[i];
      assert keys[..i + 1] == keys[..i] + [k];
      means := means[k := sums[k] / counts[k] as real];
    }
    assert keys[..|keys|] == keys;
  }

  // ---------------------------------------------------------------------
  // Order

  predicate Sorted(s: seq<real>)
  {
    forall i, j :: 0 <= i < j < |s| ==> s[i] <= s[j]
  }

  /** Places x in front of the first element of s that is not smaller. */
  function InsertSorted(x: real, s: seq<real>): (r: seq<real>)
    ensures |r| == |s| + 1
    ensures multiset(r) == multiset(s) + multiset{x}
  {
    if s == [] || x <= s[0] then [x] + s
    else
      assert s == [s[0]] + s[1..];
      [s[0]] + InsertSorted(x, s[1..])
  }

  /** Every element of an insertion into the tail of s is at least s[0]
      when x is. */
  lemma InsertSortedHeadBound(x: real, s: seq<real>)
    requires Sorted(s) && s != [] && x > s[0]
    ensures forall j :: 0 <= j < |s| ==> s[0] <= InsertSorted(x, s[1..])[j]
  {
    var t := InsertSorted(x, s[1..]);
    forall j | 0 <= j < |t| ensures s[0] <= t[j] {
      assert t[j] in multiset(s[1..]) + multiset{x};
      if t[j] != x {
        assert t[j] in multiset(s[1..]);
        var k :| 0 <= k < |s[1..]| && s[1..][k] == t[j];
        assert s[k + 1] == t[j];
      }
    }
  }

  lemma SortedCons(h: real, t: seq<real>)
    requires Sorted(t)
    requires forall j :: 0 <= j < |t| ==> h <= t[j]
    ensures Sorted([h] + t)
  {
    var r := [h] + t;
    forall i, j | 0 <= i < j < |r| ensures r[i] <= r[j] {
      assert r[j] == t[j - 1];
      if i > 0 {
        assert r[i] == t[i - 1];
      }
    }
  }

  /** Inserting into a sorted sequence keeps it sorted. */
  lemma {:induction false} InsertSortedSorted(x: real, s: seq<real>)
    requires Sorted(s)
    ensures Sorted(InsertSorted(x, s))
  {
    if s == [] || x <= s[0] {
      SortedCons(x, s);
    } else {
      SortedTail(s);
      InsertSortedSorted(x, s[1..]);
      InsertSortedHeadBound(x, s);
      SortedCons(s[0], InsertSorted(x, s[1..]));
    }
  }

  /** The ascending sort of a column (`np.sort`): a sorted permutation. */
  function Sort(s: seq<real>): (r: seq<real>)
    ensures Sorted(r)
    ensures multiset(r) == multiset(s)
    ensures |r| == |s|
  {
    if s == [] then []
    else
      assert s == [s[0]] + s[1..];
      var t := Sort(s[1..]);
      InsertSortedSorted(s[0], t);
      InsertSorted(s[0], t)
  }

  /** Two sorted sequences holding the same values start with the same
      (smallest) value. */
  lemma SortedSameHead(a: seq<real>, b: seq<real>)
    requires Sorted(a) && Sorted(b) && a != []
    requires multiset(a) == multiset(b)
    ensures b != [] && a[0] == b[0]
  {
    assert a[0] in multiset(b);
    var i :| 0 <= i < |b| && b[i] == a[0];
    assert b[0] in multiset(a);
    var j :| 0 <= j < |a| && a[j] == b[0];
    assert b[0] <= b[i] && a[0] <= a[j];
  }

  lemma SortedTail(a: seq<real>)
    requires Sorted(a) && a != []
    ensures Sorted(a[1..])
  {
    forall i, j | 0 <= i < j < |a[1..]| ensures a[1..][i] <= a[1..][j] {
      assert a[1..][i] == a[i + 1] && a[1..][j] == a[j + 1];
    }
  }

  lemma MultisetTail(a: seq<real>, b: seq<real>)
    requires a != [] && b != [] && a[0] == b[0]
    requires multiset(a) == multiset(b)
    ensures multiset(a[1..]) == multiset(b[1..])
  {
    assert a == [a[0]] + a[1..] && b == [b[0]] + b[1..];
    assert multiset(a[1..]) == multiset(a) - multiset{a[0]};
    assert multiset(b[1..]) == multiset(b) - multiset{b[0]};
  }

  /** A sorted permutation is unique: two sorted sequences holding the same
      multiset of values are equal. */
  lemma {:induction false} SortedUnique(a: seq<real>, b: seq<real>)
    requires Sorted(a) && Sorted(b)
    requires multiset(a) == multiset(b)
    ensures a == b
  {
    if a != [] {
      SortedSameHead(a, b);
      MultisetTail(a, b);
      SortedTail(a);
      SortedTail(b);
      SortedUnique(a[1..], b[1..]);
      assert a == [a[0]] + a[1..] && b == [b[0]] + b[1..];
    } else {
      assert |b| == |multiset(b)| == |multiset(a)| == 0;
    }
  }
}
