/**
 DART dropout bookkeeping: how many trees to drop in an iteration, which ones,
 the cumulative-probability search used by the weighted samplers, and the
 per-tree drop counters of the count-based samplers.

 The random draws are parameters: `draw` is the skip-dropout draw in [0, 1]
 and `perm` is the permutation produced by the shuffle of the candidate pool.
 */
module DartDropout {
  import opened Numeric
  import opened Sequences

  datatype SamplingType = Uniform | TopFifty | Count2 | Count3 | Count2N | Count3N | Weighted | WeightedInv

  /** The samplers that draw from a shuffled pool of tree indices. */
  predicate ShuffledPool(t: SamplingType) {
    t != Weighted && t != WeightedInv
  }

  /** The samplers that count drops and remove trees dropped too often. */
  predicate CountBased(t: SamplingType) {
    t == Count2 || t == Count3 || t == Count2N || t == Count3N
  }

  /** The count-based samplers ignore the keep-drop option. */
  function EffectiveKeepDrop(t: SamplingType, keepDrop: bool): (r: bool)
    ensures r ==> keepDrop
    ensures CountBased(t) ==> !r
    ensures !CountBased(t) ==> r == keepDrop
  {
    if CountBased(t) then false else keepDrop
  }

  /** Number of drops after which a tree is removed for good. */
  function Threshold(t: SamplingType): (r: nat)
    requires CountBased(t)
    ensures r == 2 || r == 3
    ensures r == 3 <==> t == Count3 || t == Count3N
  {
    if t == Count3 || t == Count3N then 3 else 2
  }

  // ---------------------------------------------------------------------------
  // How many trees to drop

  /** The fraction `rate` of an ensemble of `size` trees. */
  function Share(rate: real, size: nat): real {
    rate * size as real
  }

  lemma ShareWithin(rate: real, size: nat)
    requires 0.0 <= rate <= 1.0
    ensures 0.0 <= Share(rate, size) <= size as real
  {
    ScaleAtMost(rate, size as real);
  }

  /**
   The number of trees to drop: none when the skip draw does not exceed the
   skip probability; an absolute count (truncated) when the rate is at least
   one, provided the ensemble has at least twice that many trees; otherwise a
   rounded fraction of the ensemble.
   */
  function TreesToDrop(draw: real, skipDrop: real, rateDrop: real, size: nat): (r: int)
    ensures draw <= skipDrop ==> r == 0
    ensures draw > skipDrop && rateDrop >= 1.0 ==> (r > 0 <==> 2.0 * rateDrop <= size as real)
    ensures draw > skipDrop && rateDrop >= 1.0 && r > 0 ==>
      r as real <= rateDrop < r as real + 1.0 && 2 * r <= size
    ensures draw > skipDrop && 0.0 <= rateDrop < 1.0 ==>
      0 <= r <= size && Share(rateDrop, size) - 0.5 < r as real <= Share(rateDrop, size) + 0.5
  {
    if draw <= skipDrop then 0
    else if rateDrop >= 1.0 then
      if rateDrop * 2.0 <= size as real then
        var t := Trunc(rateDrop);
        assert t as real > 0.0;
        assert 2.0 * t as real <= size as real;
        t
      else 0
    else
      var x := Share(rateDrop, size);
      if 0.0 <= rateDrop then
        ShareWithin(rateDrop, size);
        RoundWithin(x, size);
        Round(x)
      else Round(x)
  }

  /** A skip probability of one or more turns dropout off for every draw in [0, 1]. */
  lemma SkipAlwaysDropsNothing(draw: real, skipDrop: real, rateDrop: real, size: nat)
    requires 0.0 <= draw <= 1.0 && skipDrop >= 1.0
    ensures TreesToDrop(draw, skipDrop, rateDrop, size) == 0
  {
  }

  /** An absolute drop count never removes more than half of the ensemble. */
  lemma DropAtMostHalf(draw: real, skipDrop: real, rateDrop: real, size: nat)
    requires rateDrop >= 1.0
    ensures 2 * TreesToDrop(draw, skipDrop, rateDrop, size) <= size
  {
  }

  // ---------------------------------------------------------------------------
  // Cumulative-probability search

  predicate NonDecreasing(a: seq<real>) {
    forall i, j :: 0 <= i < j < |a| ==> a[i] <= a[j]
  }

  /**
   Binary search for the first slot whose cumulative value exceeds `key`, or
   -1 when the search finds none.
   */
  method BinarySearch(a: seq<real>, key: real) returns (r: int)
    ensures -1 <= r < |a|
    ensures r >= 0 ==> key < a[r] && (r == 0 || key >= a[r - 1])
    ensures NonDecreasing(a) ==> (r == -1 <==> |a| == 0 || key >= a[|a| - 1])
    ensures NonDecreasing(a) && r >= 0 ==> forall i :: 0 <= i < |a| ==> (key < a[i] <==> r <= i)
  {
    var low := 0;
    var high := |a| - 1;
    while low <= high
      invariant 0 <= low <= high + 1 <= |a|
      invariant NonDecreasing(a) ==> forall i :: 0 <= i < low ==> a[i] <= key
      invariant NonDecreasing(a) ==> forall i :: high < i < |a| ==> key < a[i]
      invariant high == |a| - 1 || (0 <= high && key < a[high])
      decreases high - low
    {
      var mid := low + (high - low) / 2;
      if key < a[mid] && (mid == 0 || key >= a[mid - 1]) {
        return mid;
      } else if key < a[mid] {
        high := mid - 1;
      } else {
        low := mid + 1;
      }
    }
    return -1;
  }

  // ---------------------------------------------------------------------------
  // Uniform, top-half and count-based selection

  /** Size of the candidate pool: the first half of the ensemble for TOP_FIFTY. */
  function PoolSize(t: SamplingType, n: nat): (r: nat)
    ensures r <= n
    ensures t == TopFifty ==> 2 * r <= n < 2 * r + 2
    ensures t != TopFifty ==> r == n
  {
    if t == TopFifty then n / 2 else n
  }

  /** The entries of `s` whose weight is positive, in order. */
  function Positives(weights: seq<real>, s: seq<nat>): (r: seq<nat>)
    requires InBounds(s, |weights|)
    ensures |r| <= |s|
    ensures forall i :: 0 <= i < |r| ==> r[i] in s && weights[r[i]] > 0.0
  {
    if |s| == 0 then []
    else
      var m := |s| - 1;
      var rest := Positives(weights, s[..m]);
      assert forall i :: 0 <= i < |rest| ==> rest[i] in s by {
        forall i | 0 <= i < |rest|
          ensures rest[i] in s
        {
          var j :| 0 <= j < m && s[..m][j] == rest[i];
          assert s[j] == rest[i];
        }
      }
      rest + (if weights[s[m]] > 0.0 then [s[m]] else [])
  }

  lemma {:induction false} PositivesDistinct(weights: seq<real>, s: seq<nat>)
    requires InBounds(s, |weights|) && Distinct(s)
    ensures Distinct(Positives(weights, s))
  {
    if |s| > 0 {
      var m := |s| - 1;
      PositivesDistinct(weights, s[..m]);
      var rest := Positives(weights, s[..m]);
      forall i | 0 <= i < |rest|
        ensures rest[i] != s[m]
      {
        var j :| 0 <= j < m && s[..m][j] == rest[i];
        assert s[j] == rest[i];
      }
    }
  }

  lemma {:induction false} PositivesAppend(weights: seq<real>, a: seq<nat>, b: seq<nat>)
    requires InBounds(a, |weights|) && InBounds(b, |weights|)
    ensures InBounds(a + b, |weights|)
    ensures Positives(weights, a + b) == Positives(weights, a) + Positives(weights, b)
  {
    if |b| > 0 {
      var m := |b| - 1;
      assert (a + b)[..|a + b| - 1] == a + b[..m];
      PositivesAppend(weights, a, b[..m]);
    } else {
      assert a + b == a;
    }
  }

  /**
   Walks the shuffled pool and keeps the first `k` indices whose weight is
   positive.
   */
  method SelectTreesToDropout(t: SamplingType, weights: seq<real>, k: nat, perm: seq<nat>)
    returns (dropped: seq<nat>)
    requires ShuffledPool(t)
    requires IsPermutation(perm, PoolSize(t, |weights|))
    ensures InBounds(perm, |weights|)
    ensures dropped == Positives(weights, perm)[..MinInt(k, |Positives(weights, perm)|)]
    ensures |dropped| <= k
    ensures Distinct(dropped)
    ensures forall i :: 0 <= i < |dropped| ==> dropped[i] < PoolSize(t, |weights|) && weights[dropped[i]] > 0.0
  {
    PermutationFacts(perm, PoolSize(t, |weights|));
    PositivesDistinct(weights, perm);
    PositivesInPool(weights, perm, PoolSize(t, |weights|));
    dropped := FirstPositives(weights, perm, k);
  }

  /** The walk itself: stops at `k` hits or at the end of the sequence. */
  method FirstPositives(weights: seq<real>, s: seq<nat>, k: nat) returns (hits: seq<nat>)
    requires InBounds(s, |weights|)
    ensures hits == Positives(weights, s)[..MinInt(k, |Positives(weights, s)|)]
  {
    hits := [];
    var i := 0;
    while |hits| < k && i < |s|
      invariant 0 <= i <= |s|
      invariant hits == Positives(weights, s[..i])
      invariant |hits| <= k
    {
      PositivesStep(weights, s, i);
      if weights[s[i]] > 0.0 {
        hits := hits + [s[i]];
      }
      i := i + 1;
    }
    PositivesPrefix(weights, s, i, k);
  }

  /** One more entry of the walk adds that entry exactly when its weight is positive. */
  lemma PositivesStep(weights: seq<real>, s: seq<nat>, i: nat)
    requires InBounds(s, |weights|) && i < |s|
    ensures InBounds(s[..i], |weights|) && InBounds(s[..i + 1], |weights|)
    ensures Positives(weights, s[..i + 1]) == Positives(weights, s[..i]) + (if weights[s[i]] > 0.0 then [s[i]] else [])
  {
    assert s[..i + 1][..i] == s[..i];
  }

  /** Stopping the walk at `k` hits, or at the end of the pool, yields the first `k` hits. */
  lemma PositivesPrefix(weights: seq<real>, s: seq<nat>, i: nat, k: nat)
    requires InBounds(s, |weights|) && i <= |s|
    requires |Positives(weights, s[..i])| <= k
    requires |Positives(weights, s[..i])| == k || i == |s|
    ensures Positives(weights, s[..i]) == Positives(weights, s)[..MinInt(k, |Positives(weights, s)|)]
  {
    assert s == s[..i] + s[i..];
    PositivesAppend(weights, s[..i], s[i..]);
  }

  lemma PositivesInPool(weights: seq<real>, s: seq<nat>, n: nat)
    requires InBounds(s, |weights|) && InBounds(s, n)
    ensures InBounds(Positives(weights, s), n)
  {
    var p := Positives(weights, s);
    forall j | 0 <= j < |p|
      ensures p[j] < n
    {
      assert p[j] in s;
    }
  }

  // ---------------------------------------------------------------------------
  // Drop counters

  /** Every dropped tree has a counter and a weight. */
  predicate Indexed(dropped: seq<nat>, counts: seq<int>, weights: seq<real>) {
    forall i :: 0 <= i < |dropped| ==> dropped[i] < |counts| && dropped[i] < |weights|
  }

  /**
   After a fit that beats the full model, every dropped tree (the new one
   excluded) has its counter incremented; a tree whose counter reaches the
   threshold and whose weight is positive is marked for permanent removal.
   */
  method CountDrops(counts: seq<int>, dropped: seq<nat>, weights: seq<real>, threshold: int)
    returns (newCounts: seq<int>, toDrop: seq<nat>)
    requires Indexed(dropped, counts, weights)
    ensures |newCounts| == |counts|
    ensures forall t :: 0 <= t < |counts| ==> newCounts[t] == counts[t] + multiset(dropped)[t]
    ensures |toDrop| <= |dropped|
    ensures forall i :: 0 <= i < |toDrop| ==> toDrop[i] in dropped
    ensures Distinct(dropped) ==> Distinct(toDrop)
    ensures Distinct(dropped) ==> forall t: nat ::
      t in toDrop <==> t in dropped && newCounts[t] >= threshold && weights[t] > 0.0
  {
    newCounts := counts;
    toDrop := [];
    var i := 0;
    while i < |dropped|
      invariant 0 <= i <= |dropped|
      invariant |newCounts| == |counts|
      invariant forall t :: 0 <= t < |counts| ==> newCounts[t] == counts[t] + multiset(dropped[..i])[t]
      invariant |toDrop| <= i
      invariant forall j :: 0 <= j < |toDrop| ==> toDrop[j] in dropped[..i]
      invariant Distinct(dropped) ==> Distinct(toDrop)
      invariant Distinct(dropped) ==> forall t: nat ::
        t in toDrop <==> t in dropped[..i] && newCounts[t] >= threshold && weights[t] > 0.0
    {
      var t := dropped[i];
      ghost var before, marked := newCounts, toDrop;
      newCounts := newCounts[t := newCounts[t] + 1];
      if newCounts[t] >= threshold && weights[t] > 0.0 {
        toDrop := toDrop + [t];
      }
      CountStep(counts, dropped, i, before, newCounts);
      MarkStep(dropped, i, marked, toDrop);
      if Distinct(dropped) {
        MarkExactStep(dropped, weights, threshold, i, before, newCounts, marked, toDrop);
      }
      i := i + 1;
    }
    assert dropped[..i] == dropped;
  }

  lemma CountStep(counts: seq<int>, dropped: seq<nat>, i: nat, before: seq<int>, after: seq<int>)
    requires i < |dropped| && dropped[i] < |counts| == |before|
    requires forall t :: 0 <= t < |counts| ==> before[t] == counts[t] + multiset(dropped[..i])[t]
    requires after == before[dropped[i] := before[dropped[i]] + 1]
    ensures |after| == |counts|
    ensures forall t :: 0 <= t < |counts| ==> after[t] == counts[t] + multiset(dropped[..i + 1])[t]
  {
    assert dropped[..i + 1] == dropped[..i] + [dropped[i]];
  }

  lemma MarkStep(dropped: seq<nat>, i: nat, marked: seq<nat>, toDrop: seq<nat>)
    requires i < |dropped| && |marked| <= i
    requires forall j :: 0 <= j < |marked| ==> marked[j] in dropped[..i]
    requires toDrop == marked || toDrop == marked + [dropped[i]]
    ensures |toDrop| <= i + 1
    ensures forall j :: 0 <= j < |toDrop| ==> toDrop[j] in dropped[..i + 1]
  {
    assert dropped[..i + 1] == dropped[..i] + [dropped[i]];
  }

  /** With distinct drops, the marked trees stay exactly those seen, at the threshold and of positive weight. */
  lemma MarkExactStep(
    dropped: seq<nat>, weights: seq<real>, threshold: int, i: nat,
    before: seq<int>, after: seq<int>, marked: seq<nat>, toDrop: seq<nat>)
    requires Distinct(dropped) && i < |dropped| && Indexed(dropped, before, weights)
    requires forall j :: 0 <= j < |marked| ==> marked[j] in dropped[..i]
    requires Distinct(marked)
    requires forall t: nat :: t in marked <==> t in dropped[..i] && before[t] >= threshold && weights[t] > 0.0
    requires after == before[dropped[i] := before[dropped[i]] + 1]
    requires toDrop == marked + (if after[dropped[i]] >= threshold && weights[dropped[i]] > 0.0 then [dropped[i]] else [])
    ensures Distinct(toDrop)
    ensures forall t: nat :: t in toDrop <==> t in dropped[..i + 1] && after[t] >= threshold && weights[t] > 0.0
  {
    var t := dropped[i];
    assert dropped[..i + 1] == dropped[..i] + [t];
    assert t !in dropped[..i] by {
      forall j | 0 <= j < i
        ensures dropped[..i][j] != t
      {
        assert dropped[..i][j] == dropped[j];
      }
    }
  }

  /**
   The counters of the trees that survive the removal of zero-weight trees,
   in order: one counter per positive weight.
   */
  function FilterCounts(counts: seq<int>, weights: seq<real>): (r: seq<int>)
    requires |counts| == |weights|
    ensures |r| == CountTrue(PositiveMask(weights))
  {
    KeepLength(counts, PositiveMask(weights));
    Keep(counts, PositiveMask(weights))
  }

  function PositiveMask(weights: seq<real>): (m: seq<bool>)
    ensures |m| == |weights|
    ensures forall i :: 0 <= i < |weights| ==> (m[i] <==> weights[i] > 0.0)
  {
    seq(|weights|, i requires 0 <= i < |weights| => weights[i] > 0.0)
  }

  /** The trees `filter_out_zero_weighted_trees` keeps: the nonzero weights. */
  function NonzeroMask(weights: seq<real>): (m: seq<bool>)
    ensures |m| == |weights|
    ensures forall i :: 0 <= i < |weights| ==> (m[i] <==> weights[i] != 0.0)
  {
    seq(|weights|, i requires 0 <= i < |weights| => weights[i] != 0.0)
  }

  predicate AllNonnegative(weights: seq<real>) {
    forall i :: 0 <= i < |weights| ==> weights[i] >= 0.0
  }

  /**
   With nonnegative weights the counter filter and the ensemble's zero-weight
   filter keep the same trees, so the filtered counters stay aligned with the
   filtered ensemble: counter `j` belongs to surviving tree `j`.
   */
  lemma FilterCountsAligned(counts: seq<int>, weights: seq<real>)
    requires |counts| == |weights| && AllNonnegative(weights)
    ensures FilterCounts(counts, weights) == Keep(counts, NonzeroMask(weights))
    ensures |FilterCounts(counts, weights)| == |Keep(weights, NonzeroMask(weights))|
  {
    assert PositiveMask(weights) == NonzeroMask(weights);
    KeepLength(counts, NonzeroMask(weights));
    KeepLength(weights, NonzeroMask(weights));
  }

  // ---------------------------------------------------------------------------
  // Counter vector across a run

  /**
   The counters a run starts with, as the code creates them: an empty vector,
   whatever the size of the ensemble the run resumes from.
   */
  function InitialCountsAsWritten(ensembleSize: nat): (r: seq<int>)
    ensures |r| == 0
  {
    []
  }

  /** One zero counter per tree already in the ensemble. */
  function InitialCounts(ensembleSize: nat): (r: seq<int>)
    ensures |r| == ensembleSize
    ensures forall i :: 0 <= i < |r| ==> r[i] == 0
  {
    seq(ensembleSize, _ => 0)
  }

  /**
   Resuming from a three-tree model: after the first tree of the run is
   added, the ensemble has four trees but the counter vector only one, so the
   counter of tree 2 does not exist when tree 2 is dropped.
   */
  lemma ResumedCountsMisaligned()
    ensures |InitialCountsAsWritten(3) + [0]| == 1
    ensures !Indexed([2], InitialCountsAsWritten(3) + [0], [1.0, 1.0, 1.0, 1.0])
  {
    var counts := InitialCountsAsWritten(3) + [0];
    assert counts == [0];
    assert [2][0] == 2;
  }

  /** The ensemble after `filter_out_zero_weighted_trees` holds no zero weight. */
  lemma {:induction false} KeepNonzero(w: seq<real>)
    ensures forall j :: 0 <= j < |Keep(w, NonzeroMask(w))| ==> Keep(w, NonzeroMask(w))[j] != 0.0
  {
    if |w| > 0 {
      var n := |w| - 1;
      var front := w[..n];
      assert NonzeroMask(w)[..n] == NonzeroMask(front);
      KeepNonzero(front);
      var kept := Keep(front, NonzeroMask(front));
      assert Keep(w, NonzeroMask(w)) == kept + (if w[n] != 0.0 then [w[n]] else []);
    }
  }

  /**
   One iteration of the counting samplers with the corrected start, where the
   counter vector has one entry per tree of the ensemble on entry:
   the new tree and its zero counter are pushed; when the fit after the
   dropout beat the full model, the drops are counted on the pushed vector
   and the trees whose counter reached the threshold get weight zero; when
   the model improved, the counters are compacted with the trees of positive
   weight and the ensemble drops its zero weights. Afterwards the counters
   again have one entry per tree, and counter `j` belongs to tree `j`.
   `weights` are the ensemble weights after the drop was restored
   (`normalize_trees_restore_drop`), since the source reads the threshold
   test's weights only after that restore.
   The COUNT2N and COUNT3N samplers also rescale the temporarily dropped
   trees by positive factors (`CountRenormalize`); that leaves the zero
   weights, and so the compaction, as they are here.
   */
  method CountsIteration(
    counts: seq<int>, weights: seq<real>, newWeight: real, dropped: seq<nat>, threshold: int,
    better: bool, improved: bool)
    returns (counted: seq<int>, zeroed: seq<real>, next: seq<int>, ensemble: seq<real>)
    requires |counts| == |weights| && InBounds(dropped, |weights|)
    requires AllNonnegative(weights) && newWeight >= 0.0
    ensures |counted| == |zeroed| == |weights| + 1
    ensures counted[|weights|] == 0 && zeroed[|weights|] == newWeight
    ensures forall t :: 0 <= t < |weights| ==>
      counted[t] == counts[t] + (if better then multiset(dropped)[t] else 0)
    ensures forall t :: 0 <= t < |weights| ==> zeroed[t] == 0.0 || zeroed[t] == weights[t]
    ensures !better ==> zeroed == weights + [newWeight]
    ensures better && Distinct(dropped) ==> forall t :: 0 <= t < |weights| ==>
      (zeroed[t] == 0.0 <==> weights[t] == 0.0 || (t in dropped && counted[t] >= threshold))
    ensures improved ==> next == Keep(counted, NonzeroMask(zeroed)) && ensemble == Keep(zeroed, NonzeroMask(zeroed))
    ensures improved ==> forall j :: 0 <= j < |ensemble| ==> ensemble[j] != 0.0
    ensures !improved ==> next == counted && ensemble == zeroed
    ensures |next| == |ensemble|
  {
    var n := |weights|;
    var pushed := counts + [0];
    var extended := weights + [newWeight];
    assert n !in multiset(dropped);
    var toDrop: seq<nat> := [];
    counted := pushed;
    if better {
      counted, toDrop := CountDrops(pushed, dropped, extended, threshold);
    }
    zeroed := ZeroAt(extended, Elems(toDrop));
    assert n !in Elems(toDrop);
    assert AllNonnegative(zeroed);
    if improved {
      FilterCountsAligned(counted, zeroed);
      KeepNonzero(zeroed);
      next := FilterCounts(counted, zeroed);
      ensemble := Keep(zeroed, NonzeroMask(zeroed));
    } else {
      next, ensemble := counted, zeroed;
    }
  }
}
