/**
 Post-training pruning of a tree ensemble. Each tree's output is one column of
 the dataset and the pruner keeps one weight per column; pruning picks a set of
 columns, sets their weights to zero and, when a line-search optimiser is
 attached, re-fits the weights of the remaining columns.

 The metric is a parameter (`metric` maps the per-instance scores of the
 dataset to a quality value); the line-search optimiser is represented by the
 weight vectors it returns before and after pruning; the random policy draws a
 permutation of the columns, given as a parameter.
 */
module EnsemblePruning {
  import opened Numeric
  import opened Results
  import opened Sequences
  import opened IndexOrder

  datatype PruningMethod = Random | LowWeights | Skip | Last | QualityLoss | ScoreLoss

  datatype PruningError =
    | PruneEverything          // asked to prune at least as many trees as there are
    | LineSearchRequired       // the policy needs a weight optimiser and none is attached
    | LineSearchSizeMismatch   // the optimiser returned a weight vector of the wrong length

  /** The pruned weights and the pruned column indices. */
  datatype PruningState = PruningState(weights: seq<real>, pruned: set<nat>)

  /** The policies that read weights learnt by the line search before pruning. */
  predicate NeedsLineSearch(m: PruningMethod) {
    m == LowWeights || m == QualityLoss || m == ScoreLoss
  }

  /** The columns `0 .. n-1` as a set. */
  function Columns(n: nat): (r: set<nat>)
    ensures forall i: nat :: i in r <==> i < n
    ensures |r| == n
  {
    var r := Elems(Range(0, n));
    forall i: nat | i < n
      ensures i in r
    {
      assert Range(0, n)[i] == i;
    }
    RangeDistinct(0, n);
    DistinctCard(Range(0, n));
    r
  }

  // ---------------------------------------------------------------------------
  // How many columns to prune

  /**
   The prune count as the code computes it: a rate below one is a fraction of
   the columns, rounded; otherwise it is an absolute count, truncated, and the
   run stops when it is not smaller than the number of columns.
   */
  function PruneCountAsWritten(rate: real, n: nat): (r: Result<nat, PruningError>)
    requires rate >= 0.0
    ensures rate < 1.0 ==> r.Success? && r.value <= n
    ensures rate < 1.0 ==> rate * n as real - 0.5 < r.value as real <= rate * n as real + 0.5
    ensures rate >= 1.0 ==> (r.Failure? <==> rate >= n as real)
    ensures rate >= 1.0 && r.Success? ==> r.value < n && r.value as real <= rate < r.value as real + 1.0
  {
    if rate < 1.0 then
      assert rate * n as real <= n as real;
      Success(Round(rate * n as real))
    else if Trunc(rate) >= n then Failure(PruneEverything)
    else Success(Trunc(rate))
  }

  /** A fraction close to one rounds to every column, and no abort happens. */
  lemma FractionPrunesEverything()
    ensures PruneCountAsWritten(0.95, 10) == Success(10)
  {
    assert Round(0.95 * 10 as real) == 10;
  }

  /**
   The prune count with the "impossible to prune everything" stop applied to
   both the fraction and the absolute count.
   */
  function PruneCount(rate: real, n: nat): (r: Result<nat, PruningError>)
    requires rate >= 0.0
    ensures r.Success? ==> r.value < n
    ensures r.Success? <==> PruneCountAsWritten(rate, n).Success? && PruneCountAsWritten(rate, n).value < n
    ensures r.Success? ==> r == PruneCountAsWritten(rate, n)
    ensures rate < 1.0 && r.Success? ==> rate * n as real - 0.5 < r.value as real <= rate * n as real + 0.5
  {
    var k :- PruneCountAsWritten(rate, n);
    if k >= n then Failure(PruneEverything) else Success(k)
  }

  // ---------------------------------------------------------------------------
  // Selection policies

  /** The last `k` columns, inserted as `n-1, n-2, ..., n-k`. */
  function LastPruning(n: nat, k: nat): (r: set<nat>)
    requires k <= n
    ensures forall i :: i in r <==> n - k <= i < n
    ensures |r| == k
  {
    if k == 0 then {}
    else
      var r := LastPruning(n, k - 1) + {n - k};
      assert n - k !in LastPruning(n, k - 1);
      r
  }

  /** The evenly spaced picks `ceil(i * n / s)` for `i < s`. */
  function SkipSequence(n: nat, s: nat): (q: seq<nat>)
    requires 0 < s <= n
    ensures |q| == s
  {
    var step := n as real / s as real;
    seq(s, i requires 0 <= i < s => SkipPick(i, step))
  }

  function SkipPick(i: nat, step: real): nat
    requires step > 0.0
  {
    NonnegativeProduct(i as real, step);
    Ceil(i as real * step)
  }

  lemma {:induction false} SkipSequenceFacts(n: nat, s: nat)
    requires 0 < s <= n
    ensures SkipSequence(n, s)[0] == 0
    ensures forall i, j :: 0 <= i < j < s ==> SkipSequence(n, s)[i] < SkipSequence(n, s)[j]
    ensures InBounds(SkipSequence(n, s), n)
  {
    var q := SkipSequence(n, s);
    var step := n as real / s as real;
    assert step * s as real == n as real;
    assert step >= 1.0;
    forall i, j | 0 <= i < j < s
      ensures q[i] < q[j]
    {
      NonnegativeProduct((j - i - 1) as real, step);
      assert j as real * step - i as real * step == (j - i - 1) as real * step + step;
    }
    forall i | 0 <= i < s
      ensures q[i] < n
    {
      NonnegativeProduct((s - 1 - i) as real, step);
      assert i as real * step == n as real - step - (s - 1 - i) as real * step;
    }
  }

  /** The columns kept by the skip policy: `s` evenly spaced ones. */
  function SkipSelected(n: nat, s: nat): (r: set<nat>)
    requires s <= n
    ensures |r| == s
    ensures forall i :: i in r ==> i < n
    ensures s > 0 ==> 0 in r
  {
    if s == 0 then {}
    else
      var q := SkipSequence(n, s);
      SkipSequenceFacts(n, s);
      DistinctCard(q);
      Elems(q)
  }

  /** The skip policy: every column the evenly spaced selection leaves out. */
  function SkipPruning(n: nat, k: nat): (r: set<nat>)
    requires k <= n
    ensures |r| == k
    ensures forall i: nat :: i in r <==> i < n && i !in SkipSelected(n, n - k)
    ensures k < n ==> 0 !in r
  {
    var selected := SkipSelected(n, n - k);
    var r := Columns(n) - selected;
    assert selected <= Columns(n);
    assert |r| == |Columns(n)| - |selected| by {
      assert Columns(n) == r + selected;
      assert r !! selected;
    }
    r
  }

  /** The `k` columns of smallest weight. */
  function LowWeightsPruning(weights: seq<real>, k: nat): (r: set<nat>)
    requires k <= |weights|
    ensures |r| == k
    ensures forall i :: i in r ==> i < |weights|
    ensures forall i, j :: i in r && 0 <= j < |weights| && j !in r ==> weights[i] <= weights[j]
  {
    SmallestK(weights, k)
  }

  /** The `k` columns whose removal leaves the highest metric. */
  function QualityLossPruning(metrics: seq<real>, k: nat): (r: set<nat>)
    requires k <= |metrics|
    ensures |r| == k
    ensures forall i :: i in r ==> i < |metrics|
    ensures forall i, j :: i in r && 0 <= j < |metrics| && j !in r ==> metrics[i] >= metrics[j]
  {
    LargestK(metrics, k)
  }

  /** The `k` columns with the smallest summed weighted contribution. */
  function ScoreLossPruning(weights: seq<real>, features: seq<seq<real>>, k: nat): (r: set<nat>)
    requires Rectangular(features, |weights|)
    requires k <= |weights|
    ensures |r| == k
    ensures forall i :: i in r ==> i < |weights|
    ensures forall i, j :: i in r && 0 <= j < |weights| && j !in r ==>
      ColumnScore(weights, features, i) <= ColumnScore(weights, features, j)
  {
    SmallestK(FeatureScores(weights, features), k)
  }

  /** The random policy: the first `k` distinct columns drawn. */
  function RandomPruning(draws: seq<nat>, n: nat, k: nat): (r: set<nat>)
    requires IsPermutation(draws, n) && k <= n
    ensures |r| == k
    ensures forall i :: i in r ==> i < n
  {
    PermutationFacts(draws, n);
    DistinctCard(draws[..k]);
    Elems(draws[..k])
  }

  // ---------------------------------------------------------------------------
  // Scores

  /** Every instance has one feature per column. */
  predicate Rectangular(features: seq<seq<real>>, n: nat) {
    forall s :: 0 <= s < |features| ==> |features[s]| == n
  }

  /** The score of every instance: the weighted sum of its columns. */
  function ScoreDataset(weights: seq<real>, features: seq<seq<real>>): (scores: seq<real>)
    requires Rectangular(features, |weights|)
    ensures |scores| == |features|
    ensures forall s :: 0 <= s < |features| ==> scores[s] == Dot(weights, features[s])
  {
    seq(|features|, s requires 0 <= s < |features| => Dot(weights, features[s]))
  }

  /** The summed contribution `sum_s weights[f] * features[s][f]` of column `f`. */
  function ColumnScore(weights: seq<real>, features: seq<seq<real>>, f: nat): real
    requires Rectangular(features, |weights|) && f < |weights|
  {
    if |features| == 0 then 0.0
    else
      ColumnScore(weights, features[..|features| - 1], f)
      + weights[f] * features[|features| - 1][f]
  }

  function FeatureScores(weights: seq<real>, features: seq<seq<real>>): (r: seq<real>)
    requires Rectangular(features, |weights|)
    ensures |r| == |weights|
    ensures forall f :: 0 <= f < |weights| ==> r[f] == ColumnScore(weights, features, f)
  {
    seq(|weights|, f requires 0 <= f < |weights| => ColumnScore(weights, features, f))
  }

  function SumReal(s: seq<real>): real {
    if |s| == 0 then 0.0 else SumReal(s[..|s| - 1]) + s[|s| - 1]
  }

  lemma {:induction false} SumPointwise(a: seq<real>, b: seq<real>, c: seq<real>)
    requires |a| == |b| == |c|
    requires forall i :: 0 <= i < |a| ==> c[i] == a[i] + b[i]
    ensures SumReal(c) == SumReal(a) + SumReal(b)
  {
    if |a| > 0 {
      var m := |a| - 1;
      SumPointwise(a[..m], b[..m], c[..m]);
    }
  }

  lemma {:induction false} SumIsDotWithOnes(w: seq<real>, d: seq<real>, c: seq<real>)
    requires |w| == |d| == |c|
    requires forall i :: 0 <= i < |w| ==> c[i] == w[i] * d[i]
    ensures SumReal(c) == Dot(w, d)
  {
    if |w| > 0 {
      var m := |w| - 1;
      SumIsDotWithOnes(w[..m], d[..m], c[..m]);
    }
  }

  /**
   The column contributions add up to the total score of the dataset: the
   score-loss ranking splits exactly the quantity the scorer computes.
   */
  lemma {:induction false} FeatureScoresTotal(weights: seq<real>, features: seq<seq<real>>)
    requires Rectangular(features, |weights|)
    ensures SumReal(FeatureScores(weights, features)) == SumReal(ScoreDataset(weights, features))
  {
    if |features| > 0 {
      var m := |features| - 1;
      var init := features[..m];
      var row := features[m];
      FeatureScoresTotal(weights, init);
      var before := FeatureScores(weights, init);
      var after := FeatureScores(weights, features);
      var terms := seq(|weights|, f requires 0 <= f < |weights| => weights[f] * row[f]);
      SumPointwise(before, terms, after);
      SumIsDotWithOnes(weights, row, terms);
      var scores := ScoreDataset(weights, features);
      assert scores[..m] == ScoreDataset(weights, init);
      assert SumReal(scores) == SumReal(scores[..m]) + scores[m];
    } else {
      SumZeros(FeatureScores(weights, features));
    }
  }

  lemma {:induction false} SumZeros(s: seq<real>)
    requires forall i :: 0 <= i < |s| ==> s[i] == 0.0
    ensures SumReal(s) == 0.0
  {
    if |s| > 0 {
      SumZeros(s[..|s| - 1]);
    }
  }

  // ---------------------------------------------------------------------------
  // Leave-one-out quality loss

  /**
   Sets each column's weight to zero in turn, scores the dataset, records the
   metric and puts the weight back.
   */
  method LeaveOneOutMetrics(weights: seq<real>, features: seq<seq<real>>, metric: seq<real> -> real)
    returns (metrics: seq<real>, restored: seq<real>)
    requires Rectangular(features, |weights|)
    ensures restored == weights
    ensures |metrics| == |weights|
    ensures forall f :: 0 <= f < |weights| ==>
      metrics[f] == metric(ScoreDataset(weights[f := 0.0], features))
  {
    var w := weights;
    metrics := [];
    var f := 0;
    while f < |weights|
      invariant 0 <= f <= |weights|
      invariant w == weights
      invariant |metrics| == f
      invariant forall g :: 0 <= g < f ==> metrics[g] == metric(ScoreDataset(weights[g := 0.0], features))
    {
      var backup := w[f];
      w := w[f := 0.0];
      metrics := metrics + [metric(ScoreDataset(w, features))];
      w := w[f := backup];
      f := f + 1;
    }
    restored := w;
  }

  /** Removing column `f` changes every instance score by that column's term only. */
  lemma LeaveOneOutScore(weights: seq<real>, features: seq<seq<real>>, f: nat, s: nat)
    requires Rectangular(features, |weights|) && f < |weights| && s < |features|
    ensures ScoreDataset(weights[f := 0.0], features)[s]
         == ScoreDataset(weights, features)[s] - weights[f] * features[s][f]
  {
    DotUpdate(weights, features[s], f, 0.0);
  }

  // ---------------------------------------------------------------------------
  // Zeroing and re-importing weights

  /** Number of columns below `f` that are not pruned. */
  function KeptBefore(pruned: set<nat>, f: nat): nat {
    if f == 0 then 0 else KeptBefore(pruned, f - 1) + (if f - 1 in pruned then 0 else 1)
  }

  lemma {:induction false} KeptBeforeMonotone(pruned: set<nat>, f: nat, g: nat)
    requires f <= g
    ensures KeptBefore(pruned, f) <= KeptBefore(pruned, g)
    decreases g - f
  {
    if f < g {
      KeptBeforeMonotone(pruned, f, g - 1);
    }
  }

  /** Together with the pruned columns below `n`, the kept ones make up all `n`. */
  lemma {:induction false} KeptBeforeComplement(pruned: set<nat>, n: nat)
    ensures KeptBefore(pruned, n) + |pruned * Columns(n)| == n
  {
    if n > 0 {
      KeptBeforeComplement(pruned, n - 1);
      var below := pruned * Columns(n - 1);
      if n - 1 in pruned {
        assert pruned * Columns(n) == below + {n - 1};
        assert n - 1 !in below;
      } else {
        assert pruned * Columns(n) == below;
      }
    }
  }

  /**
   The values of the kept columns in increasing column order: the column layout
   of the dataset the line search is run on after pruning.
   */
  function KeptValues(v: seq<real>, pruned: set<nat>): (r: seq<real>)
    ensures |r| == KeptBefore(pruned, |v|)
  {
    if |v| == 0 then []
    else KeptValues(v[..|v| - 1], pruned) + (if |v| - 1 in pruned then [] else [v[|v| - 1]])
  }

  /** One more column extends the kept values by that column's value, unless it is pruned. */
  lemma KeptValuesSnoc(v: seq<real>, pruned: set<nat>, f: nat)
    requires f < |v|
    ensures KeptValues(v[..f + 1], pruned) == KeptValues(v[..f], pruned) + (if f in pruned then [] else [v[f]])
  {
    assert v[..f + 1][..f] == v[..f];
  }

  /** A kept column's value sits at its rank among the kept columns. */
  lemma {:induction false} KeptValuesAt(v: seq<real>, pruned: set<nat>, f: nat)
    requires f < |v| && f !in pruned
    ensures KeptBefore(pruned, f) < |KeptValues(v, pruned)|
    ensures KeptValues(v, pruned)[KeptBefore(pruned, f)] == v[f]
  {
    var m := |v| - 1;
    KeptBeforeMonotone(pruned, f + 1, |v|);
    if f < m {
      KeptValuesAt(v[..m], pruned, f);
    } else {
      assert KeptValues(v[..m], pruned) == KeptValues(v, pruned)[..KeptBefore(pruned, f)];
    }
  }

  /**
   With the pruned weights at zero, the full weighted sum equals the weighted
   sum over the kept columns alone: the model scored on the full dataset agrees
   with the model scored on the dataset with pruned columns removed.
   */
  lemma {:induction false} ZeroedScore(weights: seq<real>, x: seq<real>, pruned: set<nat>)
    requires |weights| == |x|
    requires forall f :: 0 <= f < |weights| && f in pruned ==> weights[f] == 0.0
    ensures Dot(weights, x) == Dot(KeptValues(weights, pruned), KeptValues(x, pruned))
  {
    if |weights| > 0 {
      var m := |weights| - 1;
      ZeroedScore(weights[..m], x[..m], pruned);
      var kw := KeptValues(weights[..m], pruned);
      var kx := KeptValues(x[..m], pruned);
      var t := weights[m] * x[m];
      assert Dot(weights, x) == Dot(kw, kx) + t;
      if m !in pruned {
        assert KeptValues(weights, pruned) == kw + [weights[m]];
        assert KeptValues(x, pruned) == kx + [x[m]];
        DotSnoc(kw, kx, weights[m], x[m]);
      } else {
        assert KeptValues(weights, pruned) == kw;
        assert KeptValues(x, pruned) == kx;
        assert t == 0.0;
      }
    }
  }

  /**
   Copies the line-search weights into the non-pruned columns, in increasing
   column order; pruned columns keep their value. The source asserts that the
   line-search vector is consumed exactly.
   */
  method ImportWeights(weights: seq<real>, pruned: set<nat>, lineSearch: seq<real>)
    returns (r: Result<seq<real>, PruningError>)
    ensures r.Success? <==> |lineSearch| == KeptBefore(pruned, |weights|)
    ensures r.Failure? ==> r.error == LineSearchSizeMismatch
    ensures r.Success? ==> |r.value| == |weights|
    ensures r.Success? ==> forall f :: 0 <= f < |weights| && f in pruned ==> r.value[f] == weights[f]
    ensures r.Success? ==> forall f {:trigger r.value[f]} :: 0 <= f < |weights| && f !in pruned ==>
      KeptBefore(pruned, f) < |lineSearch| && r.value[f] == lineSearch[KeptBefore(pruned, f)]
    ensures r.Success? ==> KeptValues(r.value, pruned) == lineSearch
  {
    if |lineSearch| != KeptBefore(pruned, |weights|) {
      return Failure(LineSearchSizeMismatch);
    }
    var v := weights;
    var used := 0;
    var f := 0;
    while f < |weights|
      invariant 0 <= f <= |weights|
      invariant |v| == |weights|
      invariant used == KeptBefore(pruned, f) <= |lineSearch|
      invariant forall g :: f <= g < |weights| ==> v[g] == weights[g]
      invariant forall g :: 0 <= g < f && g in pruned ==> v[g] == weights[g]
      invariant KeptValues(v[..f], pruned) == lineSearch[..used]
    {
      KeptBeforeMonotone(pruned, f + 1, |weights|);
      if f !in pruned {
        var v' := v[f := lineSearch[used]];
        assert v'[..f] == v[..f];
        KeptValuesSnoc(v', pruned, f);
        assert lineSearch[..used + 1] == lineSearch[..used] + [lineSearch[used]];
        v := v';
        used := used + 1;
      } else {
        KeptValuesSnoc(v, pruned, f);
      }
      f := f + 1;
    }
    assert v[..f] == v;
    assert lineSearch[..used] == lineSearch;
    forall g | 0 <= g < |weights| && g !in pruned
      ensures KeptBefore(pruned, g) < |lineSearch| && v[g] == lineSearch[KeptBefore(pruned, g)]
    {
      KeptValuesAt(v, pruned, g);
    }
    return Success(v);
  }

  /** QUALITY_LOSS end to end: measure every leave-one-out metric, then prune the `k` best. */
  method QualityLossSelect(weights: seq<real>, features: seq<seq<real>>, metric: seq<real> -> real, k: nat)
    returns (pruned: set<nat>)
    requires k <= |weights| && Rectangular(features, |weights|)
    ensures |pruned| == k
    ensures forall f :: f in pruned ==> f < |weights|
    ensures forall i, j :: i in pruned && 0 <= j < |weights| && j !in pruned ==>
      metric(ScoreDataset(weights[i := 0.0], features)) >= metric(ScoreDataset(weights[j := 0.0], features))
  {
    var metrics, restored := LeaveOneOutMetrics(weights, features, metric);
    pruned := QualityLossPruning(metrics, k);
    forall i, j | i in pruned && 0 <= j < |weights| && j !in pruned
      ensures metric(ScoreDataset(weights[i := 0.0], features)) >= metric(ScoreDataset(weights[j := 0.0], features))
    {
      assert metrics[i] >= metrics[j];
    }
  }

  /** The columns the chosen policy prunes, given the current weights. */
  method SelectPruned(
    pm: PruningMethod, weights: seq<real>, features: seq<seq<real>>,
    metric: seq<real> -> real, draws: seq<nat>, k: nat)
    returns (pruned: set<nat>)
    requires k <= |weights|
    requires Rectangular(features, |weights|)
    requires pm == Random ==> IsPermutation(draws, |weights|)
    ensures |pruned| == k
    ensures forall f :: f in pruned ==> f < |weights|
    ensures pm == Random ==> k <= |draws| && pruned == Elems(draws[..k])
    ensures pm == Last ==> forall f: nat :: f in pruned <==> |weights| - k <= f < |weights|
    ensures pm == Skip ==> forall f: nat :: f in pruned <==> f < |weights| && f !in SkipSelected(|weights|, |weights| - k)
    ensures pm == LowWeights ==>
      forall i, j :: i in pruned && 0 <= j < |weights| && j !in pruned ==> weights[i] <= weights[j]
    ensures pm == QualityLoss ==>
      forall i, j :: i in pruned && 0 <= j < |weights| && j !in pruned ==>
        metric(ScoreDataset(weights[i := 0.0], features)) >= metric(ScoreDataset(weights[j := 0.0], features))
    ensures pm == ScoreLoss ==>
      forall i, j :: i in pruned && 0 <= j < |weights| && j !in pruned ==>
        ColumnScore(weights, features, i) <= ColumnScore(weights, features, j)
  {
    var n := |weights|;
    match pm {
      case Random =>
        PermutationFacts(draws, n);
        pruned := RandomPruning(draws, n, k);
      case LowWeights => pruned := LowWeightsPruning(weights, k);
      case Skip => pruned := SkipPruning(n, k);
      case Last => pruned := LastPruning(n, k);
      case QualityLoss => pruned := QualityLossSelect(weights, features, metric, k);
      case ScoreLoss => pruned := ScoreLossPruning(weights, features, k);
    }
  }

  /**
   Re-fits the kept columns after pruning: the optimiser's weights go, in
   column order, into the non-pruned slots.
   */
  method Refit(weights: seq<real>, pruned: set<nat>, features: seq<seq<real>>, postWeights: seq<real>)
    returns (r: Result<seq<real>, PruningError>)
    requires Rectangular(features, |weights|)
    requires forall f :: f in pruned ==> f < |weights|
    requires forall f :: f in pruned ==> weights[f] == 0.0
    ensures r.Success? <==> |postWeights| == |weights| - |pruned|
    ensures r.Failure? ==> r.error == LineSearchSizeMismatch
    ensures r.Success? ==> |r.value| == |weights|
    ensures r.Success? ==> forall f :: f in pruned ==> r.value[f] == 0.0
    ensures r.Success? ==> KeptValues(r.value, pruned) == postWeights
    ensures r.Success? ==> forall s :: 0 <= s < |features| ==>
      Dot(r.value, features[s]) == Dot(postWeights, KeptValues(features[s], pruned))
  {
    var n := |weights|;
    KeptBeforeComplement(pruned, n);
    assert pruned * Columns(n) == pruned;
    r := ImportWeights(weights, pruned, postWeights);
    if r.Success? {
      var w := r.value;
      forall s | 0 <= s < |features|
        ensures Dot(w, features[s]) == Dot(postWeights, KeptValues(features[s], pruned))
      {
        ZeroedScore(w, features[s], pruned);
      }
    }
  }

  /**
   The line-search weights imported before pruning, when nothing is pruned
   yet: every column takes the optimiser's weight.
   */
  method ImportInitial(weights: seq<real>, preWeights: seq<real>) returns (r: Result<seq<real>, PruningError>)
    ensures r.Success? <==> |preWeights| == |weights|
    ensures r.Failure? ==> r.error == LineSearchSizeMismatch
    ensures r.Success? ==> r.value == preWeights
  {
    KeptBeforeIdentity(|weights|);
    r := ImportWeights(weights, {}, preWeights);
    if r.Success? {
      forall f | 0 <= f < |weights|
        ensures r.value[f] == preWeights[f]
      {
        KeptBeforeIdentity(f);
      }
    }
  }

  /**
   One pruning run over a dataset with `n` columns: prune count, optional
   line-search weights, selection, zeroing, optional re-fit.
   */
  method Learn(
    pm: PruningMethod, rate: real, features: seq<seq<real>>, n: nat,
    metric: seq<real> -> real, lineSearch: bool,
    preWeights: seq<real>, postWeights: seq<real>, draws: seq<nat>)
    returns (r: Result<PruningState, PruningError>)
    requires rate >= 0.0
    requires Rectangular(features, n)
    requires pm == Random ==> IsPermutation(draws, n)
    ensures PruneCount(rate, n).Failure? ==> r == Failure(PruneEverything)
    ensures PruneCount(rate, n).Success? && NeedsLineSearch(pm) && !lineSearch ==>
      r == Failure(LineSearchRequired)
    ensures PruneCount(rate, n).Success? && NeedsLineSearch(pm) && lineSearch && |preWeights| != n ==>
      r == Failure(LineSearchSizeMismatch)
    ensures r.Success? ==> PruneCount(rate, n).Success?
    ensures r.Success? ==> |r.value.pruned| == PruneCount(rate, n).value
    ensures r.Success? ==> |r.value.weights| == n
    ensures r.Success? ==> forall f :: f in r.value.pruned ==> f < n && r.value.weights[f] == 0.0
    ensures r.Success? && !lineSearch ==>
      forall f :: 0 <= f < n ==> r.value.weights[f] == if f in r.value.pruned then 0.0 else 1.0
    ensures r.Success? && lineSearch ==> |postWeights| == n - |r.value.pruned|
    ensures r.Success? && lineSearch ==> KeptValues(r.value.weights, r.value.pruned) == postWeights
    ensures r.Success? && lineSearch ==> forall s :: 0 <= s < |features| ==>
      Dot(r.value.weights, features[s]) == Dot(postWeights, KeptValues(features[s], r.value.pruned))
    ensures r.Success? && pm == LowWeights ==> |preWeights| == n
    ensures r.Success? && pm == LowWeights ==>
      forall i, j :: i in r.value.pruned && 0 <= j < n && j !in r.value.pruned ==> preWeights[i] <= preWeights[j]
  {
    var count := PruneCount(rate, n);
    if count.Failure? {
      return Failure(count.error);
    }
    var k := count.value;
    var weights := seq(n, _ => 1.0);
    if NeedsLineSearch(pm) {
      if !lineSearch {
        return Failure(LineSearchRequired);
      }
      var imported := ImportInitial(weights, preWeights);
      if imported.Failure? {
        return Failure(imported.error);
      }
      weights := imported.value;
    }
    var pruned := SelectPruned(pm, weights, features, metric, draws, k);
    weights := ZeroAt(weights, pruned);
    if lineSearch {
      var refit := Refit(weights, pruned, features, postWeights);
      if refit.Failure? {
        return Failure(refit.error);
      }
      weights := refit.value;
    }
    return Success(PruningState(weights, pruned));
  }

  lemma {:induction false} KeptBeforeIdentity(f: nat)
    ensures KeptBefore({}, f) == f
  {
    if f > 0 {
      KeptBeforeIdentity(f - 1);
    }
  }
}
