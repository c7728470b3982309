/**
 DART weight normalisation: the weight a new tree is scored with while it is
 fitted, the rescaling of the dropped trees and the weight appended for the
 new tree when the drop is restored, and the renormalisation of the
 count-based samplers after a permanent removal.

 The line-search weight of the new tree is a parameter; the grid search that
 chooses it is not part of this model.
 */
module DartNormalize {
  import opened Numeric
  import opened Sequences
  import opened DartDropout

  datatype NormalizationType = Tree | NoNorm | Weighted | Forest | TreeAdaptive | LineSearch | TreeBoost3

  /** The rules that divide by `shrinkage * alpha + k`. */
  predicate TreeFamily(nt: NormalizationType) {
    nt == Tree || nt == TreeAdaptive || nt == TreeBoost3
  }

  function Alpha(nt: NormalizationType): (a: real)
    ensures a > 0.0
  {
    if nt == TreeBoost3 then 3.0 else 1.0
  }

  /** Sum of the weights of the listed trees, in list order. */
  function DroppedSum(weights: seq<real>, dropped: seq<nat>): real
    requires InBounds(dropped, |weights|)
  {
    if |dropped| == 0 then 0.0
    else DroppedSum(weights, dropped[..|dropped| - 1]) + weights[dropped[|dropped| - 1]]
  }

  lemma {:induction false} DroppedSumNonnegative(weights: seq<real>, dropped: seq<nat>)
    requires InBounds(dropped, |weights|) && AllNonnegative(weights)
    ensures DroppedSum(weights, dropped) >= 0.0
  {
    if |dropped| > 0 {
      DroppedSumNonnegative(weights, dropped[..|dropped| - 1]);
    }
  }

  /** The weight appended for the new tree and the factor applied to each dropped tree. */
  datatype Factors = Factors(appended: real, scale: real)

  /**
   What each rule needs to avoid a division by zero when `k` trees were
   dropped: the denominators `shrinkage * alpha + k`, `1 + shrinkage`,
   `sum + shrinkage` and `lastTreeWeight + k` are nonzero.
   */
  predicate Defined(nt: NormalizationType, shrinkage: real, k: nat, lastTreeWeight: real, droppedSum: real) {
    (TreeFamily(nt) ==> shrinkage * Alpha(nt) + k as real != 0.0)
    && (nt == Forest ==> 1.0 + shrinkage != 0.0)
    && (nt == NormalizationType.Weighted ==> droppedSum + shrinkage != 0.0)
    && (nt == LineSearch ==> lastTreeWeight + k as real != 0.0)
  }

  function RestoreFactors(
    nt: NormalizationType, shrinkage: real, k: nat, lastTreeWeight: real, droppedSum: real): Factors
    requires Defined(nt, shrinkage, k, lastTreeWeight, droppedSum)
  {
    match nt
    case Tree | TreeAdaptive | TreeBoost3 =>
      var sa := shrinkage * Alpha(nt);
      Factors(sa / (sa + k as real), k as real / (k as real + sa))
    case NoNorm => Factors(shrinkage, 1.0)
    case Weighted =>
      var total := droppedSum + shrinkage;
      Factors(shrinkage / total, droppedSum / total)
    case Forest => Factors(shrinkage / (1.0 + shrinkage), 1.0 / (1.0 + shrinkage))
    case LineSearch =>
      Factors(lastTreeWeight / (lastTreeWeight + k as real), k as real / (k as real + lastTreeWeight))
  }

  lemma ShareSumsToOne(a: real, b: real)
    requires a + b != 0.0
    ensures a / (a + b) + b / (b + a) == 1.0
  {
    assert b + a == a + b;
    assert a / (a + b) + b / (a + b) == (a + b) / (a + b);
  }

  /**
   Every rule except NONE splits unit mass between the new tree and the
   dropped trees: the appended weight plus the scale factor is one.
   */
  lemma FactorsSumToOne(nt: NormalizationType, shrinkage: real, k: nat, lastTreeWeight: real, droppedSum: real)
    requires Defined(nt, shrinkage, k, lastTreeWeight, droppedSum)
    requires nt != NoNorm
    ensures RestoreFactors(nt, shrinkage, k, lastTreeWeight, droppedSum).appended
          + RestoreFactors(nt, shrinkage, k, lastTreeWeight, droppedSum).scale == 1.0
  {
    match nt
    case Tree | TreeAdaptive | TreeBoost3 =>
      ShareSumsToOne(shrinkage * Alpha(nt), k as real);
    case Weighted =>
      ShareSumsToOne(shrinkage, droppedSum);
      assert droppedSum + shrinkage == shrinkage + droppedSum;
    case Forest =>
      ShareSumsToOne(shrinkage, 1.0);
    case LineSearch =>
      ShareSumsToOne(lastTreeWeight, k as real);
  }

  /**
   With a positive shrinkage (and, for LINESEARCH, a positive line-search
   weight) and nonnegative dropped weights, every factor is nonnegative and
   the appended weight positive.
   */
  lemma FactorsNonnegative(nt: NormalizationType, shrinkage: real, k: nat, lastTreeWeight: real, droppedSum: real)
    requires Defined(nt, shrinkage, k, lastTreeWeight, droppedSum) && droppedSum >= 0.0
    requires shrinkage > 0.0 && (nt == LineSearch ==> lastTreeWeight > 0.0)
    ensures RestoreFactors(nt, shrinkage, k, lastTreeWeight, droppedSum).appended > 0.0
    ensures RestoreFactors(nt, shrinkage, k, lastTreeWeight, droppedSum).scale >= 0.0
  {
    match nt
    case Tree | TreeAdaptive | TreeBoost3 =>
      PositiveProduct(shrinkage, Alpha(nt));
      ShareNonnegative(shrinkage * Alpha(nt), k as real);
    case NoNorm =>
    case Weighted =>
      ShareNonnegative(shrinkage, droppedSum);
      assert droppedSum + shrinkage == shrinkage + droppedSum;
    case Forest =>
      ShareNonnegative(shrinkage, 1.0);
    case LineSearch =>
      ShareNonnegative(lastTreeWeight, k as real);
  }

  lemma ShareNonnegative(a: real, b: real)
    requires a > 0.0 && b >= 0.0
    ensures a / (a + b) > 0.0 && b / (b + a) >= 0.0
  {
    assert b + a == a + b;
  }

  /**
   When no tree was actually dropped, the tree rules give the new tree weight
   one rather than the shrinkage.
   */
  lemma NoDroppedTreeFullWeight(nt: NormalizationType, shrinkage: real, lastTreeWeight: real, droppedSum: real)
    requires Defined(nt, shrinkage, 0, lastTreeWeight, droppedSum) && TreeFamily(nt)
    ensures RestoreFactors(nt, shrinkage, 0, lastTreeWeight, droppedSum).appended == 1.0
  {
    ShareSumsToOne(shrinkage * Alpha(nt), 0.0);
  }

  /** `factor` raised to a natural power. */
  function Power(factor: real, n: nat): real {
    if n == 0 then 1.0 else Power(factor, n - 1) * factor
  }

  lemma {:induction false} PowerNonnegative(factor: real, n: nat)
    requires factor >= 0.0
    ensures Power(factor, n) >= 0.0
  {
    if n > 0 {
      PowerNonnegative(factor, n - 1);
    }
  }

  /** Multiplies the weight of each listed tree by `factor`, once per occurrence. */
  function ScaleEach(weights: seq<real>, idx: seq<nat>, factor: real): (r: seq<real>)
    requires InBounds(idx, |weights|)
    ensures |r| == |weights|
  {
    if |idx| == 0 then weights
    else
      var prev := ScaleEach(weights, idx[..|idx| - 1], factor);
      var t := idx[|idx| - 1];
      prev[t := prev[t] * factor]
  }

  /** Each weight is scaled once per occurrence of its index in the list. */
  lemma {:induction false} ScaleEachAt(weights: seq<real>, idx: seq<nat>, factor: real, i: nat)
    requires InBounds(idx, |weights|) && i < |weights|
    ensures ScaleEach(weights, idx, factor)[i] == weights[i] * Power(factor, multiset(idx)[i])
  {
    if |idx| > 0 {
      var m := |idx| - 1;
      var t := idx[m];
      ScaleEachAt(weights, idx[..m], factor, i);
      assert idx == idx[..m] + [t];
      var c := multiset(idx[..m])[i];
      if i == t {
        assert multiset(idx)[i] == c + 1;
        MulAssoc(weights[i], Power(factor, c), factor);
      } else {
        assert multiset(idx)[i] == c;
      }
    }
  }

  lemma MulAssoc(a: real, b: real, c: real)
    ensures (a * b) * c == a * (b * c)
  {
  }

  /** A tree not in the list keeps its weight. */
  lemma ScaleEachOutside(weights: seq<real>, idx: seq<nat>, factor: real, i: nat)
    requires InBounds(idx, |weights|) && i < |weights| && i !in idx
    ensures ScaleEach(weights, idx, factor)[i] == weights[i]
  {
    ScaleEachAt(weights, idx, factor, i);
    assert multiset(idx)[i] == 0;
  }

  /** A tree listed exactly once is scaled exactly once. */
  lemma ScaleEachOnce(weights: seq<real>, idx: seq<nat>, factor: real, i: nat)
    requires InBounds(idx, |weights|) && i < |weights| && i in idx && Distinct(idx)
    ensures ScaleEach(weights, idx, factor)[i] == weights[i] * factor
  {
    ScaleEachAt(weights, idx, factor, i);
    DistinctCountAtMostOne(idx, i);
    assert i in multiset(idx);
    assert multiset(idx)[i] == 1;
    assert Power(factor, 1) == factor;
  }

  /** With a nonnegative factor a nonnegative weight stays nonnegative. */
  lemma ScaleEachNonnegative(weights: seq<real>, idx: seq<nat>, factor: real, i: nat)
    requires InBounds(idx, |weights|) && i < |weights| && weights[i] >= 0.0 && factor >= 0.0
    ensures ScaleEach(weights, idx, factor)[i] >= 0.0
  {
    ScaleEachAt(weights, idx, factor, i);
    PowerNonnegative(factor, multiset(idx)[i]);
    NonnegativeProduct(weights[i], Power(factor, multiset(idx)[i]));
  }

  /**
   Restores a drop: scales the dropped trees and appends the new tree's weight
   (NONE appends the shrinkage and scales nothing).
   */
  function NormalizeRestoreDrop(
    nt: NormalizationType, weights: seq<real>, dropped: seq<nat>, shrinkage: real, lastTreeWeight: real): (r: seq<real>)
    requires InBounds(dropped, |weights|)
    requires Defined(nt, shrinkage, |dropped|, lastTreeWeight, DroppedSum(weights, dropped))
    ensures |r| == |weights| + 1
    ensures r[|weights|] == RestoreFactors(nt, shrinkage, |dropped|, lastTreeWeight, DroppedSum(weights, dropped)).appended
    ensures nt == NoNorm ==> r == weights + [shrinkage]
  {
    var f := RestoreFactors(nt, shrinkage, |dropped|, lastTreeWeight, DroppedSum(weights, dropped));
    if nt == NoNorm then weights + [shrinkage]
    else Restore(weights, dropped, f)
  }

  /** Scales the dropped trees by `f.scale` and appends `f.appended`. */
  function Restore(weights: seq<real>, dropped: seq<nat>, f: Factors): (r: seq<real>)
    requires InBounds(dropped, |weights|)
    ensures |r| == |weights| + 1 && r[|weights|] == f.appended
  {
    ScaleEach(weights, dropped, f.scale) + [f.appended]
  }

  lemma RestoreScaled(weights: seq<real>, dropped: seq<nat>, f: Factors, i: nat)
    requires InBounds(dropped, |weights|) && Distinct(dropped) && i in dropped
    ensures i < |weights|
    ensures Restore(weights, dropped, f)[i] == weights[i] * f.scale
  {
    var j :| 0 <= j < |dropped| && dropped[j] == i;
    ScaleEachOnce(weights, dropped, f.scale, i);
  }

  /** Outside the dropped list every weight is unchanged. */
  lemma NormalizeRestoreDropOutside(
    nt: NormalizationType, weights: seq<real>, dropped: seq<nat>, shrinkage: real, lastTreeWeight: real, i: nat)
    requires InBounds(dropped, |weights|)
    requires Defined(nt, shrinkage, |dropped|, lastTreeWeight, DroppedSum(weights, dropped))
    requires i < |weights| && i !in dropped
    ensures NormalizeRestoreDrop(nt, weights, dropped, shrinkage, lastTreeWeight)[i] == weights[i]
  {
    if nt != NoNorm {
      var f := RestoreFactors(nt, shrinkage, |dropped|, lastTreeWeight, DroppedSum(weights, dropped));
      ScaleEachOutside(weights, dropped, f.scale, i);
    }
  }

  /** A dropped tree listed once is multiplied by the rule's scale factor exactly once. */
  lemma {:induction false} NormalizeRestoreDropScaled(
    nt: NormalizationType, weights: seq<real>, dropped: seq<nat>, shrinkage: real, lastTreeWeight: real, i: nat)
    requires InBounds(dropped, |weights|) && Distinct(dropped)
    requires Defined(nt, shrinkage, |dropped|, lastTreeWeight, DroppedSum(weights, dropped))
    requires i in dropped
    ensures NormalizeRestoreDrop(nt, weights, dropped, shrinkage, lastTreeWeight)[i]
         == weights[i] * RestoreFactors(nt, shrinkage, |dropped|, lastTreeWeight, DroppedSum(weights, dropped)).scale
  {
    var f := RestoreFactors(nt, shrinkage, |dropped|, lastTreeWeight, DroppedSum(weights, dropped));
    RestoreScaled(weights, dropped, f, i);
    var r := NormalizeRestoreDrop(nt, weights, dropped, shrinkage, lastTreeWeight);
    if nt == NoNorm {
      assert r == weights + [shrinkage];
      assert f == Factors(shrinkage, 1.0);
    } else {
      assert r == Restore(weights, dropped, f);
    }
  }

  /** Restoring a drop keeps every weight nonnegative. */
  lemma NormalizeRestoreDropNonnegative(
    nt: NormalizationType, weights: seq<real>, dropped: seq<nat>, shrinkage: real, lastTreeWeight: real)
    requires InBounds(dropped, |weights|) && AllNonnegative(weights)
    requires Defined(nt, shrinkage, |dropped|, lastTreeWeight, DroppedSum(weights, dropped))
    requires shrinkage > 0.0 && (nt == LineSearch ==> lastTreeWeight > 0.0)
    ensures AllNonnegative(NormalizeRestoreDrop(nt, weights, dropped, shrinkage, lastTreeWeight))
  {
    var sum := DroppedSum(weights, dropped);
    DroppedSumNonnegative(weights, dropped);
    var f := RestoreFactors(nt, shrinkage, |dropped|, lastTreeWeight, sum);
    FactorsNonnegative(nt, shrinkage, |dropped|, lastTreeWeight, sum);
    var r := NormalizeRestoreDrop(nt, weights, dropped, shrinkage, lastTreeWeight);
    forall i | 0 <= i < |r|
      ensures r[i] >= 0.0
    {
      if i < |weights| && nt != NoNorm {
        ScaleEachNonnegative(weights, dropped, f.scale, i);
      }
    }
  }

  lemma ShareAtMostOne(a: real, b: real)
    requires a > 0.0 && b >= 0.0
    ensures 0.0 < a / (a + b) <= 1.0
    ensures b == 0.0 ==> a / (a + b) == 1.0
  {
    if b == 0.0 {
      assert a + b == a;
    }
  }

  // ---------------------------------------------------------------------------
  // Weight of the new tree while it is fitted

  /**
   The weight the new tree is scored with before the drop is restored: the
   shrinkage for TREE, NONE, WEIGHTED and FOREST, the normalised share for
   TREE_ADAPTIVE and TREE_BOOST3, and the line-search result for LINESEARCH.
   */
  function LastTreeWeight(nt: NormalizationType, shrinkage: real, k: nat, lineSearchWeight: real): (r: real)
    requires nt == TreeAdaptive ==> shrinkage + k as real != 0.0
    requires nt == TreeBoost3 ==> shrinkage * 3.0 + k as real != 0.0
    ensures nt in {Tree, NoNorm, NormalizationType.Weighted, Forest} ==> r == shrinkage
    ensures nt == TreeAdaptive ==> r == shrinkage / (shrinkage + k as real)
    ensures nt == TreeBoost3 ==> r == (shrinkage * 3.0) / (shrinkage * 3.0 + k as real)
    ensures nt == LineSearch ==> r == lineSearchWeight
    ensures shrinkage > 0.0 && nt != LineSearch ==> r > 0.0
    ensures shrinkage > 0.0 && (nt == TreeAdaptive || nt == TreeBoost3) ==> r <= 1.0
    ensures shrinkage > 0.0 && k == 0 && (nt == TreeAdaptive || nt == TreeBoost3) ==> r == 1.0
  {
    match nt
    case Tree | NoNorm | Weighted | Forest => shrinkage
    case TreeAdaptive =>
      if shrinkage > 0.0 then
        ShareAtMostOne(shrinkage, k as real);
        shrinkage / (shrinkage + k as real)
      else shrinkage / (shrinkage + k as real)
    case TreeBoost3 =>
      if shrinkage > 0.0 then
        var sa := shrinkage * 3.0;
        PositiveProduct(shrinkage, 3.0);
        ShareAtMostOne(sa, k as real);
        sa / (sa + k as real)
      else (shrinkage * 3.0) / (shrinkage * 3.0 + k as real)
    case LineSearch => lineSearchWeight
  }

  /**
   For TREE_ADAPTIVE, TREE_BOOST3 and NONE the new tree keeps, after the
   restore, exactly the weight it was fitted with.
   */
  lemma LastTreeWeightKept(nt: NormalizationType, shrinkage: real, k: nat, lastTreeWeight: real, droppedSum: real)
    requires Defined(nt, shrinkage, k, lastTreeWeight, droppedSum)
    requires nt == TreeAdaptive || nt == TreeBoost3 || nt == NoNorm
    ensures LastTreeWeight(nt, shrinkage, k, lastTreeWeight)
         == RestoreFactors(nt, shrinkage, k, lastTreeWeight, droppedSum).appended
  {
  }

  // ---------------------------------------------------------------------------
  // Renormalisation of the count-based samplers (COUNT2N, COUNT3N)

  /**
   After `toDrop` is removed for good: the new tree is divided by
   `denom = dropped - removed + 1`, every temporarily dropped tree is
   multiplied by `trees_to_dropout / denom`, and the removed trees get weight
   zero. `dropped` excludes the new tree.
   */
  function CountRenormalize(
    weights: seq<real>, dropped: seq<nat>, toDrop: seq<nat>, treesToDropout: nat, last: nat): (r: seq<real>)
    requires last < |weights| && InBounds(dropped, |weights|) && InBounds(toDrop, |weights|)
    requires |toDrop| <= treesToDropout
    ensures |r| == |weights|
  {
    var denom := RenormDenominator(treesToDropout, |toDrop|);
    ZeroAt(ScaleEach(LastScaled(weights, last, denom), dropped, treesToDropout as real / denom), Elems(toDrop))
  }

  /**
   `trees_to_dropout - removed + 1`, the number of trees sharing the mass;
   computed in `size_t`, it cannot wrap because at most `trees_to_dropout`
   trees are removed.
   */
  function RenormDenominator(treesToDropout: nat, removed: nat): (r: real)
    requires removed <= treesToDropout
    ensures 1.0 <= r <= treesToDropout as real + 1.0
  {
    (treesToDropout - removed + 1) as real
  }

  function LastScaled(weights: seq<real>, last: nat, denom: real): (r: seq<real>)
    requires last < |weights| && denom >= 1.0
    ensures |r| == |weights|
  {
    weights[last := weights[last] * (1.0 / denom)]
  }

  lemma CountRenormalizeElements(
    weights: seq<real>, dropped: seq<nat>, toDrop: seq<nat>, treesToDropout: nat, last: nat)
    requires last < |weights| && InBounds(dropped, |weights|) && InBounds(toDrop, |weights|)
    requires |toDrop| <= treesToDropout
    ensures forall t :: 0 <= t < |weights| && t in toDrop ==>
      CountRenormalize(weights, dropped, toDrop, treesToDropout, last)[t] == 0.0
    ensures last !in dropped && last !in toDrop ==>
      CountRenormalize(weights, dropped, toDrop, treesToDropout, last)[last]
        == weights[last] / RenormDenominator(treesToDropout, |toDrop|)
    ensures Distinct(dropped) ==> forall j :: 0 <= j < |dropped| && dropped[j] != last && dropped[j] !in toDrop ==>
      CountRenormalize(weights, dropped, toDrop, treesToDropout, last)[dropped[j]]
        == weights[dropped[j]] * (treesToDropout as real / RenormDenominator(treesToDropout, |toDrop|))
    ensures forall t :: 0 <= t < |weights| && t != last && t !in dropped && t !in toDrop ==>
      CountRenormalize(weights, dropped, toDrop, treesToDropout, last)[t] == weights[t]
  {
    var denom := RenormDenominator(treesToDropout, |toDrop|);
    var lastScaled := LastScaled(weights, last, denom);
    var factor := treesToDropout as real / denom;
    var r := CountRenormalize(weights, dropped, toDrop, treesToDropout, last);
    if last !in dropped && last !in toDrop {
      ScaleEachOutside(lastScaled, dropped, factor, last);
      assert weights[last] * (1.0 / denom) == weights[last] / denom;
    }
    if Distinct(dropped) {
      forall j | 0 <= j < |dropped| && dropped[j] != last && dropped[j] !in toDrop
        ensures r[dropped[j]] == weights[dropped[j]] * factor
      {
        ScaleEachOnce(lastScaled, dropped, factor, dropped[j]);
      }
    }
    forall t | 0 <= t < |weights| && t != last && t !in dropped && t !in toDrop
      ensures r[t] == weights[t]
    {
      ScaleEachOutside(lastScaled, dropped, factor, t);
    }
  }

  /** The renormalisation keeps every weight nonnegative. */
  lemma CountRenormalizeNonnegative(
    weights: seq<real>, dropped: seq<nat>, toDrop: seq<nat>, treesToDropout: nat, last: nat)
    requires last < |weights| && InBounds(dropped, |weights|) && InBounds(toDrop, |weights|)
    requires |toDrop| <= treesToDropout && AllNonnegative(weights)
    ensures AllNonnegative(CountRenormalize(weights, dropped, toDrop, treesToDropout, last))
  {
    var denom := RenormDenominator(treesToDropout, |toDrop|);
    var lastScaled := LastScaled(weights, last, denom);
    var factor := treesToDropout as real / denom;
    NonnegativeProduct(weights[last], 1.0 / denom);
    forall i | 0 <= i < |weights|
      ensures ScaleEach(lastScaled, dropped, factor)[i] >= 0.0
    {
      ScaleEachNonnegative(lastScaled, dropped, factor, i);
    }
  }
}
