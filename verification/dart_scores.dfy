/**
 The incremental score update of DART: a listed set of trees has its weighted
 output added to, or subtracted from, the running score of every instance.

 Trees are given by their outputs: `outputs[t][i]` is the output of tree `t` on
 instance `i`, and the ensemble's score of instance `i` is the weighted sum of
 its column of outputs.
 */
module DartScores {
  import opened Sequences

  /** One row of outputs per tree, one entry per instance. */
  predicate Grid(outputs: seq<seq<real>>, instances: nat) {
    forall t :: 0 <= t < |outputs| ==> |outputs[t]| == instances
  }

  /** The outputs of every tree on instance `i`. */
  function Column(outputs: seq<seq<real>>, i: nat): (c: seq<real>)
    requires forall t :: 0 <= t < |outputs| ==> i < |outputs[t]|
    ensures |c| == |outputs|
    ensures forall t :: 0 <= t < |outputs| ==> c[t] == outputs[t][i]
  {
    seq(|outputs|, t requires 0 <= t < |outputs| => outputs[t][i])
  }

  /** The ensemble's score of instance `i`: the weighted sum of all tree outputs. */
  function FullScore(weights: seq<real>, outputs: seq<seq<real>>, i: nat): real
    requires |weights| == |outputs|
    requires forall t :: 0 <= t < |outputs| ==> i < |outputs[t]|
  {
    Dot(weights, Column(outputs, i))
  }

  /** `sum_t weights[t] * outputs[t][i]` over the listed trees, in list order. */
  function ListContribution(trees: seq<nat>, weights: seq<real>, outputs: seq<seq<real>>, i: nat): real
    requires |weights| == |outputs| && InBounds(trees, |weights|)
    requires forall t :: 0 <= t < |outputs| ==> i < |outputs[t]|
  {
    if |trees| == 0 then 0.0
    else
      var m := |trees| - 1;
      ListContribution(trees[..m], weights, outputs, i) + weights[trees[m]] * outputs[trees[m]][i]
  }

  function Sign(add: bool): real {
    if add then 1.0 else -1.0
  }

  /** The scores after adding (`add`) or subtracting the listed trees. */
  function UpdatedScores(
    scores: seq<real>, add: bool, trees: seq<nat>, weights: seq<real>, outputs: seq<seq<real>>): (r: seq<real>)
    requires |weights| == |outputs| && InBounds(trees, |weights|) && Grid(outputs, |scores|)
    ensures |r| == |scores|
  {
    seq(|scores|, i requires 0 <= i < |scores| =>
      scores[i] + Sign(add) * ListContribution(trees, weights, outputs, i))
  }

  /**
   Tree by tree, instance by instance, adds `sign * weight * output` to the
   running scores.
   */
  method UpdateModelScores(
    scores: seq<real>, add: bool, trees: seq<nat>, weights: seq<real>, outputs: seq<seq<real>>)
    returns (r: seq<real>)
    requires |weights| == |outputs| && InBounds(trees, |weights|) && Grid(outputs, |scores|)
    ensures |r| == |scores|
    ensures forall i :: 0 <= i < |scores| ==>
      r[i] == scores[i] + Sign(add) * ListContribution(trees, weights, outputs, i)
  {
    var sign := Sign(add);
    r := scores;
    var j := 0;
    while j < |trees|
      invariant 0 <= j <= |trees|
      invariant |r| == |scores|
      invariant forall i :: 0 <= i < |scores| ==>
        r[i] == scores[i] + sign * ListContribution(trees[..j], weights, outputs, i)
    {
      var t := trees[j];
      r := AddScaled(r, sign * weights[t], outputs[t]);
      forall i | 0 <= i < |scores|
        ensures r[i] == scores[i] + sign * ListContribution(trees[..j + 1], weights, outputs, i)
      {
        ContributionStep(trees, j, weights, outputs, i);
        Distribute(sign, ListContribution(trees[..j], weights, outputs, i), weights[t], outputs[t][i]);
      }
      j := j + 1;
    }
    assert trees[..j] == trees;
  }

  /** Adds `factor * row[i]` to every score: the inner loop over the instances. */
  method AddScaled(scores: seq<real>, factor: real, row: seq<real>) returns (r: seq<real>)
    requires |row| >= |scores|
    ensures |r| == |scores|
    ensures forall i :: 0 <= i < |scores| ==> r[i] == scores[i] + factor * row[i]
  {
    r := scores;
    var i := 0;
    while i < |scores|
      invariant 0 <= i <= |scores|
      invariant |r| == |scores|
      invariant forall k :: 0 <= k < i ==> r[k] == scores[k] + factor * row[k]
      invariant forall k :: i <= k < |scores| ==> r[k] == scores[k]
    {
      r := r[i := r[i] + factor * row[i]];
      i := i + 1;
    }
  }

  /** The contribution of one more listed tree. */
  lemma ContributionStep(trees: seq<nat>, j: nat, weights: seq<real>, outputs: seq<seq<real>>, i: nat)
    requires |weights| == |outputs| && InBounds(trees, |weights|) && j < |trees|
    requires forall t :: 0 <= t < |outputs| ==> i < |outputs[t]|
    ensures InBounds(trees[..j], |weights|) && InBounds(trees[..j + 1], |weights|)
    ensures ListContribution(trees[..j + 1], weights, outputs, i)
         == ListContribution(trees[..j], weights, outputs, i) + weights[trees[j]] * outputs[trees[j]][i]
  {
    assert trees[..j + 1][..j] == trees[..j];
  }

  lemma Distribute(s: real, c: real, w: real, o: real)
    ensures s * (c + w * o) == s * c + s * w * o
  {
  }

  /** Adding the listed trees and then subtracting them, with the same weights, restores the scores. */
  lemma AddThenSubtract(scores: seq<real>, trees: seq<nat>, weights: seq<real>, outputs: seq<seq<real>>)
    requires |weights| == |outputs| && InBounds(trees, |weights|) && Grid(outputs, |scores|)
    ensures UpdatedScores(UpdatedScores(scores, true, trees, weights, outputs), false, trees, weights, outputs) == scores
  {
    var up := UpdatedScores(scores, true, trees, weights, outputs);
    var down := UpdatedScores(up, false, trees, weights, outputs);
    forall i | 0 <= i < |scores|
      ensures down[i] == scores[i]
    {
      var c := ListContribution(trees, weights, outputs, i);
      assert up[i] == scores[i] + c;
      assert down[i] == up[i] - c;
    }
  }

  /**
   Subtracting a duplicate-free list of trees from the ensemble's score gives
   the score of the ensemble with those trees' weights set to zero.
   */
  lemma SubtractIsZeroing(weights: seq<real>, outputs: seq<seq<real>>, dropped: seq<nat>, i: nat)
    requires |weights| == |outputs| && InBounds(dropped, |weights|) && Distinct(dropped)
    requires forall t :: 0 <= t < |outputs| ==> i < |outputs[t]|
    ensures FullScore(weights, outputs, i) - ListContribution(dropped, weights, outputs, i)
         == FullScore(ZeroAt(weights, Elems(dropped)), outputs, i)
  {
    var col := Column(outputs, i);
    ListContributionIsMasked(dropped, weights, outputs, i);
    DotZeroAt(weights, col, Elems(dropped));
  }

  /** For a duplicate-free list, the list order does not matter: the contribution is a masked sum. */
  lemma {:induction false} ListContributionIsMasked(trees: seq<nat>, weights: seq<real>, outputs: seq<seq<real>>, i: nat)
    requires |weights| == |outputs| && InBounds(trees, |weights|) && Distinct(trees)
    requires forall t :: 0 <= t < |outputs| ==> i < |outputs[t]|
    ensures ListContribution(trees, weights, outputs, i) == MaskedDot(weights, Column(outputs, i), Elems(trees))
  {
    var col := Column(outputs, i);
    if |trees| == 0 {
      MaskedDotEmpty(weights, col);
      assert Elems(trees) == {};
    } else {
      var m := |trees| - 1;
      var d := trees[m];
      assert Distinct(trees[..m]) && InBounds(trees[..m], |weights|);
      ListContributionIsMasked(trees[..m], weights, outputs, i);
      assert ListContribution(trees, weights, outputs, i)
          == ListContribution(trees[..m], weights, outputs, i) + weights[d] * col[d];
      ElemsSnoc(trees);
      MaskedDotInsert(weights, col, Elems(trees[..m]), d);
    }
  }

  lemma {:induction false} MaskedDotEmpty(w: seq<real>, d: seq<real>)
    requires |w| == |d|
    ensures MaskedDot(w, d, {}) == 0.0
  {
    if |w| > 0 {
      MaskedDotEmpty(w[..|w| - 1], d[..|d| - 1]);
    }
  }

  /**
   The dropout round: the running scores of the ensemble with the dropped
   trees zeroed, plus the contribution of the dropped trees and of the new
   last tree at the renormalised weights, equal the score of the renormalised
   ensemble, provided the renormalised weights agree with the old ones on
   every tree that was not dropped.
   */
  lemma DropRestoreConsistent(
    weights: seq<real>, restored: seq<real>, outputs: seq<seq<real>>, dropped: seq<nat>, i: nat)
    requires |restored| == |weights| + 1 == |outputs|
    requires InBounds(dropped, |weights|) && Distinct(dropped)
    requires forall t :: 0 <= t < |outputs| ==> i < |outputs[t]|
    requires forall t :: 0 <= t < |weights| && t !in dropped ==> restored[t] == weights[t]
    ensures InBounds(dropped + [|weights|], |restored|)
    ensures FullScore(ZeroAt(weights, Elems(dropped)), outputs[..|weights|], i)
          + ListContribution(dropped + [|weights|], restored, outputs, i)
         == FullScore(restored, outputs, i)
  {
    var n := |weights|;
    var all := dropped + [n];
    assert Distinct(all) by {
      forall a, b | 0 <= a < b < |all|
        ensures all[a] != all[b]
      {
        if b < |dropped| {
          assert all[a] == dropped[a] && all[b] == dropped[b];
        }
      }
    }
    SubtractIsZeroing(restored, outputs, all, i);
    var zr := ZeroAt(restored, Elems(all));
    var col := Column(outputs, i);
    assert Elems(all) == Elems(dropped) + {n};
    assert zr[..n] == ZeroAt(weights, Elems(dropped));
    assert col[..n] == Column(outputs[..n], i);
    assert zr[n] == 0.0;
  }
}
