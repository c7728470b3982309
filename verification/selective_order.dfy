/**
 The per-query ordering of selective LambdaMART: the comparator that puts
 relevant documents first and orders each class by descending score, and the
 positive counts derived from the labels.

 Labels are non-negative relevance grades; a document is positive when its
 grade is greater than zero.
 */
module SelectiveOrder {
  import opened Sequences
  import opened IndexOrder

  /** The comparator on two documents given their labels and current scores. */
  predicate Before(grade1: nat, score1: real, grade2: nat, score2: real) {
    var greater := score1 > score2;
    if grade1 > 0 then grade2 == 0 || greater else grade2 == 0 && greater
  }

  /** Positives in group 0, negatives in group 1, each by descending score. */
  function SampleKey(grade: nat, score: real): Rank {
    Rank(if grade > 0 then 0 else 1, -score)
  }

  /** The comparator is exactly the strict order of the keys, so it is a strict weak order. */
  lemma BeforeIsKeyOrder(grade1: nat, score1: real, grade2: nat, score2: real)
    ensures Before(grade1, score1, grade2, score2) <==> RankLt(SampleKey(grade1, score1), SampleKey(grade2, score2))
  {
  }

  function SampleKeys(labels: seq<nat>, scores: seq<real>): (keys: seq<Rank>)
    requires |labels| == |scores|
    ensures |keys| == |labels|
    ensures forall i :: 0 <= i < |labels| ==> keys[i] == SampleKey(labels[i], scores[i])
  {
    seq(|labels|, i requires 0 <= i < |labels| => SampleKey(labels[i], scores[i]))
  }

  /** Number of positive documents among the listed ones. */
  function CountPositive(labels: seq<nat>, s: seq<nat>): nat
    requires InBounds(s, |labels|)
  {
    if |s| == 0 then 0
    else CountPositive(labels, s[..|s| - 1]) + (if labels[s[|s| - 1]] > 0 then 1 else 0)
  }

  lemma {:induction false} CountPositiveBound(labels: seq<nat>, s: seq<nat>)
    requires InBounds(s, |labels|)
    ensures CountPositive(labels, s) <= |s|
  {
    if |s| > 0 {
      CountPositiveBound(labels, s[..|s| - 1]);
    }
  }

  /** `npositives[q]`: the positive documents of the query spanning `[lo, hi)`. */
  function NumPositives(labels: seq<nat>, lo: nat, hi: nat): (r: nat)
    requires lo <= hi <= |labels|
    ensures r <= hi - lo
  {
    CountPositiveBound(labels, Range(lo, hi));
    CountPositive(labels, Range(lo, hi))
  }

  function PositiveIds(labels: seq<nat>, ids: set<nat>): set<nat> {
    set x | x in ids && x < |labels| && labels[x] > 0
  }

  /** For a duplicate-free list the count is the size of its positive subset. */
  lemma {:induction false} CountPositiveIsCard(labels: seq<nat>, s: seq<nat>)
    requires InBounds(s, |labels|) && Distinct(s)
    ensures CountPositive(labels, s) == |PositiveIds(labels, Elems(s))|
  {
    if |s| > 0 {
      var n := |s| - 1;
      var t := s[..n];
      assert Distinct(t);
      CountPositiveIsCard(labels, t);
      ElemsSnoc(s);
      PositiveIdsAdd(labels, Elems(t), s[n]);
    }
  }

  lemma PositiveIdsAdd(labels: seq<nat>, ids: set<nat>, x: nat)
    requires x < |labels| && x !in ids
    ensures labels[x] > 0 ==> PositiveIds(labels, ids + {x}) == PositiveIds(labels, ids) + {x}
    ensures labels[x] > 0 ==> |PositiveIds(labels, ids + {x})| == |PositiveIds(labels, ids)| + 1
    ensures labels[x] == 0 ==> PositiveIds(labels, ids + {x}) == PositiveIds(labels, ids)
  {
    if labels[x] > 0 {
      assert PositiveIds(labels, ids + {x}) == PositiveIds(labels, ids) + {x};
      assert x !in PositiveIds(labels, ids);
    } else {
      assert PositiveIds(labels, ids + {x}) == PositiveIds(labels, ids);
    }
  }

  /** Reordering a duplicate-free list does not change its positive count. */
  lemma CountPositivePermutation(labels: seq<nat>, a: seq<nat>, b: seq<nat>)
    requires InBounds(a, |labels|) && InBounds(b, |labels|)
    requires Distinct(b) && multiset(a) == multiset(b)
    ensures CountPositive(labels, a) == CountPositive(labels, b)
  {
    DistinctByMultiset(a, b);
    assert Elems(a) == Elems(b) by {
      forall x
        ensures x in Elems(a) <==> x in Elems(b)
      {
        assert x in a <==> x in multiset(a);
        assert x in b <==> x in multiset(b);
      }
    }
    CountPositiveIsCard(labels, a);
    CountPositiveIsCard(labels, b);
  }

  /**
   In a list sorted by the comparator the positives form a prefix whose length
   is the positive count, and documents of the same class appear by
   descending score.
   */
  lemma {:induction false} PositivesFirst(labels: seq<nat>, scores: seq<real>, s: seq<nat>)
    requires |labels| == |scores| && InBounds(s, |labels|)
    requires Keyed(SampleKeys(labels, scores), s) && SortedBy(SampleKeys(labels, scores), s)
    ensures forall i :: 0 <= i < |s| ==> (labels[s[i]] > 0 <==> i < CountPositive(labels, s))
    ensures forall i, j :: 0 <= i < j < |s| && (labels[s[i]] > 0 <==> labels[s[j]] > 0) ==>
      scores[s[i]] >= scores[s[j]]
  {
    var keys := SampleKeys(labels, scores);
    forall i, j | 0 <= i < j < |s| && (labels[s[i]] > 0 <==> labels[s[j]] > 0)
      ensures scores[s[i]] >= scores[s[j]]
    {
      assert RankLe(keys[s[i]], keys[s[j]]);
    }
    if |s| > 0 {
      var n := |s| - 1;
      var t := s[..n];
      assert Keyed(keys, t) && SortedBy(keys, t);
      PositivesFirst(labels, scores, t);
      CountPositiveBound(labels, t);
      if labels[s[n]] > 0 {
        forall i | 0 <= i < n
          ensures labels[s[i]] > 0
        {
          assert RankLe(keys[s[i]], keys[s[n]]);
        }
        assert forall i :: 0 <= i < n ==> t[i] == s[i];
      }
    }
  }

  /**
   Position of the last positive document, or 0 when there is none: the
   max-reduction over the score-sorted query.
   */
  function LastPositive(labels: seq<nat>, s: seq<nat>): (r: nat)
    requires InBounds(s, |labels|)
    ensures |s| > 0 ==> r < |s|
    ensures CountPositive(labels, s) > 0 ==> labels[s[r]] > 0 && forall i :: r < i < |s| ==> labels[s[i]] == 0
  {
    if |s| == 0 then 0
    else if labels[s[|s| - 1]] > 0 then |s| - 1
    else
      var t := s[..|s| - 1];
      assert CountPositive(labels, s) == CountPositive(labels, t);
      assert forall i :: 0 <= i < |t| ==> t[i] == s[i];
      LastPositive(labels, t)
  }

  /**
   Every positive lies at or before the last one, so `last_pos + 1` is at
   least the positive count and `last_pos - npositives + 1`, computed in
   `size_t`, is the number of negatives ranked above the last positive.
   */
  lemma {:induction false} LastPositiveCount(labels: seq<nat>, s: seq<nat>)
    requires InBounds(s, |labels|) && CountPositive(labels, s) > 0
    ensures LastPositive(labels, s) + 1 >= CountPositive(labels, s)
    ensures CountPositive(labels, s[..LastPositive(labels, s) + 1]) == CountPositive(labels, s)
  {
    var n := |s| - 1;
    if labels[s[n]] > 0 {
      assert s[..n + 1] == s;
      CountPositiveBound(labels, s);
    } else {
      var t := s[..n];
      LastPositiveCount(labels, t);
      var r := LastPositive(labels, t);
      assert t[..r + 1] == s[..r + 1];
    }
  }
}
