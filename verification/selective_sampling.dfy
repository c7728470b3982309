/**
 One sampling pass of selective LambdaMART (`sampling_query_level`): for
 every query, in order, the positives, the top-scored negatives and a random
 choice among the remaining negatives are moved to the front of `sampleids`,
 and the number of selected documents is returned.

 The model states what the pass should produce (the concatenated per-query
 selections at the front, a permutation of all ids behind them) and keeps
 two versions of the placement loop: the one as written, and one that moves
 the selection as a whole.
 */
module SelectiveSampling {
  import opened Results
  import opened Sequences
  import opened IndexOrder
  import opened SelectiveOrder
  import opened SelectiveBudgets
  import opened SwapMoves

  /** Labels and current scores by document, and the query boundaries. */
  datatype Queries = Queries(labels: seq<nat>, scores: seq<real>, offsets: seq<nat>)

  predicate Valid(d: Queries) {
    |d.scores| == |d.labels| && |d.offsets| >= 1
    && d.offsets[0] == 0 && d.offsets[|d.offsets| - 1] == |d.labels|
    && forall i, j :: 0 <= i <= j < |d.offsets| ==> d.offsets[i] <= d.offsets[j]
  }

  function NumQueries(d: Queries): nat
    requires |d.offsets| >= 1
  {
    |d.offsets| - 1
  }

  /** The negative strategy and the mixed factors of one pass. */
  datatype Config = Config(negative: NegativeStrategy, mix: Mixing)

  predicate ValidConfig(cfg: Config) {
    cfg.mix.rank >= 0.0 && cfg.mix.random >= 0.0
  }

  /**
   `std::random_shuffle` of the offset vector built for query `q`; the
   random source is a parameter, constrained only to reorder.
   */
  type Shuffle = (nat, seq<nat>) -> seq<nat>

  ghost predicate IsShuffle(shuffle: Shuffle) {
    forall q: nat, s: seq<nat> :: multiset(shuffle(q, s)) == multiset(s)
  }

  /**
   What the pass decides for one query: the query's ids sorted by the
   comparator, its positive count, the number of top negatives, the random
   offsets in the order drawn, and the same offsets in increasing order.
   */
  datatype Plan = Plan(order: seq<nat>, positives: nat, top: nat, picks: seq<nat>, chosen: seq<nat>)

  /** `npositives[q] + n_top_neg`: the leading part of the sorted query that is kept. */
  function Base(p: Plan): nat {
    p.positives + p.top
  }

  predicate Shaped(p: Plan) {
    Base(p) + |p.picks| <= |p.order|
    && |p.chosen| == |p.picks| && multiset(p.chosen) == multiset(p.picks)
    && (forall j :: 0 <= j < |p.picks| ==> Base(p) <= p.picks[j] < |p.order|)
    && StrictlyIncreasing(p.chosen)
    && (forall j :: 0 <= j < |p.chosen| ==> Base(p) <= p.chosen[j] < |p.order|)
  }

  /** The ids a query contributes: the kept leading part, then the random negatives. */
  function Selection(p: Plan): seq<nat>
    requires Shaped(p)
  {
    p.order[..Base(p)] + seq(|p.chosen|, j requires 0 <= j < |p.chosen| => p.order[p.chosen[j]])
  }

  function QueryStart(d: Queries, q: nat): nat
    requires Valid(d) && q < NumQueries(d)
  {
    d.offsets[q]
  }

  function QueryEnd(d: Queries, q: nat): (e: nat)
    requires Valid(d) && q < NumQueries(d)
    ensures QueryStart(d, q) <= e <= |d.labels|
  {
    d.offsets[q + 1]
  }

  function QueryPositives(d: Queries, q: nat): (r: nat)
    requires Valid(d) && q < NumQueries(d)
    ensures r <= QueryEnd(d, q) - QueryStart(d, q)
  {
    NumPositives(d.labels, QueryStart(d, q), QueryEnd(d, q))
  }

  /**
   `last_pos - npositives[q] + 1` over the query sorted by descending score:
   the number of negatives ranked above the last positive. With a positive
   present the `size_t` subtraction does not wrap.
   */
  function NegativesAboveLastPositive(d: Queries, q: nat): (r: nat)
    requires Valid(d) && q < NumQueries(d) && QueryPositives(d, q) > 0
    ensures r <= QueryEnd(d, q) - QueryStart(d, q) - QueryPositives(d, q)
  {
    var s, e := QueryStart(d, q), QueryEnd(d, q);
    var byScore := SortIndices(Descending(d.scores), Range(s, e));
    BlockPermutationFacts(byScore, s, e);
    RangeDistinct(s, e);
    CountPositivePermutation(d.labels, byScore, Range(s, e));
    LastPositiveCount(d.labels, byScore);
    LastPositive(d.labels, byScore) + 1 - QueryPositives(d, q)
  }

  /** Ascending order on offsets, for sorting the random picks. */
  function OffsetKeys(n: nat): (keys: seq<Rank>)
    ensures |keys| == n
    ensures forall i :: 0 <= i < n ==> keys[i] == Rank(0, i as real)
  {
    seq(n, i requires 0 <= i < n => Rank(0, i as real))
  }

  /** The budgets of query `q` under the configured negative strategy. */
  function QueryBudgets(d: Queries, cfg: Config, q: nat): (r: Result<Budget, BudgetError>)
    requires Valid(d) && ValidConfig(cfg) && q < NumQueries(d)
    ensures r.Failure? <==> cfg.negative == Unsupported
    ensures r.Success? ==>
      r.value.total == r.value.top + r.value.random <= QueryEnd(d, q) - QueryStart(d, q) - QueryPositives(d, q)
  {
    var p := QueryPositives(d, q);
    var above := if cfg.negative == Pos && p > 0 then NegativesAboveLastPositive(d, q) else 0;
    QueryBudget(cfg.negative, cfg.mix, p, QueryEnd(d, q) - QueryStart(d, q) - p, above)
  }

  /**
   The ids of query `q` sorted by the comparator; under POS with a positive
   present the block has first been sorted by descending score.
   */
  function QueryOrder(d: Queries, cfg: Config, q: nat): (order: seq<nat>)
    requires Valid(d) && q < NumQueries(d)
    ensures multiset(order) == multiset(Range(QueryStart(d, q), QueryEnd(d, q)))
    ensures Keyed(SampleKeys(d.labels, d.scores), order) && SortedBy(SampleKeys(d.labels, d.scores), order)
  {
    var s, e := QueryStart(d, q), QueryEnd(d, q);
    var block := if cfg.negative == Pos && QueryPositives(d, q) > 0
      then SortIndices(Descending(d.scores), Range(s, e)) else Range(s, e);
    BlockPermutationFacts(block, s, e);
    SortIndices(SampleKeys(d.labels, d.scores), block)
  }

  /**
   `count` offsets drawn from `base..size-1` by shuffling them and taking the
   first `count`: as drawn, and in increasing order.
   */
  function Draw(shuffle: Shuffle, q: nat, base: nat, size: nat, count: nat): (r: (seq<nat>, seq<nat>))
    requires IsShuffle(shuffle) && base + count <= size
    ensures |r.0| == |r.1| == count && multiset(r.1) == multiset(r.0)
    ensures forall j :: 0 <= j < count ==> base <= r.0[j] < size
    ensures StrictlyIncreasing(r.1)
    ensures forall j :: 0 <= j < count ==> base <= r.1[j] < size
  {
    var offsets := Range(base, size);
    var drawn := shuffle(q, offsets);
    assert |drawn| == |multiset(drawn)| == |offsets|;
    var picks := drawn[..count];
    PickFacts(drawn, picks, base, size);
    var chosen := SortIndices(OffsetKeys(size), picks);
    ChosenFacts(picks, chosen, base, size);
    (picks, chosen)
  }

  /**
   A plan made for query `q`: the comparator order of the query, its
   positives, and as many top and random negatives as budgeted.
   */
  predicate Planned(d: Queries, cfg: Config, q: nat, p: Plan)
    requires Valid(d) && ValidConfig(cfg) && q < NumQueries(d)
  {
    QueryBudgets(d, cfg, q).Success? && Shaped(p)
    && p.order == QueryOrder(d, cfg, q) && p.positives == QueryPositives(d, q)
    && p.top == QueryBudgets(d, cfg, q).value.top && |p.chosen| == QueryBudgets(d, cfg, q).value.random
  }

  /** The plan of query `q`: budgets, comparator order and random draw. */
  function QueryPlan(d: Queries, cfg: Config, shuffle: Shuffle, q: nat): (r: Result<Plan, BudgetError>)
    requires Valid(d) && ValidConfig(cfg) && IsShuffle(shuffle) && q < NumQueries(d)
    ensures r.Failure? <==> cfg.negative == Unsupported
    ensures r.Success? ==> Planned(d, cfg, q, r.value)
  {
    var b :- QueryBudgets(d, cfg, q);
    var order := QueryOrder(d, cfg, q);
    var size := QueryEnd(d, q) - QueryStart(d, q);
    BlockPermutationFacts(order, QueryStart(d, q), QueryEnd(d, q));
    var p := QueryPositives(d, q);
    var drawn := Draw(shuffle, q, p + b.top, size, b.random);
    Success(Plan(order, p, b.top, drawn.0, drawn.1))
  }

  lemma PickFacts(drawn: seq<nat>, picks: seq<nat>, base: nat, size: nat)
    requires base <= size && multiset(drawn) == multiset(Range(base, size))
    requires picks <= drawn
    ensures Distinct(picks)
    ensures forall j :: 0 <= j < |picks| ==> base <= picks[j] < size
  {
    BlockPermutationFacts(drawn, base, size);
    assert forall j :: 0 <= j < |picks| ==> picks[j] == drawn[j];
  }

  lemma ChosenFacts(picks: seq<nat>, chosen: seq<nat>, base: nat, size: nat)
    requires Distinct(picks)
    requires forall j :: 0 <= j < |picks| ==> base <= picks[j] < size
    requires Keyed(OffsetKeys(size), chosen) && SortedBy(OffsetKeys(size), chosen)
    requires multiset(chosen) == multiset(picks)
    ensures StrictlyIncreasing(chosen)
    ensures forall j :: 0 <= j < |chosen| ==> base <= chosen[j] < size
  {
    DistinctByMultiset(chosen, picks);
    forall j | 0 <= j < |chosen|
      ensures base <= chosen[j] < size
    {
      assert chosen[j] in multiset(picks);
      assert chosen[j] in picks;
    }
    forall i, j | 0 <= i < j < |chosen|
      ensures chosen[i] < chosen[j]
    {
      assert RankLe(OffsetKeys(size)[chosen[i]], OffsetKeys(size)[chosen[j]]);
    }
  }

  /** The position in the sorted query from which entry `i` of the selection comes. */
  function SourceIndex(p: Plan, i: nat): (k: nat)
    requires Shaped(p) && i < Base(p) + |p.chosen|
    ensures k < |p.order| && Selection(p)[i] == p.order[k]
    ensures i < Base(p) ==> k == i
    ensures i >= Base(p) ==> k >= Base(p)
  {
    if i < Base(p) then i else p.chosen[i - Base(p)]
  }

  lemma {:induction false} SourceIndexInjective(p: Plan, i: nat, k: nat)
    requires Shaped(p) && i < k < Base(p) + |p.chosen|
    ensures SourceIndex(p, i) != SourceIndex(p, k)
  {
  }

  /** The sorted query holds the ids of query `q`, once each. */
  lemma OrderBlock(d: Queries, cfg: Config, q: nat)
    requires Valid(d) && q < NumQueries(d)
    ensures |QueryOrder(d, cfg, q)| == QueryEnd(d, q) - QueryStart(d, q)
    ensures Distinct(QueryOrder(d, cfg, q))
    ensures forall i :: 0 <= i < |QueryOrder(d, cfg, q)| ==>
      QueryStart(d, q) <= QueryOrder(d, cfg, q)[i] < QueryEnd(d, q)
  {
    BlockPermutationFacts(QueryOrder(d, cfg, q), QueryStart(d, q), QueryEnd(d, q));
  }

  /** The sorted query: its ids once each, positives first, each class by descending score. */
  lemma {:induction false} OrderFacts(d: Queries, cfg: Config, q: nat)
    requires Valid(d) && q < NumQueries(d)
    ensures |QueryOrder(d, cfg, q)| == QueryEnd(d, q) - QueryStart(d, q)
    ensures Distinct(QueryOrder(d, cfg, q))
    ensures forall i :: 0 <= i < |QueryOrder(d, cfg, q)| ==>
      QueryStart(d, q) <= QueryOrder(d, cfg, q)[i] < QueryEnd(d, q)
    ensures forall x :: QueryStart(d, q) <= x < QueryEnd(d, q) ==> x in QueryOrder(d, cfg, q)
    ensures forall i :: 0 <= i < |QueryOrder(d, cfg, q)| ==>
      (d.labels[QueryOrder(d, cfg, q)[i]] > 0 <==> i < QueryPositives(d, q))
    ensures forall i, j :: (0 <= i < j < |QueryOrder(d, cfg, q)|
      && (d.labels[QueryOrder(d, cfg, q)[i]] > 0 <==> d.labels[QueryOrder(d, cfg, q)[j]] > 0)) ==>
      d.scores[QueryOrder(d, cfg, q)[i]] >= d.scores[QueryOrder(d, cfg, q)[j]]
  {
    var s, e := QueryStart(d, q), QueryEnd(d, q);
    var order := QueryOrder(d, cfg, q);
    BlockPermutationFacts(order, s, e);
    RangeDistinct(s, e);
    CountPositivePermutation(d.labels, order, Range(s, e));
    PositivesFirst(d.labels, d.scores, order);
  }

  /** The selection holds ids of query `q` only, each once, and as many as budgeted. */
  lemma {:induction false} SelectionInQuery(d: Queries, cfg: Config, q: nat, p: Plan)
    requires Valid(d) && ValidConfig(cfg) && q < NumQueries(d) && Planned(d, cfg, q, p)
    ensures |Selection(p)| == QueryPositives(d, q) + QueryBudgets(d, cfg, q).value.total
    ensures Distinct(Selection(p))
    ensures forall i :: 0 <= i < |Selection(p)| ==> QueryStart(d, q) <= Selection(p)[i] < QueryEnd(d, q)
  {
    OrderBlock(d, cfg, q);
    assert |Selection(p)| == Base(p) + |p.chosen|;
    SelectionDistinct(p);
    SelectionWithin(p, QueryStart(d, q), QueryEnd(d, q));
  }

  lemma SelectionDistinct(p: Plan)
    requires Shaped(p) && Distinct(p.order)
    ensures Distinct(Selection(p))
  {
    var sel := Selection(p);
    forall i, k | 0 <= i < k < |sel|
      ensures sel[i] != sel[k]
    {
      SourceIndexInjective(p, i, k);
    }
  }

  /** Ids of the sorted query within `[lo, hi)` give a selection within `[lo, hi)`. */
  lemma SelectionWithin(p: Plan, lo: nat, hi: nat)
    requires Shaped(p) && forall i :: 0 <= i < |p.order| ==> lo <= p.order[i] < hi
    ensures forall i :: 0 <= i < |Selection(p)| ==> lo <= Selection(p)[i] < hi
  {
    var sel := Selection(p);
    forall i | 0 <= i < |sel|
      ensures lo <= sel[i] < hi
    {
      var k := SourceIndex(p, i);
    }
  }

  /** Positions of the sorted query: positives exactly before `positives`, each class by descending score. */
  predicate ClassOrdered(labels: seq<nat>, scores: seq<real>, order: seq<nat>, positives: nat)
    requires |scores| == |labels| && InBounds(order, |labels|)
  {
    (forall i :: 0 <= i < |order| ==> (labels[order[i]] > 0 <==> i < positives))
    && forall i, j :: (0 <= i < j < |order| && (labels[order[i]] > 0 <==> labels[order[j]] > 0)) ==>
      scores[order[i]] >= scores[order[j]]
  }

  lemma {:induction false} PlannedOrder(d: Queries, cfg: Config, q: nat, p: Plan)
    requires Valid(d) && ValidConfig(cfg) && q < NumQueries(d) && Planned(d, cfg, q, p)
    ensures InBounds(p.order, |d.labels|)
    ensures ClassOrdered(d.labels, d.scores, p.order, p.positives)
    ensures forall x :: QueryStart(d, q) <= x < QueryEnd(d, q) ==> x in p.order
  {
    OrderFacts(d, cfg, q);
  }

  lemma {:induction false} PositivesSelected(labels: seq<nat>, scores: seq<real>, p: Plan)
    requires |scores| == |labels| && InBounds(p.order, |labels|) && Shaped(p)
    requires ClassOrdered(labels, scores, p.order, p.positives)
    ensures forall x :: x in p.order && labels[x] > 0 ==> x in Selection(p)
    ensures forall i :: 0 <= i < |Selection(p)| ==> (labels[Selection(p)[i]] > 0 <==> i < p.positives)
  {
    var sel := Selection(p);
    forall x | x in p.order && labels[x] > 0
      ensures x in sel
    {
      var k :| 0 <= k < |p.order| && p.order[k] == x;
      assert sel[k] == x;
    }
    forall i | 0 <= i < |sel|
      ensures labels[sel[i]] > 0 <==> i < p.positives
    {
      var k := SourceIndex(p, i);
    }
  }

  lemma {:induction false} TopNegativesBest(labels: seq<nat>, scores: seq<real>, p: Plan)
    requires |scores| == |labels| && InBounds(p.order, |labels|) && Shaped(p)
    requires ClassOrdered(labels, scores, p.order, p.positives)
    ensures forall i, x :: (p.positives <= i < Base(p) && x in p.order
      && labels[x] == 0 && x !in Selection(p)[..Base(p)]) ==> scores[Selection(p)[i]] >= scores[x]
  {
    var sel := Selection(p);
    assert sel[..Base(p)] == p.order[..Base(p)];
    forall i, x | p.positives <= i < Base(p) && x in p.order && labels[x] == 0 && x !in sel[..Base(p)]
      ensures scores[sel[i]] >= scores[x]
    {
      var k :| 0 <= k < |p.order| && p.order[k] == x;
      assert sel[i] == p.order[i];
    }
  }

  /**
   Every positive of query `q` is selected, and the selection lists the
   positives first: entry `i` is positive exactly when `i < npositives[q]`.
   */
  lemma {:induction false} SelectionPositives(d: Queries, cfg: Config, q: nat, p: Plan)
    requires Valid(d) && ValidConfig(cfg) && q < NumQueries(d) && Planned(d, cfg, q, p)
    ensures forall i :: 0 <= i < |Selection(p)| ==> QueryStart(d, q) <= Selection(p)[i] < QueryEnd(d, q)
    ensures forall x :: QueryStart(d, q) <= x < QueryEnd(d, q) && d.labels[x] > 0 ==> x in Selection(p)
    ensures forall i :: 0 <= i < |Selection(p)| ==> (d.labels[Selection(p)[i]] > 0 <==> i < QueryPositives(d, q))
  {
    OrderBlock(d, cfg, q);
    SelectionWithin(p, QueryStart(d, q), QueryEnd(d, q));
    PlannedOrder(d, cfg, q, p);
    PositivesSelected(d.labels, d.scores, p);
  }

  /**
   The top negatives are the best scored: each negative kept on rank scores
   at least as high as every negative of query `q` outside the kept part.
   */
  lemma {:induction false} SelectionTopNegatives(d: Queries, cfg: Config, q: nat, p: Plan)
    requires Valid(d) && ValidConfig(cfg) && q < NumQueries(d) && Planned(d, cfg, q, p)
    ensures forall i, x :: (QueryPositives(d, q) <= i < Base(p) && QueryStart(d, q) <= x < QueryEnd(d, q)
      && d.labels[x] == 0 && x !in Selection(p)[..Base(p)]) ==> d.scores[Selection(p)[i]] >= d.scores[x]
  {
    PlannedOrder(d, cfg, q, p);
    TopNegativesBest(d.labels, d.scores, p);
  }

  /**
   The plans of the first `n` queries. A query's plan depends only on its
   own documents, which no earlier query moves (see `Inv`), so the plans can
   be made ahead of the placement.
   */
  function Plans(d: Queries, cfg: Config, shuffle: Shuffle, n: nat): (r: Result<seq<Plan>, BudgetError>)
    requires Valid(d) && ValidConfig(cfg) && IsShuffle(shuffle) && n <= NumQueries(d)
    ensures r.Failure? <==> n > 0 && cfg.negative == Unsupported
    ensures r.Success? ==> |r.value| == n && forall q :: 0 <= q < n ==> Planned(d, cfg, q, r.value[q])
  {
    if n == 0 then Success([])
    else
      var pre :- Plans(d, cfg, shuffle, n - 1);
      var p :- QueryPlan(d, cfg, shuffle, n - 1);
      PlannedSnoc(d, cfg, pre, p);
      Success(pre + [p])
  }

  lemma PlannedSnoc(d: Queries, cfg: Config, pre: seq<Plan>, p: Plan)
    requires Valid(d) && ValidConfig(cfg) && |pre| < NumQueries(d)
    requires forall q :: 0 <= q < |pre| ==> Planned(d, cfg, q, pre[q])
    requires Planned(d, cfg, |pre|, p)
    ensures forall q :: 0 <= q <= |pre| ==> Planned(d, cfg, q, (pre + [p])[q])
  {
    forall q | 0 <= q <= |pre|
      ensures Planned(d, cfg, q, (pre + [p])[q])
    {
      if q < |pre| {
        assert (pre + [p])[q] == pre[q];
      }
    }
  }

  /** Plans that fit the queries: each sorted query is a reordering of its ids. */
  predicate Fits(d: Queries, plans: seq<Plan>)
    requires Valid(d)
  {
    |plans| <= NumQueries(d)
    && forall q :: 0 <= q < |plans| ==>
      Shaped(plans[q]) && multiset(plans[q].order) == multiset(Range(d.offsets[q], d.offsets[q + 1]))
  }

  lemma PlansFit(d: Queries, cfg: Config, shuffle: Shuffle, n: nat)
    requires Valid(d) && ValidConfig(cfg) && IsShuffle(shuffle) && n <= NumQueries(d)
    requires Plans(d, cfg, shuffle, n).Success?
    ensures Fits(d, Plans(d, cfg, shuffle, n).value)
  {
    var plans := Plans(d, cfg, shuffle, n).value;
    forall q | 0 <= q < |plans|
      ensures Shaped(plans[q]) && multiset(plans[q].order) == multiset(Range(d.offsets[q], d.offsets[q + 1]))
    {
      assert Planned(d, cfg, q, plans[q]);
    }
  }

  /** The concatenated selections of the first `n` plans, in query order. */
  function Selected(plans: seq<Plan>, n: nat): seq<nat>
    requires n <= |plans| && forall q :: 0 <= q < |plans| ==> Shaped(plans[q])
  {
    if n == 0 then [] else Selected(plans, n - 1) + Selection(plans[n - 1])
  }

  /** `sampleids` and the cursor between two queries. */
  datatype Pass = Pass(ids: seq<nat>, cursor: nat)

  /**
   Before query `n`: the ids are a permutation of all documents, the cursor
   has not passed the query's start, and the ids from there on are still in
   their original order.
   */
  predicate Inv(d: Queries, n: nat, st: Pass)
    requires Valid(d) && n <= NumQueries(d)
  {
    |st.ids| == |d.labels| && multiset(st.ids) == multiset(Range(0, |d.labels|))
    && st.cursor <= d.offsets[n]
    && st.ids[d.offsets[n]..] == Range(d.offsets[n], |d.labels|)
  }

  /**
   The placement of query `[s, e)` with the cursor at `c`: the sorted query
   is written back, the chosen random negatives are gathered right after the
   kept part, and the whole selection is then moved to the cursor.
   */
  function Place(ids: seq<nat>, c: nat, s: nat, e: nat, p: Plan): (r: seq<nat>)
    requires c <= s <= e <= |ids| && |p.order| == e - s && Shaped(p)
    ensures |r| == |ids|
  {
    var a := ids[..s] + p.order + ids[e..];
    BlockMove(GatherSwaps(a, s, Base(p), p.chosen), c, s, Base(p) + |p.chosen|)
  }

  /** Writing the sorted query back into `[s, e)`. */
  lemma {:induction false} WriteBack(ids: seq<nat>, s: nat, e: nat, order: seq<nat>, k: nat)
    requires s <= e <= |ids| && |order| == e - s && k < |ids|
    ensures k < s ==> (ids[..s] + order + ids[e..])[k] == ids[k]
    ensures s <= k < e ==> (ids[..s] + order + ids[e..])[k] == order[k - s]
    ensures e <= k ==> (ids[..s] + order + ids[e..])[k] == ids[k]
  {
  }

  /** Positions before the cursor and from the query's end on keep their ids. */
  lemma {:induction false} PlaceOutside(ids: seq<nat>, c: nat, s: nat, e: nat, p: Plan, k: nat)
    requires c <= s <= e <= |ids| && |p.order| == e - s && Shaped(p)
    requires k < |ids| && (k < c || k >= e)
    ensures Place(ids, c, s, e, p)[k] == ids[k]
  {
    var a := ids[..s] + p.order + ids[e..];
    var g := GatherSwaps(a, s, Base(p), p.chosen);
    assert GatherArgs(a, s, Base(p), e, p.chosen);
    GatherOutside(a, s, Base(p), e, p.chosen, k);
    BlockMoveOutside(g, c, s, Base(p) + |p.chosen|, k);
    WriteBack(ids, s, e, p.order, k);
  }

  /** Offset `k` after the cursor holds entry `k` of the query's selection. */
  lemma {:induction false} PlaceAt(ids: seq<nat>, c: nat, s: nat, e: nat, p: Plan, k: nat)
    requires c <= s <= e <= |ids| && |p.order| == e - s && Shaped(p)
    requires k < Base(p) + |p.chosen|
    ensures Place(ids, c, s, e, p)[c + k] == Selection(p)[k]
  {
    var a := ids[..s] + p.order + ids[e..];
    var g := GatherSwaps(a, s, Base(p), p.chosen);
    assert GatherArgs(a, s, Base(p), e, p.chosen);
    BlockMoveAt(g, c, s, Base(p) + |p.chosen|, k);
    var i := SourceIndex(p, k);
    if k < Base(p) {
      GatherOutside(a, s, Base(p), e, p.chosen, s + k);
    } else {
      GatherAt(a, s, Base(p), e, p.chosen, k - Base(p));
    }
    WriteBack(ids, s, e, p.order, s + i);
  }

  lemma PlacePermutes(ids: seq<nat>, c: nat, s: nat, e: nat, p: Plan)
    requires c <= s <= e <= |ids| && |p.order| == e - s && Shaped(p)
    ensures multiset(Place(ids, c, s, e, p)) == multiset(ids[..s]) + multiset(p.order) + multiset(ids[e..])
  {
    var a := ids[..s] + p.order + ids[e..];
    GatherThenMovePermutes(a, c, s, Base(p), p.chosen);
    assert Place(ids, c, s, e, p) == BlockMove(GatherSwaps(a, s, Base(p), p.chosen), c, s, Base(p) + |p.chosen|);
  }

  /**
   The placement leaves everything before the cursor and from the query's
   end on alone, puts the query's selection at the cursor, and only
   reorders.
   */
  lemma {:induction false} PlaceFacts(ids: seq<nat>, c: nat, s: nat, e: nat, p: Plan)
    requires c <= s <= e <= |ids| && |p.order| == e - s && Shaped(p)
    ensures c + |Selection(p)| <= e
    ensures Place(ids, c, s, e, p)[..c + |Selection(p)|] == ids[..c] + Selection(p)
    ensures Place(ids, c, s, e, p)[e..] == ids[e..]
    ensures multiset(Place(ids, c, s, e, p)) == multiset(ids[..s]) + multiset(p.order) + multiset(ids[e..])
  {
    var r := Place(ids, c, s, e, p);
    var sel := Selection(p);
    forall k | 0 <= k < c + |sel|
      ensures r[k] == (ids[..c] + sel)[k]
    {
      if k < c {
        PlaceOutside(ids, c, s, e, p, k);
      } else {
        PlaceAt(ids, c, s, e, p, k - c);
      }
    }
    forall k | 0 <= k < |ids| - e
      ensures r[e..][k] == ids[e..][k]
    {
      PlaceOutside(ids, c, s, e, p, e + k);
    }
    PlacePermutes(ids, c, s, e, p);
  }

  /** Ids that are untouched from `s` on split into the front, the query block and the rest. */
  lemma UntouchedSplit(ids: seq<nat>, n: nat, s: nat, e: nat)
    requires |ids| == n && s <= e <= n && ids[s..] == Range(s, n)
    ensures ids[s..e] == Range(s, e) && ids[e..] == Range(e, n)
    ensures multiset(ids) == multiset(ids[..s]) + multiset(Range(s, e)) + multiset(ids[e..])
  {
    assert ids[s..e] == Range(s, e) by {
      assert ids[s..e] == ids[s..][..e - s];
    }
    assert ids == ids[..s] + ids[s..e] + ids[e..];
    assert ids[e..] == Range(e, n) by {
      assert ids[e..] == ids[s..][e - s..];
    }
  }

  /**
   One query, stated on the ids alone: with the ids from `s` on untouched
   and the sorted query a reordering of `[s, e)`, the placement keeps the
   permutation, keeps the ids from `e` on untouched and appends the
   selection to the front.
   */
  lemma {:induction false} StepOnIds(ids: seq<nat>, n: nat, c: nat, s: nat, e: nat, p: Plan)
    requires |ids| == n && multiset(ids) == multiset(Range(0, n))
    requires c <= s <= e <= n && ids[s..] == Range(s, n)
    requires Shaped(p) && multiset(p.order) == multiset(Range(s, e))
    ensures |p.order| == e - s
    ensures c + |Selection(p)| <= e
    ensures multiset(Place(ids, c, s, e, p)) == multiset(Range(0, n))
    ensures Place(ids, c, s, e, p)[e..] == Range(e, n)
    ensures Place(ids, c, s, e, p)[..c + |Selection(p)|] == ids[..c] + Selection(p)
  {
    BlockLength(p.order, s, e);
    PlaceFacts(ids, c, s, e, p);
    UntouchedSplit(ids, n, s, e);
  }

  /**
   Query `q` of the pass: the invariant is kept and the query's selection is
   appended to the front.
   */
  function Advance(d: Queries, plans: seq<Plan>, q: nat, st: Pass): (r: Pass)
    requires Valid(d) && Fits(d, plans) && q < |plans| && Inv(d, q, st)
    ensures Inv(d, q + 1, r)
    ensures r.ids[..r.cursor] == st.ids[..st.cursor] + Selection(plans[q])
  {
    var p, s, e := plans[q], d.offsets[q], d.offsets[q + 1];
    StepOnIds(st.ids, |d.labels|, st.cursor, s, e, p);
    Pass(Place(st.ids, st.cursor, s, e, p), st.cursor + |Selection(p)|)
  }

  /**
   The first `n` queries of the pass with the whole-selection placement:
   the concatenated selections are at the front, and the cursor is their
   length.
   */
  function Run(d: Queries, plans: seq<Plan>, n: nat): (r: Pass)
    requires Valid(d) && Fits(d, plans) && n <= |plans|
    ensures Inv(d, n, r)
    ensures r.ids[..r.cursor] == Selected(plans, n)
  {
    if n == 0 then Pass(Range(0, |d.labels|), 0)
    else Advance(d, plans, n - 1, Run(d, plans, n - 1))
  }

  /**
   `sampling_query_level`: with no sampling iterations configured every
   document is kept; otherwise the pass over all queries, with the factors
   mixed by the adaptive strategy.
   */
  function SamplingQueryLevel(
    d: Queries, samplingIterations: nat, adaptive: AdaptiveStrategy, negative: NegativeStrategy,
    rankSampling: real, randomSampling: real, adapt: real, shuffle: Shuffle): (r: Result<Pass, BudgetError>)
    requires Valid(d) && IsShuffle(shuffle)
    requires rankSampling >= 0.0 && randomSampling >= 0.0 && 0.0 <= adapt <= 1.0
    ensures r.Failure? <==> samplingIterations > 0 && NumQueries(d) > 0 && negative == Unsupported
    ensures r.Success? ==> |r.value.ids| == |d.labels| && r.value.cursor <= |d.labels|
    ensures r.Success? ==> IsPermutation(r.value.ids, |d.labels|)
    ensures r.Success? && samplingIterations == 0 ==> r.value.cursor == |d.labels|
    ensures r.Success? && samplingIterations > 0 ==>
      var cfg := Config(negative, MixingFactors(adaptive, rankSampling, randomSampling, adapt));
      ValidConfig(cfg) && Plans(d, cfg, shuffle, NumQueries(d)).Success?
      && var plans := Plans(d, cfg, shuffle, NumQueries(d)).value;
         Fits(d, plans) && r.value.ids[..r.value.cursor] == Selected(plans, NumQueries(d))
  {
    if samplingIterations == 0 then
      Success(Pass(Range(0, |d.labels|), |d.labels|))
    else
      MixingFactorsFacts(adaptive, rankSampling, randomSampling, adapt);
      var cfg := Config(negative, MixingFactors(adaptive, rankSampling, randomSampling, adapt));
      var plans :- Plans(d, cfg, shuffle, NumQueries(d));
      PlansFit(d, cfg, shuffle, NumQueries(d));
      Success(Run(d, plans, NumQueries(d)))
  }

  /**
   The placement as written: the kept part is moved to the cursor only when
   the cursor is positive, and the random negatives are then swapped, in the
   order drawn, from their positions in the query to the positions after the
   kept part.
   */
  function PlaceAsWritten(ids: seq<nat>, c: nat, s: nat, e: nat, p: Plan): (r: seq<nat>)
    requires c <= s <= e <= |ids| && |p.order| == e - s && Shaped(p)
    ensures |r| == |ids|
  {
    MoveThenScatter(ids[..s] + p.order + ids[e..], c, s, Base(p), p.picks)
  }

  function MoveThenScatter(a: seq<nat>, c: nat, s: nat, base: nat, picks: seq<nat>): (r: seq<nat>)
    requires c <= s && s + base <= |a| && c + base + |picks| <= |a|
    requires forall j :: 0 <= j < |picks| ==> s + picks[j] < |a|
    ensures |r| == |a|
  {
    ScatterSwaps(MoveIfCursor(a, c, s, base), c + base, s, picks)
  }

  /** `if (cursor > 0)` around the move of the kept part. */
  function MoveIfCursor(a: seq<nat>, c: nat, s: nat, len: nat): (r: seq<nat>)
    requires c <= s && s + len <= |a|
    ensures |r| == |a|
  {
    if c > 0 then BlockMove(a, c, s, len) else a
  }

  lemma MoveIfCursorPermutes(a: seq<nat>, c: nat, s: nat, len: nat)
    requires c <= s && s + len <= |a|
    ensures multiset(MoveIfCursor(a, c, s, len)) == multiset(a)
  {
    if c > 0 {
      BlockMovePermutes(a, c, s, len);
    }
  }

  lemma MoveIfCursorOutside(a: seq<nat>, c: nat, s: nat, len: nat, k: nat)
    requires c <= s && s + len <= k < |a|
    ensures MoveIfCursor(a, c, s, len)[k] == a[k]
  {
    if c > 0 {
      BlockMoveOutside(a, c, s, len, k);
    }
  }

  /** The conditional move followed by the random swaps only reorders. */
  lemma MoveThenScatterPermutes(a: seq<nat>, c: nat, s: nat, base: nat, picks: seq<nat>)
    requires c <= s && s + base <= |a| && c + base + |picks| <= |a|
    requires forall j :: 0 <= j < |picks| ==> s + picks[j] < |a|
    ensures multiset(MoveThenScatter(a, c, s, base, picks)) == multiset(a)
  {
    MoveIfCursorPermutes(a, c, s, base);
    ScatterPermutes(MoveIfCursor(a, c, s, base), c + base, s, picks);
  }

  lemma {:induction false} PlaceAsWrittenOutside(ids: seq<nat>, c: nat, s: nat, e: nat, p: Plan, k: nat)
    requires c <= s <= e <= |ids| && |p.order| == e - s && Shaped(p) && e <= k < |ids|
    ensures PlaceAsWritten(ids, c, s, e, p)[k] == ids[k]
  {
    var a := ids[..s] + p.order + ids[e..];
    MoveIfCursorOutside(a, c, s, Base(p), k);
    ScatterOutside(MoveIfCursor(a, c, s, Base(p)), c + Base(p), s, p.picks, e, k);
    WriteBack(ids, s, e, p.order, k);
  }

  lemma {:induction false} PlaceAsWrittenPermutes(ids: seq<nat>, c: nat, s: nat, e: nat, p: Plan)
    requires c <= s <= e <= |ids| && |p.order| == e - s && Shaped(p)
    ensures multiset(PlaceAsWritten(ids, c, s, e, p)) == multiset(ids[..s]) + multiset(p.order) + multiset(ids[e..])
  {
    var a := ids[..s] + p.order + ids[e..];
    assert multiset(a) == multiset(ids[..s]) + multiset(p.order) + multiset(ids[e..]);
    MoveThenScatterPermutes(a, c, s, Base(p), p.picks);
  }

  /** The placement as written also only reorders and leaves the later queries alone. */
  lemma {:induction false} PlaceAsWrittenKeeps(ids: seq<nat>, c: nat, s: nat, e: nat, p: Plan)
    requires c <= s <= e <= |ids| && |p.order| == e - s && Shaped(p)
    ensures PlaceAsWritten(ids, c, s, e, p)[e..] == ids[e..]
    ensures multiset(PlaceAsWritten(ids, c, s, e, p)) == multiset(ids[..s]) + multiset(p.order) + multiset(ids[e..])
  {
    PlaceAsWrittenPermutes(ids, c, s, e, p);
    var r := PlaceAsWritten(ids, c, s, e, p);
    forall k | 0 <= k < |ids| - e
      ensures r[e..][k] == ids[e..][k]
    {
      PlaceAsWrittenOutside(ids, c, s, e, p, e + k);
    }
  }

  lemma {:induction false} StepAsWrittenOnIds(ids: seq<nat>, n: nat, c: nat, s: nat, e: nat, p: Plan)
    requires |ids| == n && multiset(ids) == multiset(Range(0, n))
    requires c <= s <= e <= n && ids[s..] == Range(s, n)
    requires Shaped(p) && multiset(p.order) == multiset(Range(s, e))
    ensures |p.order| == e - s
    ensures multiset(PlaceAsWritten(ids, c, s, e, p)) == multiset(Range(0, n))
    ensures PlaceAsWritten(ids, c, s, e, p)[e..] == Range(e, n)
  {
    BlockLength(p.order, s, e);
    PlaceAsWrittenKeeps(ids, c, s, e, p);
    UntouchedSplit(ids, n, s, e);
  }

  /** Query `q` of the pass as written: the cursor advances by the selection's size. */
  function AdvanceAsWritten(d: Queries, plans: seq<Plan>, q: nat, st: Pass): (r: Pass)
    requires Valid(d) && Fits(d, plans) && q < |plans| && Inv(d, q, st)
    ensures Inv(d, q + 1, r)
    ensures r.cursor == st.cursor + |Selection(plans[q])|
  {
    var p, s, e := plans[q], d.offsets[q], d.offsets[q + 1];
    StepAsWrittenOnIds(st.ids, |d.labels|, st.cursor, s, e, p);
    Pass(PlaceAsWritten(st.ids, st.cursor, s, e, p), st.cursor + Base(p) + |p.picks|)
  }

  /**
   The first `n` queries of the pass as written. It keeps a permutation and
   counts the right number of documents, but the front need not hold the
   selections.
   */
  function RunAsWritten(d: Queries, plans: seq<Plan>, n: nat): (r: Pass)
    requires Valid(d) && Fits(d, plans) && n <= |plans|
    ensures Inv(d, n, r)
    ensures r.cursor == |Selected(plans, n)|
  {
    if n == 0 then Pass(Range(0, |d.labels|), 0)
    else AdvanceAsWritten(d, plans, n - 1, RunAsWritten(d, plans, n - 1))
  }
}
