/**
 The count `sampling_query_level` returns: the sum over the queries of
 their positives and their clamped negative budgets, bounded by the number
 of documents.
 */
module SamplingTotals {
  import opened Results
  import opened SelectiveBudgets
  import opened SelectiveSampling

  /** `sum_q npositives[q] + n_total_neg[q]` over the first `n` queries. */
  function BudgetSum(d: Queries, cfg: Config, n: nat): nat
    requires Valid(d) && ValidConfig(cfg) && n <= NumQueries(d) && cfg.negative != Unsupported
  {
    if n == 0 then 0
    else BudgetSum(d, cfg, n - 1) + QueryPositives(d, n - 1) + QueryBudgets(d, cfg, n - 1).value.total
  }

  /** The selections of planned queries are as long as their budgets say. */
  lemma {:induction false} SelectedLength(d: Queries, cfg: Config, plans: seq<Plan>, n: nat)
    requires Valid(d) && ValidConfig(cfg) && cfg.negative != Unsupported
    requires n <= |plans| <= NumQueries(d)
    requires forall q :: 0 <= q < |plans| ==> Planned(d, cfg, q, plans[q])
    ensures forall q :: 0 <= q < |plans| ==> Shaped(plans[q])
    ensures |Selected(plans, n)| == BudgetSum(d, cfg, n)
  {
    PlansShaped(d, cfg, plans);
    if n > 0 {
      var q := n - 1;
      assert Planned(d, cfg, q, plans[q]);
      SelectedLength(d, cfg, plans, q);
      PlannedLength(d, cfg, q, plans[q]);
    }
  }

  lemma PlansShaped(d: Queries, cfg: Config, plans: seq<Plan>)
    requires Valid(d) && ValidConfig(cfg) && |plans| <= NumQueries(d)
    requires forall q :: 0 <= q < |plans| ==> Planned(d, cfg, q, plans[q])
    ensures forall q :: 0 <= q < |plans| ==> Shaped(plans[q])
  {
    forall q | 0 <= q < |plans|
      ensures Shaped(plans[q])
    {
      assert Planned(d, cfg, q, plans[q]);
    }
  }

  /** A planned query contributes its positives and its negative budget. */
  lemma PlannedLength(d: Queries, cfg: Config, q: nat, p: Plan)
    requires Valid(d) && ValidConfig(cfg) && q < NumQueries(d) && Planned(d, cfg, q, p)
    ensures |Selection(p)| == QueryPositives(d, q) + QueryBudgets(d, cfg, q).value.total
  {
    assert |Selection(p)| == Base(p) + |p.chosen|;
  }

  /**
   The count returned by the pass as written, and the length of the
   selections the whole-selection pass leaves at the front, are the budget
   sum over all queries, which does not exceed the number of documents.
   */
  lemma CursorIsBudgetSum(d: Queries, cfg: Config, shuffle: Shuffle)
    requires Valid(d) && ValidConfig(cfg) && IsShuffle(shuffle) && cfg.negative != Unsupported
    ensures Plans(d, cfg, shuffle, NumQueries(d)).Success?
    ensures Fits(d, Plans(d, cfg, shuffle, NumQueries(d)).value)
    ensures RunAsWritten(d, Plans(d, cfg, shuffle, NumQueries(d)).value, NumQueries(d)).cursor
            == BudgetSum(d, cfg, NumQueries(d))
    ensures Run(d, Plans(d, cfg, shuffle, NumQueries(d)).value, NumQueries(d)).cursor
            == BudgetSum(d, cfg, NumQueries(d))
    ensures BudgetSum(d, cfg, NumQueries(d)) <= |d.labels|
  {
    var n := NumQueries(d);
    PlansFit(d, cfg, shuffle, n);
    var plans := Plans(d, cfg, shuffle, n).value;
    SelectedLength(d, cfg, plans, n);
    var r := Run(d, plans, n);
    assert |r.ids[..r.cursor]| == r.cursor;
  }
}
