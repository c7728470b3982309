/**
 Per-query negative budgets of selective LambdaMART: the mixing of the
 rank-based and random sampling factors by the adaptive strategy, and the
 number of top-scored and random negatives each query keeps under the
 RATIO, MUL and POS negative strategies.
 */
module SelectiveBudgets {
  import opened Numeric
  import opened Results

  /** The recognised values of `adaptive_strategy`. */
  datatype AdaptiveStrategy = NoAdapt | Fixed | RatioAdapt | MixAdapt

  /** The values of `negative_strategy`; any other string is rejected. */
  datatype NegativeStrategy = RatioNeg | Mul | Pos | Unsupported

  datatype BudgetError = NotSupported

  /** The factors actually applied to a query: rank-based and random. */
  datatype Mixing = Mixing(rank: real, random: real)

  /** `min_ratio + (1 - adapt_factor) * (max_ratio - min_ratio)`. */
  function Interpolated(rankSampling: real, randomSampling: real, adapt: real): real {
    var lo := MinReal(rankSampling, randomSampling);
    var hi := MaxReal(rankSampling, randomSampling);
    lo + (1.0 - adapt) * (hi - lo)
  }

  function MixingFactors(strategy: AdaptiveStrategy, rankSampling: real, randomSampling: real, adapt: real): Mixing {
    match strategy
    case NoAdapt => Mixing(rankSampling, randomSampling)
    case Fixed =>
      var f := Interpolated(rankSampling, randomSampling, adapt);
      Mixing(f, f)
    case RatioAdapt =>
      var sum := rankSampling + randomSampling;
      Mixing(sum * adapt, sum - sum * adapt)
    case MixAdapt =>
      var f := Interpolated(rankSampling, randomSampling, adapt);
      Mixing(f * adapt, f - f * adapt)
  }

  /** The interpolated factor lies between the two configured factors. */
  lemma InterpolatedBetween(rankSampling: real, randomSampling: real, adapt: real)
    requires 0.0 <= adapt <= 1.0
    ensures MinReal(rankSampling, randomSampling) <= Interpolated(rankSampling, randomSampling, adapt)
                                                  <= MaxReal(rankSampling, randomSampling)
    ensures adapt == 1.0 ==> Interpolated(rankSampling, randomSampling, adapt) == MinReal(rankSampling, randomSampling)
    ensures adapt == 0.0 ==> Interpolated(rankSampling, randomSampling, adapt) == MaxReal(rankSampling, randomSampling)
  {
    var lo := MinReal(rankSampling, randomSampling);
    var hi := MaxReal(rankSampling, randomSampling);
    var t := 1.0 - adapt;
    var w := hi - lo;
    assert Interpolated(rankSampling, randomSampling, adapt) == lo + t * w;
    ProductBounds(t, w);
    ProductEnds(t, w);
  }

  lemma ProductBounds(a: real, b: real)
    requires 0.0 <= a <= 1.0 && b >= 0.0
    ensures 0.0 <= a * b <= b
  {
  }

  lemma ProductEnds(a: real, b: real)
    ensures a == 0.0 ==> a * b == 0.0
    ensures a == 1.0 ==> a * b == b
  {
  }

  /**
   With nonnegative configured factors and an adapt factor in `[0, 1]`, both
   applied factors are nonnegative; RATIO and MIX split their total between
   rank and random in the proportion `adapt : 1 - adapt`.
   */
  lemma MixingFactorsFacts(strategy: AdaptiveStrategy, rankSampling: real, randomSampling: real, adapt: real)
    requires rankSampling >= 0.0 && randomSampling >= 0.0 && 0.0 <= adapt <= 1.0
    ensures MixingFactors(strategy, rankSampling, randomSampling, adapt).rank >= 0.0
    ensures MixingFactors(strategy, rankSampling, randomSampling, adapt).random >= 0.0
    ensures strategy == RatioAdapt ==>
      MixingFactors(strategy, rankSampling, randomSampling, adapt).rank
      + MixingFactors(strategy, rankSampling, randomSampling, adapt).random == rankSampling + randomSampling
    ensures strategy == MixAdapt ==>
      MixingFactors(strategy, rankSampling, randomSampling, adapt).rank
      + MixingFactors(strategy, rankSampling, randomSampling, adapt).random
      == Interpolated(rankSampling, randomSampling, adapt)
    ensures strategy == Fixed ==>
      MixingFactors(strategy, rankSampling, randomSampling, adapt).rank
      == MixingFactors(strategy, rankSampling, randomSampling, adapt).random
  {
    match strategy
    case NoAdapt =>
    case Fixed =>
      InterpolatedBetween(rankSampling, randomSampling, adapt);
    case RatioAdapt =>
      SplitFacts(rankSampling + randomSampling, adapt);
    case MixAdapt =>
      InterpolatedBetween(rankSampling, randomSampling, adapt);
      SplitFacts(Interpolated(rankSampling, randomSampling, adapt), adapt);
  }

  /** Splitting a nonnegative total as `total * adapt` and the rest. */
  lemma SplitFacts(total: real, adapt: real)
    requires total >= 0.0 && 0.0 <= adapt <= 1.0
    ensures total * adapt >= 0.0 && total - total * adapt >= 0.0
    ensures total * adapt + (total - total * adapt) == total
  {
    ProductBounds(adapt, total);
    assert adapt * total == total * adapt;
  }

  /** `(size_t) std::round(x)` for a nonnegative `x`. */
  function RoundSize(x: real): (r: nat)
    requires x >= 0.0
    ensures x - 0.5 < r as real <= x + 0.5
  {
    Round(x) as nat
  }

  /**
   The budgets before the final clamp: `(n_top_neg, n_random_neg)`.
   `negBeforeLastPos` is the number of negatives ranked above the last
   positive (used by POS only).
   */
  function RawBudget(
    strategy: NegativeStrategy, mix: Mixing, nPos: nat, nNeg: nat, negBeforeLastPos: nat): (r: Result<(nat, nat), BudgetError>)
    requires mix.rank >= 0.0 && mix.random >= 0.0
    ensures r.Failure? <==> strategy == Unsupported
    ensures r.Success? && strategy == Mul ==> r.value.0 <= nNeg && r.value.1 <= nNeg
    ensures r.Success? && strategy == Pos ==> r.value.0 <= nNeg && r.value.1 <= nNeg - r.value.0
    ensures r.Success? && strategy == Pos && nPos == 0 ==> r.value == (0, 0)
    ensures r.Success? && strategy == Mul && nPos == 0 ==> r.value == (0, 0)
  {
    NonnegativeProduct(mix.rank, nNeg as real);
    NonnegativeProduct(mix.random, nNeg as real);
    NonnegativeProduct(mix.rank, nPos as real);
    NonnegativeProduct(mix.random, nPos as real);
    NonnegativeProduct(mix.rank, negBeforeLastPos as real);
    NonnegativeProduct(mix.random, negBeforeLastPos as real);
    match strategy
    case RatioNeg =>
      Success((RoundSize(mix.rank * nNeg as real), RoundSize(mix.random * nNeg as real)))
    case Mul =>
      Success((MinInt(RoundSize(mix.rank * nPos as real), nNeg) as nat,
               MinInt(RoundSize(mix.random * nPos as real), nNeg) as nat))
    case Pos =>
      if nPos == 0 then Success((0, 0))
      else
        var top := MinInt(RoundSize(mix.rank * negBeforeLastPos as real), nNeg) as nat;
        Success((top, MinInt(RoundSize(mix.random * negBeforeLastPos as real), nNeg - top) as nat))
    case Unsupported => Failure(NotSupported)
  }

  /** The three budgets of one query after the clamp. */
  datatype Budget = Budget(top: nat, random: nat, total: nat)

  /**
   The clamp as the code writes it: when the two budgets exceed the
   negatives, the random budget becomes `n_neg_query - n_top_neg` in
   `size_t`, which wraps when the top budget alone exceeds the negatives.
   */
  function ClampAsWritten(top: nat, random: nat, nNeg: nat): (b: Budget)
    requires top < SizeModulus && random < SizeModulus && nNeg < SizeModulus
    ensures b.top == top
    ensures top + random <= nNeg ==> b == Budget(top, random, top + random)
    ensures top <= nNeg ==> b.total <= nNeg && b.total == b.top + b.random
  {
    if top + random > nNeg then Budget(top, SizeSub(nNeg, top), nNeg)
    else Budget(top, random, top + random)
  }

  /**
   The clamp with the top budget itself bounded by the negatives, so that
   the random budget is what remains.
   */
  function Clamp(top: nat, random: nat, nNeg: nat): (b: Budget)
    ensures b.total == b.top + b.random && b.total <= nNeg
    ensures b.top <= top && b.random <= random
    ensures top + random <= nNeg ==> b == Budget(top, random, top + random)
    ensures top + random > nNeg ==> b.total == nNeg && b.top == MinInt(top, nNeg)
  {
    if top + random > nNeg then
      var t := MinInt(top, nNeg) as nat;
      Budget(t, nNeg - t, nNeg)
    else Budget(top, random, top + random)
  }

  /** Whenever the top budget fits, the written clamp and the bounded one agree. */
  lemma ClampAgrees(top: nat, random: nat, nNeg: nat)
    requires top < SizeModulus && random < SizeModulus && nNeg < SizeModulus
    requires top <= nNeg
    ensures ClampAsWritten(top, random, nNeg) == Clamp(top, random, nNeg)
  {
  }

  /**
   Adaptive RATIO with both configured factors at 0.8 and an adapt factor of
   one gives a rank factor of 1.6; a query with five negatives then asks for
   eight top negatives and the written clamp wraps the random budget.
   */
  lemma RatioClampWraps()
    ensures MixingFactors(RatioAdapt, 0.8, 0.8, 1.0) == Mixing(1.6, 0.0)
    ensures RawBudget(RatioNeg, Mixing(1.6, 0.0), 0, 5, 0) == Success((8, 0))
    ensures ClampAsWritten(8, 0, 5).random == SizeModulus - 3
    ensures Clamp(8, 0, 5) == Budget(5, 0, 5)
  {
    assert Round(1.6 * 5.0) == 8;
    assert Round(0.0 * 5.0) == 0;
  }

  /** The budgets of one query: the raw budgets followed by the bounded clamp. */
  function QueryBudget(
    strategy: NegativeStrategy, mix: Mixing, nPos: nat, nNeg: nat, negBeforeLastPos: nat): (r: Result<Budget, BudgetError>)
    requires mix.rank >= 0.0 && mix.random >= 0.0
    ensures r.Failure? <==> strategy == Unsupported
    ensures r.Success? ==> r.value.total == r.value.top + r.value.random <= nNeg
    ensures r.Success? && strategy == Pos ==>
      Success((r.value.top, r.value.random)) == RawBudget(strategy, mix, nPos, nNeg, negBeforeLastPos)
    ensures r.Success? && strategy == Mul ==>
      r.value.top == RawBudget(strategy, mix, nPos, nNeg, negBeforeLastPos).value.0
    ensures r.Success? && strategy == Pos && nPos == 0 ==> r.value == Budget(0, 0, 0)
  {
    var raw :- RawBudget(strategy, mix, nPos, nNeg, negBeforeLastPos);
    Success(Clamp(raw.0, raw.1, nNeg))
  }
}
