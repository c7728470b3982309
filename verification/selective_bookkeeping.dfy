/**
 The sampling bookkeeping of selective LambdaMART's training loop: when the
 per-query sampling is redone, the random subsample drawn from the current
 sample, the presence map handed to the pseudo-response computation, and
 the ring of recent improvements that sets the adapt factor.
 */
module SamplingBookkeeping {
  import opened Numeric
  import opened Results
  import opened Sequences

  /** The undefined behaviours of the loop as written. */
  datatype Fault = ModuloByZero | NullPresence

  /** Document sampling is on when either sampling factor is positive. */
  predicate SamplingEnabled(rankSampling: real, randomSampling: real) {
    rankSampling > 0.0 || randomSampling > 0.0
  }

  // ----- When to resample -----

  /**
   The resampling test as written: `enabled && m % sampling_iterations == 0
   && m > 0`, evaluated left to right, so the remainder is taken, by zero
   when no sampling iterations are configured, before `m > 0` is looked at.
   */
  function ResampleDueAsWritten(enabled: bool, samplingIterations: nat, m: nat): (r: Result<bool, Fault>)
    ensures r.Failure? <==> enabled && samplingIterations == 0
    ensures r.Success? ==> (r.value <==> ResampleDue(enabled, samplingIterations, m))
  {
    if !enabled then Success(false)
    else if samplingIterations == 0 then Failure(ModuloByZero)
    else Success(m % samplingIterations == 0 && m > 0)
  }

  /**
   The test with zero sampling iterations meaning that the sampling is never
   redone, which is how `sampling_query_level` reads a zero.
   */
  predicate ResampleDue(enabled: bool, samplingIterations: nat, m: nat) {
    enabled && samplingIterations > 0 && m > 0 && m % samplingIterations == 0
  }

  /**
   The sampling is redone every `sampling_iterations` iterations and never
   in between, and never at the first iteration.
   */
  lemma ResampleSchedule(enabled: bool, samplingIterations: nat, m: nat, later: nat)
    requires ResampleDue(enabled, samplingIterations, m)
    ensures ResampleDue(enabled, samplingIterations, m + samplingIterations)
    ensures m < later < m + samplingIterations ==> !ResampleDue(enabled, samplingIterations, later)
    ensures !ResampleDue(enabled, samplingIterations, 0)
  {
    var it := samplingIterations;
    var k := m / it;
    assert m == k * it;
    assert m + it == (k + 1) * it;
    ModUnique(m + it, it, k + 1, 0);
    if m < later < m + it {
      ModUnique(later, it, k, later - m);
    }
  }

  lemma MulAwayFromZero(a: int, b: int)
    requires b > 0
    ensures a >= 1 ==> a * b >= b
    ensures a <= -1 ==> a * b <= -b
  {
  }

  /** The remainder is the unique `r < it` with `x == q * it + r`. */
  lemma ModUnique(x: nat, it: nat, q: nat, r: nat)
    requires it > 0 && r < it && x == q * it + r
    ensures x % it == r
  {
    var q2, r2 := x / it, x % it;
    assert x == q2 * it + r2;
    var d := q - q2;
    assert d * it == r2 - r;
    MulAwayFromZero(d, it);
  }

  // ----- Subsampling the current sample -----

  /** `sampleids` and `nsampleids_iter`: the ids of the current sample are the first `count`. */
  datatype Sample = Sample(ids: seq<nat>, count: nat)

  lemma ScaledBelow(subsample: real, n: nat)
    requires 0.0 <= subsample < 1.0
    ensures 0.0 <= subsample * n as real <= n as real
    ensures n > 0 ==> subsample * n as real < n as real
  {
    ScaleAtMost(subsample, n as real);
    if n > 0 {
      PositiveProduct(1.0 - subsample, n as real);
    }
  }

  /**
   The size of the subsample: above one, `subsample_` is a count, truncated
   and bounded by the current size; below one, the floor of that fraction of
   the current size.
   */
  function SubsampleCount(subsample: real, n: nat): (r: nat)
    requires subsample >= 0.0 && subsample != 1.0
    ensures r <= n
    ensures subsample > 1.0 ==> r == MinInt(Trunc(subsample), n) && (n > 0 ==> r > 0)
    ensures subsample < 1.0 ==> r as real <= subsample * n as real < r as real + 1.0
    ensures subsample < 1.0 && n > 0 ==> r < n
  {
    if subsample > 1.0 then MinInt(Trunc(subsample), n) as nat
    else
      var x := subsample * n as real;
      ScaledBelow(subsample, n);
      if n > 0 then FloorWithin(x, n); Floor(x) as nat else Floor(x) as nat
  }

  /**
   The subsample step, when `subsample_ != 1`: the current sample is
   shuffled in place (the shuffled order is a parameter, constrained only to
   reorder the sample) and its size reduced.
   */
  function SubsampleStep(s: Sample, subsample: real, shuffled: seq<nat>): (r: Sample)
    requires s.count <= |s.ids| && subsample >= 0.0
    requires multiset(shuffled) == multiset(s.ids[..s.count])
    ensures |r.ids| == |s.ids| && multiset(r.ids) == multiset(s.ids)
    ensures r.count <= s.count
    ensures r.ids[s.count..] == s.ids[s.count..]
    ensures multiset(r.ids[..s.count]) == multiset(s.ids[..s.count])
    ensures subsample == 1.0 ==> r == s
  {
    if subsample == 1.0 then s
    else
      assert |shuffled| == |multiset(shuffled)| == s.count;
      var ids := shuffled + s.ids[s.count..];
      assert ids[..s.count] == shuffled && ids[s.count..] == s.ids[s.count..];
      assert s.ids == s.ids[..s.count] + s.ids[s.count..];
      Sample(ids, SubsampleCount(subsample, s.count))
  }

  /** Every id of the new sample was in the previous one. */
  lemma SubsampleFromPrevious(s: Sample, subsample: real, shuffled: seq<nat>, i: nat)
    requires s.count <= |s.ids| && subsample >= 0.0
    requires multiset(shuffled) == multiset(s.ids[..s.count])
    requires i < SubsampleStep(s, subsample, shuffled).count
    ensures SubsampleStep(s, subsample, shuffled).ids[i] in s.ids[..s.count]
  {
    var r := SubsampleStep(s, subsample, shuffled);
    assert r.ids[i] == r.ids[..s.count][i];
    assert r.ids[i] in multiset(r.ids[..s.count]);
  }

  // ----- The presence map -----

  /** `for i < k: presence[ids[i]] = i < n`, the first `k` rounds of the refresh loop. */
  function MarkSteps(presence: seq<bool>, ids: seq<nat>, n: nat, k: nat): (r: seq<bool>)
    requires k <= |ids| && InBounds(ids, |presence|)
    ensures |r| == |presence|
  {
    if k == 0 then presence
    else MarkSteps(presence, ids, n, k - 1)[ids[k - 1] := k - 1 < n]
  }

  /**
   After `k` rounds, an id met at position `i < k` is present iff `i < n`,
   and an id not met yet keeps its old mark.
   */
  lemma {:induction false} MarkStepsAt(presence: seq<bool>, ids: seq<nat>, n: nat, k: nat, i: nat)
    requires k <= |ids| && InBounds(ids, |presence|) && Distinct(ids) && i < |ids|
    ensures i < k ==> MarkSteps(presence, ids, n, k)[ids[i]] == (i < n)
    ensures i >= k ==> MarkSteps(presence, ids, n, k)[ids[i]] == presence[ids[i]]
  {
    if k > 0 {
      MarkStepsAt(presence, ids, n, k - 1, i);
    }
  }

  /**
   The presence map refreshed from the current sample: with the ids a
   permutation of all documents, a document is present iff it is among the
   first `n` ids.
   */
  function Presence(ids: seq<nat>, n: nat): (r: seq<bool>)
    requires IsPermutation(ids, |ids|) && n <= |ids|
    ensures |r| == |ids|
    ensures forall x :: 0 <= x < |ids| ==> (r[x] <==> x in ids[..n])
  {
    PermutationFacts(ids, |ids|);
    var r := MarkSteps(seq(|ids|, x => true), ids, n, |ids|);
    forall x | 0 <= x < |ids|
      ensures r[x] <==> x in ids[..n]
    {
      assert x in ids;
      var i :| 0 <= i < |ids| && ids[i] == x;
      MarkStepsAt(seq(|ids|, x => true), ids, n, |ids|, i);
      if x in ids[..n] {
        var j :| 0 <= j < |ids[..n]| && ids[..n][j] == x;
        assert ids[j] == x;
      }
    }
    r
  }

  /** A refresh over a whole permutation overwrites every mark, so the old map does not matter. */
  lemma MarkAllOverwrites(presence: seq<bool>, other: seq<bool>, ids: seq<nat>, n: nat)
    requires IsPermutation(ids, |ids|) && |presence| == |ids| && |other| == |ids|
    ensures InBounds(ids, |presence|)
    ensures MarkSteps(presence, ids, n, |ids|) == MarkSteps(other, ids, n, |ids|)
  {
    PermutationFacts(ids, |ids|);
    var a, b := MarkSteps(presence, ids, n, |ids|), MarkSteps(other, ids, n, |ids|);
    forall x | 0 <= x < |ids|
      ensures a[x] == b[x]
    {
      assert x in ids;
      var i :| 0 <= i < |ids| && ids[i] == x;
      MarkStepsAt(presence, ids, n, |ids|, i);
      MarkStepsAt(other, ids, n, |ids|, i);
    }
  }

  /** The presence map, allocated only when document sampling is on. */
  datatype PresenceMap = Unallocated | Allocated(present: seq<bool>)

  /** The presence map before the first iteration: allocated, with every document present, only when a sampling factor is positive. */
  function InitialPresence(enabled: bool, n: nat): (r: PresenceMap)
    ensures r.Allocated? <==> enabled
    ensures r.Allocated? ==> |r.present| == n && forall x :: 0 <= x < n ==> r.present[x]
  {
    if enabled then Allocated(seq(n, x => true)) else Unallocated
  }

  /**
   The refresh as written: only when the sample is smaller than the data
   set, and through the map whether or not it was allocated.
   */
  function PresenceAsWritten(presence: PresenceMap, ids: seq<nat>, n: nat): (r: Result<PresenceMap, Fault>)
    requires IsPermutation(ids, |ids|) && n <= |ids|
    requires presence.Allocated? ==> |presence.present| == |ids|
    ensures r.Failure? <==> n < |ids| && presence.Unallocated?
    ensures r.Success? && n < |ids| ==> r.value == Allocated(Presence(ids, n))
    ensures n >= |ids| ==> r == Success(presence)
  {
    if n < |ids| then
      if presence.Unallocated? then Failure(NullPresence)
      else
        MarkAllOverwrites(presence.present, seq(|ids|, x => true), ids, n);
        Success(Allocated(MarkSteps(presence.present, ids, n, |ids|)))
    else Success(presence)
  }

  /**
   With the whole data set sampled the map is not refreshed: a document
   marked absent by an earlier, smaller sample stays absent although it is
   in the sample, while the refreshed map marks it present.
   */
  lemma StalePresence(present: seq<bool>, ids: seq<nat>, x: nat)
    requires IsPermutation(ids, |ids|) && |present| == |ids|
    requires x < |ids| && !present[x]
    ensures PresenceAsWritten(Allocated(present), ids, |ids|) == Success(Allocated(present))
    ensures x in ids[..|ids|] && Presence(ids, |ids|)[x]
  {
    PermutationFacts(ids, |ids|);
    assert ids[..|ids|] == ids;
  }

  /**
   With both sampling factors zero the map is never allocated, yet a
   subsample below one shrinks the sample and the refresh writes through the
   missing map.
   */
  lemma SubsampleWithoutSampling(s: Sample, subsample: real, shuffled: seq<nat>)
    requires s.count == |s.ids| > 0 && IsPermutation(s.ids, |s.ids|) && 0.0 <= subsample < 1.0
    requires multiset(shuffled) == multiset(s.ids[..s.count])
    ensures SubsampleStep(s, subsample, shuffled).count < |s.ids|
    ensures IsPermutation(SubsampleStep(s, subsample, shuffled).ids, |s.ids|)
    ensures PresenceAsWritten(InitialPresence(false, |s.ids|),
                              SubsampleStep(s, subsample, shuffled).ids,
                              SubsampleStep(s, subsample, shuffled).count).Failure?
  {
  }

  // ----- The adapt factor -----

  /** `std::vector<bool> improvements((int) normalization_factor, true)` for a nonnegative factor. */
  function InitialRing(normalizationFactor: real): (r: seq<bool>)
    requires normalizationFactor >= 0.0
    ensures |r| == Trunc(normalizationFactor)
    ensures forall i :: 0 <= i < |r| ==> r[i]
  {
    seq(Trunc(normalizationFactor), i => true)
  }

  /** The ring of recent improvements and the adapt factor; the factor starts at one. */
  datatype Adapt = Adapt(ring: seq<bool>, factor: real)

  lemma {:induction false} CountTrueUpdate(s: seq<bool>, i: nat, b: bool)
    requires i < |s|
    ensures CountTrue(s[i := b]) + (if s[i] then 1 else 0) == CountTrue(s) + (if b then 1 else 0)
  {
    var n := |s| - 1;
    if i < n {
      CountTrueUpdate(s[..n], i, b);
      assert s[i := b][..n] == s[..n][i := b];
    } else {
      assert s[i := b][..n] == s[..n];
    }
  }

  lemma {:induction false} CountTrueAll(s: seq<bool>)
    ensures (forall i :: 0 <= i < |s| ==> s[i]) <==> CountTrue(s) == |s|
    ensures (forall i :: 0 <= i < |s| ==> !s[i]) <==> CountTrue(s) == 0
  {
    if |s| > 0 {
      var n := |s| - 1;
      CountTrueAll(s[..n]);
      CountTrueBound(s[..n]);
      assert forall i :: 0 <= i < n ==> s[..n][i] == s[i];
    }
  }

  lemma FractionBounds(c: nat, n: nat)
    requires 0 < n && c <= n
    ensures 0.0 <= c as real / n as real <= 1.0
    ensures c as real / n as real == 1.0 <==> c == n
    ensures c as real / n as real == 0.0 <==> c == 0
  {
    var q, size := c as real / n as real, n as real;
    assert q * size == c as real;
    ProductSign(q, size);
    ProductSign(q - 1.0, size);
    assert (q - 1.0) * size == c as real - size;
  }

  /** The share `c / n` of a nonempty ring, kept apart so that its bounds are proved once. */
  function Fraction(c: nat, n: nat): (r: real)
    requires 0 < n && c <= n
    ensures r * n as real == c as real
    ensures 0.0 <= r <= 1.0
    ensures r == 1.0 <==> c == n
    ensures r == 0.0 <==> c == 0
  {
    FractionBounds(c, n);
    c as real / n as real
  }

  /** `f` is the share of true entries in `ring`. */
  predicate FractionOf(f: real, ring: seq<bool>) {
    f * |ring| as real == CountTrue(ring) as real
  }

  lemma FractionOfRing(ring: seq<bool>)
    requires |ring| > 0
    ensures CountTrue(ring) <= |ring|
    ensures FractionOf(Fraction(CountTrue(ring), |ring|), ring)
  {
    CountTrueBound(ring);
  }

  /**
   One update of a nonempty ring: the outcome of iteration `m` goes to slot
   `m mod size`, every other slot is kept, and the factor is the fraction of
   improving entries, one exactly when all improved and zero when none did.
   */
  function AdaptStep(ring: seq<bool>, m: nat, improved: bool): (r: Adapt)
    requires |ring| > 0
    ensures |r.ring| == |ring| && r.ring[m % |ring|] == improved
    ensures forall i :: 0 <= i < |ring| && i != m % |ring| ==> r.ring[i] == ring[i]
    ensures FractionOf(r.factor, r.ring)
    ensures 0.0 <= r.factor <= 1.0
    ensures r.factor == 1.0 <==> forall i :: 0 <= i < |ring| ==> r.ring[i]
    ensures r.factor == 0.0 <==> forall i :: 0 <= i < |ring| ==> !r.ring[i]
  {
    var next := ring[m % |ring| := improved];
    CountTrueBound(next);
    CountTrueAll(next);
    FractionOfRing(next);
    Adapt(next, Fraction(CountTrue(next), |ring|))
  }

  /** Each step moves the count of improving entries by at most one. */
  lemma AdaptStepCount(ring: seq<bool>, m: nat, improved: bool)
    requires |ring| > 0
    ensures CountTrue(AdaptStep(ring, m, improved).ring) + (if ring[m % |ring|] then 1 else 0)
            == CountTrue(ring) + (if improved then 1 else 0)
  {
    CountTrueUpdate(ring, m % |ring|, improved);
  }

  /**
   The update as written: guarded by `normalization_factor > 0` rather than
   by the ring being nonempty, so a factor strictly between zero and one
   gives an empty ring and a remainder by zero.
   */
  function AdaptStepAsWritten(st: Adapt, adaptive: bool, normalizationFactor: real, m: nat, improved: bool): (r: Result<Adapt, Fault>)
    ensures r.Failure? <==> adaptive && normalizationFactor > 0.0 && |st.ring| == 0
    ensures r.Success? && adaptive && normalizationFactor > 0.0 ==> r.value == AdaptStep(st.ring, m, improved)
    ensures !(adaptive && normalizationFactor > 0.0) ==> r == Success(st)
  {
    if adaptive && normalizationFactor > 0.0 then
      if |st.ring| == 0 then Failure(ModuloByZero) else Success(AdaptStep(st.ring, m, improved))
    else Success(st)
  }

  /** The update guarded by the ring being nonempty. */
  function AdaptStepGuarded(st: Adapt, adaptive: bool, m: nat, improved: bool): (r: Adapt)
    ensures adaptive && |st.ring| > 0 ==> r == AdaptStep(st.ring, m, improved)
    ensures !(adaptive && |st.ring| > 0) ==> r == st
  {
    if adaptive && |st.ring| > 0 then AdaptStep(st.ring, m, improved) else st
  }

  /**
   A normalisation factor strictly between zero and one faults at the first
   adaptive update; the guarded update keeps the factor at one instead. From
   a factor of at least one the two agree.
   */
  lemma FractionalRingFaults(normalizationFactor: real, m: nat, improved: bool)
    requires 0.0 < normalizationFactor < 1.0
    ensures AdaptStepAsWritten(Adapt(InitialRing(normalizationFactor), 1.0), true, normalizationFactor, m, improved).Failure?
    ensures AdaptStepGuarded(Adapt(InitialRing(normalizationFactor), 1.0), true, m, improved).factor == 1.0
  {
  }

  lemma GuardedAgrees(st: Adapt, adaptive: bool, normalizationFactor: real, m: nat, improved: bool)
    requires normalizationFactor >= 1.0 && |st.ring| == Trunc(normalizationFactor)
    ensures AdaptStepAsWritten(st, adaptive, normalizationFactor, m, improved) == Success(AdaptStepGuarded(st, adaptive, m, improved))
  {
  }

  /** The initial factor of one is the fraction of the all-improving initial ring. */
  lemma InitialFactorIsFraction(normalizationFactor: real)
    requires normalizationFactor >= 1.0
    ensures |InitialRing(normalizationFactor)| > 0
    ensures 1.0 * |InitialRing(normalizationFactor)| as real == CountTrue(InitialRing(normalizationFactor)) as real
  {
    CountTrueAll(InitialRing(normalizationFactor));
  }
}
