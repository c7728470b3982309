/**
 The swap loops that compact the selected ids of a query towards the front
 of `sampleids`. Each loop is a sequence of exchanges, so the array always
 stays a permutation of what it was.
 */
module SwapMoves {
  import opened Sequences

  /**
   `for j < |idx|: swap(a[dst + j], a[s + idx[j]])`, the random-negative
   placement as the code writes it.
   */
  function ScatterSwaps(a: seq<nat>, dst: nat, s: nat, idx: seq<nat>): (r: seq<nat>)
    requires dst + |idx| <= |a|
    requires forall j :: 0 <= j < |idx| ==> s + idx[j] < |a|
    ensures |r| == |a|
  {
    if |idx| == 0 then a
    else
      var m := |idx| - 1;
      Swap(ScatterSwaps(a, dst, s, idx[..m]), dst + m, s + idx[m])
  }

  lemma {:induction false} ScatterPermutes(a: seq<nat>, dst: nat, s: nat, idx: seq<nat>)
    requires dst + |idx| <= |a|
    requires forall j :: 0 <= j < |idx| ==> s + idx[j] < |a|
    ensures multiset(ScatterSwaps(a, dst, s, idx)) == multiset(a)
  {
    if |idx| > 0 {
      var m := |idx| - 1;
      var front := idx[..m];
      assert forall j :: 0 <= j < |front| ==> front[j] == idx[j];
      ScatterPermutes(a, dst, s, front);
      var rest := ScatterSwaps(a, dst, s, front);
      SwapPermutes(rest, dst + m, s + idx[m]);
    }
  }

  /** Positions at or after `bound`, past every exchanged position, are untouched. */
  lemma {:induction false} ScatterOutside(a: seq<nat>, dst: nat, s: nat, idx: seq<nat>, bound: nat, p: nat)
    requires dst + |idx| <= bound && bound <= p < |a|
    requires forall j :: 0 <= j < |idx| ==> s + idx[j] < bound
    ensures ScatterSwaps(a, dst, s, idx)[p] == a[p]
  {
    if |idx| > 0 {
      ScatterOutside(a, dst, s, idx[..|idx| - 1], bound, p);
    }
  }

  /**
   `for j < len: swap(a[c + j], a[s + j])`, the block move of a query's
   leading ids to the cursor. The move is correct even when the two ranges
   overlap, as long as the destination does not lie after the source.
   */
  function BlockMove(a: seq<nat>, c: nat, s: nat, len: nat): (r: seq<nat>)
    requires c <= s && s + len <= |a|
    ensures |r| == |a|
  {
    ScatterSwaps(a, c, s, Range(0, len))
  }

  lemma BlockMovePermutes(a: seq<nat>, c: nat, s: nat, len: nat)
    requires c <= s && s + len <= |a|
    ensures multiset(BlockMove(a, c, s, len)) == multiset(a)
  {
    ScatterPermutes(a, c, s, Range(0, len));
  }

  lemma BlockMoveStep(a: seq<nat>, c: nat, s: nat, len: nat)
    requires c <= s && s + len <= |a| && len > 0
    ensures BlockMove(a, c, s, len) == Swap(BlockMove(a, c, s, len - 1), c + len - 1, s + len - 1)
  {
    assert Range(0, len)[..len - 1] == Range(0, len - 1);
  }

  /** The id at offset `k` of the source block ends up at offset `k` of the destination. */
  lemma {:induction false} BlockMoveAt(a: seq<nat>, c: nat, s: nat, len: nat, k: nat)
    requires c <= s && s + len <= |a| && k < len
    ensures BlockMove(a, c, s, len)[c + k] == a[s + k]
    decreases len
  {
    BlockMoveStep(a, c, s, len);
    BlockMoveOutside(a, c, s, len - 1, s + len - 1);
    if k < len - 1 {
      BlockMoveAt(a, c, s, len - 1, k);
    }
  }

  /** Positions before the destination and from the end of the source on are untouched. */
  lemma {:induction false} BlockMoveOutside(a: seq<nat>, c: nat, s: nat, len: nat, p: nat)
    requires c <= s && s + len <= |a| && p < |a| && (p < c || p >= s + len)
    ensures BlockMove(a, c, s, len)[p] == a[p]
    decreases len
  {
    if len > 0 {
      BlockMoveStep(a, c, s, len);
      BlockMoveOutside(a, c, s, len - 1, p);
    }
  }

  lemma BlockMoveFacts(a: seq<nat>, c: nat, s: nat, len: nat)
    requires c <= s && s + len <= |a|
    ensures forall p :: c <= p < c + len ==> BlockMove(a, c, s, len)[p] == a[s + (p - c)]
    ensures forall p :: 0 <= p < |a| && (p < c || p >= s + len) ==> BlockMove(a, c, s, len)[p] == a[p]
  {
    forall p | c <= p < c + len
      ensures BlockMove(a, c, s, len)[p] == a[s + (p - c)]
    {
      BlockMoveAt(a, c, s, len, p - c);
    }
    forall p | 0 <= p < |a| && (p < c || p >= s + len)
      ensures BlockMove(a, c, s, len)[p] == a[p]
    {
      BlockMoveOutside(a, c, s, len, p);
    }
  }

  predicate StrictlyIncreasing(s: seq<nat>) {
    forall i, j :: 0 <= i < j < |s| ==> s[i] < s[j]
  }

  lemma {:induction false} IncreasingLowerBound(s: seq<nat>, base: nat)
    requires StrictlyIncreasing(s)
    requires forall j :: 0 <= j < |s| ==> s[j] >= base
    ensures forall j :: 0 <= j < |s| ==> s[j] >= base + j
  {
    if |s| > 0 {
      var m := |s| - 1;
      IncreasingLowerBound(s[..m], base);
      assert forall j :: 0 <= j < m ==> s[..m][j] == s[j];
      if m > 0 {
        assert s[m - 1] < s[m];
      }
    }
  }

  /**
   `for j < |chosen|: swap(a[s + base + j], a[s + chosen[j]])` with the
   chosen offsets in increasing order: gathers the chosen ids, in order,
   right after `s + base`, inside the block `[s, e)`.
   */
  function GatherSwaps(a: seq<nat>, s: nat, base: nat, chosen: seq<nat>): (r: seq<nat>)
    requires s + base + |chosen| <= |a|
    requires forall j :: 0 <= j < |chosen| ==> s + chosen[j] < |a|
    ensures |r| == |a|
  {
    ScatterSwaps(a, s + base, s, chosen)
  }

  lemma GatherPermutes(a: seq<nat>, s: nat, base: nat, chosen: seq<nat>)
    requires s + base + |chosen| <= |a|
    requires forall j :: 0 <= j < |chosen| ==> s + chosen[j] < |a|
    ensures multiset(GatherSwaps(a, s, base, chosen)) == multiset(a)
  {
    ScatterPermutes(a, s + base, s, chosen);
  }

  /** Gathering and then moving the gathered block only reorders. */
  lemma GatherThenMovePermutes(a: seq<nat>, c: nat, s: nat, base: nat, chosen: seq<nat>)
    requires c <= s && s + base + |chosen| <= |a|
    requires forall j :: 0 <= j < |chosen| ==> s + chosen[j] < |a|
    ensures multiset(BlockMove(GatherSwaps(a, s, base, chosen), c, s, base + |chosen|)) == multiset(a)
  {
    GatherPermutes(a, s, base, chosen);
    BlockMovePermutes(GatherSwaps(a, s, base, chosen), c, s, base + |chosen|);
  }

  /** What a well-formed gather is given: increasing offsets of the block `[s + base, e)`. */
  predicate GatherArgs(a: seq<nat>, s: nat, base: nat, e: nat, chosen: seq<nat>) {
    s + base + |chosen| <= e <= |a|
    && StrictlyIncreasing(chosen)
    && forall j :: 0 <= j < |chosen| ==> base <= chosen[j] && s + chosen[j] < e
  }

  lemma GatherArgsPrefix(a: seq<nat>, s: nat, base: nat, e: nat, chosen: seq<nat>)
    requires GatherArgs(a, s, base, e, chosen) && |chosen| > 0
    ensures GatherArgs(a, s, base, e, chosen[..|chosen| - 1])
    ensures chosen[|chosen| - 1] >= base + (|chosen| - 1)
    ensures chosen[|chosen| - 1] !in chosen[..|chosen| - 1]
    ensures forall j :: 0 <= j < |chosen| - 1 ==> chosen[j] < chosen[|chosen| - 1]
  {
    IncreasingLowerBound(chosen, base);
  }

  /** An offset at or after the gathered range that was not chosen keeps its id. */
  lemma {:induction false} GatherUntouched(a: seq<nat>, s: nat, base: nat, e: nat, chosen: seq<nat>, k: nat)
    requires GatherArgs(a, s, base, e, chosen)
    requires base + |chosen| <= k && s + k < |a| && k !in chosen
    ensures GatherSwaps(a, s, base, chosen)[s + k] == a[s + k]
  {
    if |chosen| > 0 {
      var m := |chosen| - 1;
      GatherArgsPrefix(a, s, base, e, chosen);
      GatherUntouched(a, s, base, e, chosen[..m], k);
    }
  }

  /** The `j`-th chosen id lands at offset `base + j`. */
  lemma {:induction false} GatherAt(a: seq<nat>, s: nat, base: nat, e: nat, chosen: seq<nat>, j: nat)
    requires GatherArgs(a, s, base, e, chosen) && j < |chosen|
    ensures GatherSwaps(a, s, base, chosen)[s + base + j] == a[s + chosen[j]]
  {
    var m := |chosen| - 1;
    GatherArgsPrefix(a, s, base, e, chosen);
    var front := chosen[..m];
    if j == m {
      GatherUntouched(a, s, base, e, front, chosen[m]);
    } else {
      GatherAt(a, s, base, e, front, j);
      assert front[j] == chosen[j];
    }
  }

  /** Nothing before `s + base` or from `e` on moves. */
  lemma {:induction false} GatherOutside(a: seq<nat>, s: nat, base: nat, e: nat, chosen: seq<nat>, p: nat)
    requires GatherArgs(a, s, base, e, chosen)
    requires p < |a| && (p < s + base || p >= e)
    ensures GatherSwaps(a, s, base, chosen)[p] == a[p]
  {
    if |chosen| > 0 {
      var m := |chosen| - 1;
      GatherArgsPrefix(a, s, base, e, chosen);
      GatherOutside(a, s, base, e, chosen[..m], p);
    }
  }

  lemma GatherFacts(a: seq<nat>, s: nat, base: nat, e: nat, chosen: seq<nat>)
    requires GatherArgs(a, s, base, e, chosen)
    ensures forall j :: 0 <= j < |chosen| ==> GatherSwaps(a, s, base, chosen)[s + base + j] == a[s + chosen[j]]
    ensures forall p :: 0 <= p < |a| && (p < s + base || p >= e) ==> GatherSwaps(a, s, base, chosen)[p] == a[p]
  {
    forall j | 0 <= j < |chosen|
      ensures GatherSwaps(a, s, base, chosen)[s + base + j] == a[s + chosen[j]]
    {
      GatherAt(a, s, base, e, chosen, j);
    }
    forall p | 0 <= p < |a| && (p < s + base || p >= e)
      ensures GatherSwaps(a, s, base, chosen)[p] == a[p]
    {
      GatherOutside(a, s, base, e, chosen, p);
    }
  }
}
