/**
 Two shapes of input on which the placement loop as written leaves at the
 front of `sampleids` something other than the selected documents, while the
 whole-selection placement (`Run`) leaves exactly the selections there.
 */
module SamplingCounterexamples {
  import opened Sequences
  import opened SwapMoves
  import opened SelectiveSampling

  /** An exchange seen from one position. */
  lemma SwapAt(a: seq<nat>, i: nat, j: nat, k: nat)
    requires i < |a| && j < |a| && k < |a|
    ensures k == j ==> Swap(a, i, j)[k] == a[i]
    ensures k == i && k != j ==> Swap(a, i, j)[k] == a[j]
    ensures k != i && k != j ==> Swap(a, i, j)[k] == a[k]
  {
  }

  /** A position before every destination and every source is untouched. */
  lemma {:induction false} ScatterBelow(a: seq<nat>, dst: nat, s: nat, idx: seq<nat>, k: nat)
    requires dst + |idx| <= |a|
    requires forall j :: 0 <= j < |idx| ==> s + idx[j] < |a|
    requires k < dst && k < s
    ensures ScatterSwaps(a, dst, s, idx)[k] == a[k]
  {
    if |idx| > 0 {
      var m := |idx| - 1;
      ScatterBelow(a, dst, s, idx[..m], k);
      SwapAt(ScatterSwaps(a, dst, s, idx[..m]), dst + m, s + idx[m], k);
    }
  }

  /** With the cursor at zero and nothing drawn, the written placement only writes the sorted query back. */
  lemma NoDrawAtZero(ids: seq<nat>, s: nat, e: nat, p: Plan)
    requires s <= e <= |ids| && |p.order| == e - s && Shaped(p) && p.picks == []
    ensures PlaceAsWritten(ids, 0, s, e, p) == ids[..s] + p.order + ids[e..]
  {
  }

  /** The first entry of a query's selection is the first entry of its sorted block. */
  lemma SelectionStart(d: Queries, plans: seq<Plan>, q: nat)
    requires Valid(d) && Fits(d, plans) && q < |plans| && Base(plans[q]) > 0
    ensures |Selection(plans[q])| > 0
    ensures Selection(plans[q])[0] == plans[q].order[0]
    ensures d.offsets[q] <= plans[q].order[0] < d.offsets[q + 1]
  {
    BlockPermutationFacts(plans[q].order, d.offsets[q], d.offsets[q + 1]);
  }

  /**
   When the first query (of at least one document) selects nothing, the
   cursor is still zero at the second query, and the written loop skips the
   move of the second query's kept documents. Its selection is then not at
   the front: the front starts with a document of the first query, while
   the selection starts with one of the second.
   */
  lemma CursorZeroSkipsMove(d: Queries, plans: seq<Plan>)
    requires Valid(d) && Fits(d, plans) && 2 <= |plans|
    requires Base(plans[0]) == 0 && |plans[0].chosen| == 0 && d.offsets[1] > 0
    requires Base(plans[1]) > 0
    ensures RunAsWritten(d, plans, 2).cursor > 0
    ensures RunAsWritten(d, plans, 2).ids[0] < d.offsets[1]
    ensures |Selected(plans, 2)| > 0 && Selected(plans, 2)[0] >= d.offsets[1]
    ensures RunAsWritten(d, plans, 2).ids[..RunAsWritten(d, plans, 2).cursor] != Selected(plans, 2)
    ensures Run(d, plans, 2).ids[..Run(d, plans, 2).cursor] == Selected(plans, 2)
  {
    var n := |d.labels|;
    var p0, p1 := plans[0], plans[1];
    var s1, e1 := d.offsets[1], d.offsets[2];
    var st0 := RunAsWritten(d, plans, 0);
    var st1 := RunAsWritten(d, plans, 1);
    var st2 := RunAsWritten(d, plans, 2);
    assert st1 == AdvanceAsWritten(d, plans, 0, st0);
    assert st2 == AdvanceAsWritten(d, plans, 1, st1);
    assert st0 == Pass(Range(0, n), 0);
    // The first query: nothing moves, the sorted block is written back.
    BlockPermutationFacts(p0.order, 0, s1);
    NoDrawAtZero(st0.ids, 0, s1, p0);
    assert st1.cursor == 0;
    WriteBack(st0.ids, 0, s1, p0.order, 0);
    assert st1.ids[0] == p0.order[0] < s1;
    // The second query: the cursor is zero, so only the random swaps act, all after position 0.
    BlockPermutationFacts(p1.order, s1, e1);
    var a := st1.ids[..s1] + p1.order + st1.ids[e1..];
    assert st2.ids == MoveThenScatter(a, 0, s1, Base(p1), p1.picks);
    assert MoveIfCursor(a, 0, s1, Base(p1)) == a;
    ScatterBelow(a, Base(p1), s1, p1.picks, 0);
    WriteBack(st1.ids, s1, e1, p1.order, 0);
    assert st2.ids[0] == st1.ids[0];
    // The selections: nothing from the first query, then the second query's.
    assert Selection(p0) == [];
    assert Selected(plans, 1) == [];
    SelectionStart(d, plans, 1);
    assert Selected(plans, 2) == Selection(p1);
    assert st2.ids[..st2.cursor][0] != Selected(plans, 2)[0];
  }

  /** Two swaps in a row, seen from the first destination. */
  lemma TwoSwapsAt(a: seq<nat>, x: nat, y: nat)
    requires x + 1 < |a| && x + 1 < y < |a|
    ensures |Swap(a, x, y)| == |a|
    ensures Swap(Swap(a, x, y), x + 1, x)[x] == a[x + 1]
  {
    SwapAt(a, x, y, x + 1);
    SwapAt(Swap(a, x, y), x + 1, x, x);
  }

  /** Two drawn offsets in decreasing order are chosen in increasing order. */
  lemma TwoChosen(p: Plan)
    requires Shaped(p) && |p.picks| == 2 && p.picks[1] < p.picks[0]
    ensures p.chosen == [p.picks[1], p.picks[0]]
  {
    var c0, c1 := p.chosen[0], p.chosen[1];
    assert p.chosen == [c0, c1];
    assert p.picks == [p.picks[0], p.picks[1]];
    assert multiset(p.chosen) == multiset{c0, c1};
    assert multiset(p.picks) == multiset{p.picks[0], p.picks[1]};
    assert c0 in multiset(p.picks) && c1 in multiset(p.picks);
    assert c0 < c1;
  }

  /** The offsets `base + k` (with `k > 1`) and then `base`, as drawn. */
  predicate DrawnDownward(p: Plan) {
    |p.picks| == 2 && p.picks[1] == Base(p) && p.picks[0] > Base(p) + 1
  }

  /** At the query start, the second swap takes the id the first one left at `base + 1`. */
  lemma DrawnDownwardPlaced(ids: seq<nat>, e: nat, p: Plan)
    requires e <= |ids| && |p.order| == e && Shaped(p) && DrawnDownward(p)
    ensures PlaceAsWritten(ids, 0, 0, e, p)[Base(p)] == p.order[Base(p) + 1]
  {
    var b := Base(p);
    var a := ids[..0] + p.order + ids[e..];
    assert PlaceAsWritten(ids, 0, 0, e, p) == ScatterSwaps(MoveIfCursor(a, 0, 0, b), b, 0, p.picks);
    assert MoveIfCursor(a, 0, 0, b) == a;
    var x, y := b, p.picks[0];
    assert p.picks[..1][..0] == [];
    assert ScatterSwaps(a, b, 0, p.picks[..1]) == Swap(a, x, y);
    assert ScatterSwaps(a, b, 0, p.picks) == Swap(Swap(a, x, y), x + 1, x);
    TwoSwapsAt(a, x, y);
    WriteBack(ids, 0, e, p.order, x + 1);
  }

  /** The undrawn id at `base + 1` is not in the selection. */
  lemma DrawnDownwardSelection(p: Plan)
    requires Shaped(p) && DrawnDownward(p) && Distinct(p.order)
    ensures p.order[Base(p) + 1] !in Selection(p)
  {
    var b := Base(p);
    TwoChosen(p);
    var sel := Selection(p);
    assert |sel| == b + 2;
    forall i | 0 <= i < |sel|
      ensures sel[i] != p.order[b + 1]
    {
      if i < b {
        assert sel[i] == p.order[i];
      } else {
        assert sel[i] == p.order[p.chosen[i - b]];
      }
    }
  }

  /**
   When the first two random offsets of a query (here the first query, so
   the cursor is at its start) are drawn as `base + k` with `k > 1` and then
   `base`, the second swap takes the id the first swap left at `base + 1`:
   the front then holds the undrawn document at offset `base + 1` of the
   sorted query, which is not part of the selection.
   */
  lemma DrawOrderOverwrites(d: Queries, plans: seq<Plan>)
    requires Valid(d) && Fits(d, plans) && 1 <= |plans| && DrawnDownward(plans[0])
    ensures RunAsWritten(d, plans, 1).cursor == Base(plans[0]) + 2
    ensures RunAsWritten(d, plans, 1).ids[Base(plans[0])] == plans[0].order[Base(plans[0]) + 1]
    ensures plans[0].order[Base(plans[0]) + 1] !in Selected(plans, 1)
    ensures RunAsWritten(d, plans, 1).ids[..RunAsWritten(d, plans, 1).cursor] != Selected(plans, 1)
    ensures Run(d, plans, 1).ids[..Run(d, plans, 1).cursor] == Selected(plans, 1)
  {
    var p := plans[0];
    var b, e := Base(p), d.offsets[1];
    var st0 := RunAsWritten(d, plans, 0);
    var st1 := RunAsWritten(d, plans, 1);
    assert st1 == AdvanceAsWritten(d, plans, 0, st0);
    BlockPermutationFacts(p.order, 0, e);
    DrawnDownwardPlaced(st0.ids, e, p);
    DrawnDownwardSelection(p);
    assert Selected(plans, 1) == Selection(p);
    assert st1.ids[..st1.cursor][b] == p.order[b + 1];
  }
}
