/**
 Sorting of index sequences by a key, the `std::sort(idx.begin(), idx.end(), cmp)`
 idiom used by the pruning policies and by the per-query sampling.

 Keys are pairs ordered lexicographically: a group number first (smaller
 first), then a real value (smaller first). A comparator on one real value is
 the special case of a single group. `std::sort` leaves the order of equal keys
 unspecified; the model sorts stably, and every property stated here holds for
 any order that is sorted by the key.
 */
module IndexOrder {
  import opened Sequences

  datatype Rank = Rank(group: nat, value: real)

  predicate RankLe(a: Rank, b: Rank) {
    a.group < b.group || (a.group == b.group && a.value <= b.value)
  }

  predicate RankLt(a: Rank, b: Rank) {
    a.group < b.group || (a.group == b.group && a.value < b.value)
  }

  /** Every index of `s` has a key. */
  predicate Keyed(keys: seq<Rank>, s: seq<nat>) {
    forall i :: 0 <= i < |s| ==> s[i] < |keys|
  }

  /** `s` lists indices in nondecreasing key order. */
  predicate SortedBy(keys: seq<Rank>, s: seq<nat>)
    requires Keyed(keys, s)
  {
    forall i, j :: 0 <= i < j < |s| ==> RankLe(keys[s[i]], keys[s[j]])
  }

  /** Keys of a plain real-valued comparator (`a < b` on `values`). */
  function Ascending(values: seq<real>): (keys: seq<Rank>)
    ensures |keys| == |values|
    ensures forall i :: 0 <= i < |values| ==> keys[i] == Rank(0, values[i])
  {
    seq(|values|, i requires 0 <= i < |values| => Rank(0, values[i]))
  }

  /** Keys of the comparator `a > b` on `values`. */
  function Descending(values: seq<real>): (keys: seq<Rank>)
    ensures |keys| == |values|
    ensures forall i :: 0 <= i < |values| ==> keys[i] == Rank(0, -values[i])
  {
    seq(|values|, i requires 0 <= i < |values| => Rank(0, -values[i]))
  }

  /** The head of a sorted list is at most everything a later insertion produces. */
  lemma HeadBelowInserted(keys: seq<Rank>, s: seq<nat>, x: nat, rest: seq<nat>)
    requires x < |keys| && |s| > 0 && Keyed(keys, s) && SortedBy(keys, s)
    requires RankLe(keys[s[0]], keys[x])
    requires multiset(rest) == multiset(s[1..]) + multiset{x}
    ensures Keyed(keys, rest)
    ensures forall j :: 0 <= j < |rest| ==> RankLe(keys[s[0]], keys[rest[j]])
  {
    forall j | 0 <= j < |rest|
      ensures rest[j] < |keys| && RankLe(keys[s[0]], keys[rest[j]])
    {
      assert rest[j] in multiset(rest);
      if rest[j] != x {
        assert rest[j] in multiset(s[1..]);
        var k :| 0 <= k < |s[1..]| && s[1..][k] == rest[j];
        assert s[k + 1] == rest[j];
      }
    }
  }

  /** A head at most every entry of a sorted list keeps the list sorted. */
  lemma ConsSorted(keys: seq<Rank>, h: nat, rest: seq<nat>)
    requires h < |keys| && Keyed(keys, rest) && SortedBy(keys, rest)
    requires forall j :: 0 <= j < |rest| ==> RankLe(keys[h], keys[rest[j]])
    ensures Keyed(keys, [h] + rest) && SortedBy(keys, [h] + rest)
  {
    var r := [h] + rest;
    forall i, j | 0 <= i < j < |r|
      ensures RankLe(keys[r[i]], keys[r[j]])
    {
      assert r[j] == rest[j - 1];
      if i > 0 {
        assert r[i] == rest[i - 1];
      }
    }
  }

  function Insert(keys: seq<Rank>, x: nat, s: seq<nat>): (r: seq<nat>)
    requires x < |keys| && Keyed(keys, s) && SortedBy(keys, s)
    ensures |r| == |s| + 1
    ensures multiset(r) == multiset(s) + multiset{x}
    ensures Keyed(keys, r) && SortedBy(keys, r)
    decreases |s|
  {
    if |s| == 0 then [x]
    else if RankLe(keys[x], keys[s[0]]) then
      assert forall j :: 0 <= j < |s| ==> RankLe(keys[s[0]], keys[s[j]]);
      ConsSorted(keys, x, s);
      [x] + s
    else
      var rest := Insert(keys, x, s[1..]);
      assert s == [s[0]] + s[1..];
      HeadBelowInserted(keys, s, x, rest);
      ConsSorted(keys, s[0], rest);
      [s[0]] + rest
  }

  /** Insertion sort of the index sequence `s` by `keys`. */
  function SortIndices(keys: seq<Rank>, s: seq<nat>): (r: seq<nat>)
    requires Keyed(keys, s)
    ensures |r| == |s|
    ensures multiset(r) == multiset(s)
    ensures Keyed(keys, r) && SortedBy(keys, r)
  {
    if |s| == 0 then []
    else
      assert s == [s[0]] + s[1..];
      Insert(keys, s[0], SortIndices(keys, s[1..]))
  }

  /** The sort is stable: an already sorted sequence comes back unchanged. */
  lemma {:induction false} SortIndicesSorted(keys: seq<Rank>, s: seq<nat>)
    requires Keyed(keys, s) && SortedBy(keys, s)
    ensures SortIndices(keys, s) == s
  {
    if |s| > 0 {
      assert Keyed(keys, s[1..]) && SortedBy(keys, s[1..]);
      SortIndicesSorted(keys, s[1..]);
      assert s == [s[0]] + s[1..];
    }
  }

  /** `std::iota` followed by `std::sort` with the comparator behind `keys`. */
  function SortedRange(keys: seq<Rank>): (r: seq<nat>)
    ensures IsPermutation(r, |keys|)
    ensures |r| == |keys| && Distinct(r) && InBounds(r, |keys|)
    ensures Keyed(keys, r) && SortedBy(keys, r)
  {
    var r := SortIndices(keys, Range(0, |keys|));
    PermutationFacts(r, |keys|);
    r
  }

  /** The indices of the `k` smallest values (ties broken by index). */
  function SmallestK(values: seq<real>, k: nat): (r: set<nat>)
    requires k <= |values|
    ensures |r| == k
    ensures forall i :: i in r ==> i < |values|
    ensures forall i, j :: i in r && 0 <= j < |values| && j !in r ==> values[i] <= values[j]
  {
    var order := SortedRange(Ascending(values));
    PermutationFacts(order, |values|);
    DistinctCard(order[..k]);
    SortedPrefixBelow(values, order, k);
    Elems(order[..k])
  }

  /** In an ascending order of all indices, the first `k` have values at most those of the rest. */
  lemma SortedPrefixBelow(values: seq<real>, order: seq<nat>, k: nat)
    requires k <= |order| == |values| && InBounds(order, |values|)
    requires forall x :: 0 <= x < |values| ==> x in order
    requires Keyed(Ascending(values), order) && SortedBy(Ascending(values), order)
    ensures forall i, j :: i in Elems(order[..k]) && 0 <= j < |values| && j !in Elems(order[..k]) ==> values[i] <= values[j]
  {
    var keys := Ascending(values);
    forall i, j | i in Elems(order[..k]) && 0 <= j < |values| && j !in Elems(order[..k])
      ensures values[i] <= values[j]
    {
      assert i in order[..k];
      var a :| 0 <= a < k && order[..k][a] == i;
      assert j in order;
      var b :| 0 <= b < |order| && order[b] == j;
      assert forall c :: 0 <= c < k ==> order[c] == order[..k][c];
      assert b >= k;
      assert RankLe(keys[order[a]], keys[order[b]]);
    }
  }

  function LargestK(values: seq<real>, k: nat): (r: set<nat>)
    requires k <= |values|
    ensures |r| == k
    ensures forall i :: i in r ==> i < |values|
    ensures forall i, j :: i in r && 0 <= j < |values| && j !in r ==> values[i] >= values[j]
  {
    var negated := seq(|values|, i requires 0 <= i < |values| => -values[i]);
    var r := SmallestK(negated, k);
    assert forall i, j :: i in r && 0 <= j < |values| && j !in r ==> values[i] >= values[j] by {
      forall i, j | i in r && 0 <= j < |values| && j !in r
        ensures values[i] >= values[j]
      {
        assert negated[i] <= negated[j];
      }
    }
    r
  }
}
