/**
 Index sequences, permutations and the real-valued sums shared by the
 pruning, dropout and sampling models.
 */
module Sequences {

  /** The indices `lo, lo+1, ..., hi-1`, the result of `std::iota`. */
  function Range(lo: nat, hi: nat): (r: seq<nat>)
    requires lo <= hi
    ensures |r| == hi - lo
    ensures forall i :: 0 <= i < |r| ==> r[i] == lo + i
  {
    seq(hi - lo, i requires 0 <= i < hi - lo => (lo + i) as nat)
  }

  predicate Distinct(s: seq<nat>) {
    forall i, j :: 0 <= i < j < |s| ==> s[i] != s[j]
  }

  predicate InBounds(s: seq<nat>, n: nat) {
    forall i :: 0 <= i < |s| ==> s[i] < n
  }

  /** The set of elements of a sequence. */
  function Elems(s: seq<nat>): set<nat> {
    set x | x in s
  }

  /** The last entry of a duplicate-free sequence is new to the rest. */
  lemma ElemsSnoc(s: seq<nat>)
    requires |s| > 0 && Distinct(s)
    ensures Elems(s) == Elems(s[..|s| - 1]) + {s[|s| - 1]}
    ensures s[|s| - 1] !in Elems(s[..|s| - 1])
  {
    var n := |s| - 1;
    assert s == s[..n] + [s[n]];
    forall j | 0 <= j < n
      ensures s[..n][j] != s[n]
    {
      assert s[..n][j] == s[j];
    }
  }

  /** `p` holds every index below `n` exactly once. */
  predicate IsPermutation(p: seq<nat>, n: nat) {
    multiset(p) == multiset(Range(0, n))
  }

  lemma {:induction false} DistinctCard(s: seq<nat>)
    requires Distinct(s)
    ensures |Elems(s)| == |s|
  {
    if |s| > 0 {
      var t := s[1..];
      assert Distinct(t);
      DistinctCard(t);
      assert Elems(s) == {s[0]} + Elems(t) by {
        assert s == [s[0]] + t;
      }
      assert s[0] !in Elems(t) by {
        forall j | 0 <= j < |t|
          ensures t[j] != s[0]
        {
          assert t[j] == s[j + 1];
        }
      }
    }
  }

  lemma {:induction false} DistinctCountAtMostOne(s: seq<nat>, x: nat)
    requires Distinct(s)
    ensures multiset(s)[x] <= 1
  {
    if |s| > 0 {
      var t := s[1..];
      assert s == [s[0]] + t;
      assert Distinct(t);
      DistinctCountAtMostOne(t, x);
      if s[0] == x {
        assert x !in t by {
          forall j | 0 <= j < |t|
            ensures t[j] != x
          {
            assert t[j] == s[j + 1];
          }
        }
        assert multiset(t)[x] == 0;
      }
    }
  }

  /** A sequence with the same elements as a duplicate-free one is duplicate-free. */
  lemma DistinctByMultiset(a: seq<nat>, b: seq<nat>)
    requires multiset(a) == multiset(b)
    requires Distinct(b)
    ensures Distinct(a)
  {
    forall i, j | 0 <= i < j < |a|
      ensures a[i] != a[j]
    {
      if a[i] == a[j] {
        var x := a[i];
        assert a == a[..j] + a[j..];
        assert x in multiset(a[..j]) by { assert a[..j][i] == x; }
        assert x in multiset(a[j..]) by { assert a[j..][0] == x; }
        assert multiset(a)[x] == multiset(a[..j])[x] + multiset(a[j..])[x];
        DistinctCountAtMostOne(b, x);
        assert false;
      }
    }
  }

  lemma RangeDistinct(lo: nat, hi: nat)
    requires lo <= hi
    ensures Distinct(Range(lo, hi))
  {
  }

  /** What a permutation of `0..n-1` is, element by element. */
  lemma PermutationFacts(p: seq<nat>, n: nat)
    requires IsPermutation(p, n)
    ensures |p| == n
    ensures Distinct(p)
    ensures InBounds(p, n)
    ensures forall x :: 0 <= x < n ==> x in p
  {
    calc {
      |p|;
      |multiset(p)|;
      |multiset(Range(0, n))|;
      |Range(0, n)|;
    }
    RangeDistinct(0, n);
    DistinctByMultiset(p, Range(0, n));
    forall i | 0 <= i < |p|
      ensures p[i] < n
    {
      assert p[i] in multiset(p);
      assert p[i] in Range(0, n);
    }
    forall x | 0 <= x < n
      ensures x in p
    {
      assert Range(0, n)[x] == x;
      assert x in multiset(Range(0, n));
    }
  }

  /** A reordering of `lo..hi-1` has `hi - lo` entries. */
  lemma BlockLength(p: seq<nat>, lo: nat, hi: nat)
    requires lo <= hi && multiset(p) == multiset(Range(lo, hi))
    ensures |p| == hi - lo
  {
    calc {
      |p|;
      |multiset(p)|;
      |multiset(Range(lo, hi))|;
      |Range(lo, hi)|;
    }
  }

  /** What a reordering of `lo..hi-1` is, element by element. */
  lemma BlockPermutationFacts(p: seq<nat>, lo: nat, hi: nat)
    requires lo <= hi && multiset(p) == multiset(Range(lo, hi))
    ensures |p| == hi - lo
    ensures Distinct(p)
    ensures forall i :: 0 <= i < |p| ==> lo <= p[i] < hi
    ensures forall x :: lo <= x < hi ==> x in p
  {
    BlockLength(p, lo, hi);
    RangeDistinct(lo, hi);
    DistinctByMultiset(p, Range(lo, hi));
    forall i | 0 <= i < |p|
      ensures lo <= p[i] < hi
    {
      assert p[i] in multiset(p);
      assert p[i] in Range(lo, hi);
    }
    forall x | lo <= x < hi
      ensures x in p
    {
      assert Range(lo, hi)[x - lo] == x;
      assert x in multiset(Range(lo, hi));
    }
  }

  /** Exchange of two positions, `std::swap(s[i], s[j])`. */
  function Swap(s: seq<nat>, i: nat, j: nat): (r: seq<nat>)
    requires i < |s| && j < |s|
    ensures |r| == |s|
  {
    s[i := s[j]][j := s[i]]
  }

  /** An exchange only reorders the elements. */
  lemma SwapPermutes(s: seq<nat>, i: nat, j: nat)
    requires i < |s| && j < |s|
    ensures multiset(Swap(s, i, j)) == multiset(s)
  {
  }

  /** The elements of `xs` whose mask entry is set, in order. */
  function Keep<T>(xs: seq<T>, mask: seq<bool>): seq<T>
    requires |xs| == |mask|
  {
    if |xs| == 0 then []
    else Keep(xs[..|xs| - 1], mask[..|mask| - 1])
         + (if mask[|mask| - 1] then [xs[|xs| - 1]] else [])
  }

  function CountTrue(s: seq<bool>): nat {
    if |s| == 0 then 0
    else CountTrue(s[..|s| - 1]) + (if s[|s| - 1] then 1 else 0)
  }

  lemma {:induction false} CountTrueBound(s: seq<bool>)
    ensures CountTrue(s) <= |s|
  {
    if |s| > 0 {
      CountTrueBound(s[..|s| - 1]);
    }
  }

  lemma {:induction false} CountTrueAppend(a: seq<bool>, b: seq<bool>)
    ensures CountTrue(a + b) == CountTrue(a) + CountTrue(b)
  {
    if |b| > 0 {
      assert (a + b)[..|a + b| - 1] == a + b[..|b| - 1];
      CountTrueAppend(a, b[..|b| - 1]);
    } else {
      assert a + b == a;
    }
  }

  lemma {:induction false} KeepLength<T>(xs: seq<T>, mask: seq<bool>)
    requires |xs| == |mask|
    ensures |Keep(xs, mask)| == CountTrue(mask)
  {
    if |xs| > 0 {
      KeepLength(xs[..|xs| - 1], mask[..|mask| - 1]);
    }
  }

  function SumNat(s: seq<nat>): nat {
    if |s| == 0 then 0 else SumNat(s[..|s| - 1]) + s[|s| - 1]
  }

  /** `sum_k w[k] * d[k]`, accumulated left to right. */
  function Dot(w: seq<real>, d: seq<real>): real
    requires |w| == |d|
  {
    if |w| == 0 then 0.0
    else Dot(w[..|w| - 1], d[..|d| - 1]) + w[|w| - 1] * d[|d| - 1]
  }

  /** Appending one pair adds its product. */
  lemma DotSnoc(a: seq<real>, b: seq<real>, u: real, v: real)
    requires |a| == |b|
    ensures Dot(a + [u], b + [v]) == Dot(a, b) + u * v
  {
    assert (a + [u])[..|a|] == a;
    assert (b + [v])[..|b|] == b;
  }

  /** The weights with every index of `zeroed` set to zero. */
  function ZeroAt(w: seq<real>, zeroed: set<nat>): (r: seq<real>)
    ensures |r| == |w|
  {
    seq(|w|, i requires 0 <= i < |w| => if i in zeroed then 0.0 else w[i])
  }

  /** `sum_k w[k] * d[k]` over the indices `k` in `s`, accumulated left to right. */
  function MaskedDot(w: seq<real>, d: seq<real>, s: set<nat>): real
    requires |w| == |d|
  {
    if |w| == 0 then 0.0
    else
      MaskedDot(w[..|w| - 1], d[..|d| - 1], s)
      + (if |w| - 1 in s then w[|w| - 1] * d[|d| - 1] else 0.0)
  }

  /** Zeroing a set of weights removes exactly their terms from the weighted sum. */
  lemma {:induction false} DotZeroAt(w: seq<real>, d: seq<real>, s: set<nat>)
    requires |w| == |d|
    ensures Dot(ZeroAt(w, s), d) == Dot(w, d) - MaskedDot(w, d, s)
  {
    if |w| > 0 {
      var n := |w| - 1;
      DotZeroAt(w[..n], d[..n], s);
      assert ZeroAt(w, s)[..n] == ZeroAt(w[..n], s);
    }
  }

  lemma {:induction false} MaskedDotInsert(w: seq<real>, d: seq<real>, s: set<nat>, k: nat)
    requires |w| == |d| && k < |w| && k !in s
    ensures MaskedDot(w, d, s + {k}) == MaskedDot(w, d, s) + w[k] * d[k]
  {
    var n := |w| - 1;
    if k < n {
      MaskedDotInsert(w[..n], d[..n], s, k);
    } else {
      MaskedDotOutside(w[..n], d[..n], s, k);
    }
  }

  /** An index beyond the sequence does not change the masked sum. */
  lemma {:induction false} MaskedDotOutside(w: seq<real>, d: seq<real>, s: set<nat>, k: nat)
    requires |w| == |d| && k >= |w|
    ensures MaskedDot(w, d, s + {k}) == MaskedDot(w, d, s)
  {
    if |w| > 0 {
      MaskedDotOutside(w[..|w| - 1], d[..|d| - 1], s, k);
    }
  }

  /** Changing one weight changes the weighted sum by exactly that term. */
  lemma {:induction false} DotUpdate(w: seq<real>, d: seq<real>, f: nat, v: real)
    requires |w| == |d| && f < |w|
    ensures Dot(w[f := v], d) == Dot(w, d) + (v - w[f]) * d[f]
  {
    var n := |w| - 1;
    var w' := w[f := v];
    if f == n {
      assert w'[..n] == w[..n];
    } else {
      assert w'[..n] == w[..n][f := v];
      DotUpdate(w[..n], d[..n], f, v);
    }
  }
}
