/** The in-place quicksort of the placement pass. */
module Quicksort {
  /** `b` is `a` with the elements from `lo` up to `hi` in another order. */
  ghost predicate Permuted(a: seq<nat>, b: seq<nat>, lo: nat, hi: nat) {
    && lo <= hi <= |a| == |b|
    && a[..lo] == b[..lo] && a[hi..] == b[hi..]
    && multiset(a[lo..hi]) == multiset(b[lo..hi])
  }

  ghost predicate Sorted(a: seq<nat>, lo: nat, hi: nat) {
    forall i, j | lo <= i < j < hi && j < |a| :: a[i] <= a[j]
  }

  lemma {:induction false} PermutedTrans(a: seq<nat>, b: seq<nat>, c: seq<nat>, lo: nat, hi: nat)
    requires Permuted(a, b, lo, hi) && Permuted(b, c, lo, hi)
    ensures Permuted(a, c, lo, hi)
  {
  }

  /** A permutation of a part permutes the whole. */
  lemma {:induction false} PermutedWider(a: seq<nat>, b: seq<nat>, lo: nat, hi: nat, low: nat, high: nat)
    requires Permuted(a, b, lo, hi) && low <= lo && hi <= high <= |a|
    ensures Permuted(a, b, low, high)
  {
    assert forall k | 0 <= k < lo :: a[k] == a[..lo][k] && b[k] == b[..lo][k];
    assert forall k | hi <= k < |a| :: a[k] == a[hi..][k - hi] && b[k] == b[hi..][k - hi];
    assert a[low..high] == a[low..lo] + a[lo..hi] + a[hi..high];
    assert b[low..high] == b[low..lo] + b[lo..hi] + b[hi..high];
    assert a[low..lo] == b[low..lo] && a[hi..high] == b[hi..high];
  }

  lemma {:induction false} SwapPermutes(a: seq<nat>, i: nat, j: nat, lo: nat, hi: nat)
    requires lo <= i < hi && lo <= j < hi && hi <= |a|
    ensures Permuted(a, a[i := a[j]][j := a[i]], lo, hi)
  {
    var b := a[i := a[j]][j := a[i]];
    var part := a[lo..hi];
    assert b[lo..hi] == part[i - lo := part[j - lo]][j - lo := part[i - lo]];
    SwapKeepsCount(part, i - lo, j - lo);
  }

  lemma {:induction false} SwapKeepsCount(s: seq<nat>, i: nat, j: nat)
    requires i < |s| && j < |s|
    ensures multiset(s[i := s[j]][j := s[i]]) == multiset(s)
  {
    var t := s[i := s[j]];
    assert multiset(t) == multiset(s) - multiset{s[i]} + multiset{s[j]};
    assert multiset(t[j := s[i]]) == multiset(t) - multiset{t[j]} + multiset{s[i]};
  }

  /** Elements of the permuted part are elements of it as it was. */
  lemma {:induction false} PermutedFrom(a: seq<nat>, b: seq<nat>, lo: nat, hi: nat, k: nat)
    requires Permuted(a, b, lo, hi) && lo <= k < hi
    ensures exists i :: lo <= i < hi && a[i] == b[k]
  {
    assert b[k] == b[lo..hi][k - lo];
    assert b[k] in multiset(b[lo..hi]);
    assert b[k] in a[lo..hi];
    var i :| 0 <= i < |a[lo..hi]| && a[lo..hi][i] == b[k];
    assert a[lo + i] == b[k];
  }

  method Swap(v: array<nat>, i: nat, j: nat, ghost lo: nat, ghost hi: nat)
    requires lo <= i < hi && lo <= j < hi && hi <= v.Length
    modifies v
    ensures v[i] == old(v[j]) && v[j] == old(v[i])
    ensures forall k | 0 <= k < v.Length && k != i && k != j :: v[k] == old(v[k])
    ensures Permuted(old(v[..]), v[..], lo, hi)
  {
    hide Permuted;
    SwapPermutes(v[..], i, j, lo, hi);
    v[i], v[j] := v[j], v[i];
    assert v[..] == old(v[..])[i := old(v[j])][j := old(v[i])];
  }

  /** A swap in a part that is permuted already. */
  method SwapWithin(v: array<nat>, i: nat, j: nat, ghost lo: nat, ghost hi: nat, ghost before: seq<nat>)
    requires lo <= i < hi && lo <= j < hi && hi <= v.Length && Permuted(before, v[..], lo, hi)
    modifies v
    ensures v[i] == old(v[j]) && v[j] == old(v[i])
    ensures forall k | 0 <= k < v.Length && k != i && k != j :: v[k] == old(v[k])
    ensures Permuted(before, v[..], lo, hi)
  {
    hide Permuted;
    ghost var now := v[..];
    Swap(v, i, j, lo, hi);
    PermutedTrans(before, now, v[..], lo, hi);
  }

  /** The last element becomes the pivot. */
  method Partition(v: array<nat>, start: nat, end: nat) returns (j: nat)
    requires start <= end < v.Length
    modifies v
    ensures start <= j <= end && Permuted(old(v[..]), v[..], start, end + 1)
    ensures forall k | start <= k < j :: v[k] < v[j]
    ensures forall k | j < k <= end :: v[j] <= v[k]
  {
    hide Permuted;
    ghost var before := v[..];
    ItselfPermuted(before, start, end + 1);
    var pivot := end;
    ghost var x := v[end];
    j := start;
    var i := start;
    while i < end
      invariant start <= j <= i <= end && v[pivot] == x
      invariant Permuted(before, v[..], start, end + 1)
      invariant forall k | start <= k < j :: v[k] < x
      invariant forall k | j <= k < i :: x <= v[k]
    {
      if v[i] < v[pivot] {
        SwapWithin(v, i, j, start, end + 1, before);
        j := j + 1;
      }
      i := i + 1;
    }
    SwapWithin(v, j, pivot, start, end + 1, before);
  }

  lemma {:induction false} ItselfPermuted(a: seq<nat>, lo: nat, hi: nat)
    requires lo <= hi <= |a|
    ensures Permuted(a, a, lo, hi)
  {
  }

  /** Sorts from `start` to `end`, both included, and touches nothing else. */
  method QuicksortRange(v: array<nat>, start: int, end: int)
    requires 0 <= start <= end + 1 <= v.Length
    modifies v
    ensures Permuted(old(v[..]), v[..], start, end + 1) && Sorted(v[..], start, end + 1)
    decreases end - start
  {
    hide Permuted, Sorted;
    ghost var before := v[..];
    if start < end {
      var p: int := Partition(v, start, end);
      ghost var split := v[..];
      QuicksortRange(v, start, p - 1);
      ghost var left := v[..];
      QuicksortRange(v, p + 1, end);
      Assembled(before, split, left, v[..], start, p, end);
    } else {
      Untouched(before, start, end + 1);
    }
  }

  /** Nothing to sort. */
  lemma {:induction false} Untouched(a: seq<nat>, lo: nat, hi: nat)
    requires lo <= hi <= |a| && hi <= lo + 1
    ensures Permuted(a, a, lo, hi) && Sorted(a, lo, hi)
  {
  }

  /** The two halves around the pivot, put together. */
  lemma {:induction false} Assembled(before: seq<nat>, split: seq<nat>, left: seq<nat>, r: seq<nat>, start: nat,
                                     p: nat, end: nat)
    requires start <= p <= end < |before| && Permuted(before, split, start, end + 1)
    requires forall k | start <= k < p :: split[k] < split[p]
    requires forall k | p < k <= end :: split[p] <= split[k]
    requires Permuted(split, left, start, p) && Sorted(left, start, p)
    requires Permuted(left, r, p + 1, end + 1) && Sorted(r, p + 1, end + 1)
    ensures Permuted(before, r, start, end + 1) && Sorted(r, start, end + 1)
  {
    hide Permuted, Sorted;
    Outside(before, split, start, end + 1);
    LeftOfPivot(split, left, r, start, p, end);
    RightOfPivot(split, left, r, start, p, end);
    SortedAround(left, r, start, p, end);
    PermutedWider(split, left, start, p, start, end + 1);
    PermutedWider(left, r, p + 1, end + 1, start, end + 1);
    PermutedTrans(before, split, left, start, end + 1);
    PermutedTrans(before, left, r, start, end + 1);
  }

  lemma {:induction false} LeftOfPivot(split: seq<nat>, left: seq<nat>, r: seq<nat>, start: nat, p: nat, end: nat)
    requires start <= p <= end < |split| && forall k | start <= k < p :: split[k] < split[p]
    requires Permuted(split, left, start, p) && Permuted(left, r, p + 1, end + 1)
    ensures |r| == |left| == |split| && forall k | start <= k < p :: r[k] == left[k] && r[k] <= r[p]
  {
    hide Permuted;
    Outside(split, left, start, p);
    Outside(left, r, p + 1, end + 1);
    forall k | start <= k < p ensures r[k] == left[k] && r[k] <= r[p] {
      PermutedFrom(split, left, start, p, k);
    }
  }

  lemma {:induction false} RightOfPivot(split: seq<nat>, left: seq<nat>, r: seq<nat>, start: nat, p: nat, end: nat)
    requires start <= p <= end < |split| && forall k | p < k <= end :: split[p] <= split[k]
    requires Permuted(split, left, start, p) && Permuted(left, r, p + 1, end + 1)
    ensures |r| == |split| && forall k | p < k <= end :: r[p] <= r[k]
  {
    hide Permuted;
    Outside(split, left, start, p);
    Outside(left, r, p + 1, end + 1);
    forall k | p < k <= end ensures r[p] <= r[k] {
      PermutedFrom(left, r, p + 1, end + 1, k);
    }
  }

  lemma {:induction false} SortedAround(left: seq<nat>, r: seq<nat>, start: nat, p: nat, end: nat)
    requires start <= p <= end < |r| == |left| && Sorted(left, start, p) && Sorted(r, p + 1, end + 1)
    requires forall k | start <= k < p :: r[k] == left[k] && r[k] <= r[p]
    requires forall k | p < k <= end :: r[p] <= r[k]
    ensures Sorted(r, start, end + 1)
  {
    forall i, j | start <= i < j < end + 1 ensures r[i] <= r[j] {
      if j < p {
        assert left[i] <= left[j];
      }
    }
  }

  lemma {:induction false} Outside(a: seq<nat>, b: seq<nat>, lo: nat, hi: nat)
    requires Permuted(a, b, lo, hi)
    ensures |a| == |b| && forall k | 0 <= k < |a| && !(lo <= k < hi) :: b[k] == a[k]
  {
    assert forall k | 0 <= k < lo :: a[k] == a[..lo][k] && b[k] == b[..lo][k];
    assert forall k | hi <= k < |a| :: a[k] == a[hi..][k - hi] && b[k] == b[hi..][k - hi];
  }
}
