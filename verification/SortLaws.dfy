/**
  What the quicksort promises: a permutation of its range always, and a sorted range for every
  arrangement of the elements exactly when only the largest key may occur more than once.
*/
module SortLaws {
  import opened QuickSort

  /** `t` is `s` with the elements of `[lo, hi)` permuted. */
  ghost predicate Permuted<T>(s: seq<T>, t: seq<T>, lo: int, hi: int)
    requires 0 <= lo <= hi <= |s|
  {
    |t| == |s| && t[..lo] == s[..lo] && t[hi..] == s[hi..] && multiset(t[lo..hi]) == multiset(s[lo..hi])
  }

  lemma PermutedTrans<T>(s: seq<T>, t: seq<T>, u: seq<T>, lo: int, hi: int)
    requires 0 <= lo <= hi <= |s| && Permuted(s, t, lo, hi) && Permuted(t, u, lo, hi)
    ensures Permuted(s, u, lo, hi)
  {
  }

  /** A permutation of a part is one of the whole. */
  lemma PermutedWiden<T>(s: seq<T>, t: seq<T>, lo: int, hi: int, from: int, to: int)
    requires 0 <= from <= lo <= hi <= to <= |s| && Permuted(s, t, lo, hi)
    ensures Permuted(s, t, from, to)
  {
    assert t[..from] == t[..lo][..from];
    assert t[to..] == t[hi..][to - hi..];
    var a, b := s[from..lo], s[hi..to];
    assert a == s[..lo][from..] && b == s[hi..][..to - hi];
    assert s[from..to] == a + s[lo..hi] + b;
    assert t[from..to] == a + t[lo..hi] + b;
  }

  lemma SwapPermutes<T>(s: seq<T>, i: int, j: int, lo: int, hi: int)
    requires 0 <= lo <= i < j < hi <= |s|
    ensures Permuted(s, Swap(s, i, j), lo, hi)
  {
    var t := Swap(s, i, j);
    assert t[lo..hi] == Swap(s[lo..hi], i - lo, j - lo);
  }

  lemma {:induction false} PartitionPermutes<T(!new)>(comp: (T, T) -> int, pivot: T, s: seq<T>, begin: int, end: int,
                                                      p: int, lo: int, hi: int)
    requires TotalPreorder(comp) && 0 <= lo <= begin <= end + 1 && end < hi <= |s| && lo <= p < hi
    requires s[p] == pivot
    ensures var r := Partition(comp, pivot, s, begin, end, p);
            Permuted(s, r.items, lo, hi) && lo <= r.pivotIndex < hi && r.items[r.pivotIndex] == pivot
    decreases end - begin, if begin < end && SwapDue(comp, pivot, s[begin], s[end]) then 1 else 0
  {
    hide TotalPreorder, Partition, Permuted, SwapDue;
    if begin >= end {
      PartitionEnds(comp, pivot, s, begin, end, p);
      assert Permuted(s, s, lo, hi) by {
        PermutedSelf(s, lo, hi);
      }
    } else {
      PartitionTurn(comp, pivot, s, begin, end, p);
      if comp(s[begin], pivot) < 0 {
        PartitionPermutes(comp, pivot, s, begin + 1, end, p, lo, hi);
      } else if comp(s[end], pivot) > 0 {
        PartitionPermutes(comp, pivot, s, begin, end - 1, p, lo, hi);
      } else if comp(s[begin], s[end]) == 0 {
        PartitionPermutes(comp, pivot, s, begin + 1, end - 1, p, lo, hi);
      } else {
        SwapsOnce(comp, pivot, s[begin], s[end]);
        SwapPermutes(s, begin, end, lo, hi);
        var t := Swap(s, begin, end);
        var q := if begin == p then end else if end == p then begin else p;
        PartitionPermutes(comp, pivot, t, begin, end, q, lo, hi);
        PermutedTrans(s, t, Partition(comp, pivot, t, begin, end, q).items, lo, hi);
      }
    }
  }

  lemma PermutedSelf<T>(s: seq<T>, lo: int, hi: int)
    requires 0 <= lo <= hi <= |s|
    ensures Permuted(s, s, lo, hi)
  {
  }

  lemma SmallPermutes<T(!new)>(comp: (T, T) -> int, s: seq<T>, start: int, stop: int)
    requires TotalPreorder(comp) && 0 <= start <= stop <= |s| && stop - start <= 2
    ensures Permuted(s, Sort(comp, s, start, stop), start, stop)
  {
    hide TotalPreorder, Partition, Permuted;
    PermutedSelf(s, start, stop);
    if stop - start == 2 {
      SwapPermutes(s, start, stop - 1, start, stop);
    }
  }

  /** Every call permutes the elements of its range and touches nothing else. */
  lemma {:induction false} SortPermutes<T(!new)>(comp: (T, T) -> int, s: seq<T>, start: int, stop: int)
    requires TotalPreorder(comp) && 0 <= start <= stop <= |s|
    ensures Permuted(s, Sort(comp, s, start, stop), start, stop)
    decreases stop - start
  {
    hide TotalPreorder, Partition, Permuted, Sort;
    if stop - start <= 2 {
      SmallPermutes(comp, s, start, stop);
    } else {
      SortLarge(comp, s, start, stop);
      PartitionPermutes(comp, s[stop - 1], s, start, stop - 1, stop - 1, start, stop);
      var split := Partition(comp, s[stop - 1], s, start, stop - 1, stop - 1);
      var p := split.pivotIndex;
      var left := Sort(comp, split.items, start, p);
      SortPermutes(comp, split.items, start, p);
      PermutedWiden(split.items, left, start, p, start, stop);
      PermutedTrans(s, split.items, left, start, stop);
      SortPermutes(comp, left, p + 1, stop);
      PermutedWiden(left, Sort(comp, left, p + 1, stop), p + 1, stop, start, stop);
      PermutedTrans(s, left, Sort(comp, left, p + 1, stop), start, stop);
    }
  }

  // ----- sortedness -----

  ghost predicate Sorted<T(!new)>(comp: (T, T) -> int, s: seq<T>, lo: int, hi: int)
    requires 0 <= lo <= hi <= |s|
  {
    forall i, j :: lo <= i <= j < hi ==> comp(s[i], s[j]) <= 0
  }

  /** Two occurrences with equal keys are occurrences of the largest key. */
  ghost predicate OnlyLargestRepeats<T(!new)>(comp: (T, T) -> int, ms: multiset<T>) {
    forall x, y, z :: x in ms && y in ms && z in ms && comp(x, y) == 0 && (x != y || ms[x] >= 2) ==> comp(z, x) <= 0
  }

  lemma SubsetRepeats<T(!new)>(comp: (T, T) -> int, ms: multiset<T>, sub: multiset<T>)
    requires OnlyLargestRepeats(comp, ms) && sub <= ms
    ensures OnlyLargestRepeats(comp, sub)
  {
  }

  lemma CountTwice<T>(s: seq<T>, i: int, j: int)
    requires 0 <= i < j < |s| && s[i] == s[j]
    ensures multiset(s)[s[i]] >= 2
  {
    assert s == s[..i] + [s[i]] + s[i + 1..j] + [s[j]] + s[j + 1..];
  }

  lemma EqualIsLargest<T(!new)>(comp: (T, T) -> int, s: seq<T>, lo: int, hi: int, i: int, j: int)
    requires 0 <= lo <= i < j < hi <= |s| && comp(s[i], s[j]) == 0
    requires TotalPreorder(comp) && OnlyLargestRepeats(comp, multiset(s[lo..hi]))
    ensures forall k :: lo <= k < hi ==> comp(s[k], s[j]) <= 0
  {
    var part := s[lo..hi];
    assert part[i - lo] == s[i] && part[j - lo] == s[j];
    if s[i] == s[j] {
      CountTwice(part, i - lo, j - lo);
    }
    forall k | lo <= k < hi
      ensures comp(s[k], s[j]) <= 0
    {
      assert part[k - lo] == s[k];
      assert comp(s[k], s[i]) <= 0 && comp(s[i], s[j]) <= 0;
    }
  }

  /** A pivot whose key is unique separates the range where the indices meet. */
  lemma {:induction false} UniquePivot<T(!new)>(comp: (T, T) -> int, pivot: T, s: seq<T>, begin: int, end: int, p: int,
                                                lo: int, hi: int)
    requires TotalPreorder(comp) && 0 <= lo <= begin <= p <= end < hi <= |s| && s[p] == pivot
    requires forall i :: lo <= i < hi && i != p ==> comp(s[i], pivot) != 0
    requires forall i :: lo <= i < begin ==> comp(s[i], pivot) < 0
    requires forall i :: end < i < hi ==> comp(s[i], pivot) > 0
    ensures var r := Partition(comp, pivot, s, begin, end, p);
            && r.begin == r.end == r.pivotIndex && lo <= r.pivotIndex < hi
            && (forall i :: lo <= i < r.pivotIndex ==> comp(r.items[i], pivot) < 0)
            && (forall i :: r.pivotIndex < i < hi ==> comp(r.items[i], pivot) > 0)
    decreases end - begin, if begin < end && SwapDue(comp, pivot, s[begin], s[end]) then 1 else 0
  {
    hide Partition, TotalPreorder, SwapDue;
    SelfEqual(comp, pivot);
    if begin >= end {
      PartitionEnds(comp, pivot, s, begin, end, p);
    } else {
      PartitionTurn(comp, pivot, s, begin, end, p);
      if comp(s[begin], pivot) < 0 {
        UniquePivot(comp, pivot, s, begin + 1, end, p, lo, hi);
      } else if comp(s[end], pivot) > 0 {
        UniquePivot(comp, pivot, s, begin, end - 1, p, lo, hi);
      } else {
        BothEqual(comp, s[begin], s[end], pivot);
        SwapsOnce(comp, pivot, s[begin], s[end]);
        UniquePivot(comp, pivot, Swap(s, begin, end), begin, end,
                    if begin == p then end else if end == p then begin else p, lo, hi);
      }
    }
  }

  lemma SelfEqual<T(!new)>(comp: (T, T) -> int, x: T)
    requires TotalPreorder(comp)
    ensures comp(x, x) == 0
  {
  }

  /** Elements the loop finds equal to each other are equal to the pivot. */
  lemma BothEqual<T(!new)>(comp: (T, T) -> int, x: T, y: T, pivot: T)
    requires TotalPreorder(comp) && comp(x, pivot) >= 0 && comp(y, pivot) <= 0
    ensures comp(x, y) == 0 ==> comp(x, pivot) == 0 && comp(y, pivot) == 0
    ensures comp(x, pivot) == 0 && comp(y, pivot) == 0 ==> comp(x, y) == 0
  {
    assert comp(pivot, x) <= 0 && comp(pivot, y) >= 0;
    if comp(x, y) == 0 {
      assert comp(y, x) == 0;
      assert comp(x, pivot) <= 0;
      assert comp(pivot, y) <= 0;
    }
    if comp(x, pivot) == 0 && comp(y, pivot) == 0 {
      assert comp(pivot, x) == 0 && comp(pivot, y) == 0;
      assert comp(x, y) <= 0 && comp(y, x) <= 0;
    }
  }

  /** A pivot with the largest key stays at the end of the range. */
  lemma {:induction false} LargestPivot<T(!new)>(comp: (T, T) -> int, pivot: T, s: seq<T>, begin: int, end: int, p: int,
                                                 lo: int)
    requires TotalPreorder(comp) && 0 <= lo <= begin <= end + 1 && end <= p && 0 <= p < |s| && s[p] == pivot
    requires forall i :: lo <= i <= p ==> comp(s[i], pivot) <= 0
    ensures Partition(comp, pivot, s, begin, end, p).pivotIndex == p
    decreases end - begin, if begin < end && SwapDue(comp, pivot, s[begin], s[end]) then 1 else 0
  {
    hide Partition, TotalPreorder, SwapDue;
    SelfEqual(comp, pivot);
    if begin >= end {
      PartitionEnds(comp, pivot, s, begin, end, p);
    } else {
      PartitionTurn(comp, pivot, s, begin, end, p);
      if comp(s[begin], pivot) < 0 {
        LargestPivot(comp, pivot, s, begin + 1, end, p, lo);
      } else if comp(s[begin], s[end]) == 0 {
        LargestPivot(comp, pivot, s, begin + 1, end - 1, p, lo);
      } else {
        BothEqual(comp, s[begin], s[end], pivot);
        SwapsOnce(comp, pivot, s[begin], s[end]);
        LargestPivot(comp, pivot, Swap(s, begin, end), begin, end, p, lo);
      }
    }
  }

  /** The pivot ends up between the elements not above and not below it. */
  lemma PartitionSplits<T(!new)>(comp: (T, T) -> int, s: seq<T>, lo: int, hi: int)
    requires TotalPreorder(comp) && 0 <= lo < hi <= |s| && OnlyLargestRepeats(comp, multiset(s[lo..hi]))
    ensures var r := Partition(comp, s[hi - 1], s, lo, hi - 1, hi - 1);
            && lo <= r.pivotIndex < hi
            && (forall i :: lo <= i < r.pivotIndex ==> comp(r.items[i], s[hi - 1]) <= 0)
            && (forall i :: r.pivotIndex < i < hi ==> comp(s[hi - 1], r.items[i]) <= 0)
  {
    hide Partition, OnlyLargestRepeats;
    var pivot := s[hi - 1];
    var r := Partition(comp, pivot, s, lo, hi - 1, hi - 1);
    PartitionPermutes(comp, pivot, s, lo, hi - 1, hi - 1, lo, hi);
    if i :| lo <= i < hi - 1 && comp(s[i], pivot) == 0 {
      EqualIsLargest(comp, s, lo, hi, i, hi - 1);
      LargestPivot(comp, pivot, s, lo, hi - 1, hi - 1, lo);
      forall k | lo <= k < r.pivotIndex
        ensures comp(r.items[k], pivot) <= 0
      {
        var from := Origin(s, r.items, lo, hi, k);
      }
    } else {
      UniquePivot(comp, pivot, s, lo, hi - 1, hi - 1, lo, hi);
    }
  }

  lemma Origin<T>(s: seq<T>, t: seq<T>, lo: int, hi: int, k: int) returns (from: int)
    requires 0 <= lo <= k < hi <= |s| && Permuted(s, t, lo, hi)
    ensures lo <= from < hi && s[from] == t[k]
  {
    var part := s[lo..hi];
    assert t[lo..hi][k - lo] == t[k];
    assert t[k] in multiset(part);
    var i :| 0 <= i < |part| && part[i] == t[k];
    from := i + lo;
  }

  lemma PartMultiset<T>(s: seq<T>, lo: int, hi: int, from: int, to: int)
    requires 0 <= from <= lo <= hi <= to <= |s|
    ensures multiset(s[lo..hi]) <= multiset(s[from..to])
  {
    assert s[from..to] == s[from..lo] + s[lo..hi] + s[hi..to];
  }

  lemma Joined<T(!new)>(comp: (T, T) -> int, s: seq<T>, lo: int, p: int, hi: int)
    requires TotalPreorder(comp) && 0 <= lo <= p < hi <= |s| && Sorted(comp, s, lo, p) && Sorted(comp, s, p + 1, hi)
    requires forall i :: lo <= i < p ==> comp(s[i], s[p]) <= 0
    requires forall i :: p < i < hi ==> comp(s[p], s[i]) <= 0
    ensures Sorted(comp, s, lo, hi)
  {
    SelfEqual(comp, s[p]);
  }

  /** Sorting both sides of a pivot that separates them sorts the range. */
  lemma SidesSorted<T(!new)>(comp: (T, T) -> int, t: seq<T>, left: seq<T>, done: seq<T>, start: int, p: int, stop: int)
    requires TotalPreorder(comp) && 0 <= start <= p < stop <= |t|
    requires Permuted(t, left, start, p) && Permuted(left, done, p + 1, stop)
    requires Sorted(comp, left, start, p) && Sorted(comp, done, p + 1, stop)
    requires forall i :: start <= i < p ==> comp(t[i], t[p]) <= 0
    requires forall i :: p < i < stop ==> comp(t[p], t[i]) <= 0
    ensures Sorted(comp, done, start, stop)
  {
    hide TotalPreorder, Permuted;
    SideKept(t, left, start, p, p, stop);
    SideKept(left, done, p + 1, stop, start, p + 1);
    forall i | start <= i < p
      ensures comp(done[i], done[p]) <= 0
    {
      var from := Origin(t, left, start, p, i);
    }
    forall i | p < i < stop
      ensures comp(done[p], done[i]) <= 0
    {
      var from := Origin(left, done, p + 1, stop, i);
    }
    Joined(comp, done, start, p, stop);
  }

  /** With only the largest key repeated, the range is sorted. */
  lemma {:induction false} SortSorts<T(!new)>(comp: (T, T) -> int, s: seq<T>, start: int, stop: int)
    requires TotalPreorder(comp) && 0 <= start <= stop <= |s| && OnlyLargestRepeats(comp, multiset(s[start..stop]))
    ensures Sorted(comp, Sort(comp, s, start, stop), start, stop)
    decreases stop - start
  {
    hide Sort, Partition, OnlyLargestRepeats, TotalPreorder, Permuted, Sorted;
    if stop - start <= 2 {
      SortSmall(comp, s, start, stop);
    } else {
      SortLarge(comp, s, start, stop);
      PartitionSplits(comp, s, start, stop);
      var split := Partition(comp, s[stop - 1], s, start, stop - 1, stop - 1);
      var t, p := split.items, split.pivotIndex;
      PartitionPermutes(comp, s[stop - 1], s, start, stop - 1, stop - 1, start, stop);
      SidesRepeat(comp, s, t, start, p, stop);
      var left := Sort(comp, t, start, p);
      SortSorts(comp, t, start, p);
      SortPermutes(comp, t, start, p);
      SideKept(t, left, start, p, p, stop);
      assert left[p + 1..stop] == t[p + 1..stop];
      SortSorts(comp, left, p + 1, stop);
      SortPermutes(comp, left, p + 1, stop);
      SidesSorted(comp, t, left, Sort(comp, left, p + 1, stop), start, p, stop);
    }
  }

  lemma SortSmall<T(!new)>(comp: (T, T) -> int, s: seq<T>, start: int, stop: int)
    requires TotalPreorder(comp) && 0 <= start <= stop <= |s| && stop - start <= 2
    ensures Sorted(comp, Sort(comp, s, start, stop), start, stop)
  {
    hide Partition;
    if stop > start {
      SelfEqual(comp, s[start]);
      SelfEqual(comp, s[stop - 1]);
    }
  }

  lemma SidesRepeat<T(!new)>(comp: (T, T) -> int, s: seq<T>, t: seq<T>, start: int, p: int, stop: int)
    requires 0 <= start <= p < stop <= |s| && Permuted(s, t, start, stop)
             && OnlyLargestRepeats(comp, multiset(s[start..stop]))
    ensures OnlyLargestRepeats(comp, multiset(t[start..p])) && OnlyLargestRepeats(comp, multiset(t[p + 1..stop]))
  {
    hide OnlyLargestRepeats;
    PartMultiset(t, start, p, start, stop);
    PartMultiset(t, p + 1, stop, start, stop);
    SubsetRepeats(comp, multiset(t[start..stop]), multiset(t[start..p]));
    SubsetRepeats(comp, multiset(t[start..stop]), multiset(t[p + 1..stop]));
  }

  /** A permutation of one part leaves the elements beside it where they are. */
  lemma SideKept<T>(s: seq<T>, t: seq<T>, lo: int, hi: int, from: int, to: int)
    requires 0 <= lo <= hi <= |s| && Permuted(s, t, lo, hi)
    requires 0 <= from <= to <= |s| && (to <= lo || hi <= from)
    ensures |t| == |s| && forall i :: from <= i < to ==> t[i] == s[i]
  {
    forall i | from <= i < to
      ensures t[i] == s[i]
    {
      if to <= lo {
        assert t[..lo][i] == s[..lo][i];
      } else {
        assert t[hi..][i - hi] == s[hi..][i - hi];
      }
    }
  }

  // ----- the condition is exact -----

  lemma {:induction false} SomeOrder<T>(ms: multiset<T>) returns (s: seq<T>)
    ensures multiset(s) == ms
    decreases |ms|
  {
    if ms == multiset{} {
      s := [];
    } else {
      var x :| x in ms;
      var rest := SomeOrder(ms - multiset{x});
      s := [x] + rest;
    }
  }

  /** The loop does not touch what lies outside its indices. */
  lemma {:induction false} OutsideKept<T(!new)>(comp: (T, T) -> int, pivot: T, s: seq<T>, begin: int, end: int, p: int,
                                                k: int)
    requires TotalPreorder(comp) && 0 <= begin <= end + 1 && end < k < |s| && p == k
    ensures var r := Partition(comp, pivot, s, begin, end, p); r.items[k] == s[k] && r.pivotIndex == p
    decreases end - begin, if begin < end && SwapDue(comp, pivot, s[begin], s[end]) then 1 else 0
  {
    hide Partition, TotalPreorder, SwapDue;
    if begin >= end {
      PartitionEnds(comp, pivot, s, begin, end, p);
    } else {
      PartitionTurn(comp, pivot, s, begin, end, p);
      if comp(s[begin], pivot) < 0 {
        OutsideKept(comp, pivot, s, begin + 1, end, p, k);
      } else if comp(s[end], pivot) > 0 {
        OutsideKept(comp, pivot, s, begin, end - 1, p, k);
      } else if comp(s[begin], s[end]) == 0 {
        OutsideKept(comp, pivot, s, begin + 1, end - 1, p, k);
      } else {
        SwapsOnce(comp, pivot, s[begin], s[end]);
        OutsideKept(comp, pivot, Swap(s, begin, end), begin, end, p, k);
      }
    }
  }

  /** When the first key equals the last, the last element stays last. */
  lemma LastStays<T(!new)>(comp: (T, T) -> int, s: seq<T>)
    requires TotalPreorder(comp) && |s| >= 3 && comp(s[0], s[|s| - 1]) == 0
    ensures Sort(comp, s, 0, |s|)[|s| - 1] == s[|s| - 1]
  {
    hide Partition, Sort, TotalPreorder, Permuted;
    var last := |s| - 1;
    var pivot := s[last];
    SelfEqual(comp, pivot);
    SortLarge(comp, s, 0, |s|);
    PartitionTurn(comp, pivot, s, 0, last, last);
    OutsideKept(comp, pivot, s, 1, last - 1, last, last);
    var split := Partition(comp, pivot, s, 0, last, last);
    var left := Sort(comp, split.items, 0, last);
    SortPermutes(comp, split.items, 0, last);
    SideKept(split.items, left, 0, last, last, |s|);
    SortPermutes(comp, left, last + 1, |s|);
    SideKept(left, Sort(comp, left, last + 1, |s|), last + 1, |s|, 0, |s|);
  }

  lemma TakeTwo<T>(ms: multiset<T>, x: T, y: T)
    requires x in ms && y in ms && (x != y || ms[x] >= 2)
    ensures multiset{x} + (ms - multiset{x} - multiset{y}) + multiset{y} == ms
  {
  }

  lemma LargerLost<T(!new)>(comp: (T, T) -> int, s: seq<T>, z: T)
    requires TotalPreorder(comp) && |s| >= 3 && comp(s[0], s[|s| - 1]) == 0
    requires z in multiset(s) && comp(z, s[|s| - 1]) > 0
    ensures !Sorted(comp, Sort(comp, s, 0, |s|), 0, |s|)
  {
    hide Sort, TotalPreorder;
    LastStays(comp, s);
    SortPermutes(comp, s, 0, |s|);
    var r := Sort(comp, s, 0, |s|);
    assert r[0..|s|] == r && s[0..|s|] == s;
    assert z in multiset(r);
    var k :| 0 <= k < |r| && r[k] == z;
    assert comp(r[k], r[|r| - 1]) > 0;
  }

  /** Equal keys that are not the largest can be arranged so that the result is not sorted. */
  lemma BadArrangement<T(!new)>(comp: (T, T) -> int, ms: multiset<T>) returns (s: seq<T>)
    requires TotalPreorder(comp) && !OnlyLargestRepeats(comp, ms)
    ensures multiset(s) == ms && !Sorted(comp, Sort(comp, s, 0, |s|), 0, |s|)
  {
    hide Sort, TotalPreorder, Sorted;
    var x, y, z :| x in ms && y in ms && z in ms && comp(x, y) == 0 && (x != y || ms[x] >= 2) && comp(z, x) > 0;
    SelfEqual(comp, x);
    NotBelow(comp, x, y, z);
    var rest := ms - multiset{x} - multiset{y};
    var middle := SomeOrder(rest);
    s := [x] + middle + [y];
    assert multiset(s) == multiset{x} + rest + multiset{y};
    TakeTwo(ms, x, y);
    assert z in multiset(middle);
    LargerLost(comp, s, z);
  }

  lemma NotBelow<T(!new)>(comp: (T, T) -> int, x: T, y: T, z: T)
    requires TotalPreorder(comp) && comp(x, y) == 0 && comp(z, x) > 0
    ensures comp(z, y) > 0 && z != y
  {
    assert comp(y, x) <= 0;
  }

  /** Every arrangement of the elements is sorted exactly when only the largest key repeats. */
  lemma SortsExactly<T(!new)>(comp: (T, T) -> int, ms: multiset<T>)
    requires TotalPreorder(comp)
    ensures (forall s: seq<T> :: multiset(s) == ms ==> Sorted(comp, Sort(comp, s, 0, |s|), 0, |s|)) <==>
            OnlyLargestRepeats(comp, ms)
  {
    hide Sort, TotalPreorder, OnlyLargestRepeats, Sorted;
    if OnlyLargestRepeats(comp, ms) {
      forall s: seq<T> | multiset(s) == ms
        ensures Sorted(comp, Sort(comp, s, 0, |s|), 0, |s|)
      {
        assert s[0..|s|] == s;
        SortSorts(comp, s, 0, |s|);
      }
    } else {
      var s := BadArrangement(comp, ms);
    }
  }
}
