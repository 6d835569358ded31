/**
  The growable array of segments (include/array.h) that holds the emitted code: elements never
  move, which is what makes the pointers the code generator keeps for back-patching sound.
*/
module SegmentedArray {
  import opened Word64

  function Sum(sizes: seq<nat>): nat {
    if sizes == [] then 0 else sizes[0] + Sum(sizes[1..])
  }

  /** Segment and offset the walk over the segments stops at. */
  function Locate(sizes: seq<nat>, index: nat): (r: (nat, nat))
    ensures r.0 <= |sizes|
  {
    if sizes != [] && sizes[0] <= index then
      var r := Locate(sizes[1..], index - sizes[0]);
      (r.0 + 1, r.1)
    else (0, index)
  }

  /** The walk ends in the one segment the index lies in, or behind all of them. */
  lemma {:induction false} LocateExact(sizes: seq<nat>, index: nat)
    ensures var r := Locate(sizes, index);
            && index == Sum(sizes[..r.0]) + r.1
            && (r.0 < |sizes| <==> index < Sum(sizes))
            && (r.0 < |sizes| ==> r.1 < sizes[r.0])
  {
    var r := Locate(sizes, index);
    if sizes != [] && sizes[0] <= index {
      LocateExact(sizes[1..], index - sizes[0]);
      assert sizes[..r.0] == [sizes[0]] + sizes[1..][..r.0 - 1];
    } else {
      assert sizes[..0] == [];
    }
  }

  /** More segments do not move an element. */
  lemma {:induction false} LocateStable(sizes: seq<nat>, more: seq<nat>, index: nat)
    requires index < Sum(sizes)
    ensures Locate(sizes + more, index) == Locate(sizes, index)
  {
    assert (sizes + more)[1..] == sizes[1..] + more;
    if sizes[0] <= index {
      LocateStable(sizes[1..], more, index - sizes[0]);
    }
  }

  /** Different indices have different places. */
  lemma LocateInjective(sizes: seq<nat>, i: nat, j: nat)
    requires Locate(sizes, i) == Locate(sizes, j)
    ensures i == j
  {
    LocateExact(sizes, i);
    LocateExact(sizes, j);
  }

  lemma {:induction false} SumAppend(a: seq<nat>, b: seq<nat>)
    ensures Sum(a + b) == Sum(a) + Sum(b)
  {
    if a == [] {
      assert a + b == b;
    } else {
      assert (a + b)[1..] == a[1..] + b;
      SumAppend(a[1..], b);
    }
  }

  /** The sizes of `n` segments: g, 2g, 4g and so on. */
  function Doubling(g: nat, n: nat): (r: seq<nat>)
    ensures |r| == n
  {
    if n == 0 then [] else Doubling(g, n - 1) + [g * Pow2(n - 1)]
  }

  /** Together they hold all but one of the elements of the next segment, `g` times. */
  lemma {:induction false} DoublingSum(g: nat, n: nat)
    ensures Sum(Doubling(g, n)) == g * Pow2(n) - g
  {
    if n > 0 {
      DoublingSum(g, n - 1);
      SumAppend(Doubling(g, n - 1), [g * Pow2(n - 1)]);
      assert Sum([g * Pow2(n - 1)]) == g * Pow2(n - 1) + Sum([]);
      assert g * Pow2(n) == 2 * (g * Pow2(n - 1));
    }
  }

  function Lengths<T>(segments: seq<array<T>>): (r: seq<nat>)
    ensures |r| == |segments|
  {
    seq(|segments|, i requires 0 <= i < |segments| => segments[i].Length)
  }

  class Segments<T(0)> {
    ghost const first: nat
    var count: nat
    var growSize: nat
    var segments: seq<array<T>>

    ghost function Sizes(): (r: seq<nat>)
      reads this`segments
      ensures |r| == |segments|
    {
      Lengths(segments)
    }

    /** `first` is the size the array was created with. */
    ghost predicate Valid()
      reads this
    {
      && first > 0 && |segments| > 0 && count <= Sum(Sizes())
      && Sizes() == Doubling(first, |segments|) && growSize == first * Pow2(|segments|)
      && forall i, j :: 0 <= i < j < |segments| ==> segments[i] != segments[j]
    }

    ghost function Place(index: nat): (nat, nat)
      reads this`segments
    {
      Locate(Sizes(), index)
    }

    ghost function At(index: nat): T
      requires index < Sum(Sizes())
      reads this`segments, segments
    {
      LocateExact(Sizes(), index);
      segments[Place(index).0][Place(index).1]
    }

    ghost function Contents(): (r: seq<T>)
      requires count <= Sum(Sizes())
      reads this, segments
      ensures |r| == count && forall i :: 0 <= i < count ==> r[i] == At(i)
    {
      seq(count, i requires 0 <= i < count <= Sum(Sizes()) reads this, segments => At(i))
    }

    constructor (size: nat)
      requires size > 0
      ensures Valid() && first == size && Contents() == [] && fresh(segments)
    {
      first := size;
      count := 0;
      growSize := 2 * size;
      var entry := new T[size];
      segments := [entry];
      new;
      assert Doubling(size, 0) == [];
      assert Pow2(0) == 1 && size * Pow2(0) == size && size * Pow2(1) == 2 * size;
      assert Sizes() == Doubling(size, 1);
    }

    /** The loop shared by `array_add`, `array_get` and `operator[]`. */
    method Walk(index: nat) returns (ei: nat, offset: nat)
      ensures offset <= index && (ei, index - offset) == Place(index)
    {
      ei, offset := 0, 0;
      assert Sizes()[0..] == Sizes();
      while ei < |segments|
        invariant ei <= |segments| && offset <= index
        invariant Place(index) ==
                  (ei + Locate(Sizes()[ei..], index - offset).0, Locate(Sizes()[ei..], index - offset).1)
      {
        if segments[ei].Length <= index - offset {
          assert Sizes()[ei..][1..] == Sizes()[ei + 1..];
          offset := offset + segments[ei].Length;
          ei := ei + 1;
          continue;
        }
        break;
      }
    }

    /** `array_get`: the address of an element, null behind the last one. */
    method Get(index: nat) returns (r: Option<(array<T>, nat)>)
      requires Valid()
      ensures r.Some? <==> index < count
      ensures r.Some? ==> Place(index).0 < |segments| && r.value == (segments[Place(index).0], Place(index).1)
      ensures r.Some? ==> r.value.1 < r.value.0.Length && r.value.0[r.value.1] == Contents()[index]
    {
      if index >= count {
        return None;
      }
      LocateExact(Sizes(), index);
      var ei, offset := Walk(index);
      r := Some((segments[ei], index - offset));
    }

    /** Writing through an address `Get` returned changes that one element. */
    method Put(at: (array<T>, nat), index: nat, v: T)
      requires Valid() && index < count
      requires Place(index).0 < |segments| && at == (segments[Place(index).0], Place(index).1) && at.1 < at.0.Length
      modifies at.0
      ensures Valid() && Contents() == old(Contents())[index := v]
    {
      at.0[at.1] := v;
      forall i | 0 <= i < count
        ensures At(i) == if i == index then v else old(At(i))
      {
        LocateExact(Sizes(), i);
        if i != index && Place(i) == Place(index) {
          LocateInjective(Sizes(), i, index);
        }
      }
    }

    /** One more segment, twice the size of the last one. */
    method Grow()
      requires Valid()
      modifies this`growSize, this`segments
      ensures Valid() && |segments| == |old(segments)| + 1 && segments[..|old(segments)|] == old(segments)
      ensures fresh(segments[|old(segments)|])
      ensures Sizes() == old(Sizes()) + [old(growSize)] && growSize == 2 * old(growSize) && old(growSize) > 0
      ensures forall i :: 0 <= i < count ==> Place(i) == old(Place(i))
      ensures Contents() == old(Contents())
    {
      ghost var n := |segments|;
      ghost var sizes := Sizes();
      assert first * Pow2(n) >= first by {
        assert first * (Pow2(n) - 1) >= 0;
      }
      var entry := new T[growSize];
      segments := segments + [entry];
      growSize := growSize * 2;
      assert Sizes() == sizes + [first * Pow2(n)];
      assert first * Pow2(n + 1) == 2 * (first * Pow2(n));
      SumAppend(sizes, [first * Pow2(n)]);
      forall i: nat | i < count
        ensures Place(i) == old(Place(i)) && At(i) == old(At(i))
      {
        LocateStable(sizes, [first * Pow2(n)], i);
        LocateExact(sizes, i);
      }
    }

    /** `array_add`: the new element goes behind the others, and none of them moves. */
    method Add(data: T)
      requires Valid()
      modifies this, segments
      ensures Valid() && count == old(count) + 1 && Contents() == old(Contents()) + [data]
      ensures |old(segments)| <= |segments| && segments[..|old(segments)|] == old(segments)
      ensures forall i :: |old(segments)| <= i < |segments| ==> fresh(segments[i])
      ensures forall i :: 0 <= i < old(count) ==> Place(i) == old(Place(i))
      ensures |segments| > |old(segments)| <==> old(count) == old(Sum(Sizes()))
    {
      ghost var sizes := Sizes();
      LocateExact(sizes, count);
      var ei, offset := Walk(count);
      if ei == |segments| {
        assert sizes[..ei] == sizes;
        Grow();
        SumAppend(sizes, [old(growSize)]);
        assert Sum([old(growSize)]) == old(growSize) + Sum([]);
        BehindAll(sizes, [old(growSize)], count);
        assert Place(count) == (ei, 0) && count == offset;
      }
      LocateExact(Sizes(), count);
      Fill(ei, count - offset, data);
    }

    /** The store and the count of `array_add`. */
    method Fill(ei: nat, offset: nat, data: T)
      requires Valid() && count < Sum(Sizes()) && (ei, offset) == Place(count)
      requires ei < |segments| && offset < segments[ei].Length
      modifies this`count, segments[ei]
      ensures Valid() && count == old(count) + 1 && Contents() == old(Contents()) + [data]
    {
      segments[ei][offset] := data;
      count := count + 1;
      forall i | 0 <= i < count
        ensures At(i) == if i == count - 1 then data else old(At(i))
      {
        LocateExact(Sizes(), i);
        if i != count - 1 && Place(i) == Place(count - 1) {
          LocateInjective(Sizes(), i, count - 1);
        }
      }
      assert Contents() == old(Contents()) + [data];
    }
  }

  lemma {:induction false} BehindAll(sizes: seq<nat>, more: seq<nat>, index: nat)
    requires index == Sum(sizes) && more != [] && more[0] > 0
    ensures Locate(sizes + more, index) == (|sizes|, 0) && index < Sum(sizes + more)
  {
    SumAppend(sizes, more);
    if sizes == [] {
      assert sizes + more == more;
    } else {
      assert (sizes + more)[1..] == sizes[1..] + more;
      BehindAll(sizes[1..], more, index - sizes[0]);
    }
  }
}
