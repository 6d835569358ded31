/**
  The open-addressing hash table of every symbol table (include/hashmap.h): linear probing,
  tombstones, doubling.
*/
module HashMap {
  import opened Word64

  /** `occupied` and `deleted`: a removed entry keeps its slot. */
  datatype Entry<+K, +V> = Vacant | Live(key: K, value: V) | Tombstone

  const STANDARD_SIZE: nat := 16

  /** The slot looked at after `offset` collisions. */
  function Slot(home: nat, offset: nat, capacity: nat): (r: nat)
    requires capacity > 0
    ensures r < capacity
  {
    (home + offset) % capacity
  }

  /** The number of collisions that lead from `home` to slot `at`. */
  function Distance(home: nat, at: nat, capacity: nat): nat
    requires home < capacity && at < capacity
  {
    if at >= home then at - home else at - home + capacity
  }

  function Home<K>(hash: K -> nat, k: K, capacity: nat): (r: nat)
    requires capacity > 0
    ensures r < capacity
  {
    hash(k) % capacity
  }

  /** The probe of `hashmap_get` and `hashmap_remove`. */
  function Find<K(==), V>(es: seq<Entry<K, V>>, home: nat, k: K, offset: nat): (r: Option<nat>)
    requires es != []
    ensures r.Some? ==> r.value < |es| && es[r.value].Live? && es[r.value].key == k
    decreases |es| - offset
  {
    if offset >= |es| then None else
    var at := Slot(home, offset, |es|);
    match es[at]
    case Tombstone => Find(es, home, k, offset + 1)
    case Vacant => None
    case Live(key, _) => if key == k then Some(at) else Find(es, home, k, offset + 1)
  }

  datatype Place = Free(at: nat) | Present | Full

  /** The probe of `hashmap_add`: the first slot that is not live, unless the key comes first. */
  function FindPlace<K(==), V>(es: seq<Entry<K, V>>, home: nat, k: K, offset: nat): (r: Place)
    requires es != []
    ensures r.Free? ==> r.at < |es| && !es[r.at].Live?
    decreases |es| - offset
  {
    if offset >= |es| then Full else
    var at := Slot(home, offset, |es|);
    if !es[at].Live? then Free(at)
    else if es[at].key == k then Present
    else FindPlace(es, home, k, offset + 1)
  }

  function LiveCount<K, V>(es: seq<Entry<K, V>>): (r: nat)
    ensures r <= |es|
  {
    if es == [] then 0 else LiveCount(es[..|es| - 1]) + if es[|es| - 1].Live? then 1 else 0
  }

  function Vacants<K, V>(n: nat): (r: seq<Entry<K, V>>)
    ensures |r| == n && forall i :: 0 <= i < n ==> r[i] == Vacant
  {
    seq(n, _ => Vacant)
  }

  /** `create_map_if_needed`. */
  function Created<K, V>(es: seq<Entry<K, V>>): (r: seq<Entry<K, V>>)
    ensures r != []
  {
    if es == [] then Vacants(STANDARD_SIZE) else es
  }

  /** The probing part of `hashmap_add`. */
  function Insert<K(==), V>(es: seq<Entry<K, V>>, hash: K -> nat, k: K, v: V): (r: (seq<Entry<K, V>>, bool))
    requires es != []
    ensures |r.0| == |es|
  {
    match FindPlace(es, Home(hash, k, |es|), k, 0)
    case Free(at) => (es[at := Live(k, v)], true)
    case _ => (es, false)
  }

  /** `rebuild_map` adds the live entries from slot `i` on to the new table. */
  function Reinsert<K(==), V>(old_: seq<Entry<K, V>>, i: nat, es: seq<Entry<K, V>>, hash: K -> nat)
    : (r: seq<Entry<K, V>>)
    requires es != [] && i <= |old_|
    ensures |r| == |es|
    decreases |old_| - i
  {
    if i == |old_| then es
    else if old_[i].Live? then Reinsert(old_, i + 1, Insert(es, hash, old_[i].key, old_[i].value).0, hash)
    else Reinsert(old_, i + 1, es, hash)
  }

  function Rebuilt<K(==), V>(es: seq<Entry<K, V>>, hash: K -> nat): (r: seq<Entry<K, V>>)
    requires es != []
    ensures |r| == 2 * |es|
  {
    Reinsert(es, 0, Vacants(2 * |es|), hash)
  }

  predicate Crowded(load: nat, capacity: nat) {
    4 * load > 3 * capacity
  }

  /** `hashmap_add`. */
  function Added<K(==), V>(es: seq<Entry<K, V>>, hash: K -> nat, k: K, v: V): (seq<Entry<K, V>>, bool) {
    var es1 := Created(es);
    var es2 := if Crowded(LiveCount(es1), |es1|) then Rebuilt(es1, hash) else es1;
    Insert(es2, hash, k, v)
  }

  /** `hashmap_get`. */
  function Lookup<K(==), V>(es: seq<Entry<K, V>>, hash: K -> nat, k: K): Option<V> {
    var es1 := Created(es);
    match Find(es1, Home(hash, k, |es1|), k, 0)
    case Some(at) => Some(es1[at].value)
    case None => None
  }

  /** `hashmap_remove`. */
  function Removed<K(==), V>(es: seq<Entry<K, V>>, hash: K -> nat, k: K): (seq<Entry<K, V>>, bool) {
    var es1 := Created(es);
    match Find(es1, Home(hash, k, |es1|), k, 0)
    case Some(at) => (es1[at := Tombstone], true)
    case None => (es1, false)
  }

  // ----- counting -----

  lemma {:induction false} CountUpdate<K, V>(es: seq<Entry<K, V>>, at: nat, e: Entry<K, V>)
    requires at < |es|
    ensures LiveCount(es[at := e]) ==
            LiveCount(es) - (if es[at].Live? then 1 else 0) + (if e.Live? then 1 else 0)
    decreases |es|
  {
    var last := |es| - 1;
    if at == last {
      assert es[at := e][..last] == es[..last];
    } else {
      CountUpdate(es[..last], at, e);
      assert es[at := e][..last] == es[..last][at := e];
    }
  }

  lemma {:induction false} CountVacant<K, V>(es: seq<Entry<K, V>>)
    requires forall i :: 0 <= i < |es| ==> es[i] == Vacant
    ensures LiveCount(es) == 0
  {
    if es != [] {
      CountVacant(es[..|es| - 1]);
    }
  }

  lemma {:induction false} CountBelow<K, V>(es: seq<Entry<K, V>>) returns (at: nat)
    requires LiveCount(es) < |es|
    ensures at < |es| && !es[at].Live?
    decreases |es|
  {
    if es[|es| - 1].Live? {
      at := CountBelow(es[..|es| - 1]);
    } else {
      at := |es| - 1;
    }
  }

  class Table<K(==), V> {
    const hash: K -> nat
    var entries: array?<Entry<K, V>>
    var load: nat

    constructor (hash: K -> nat)
      ensures this.hash == hash && Valid() && Entries() == []
    {
      this.hash := hash;
      entries, load := null, 0;
    }

    ghost function Entries(): seq<Entry<K, V>>
      reads this, entries
    {
      if entries == null then [] else entries[..]
    }

    ghost predicate Valid()
      reads this, entries
    {
      (entries != null ==> entries.Length > 0) && load == LiveCount(Entries())
    }

    method Create(size: nat)
      requires size > 0
      modifies this
      ensures entries != null && fresh(entries) && entries[..] == Vacants(size) && load == 0 && Valid()
    {
      entries := new Entry<K, V>[size](_ => Vacant);
      load := 0;
      assert entries[..] == Vacants(size);
      CountVacant(entries[..]);
    }

    method CreateIfNeeded()
      requires Valid()
      modifies this
      ensures Valid() && entries != null && (entries == old(entries) || fresh(entries))
      ensures Entries() == Created(old(Entries())) && load == old(load)
      ensures if old(entries) == null then load == 0 && entries.Length == STANDARD_SIZE else entries == old(entries)
    {
      if entries == null {
        Create(STANDARD_SIZE);
      }
    }

    method Get(k: K) returns (r: Option<V>)
      requires Valid()
      modifies this
      ensures Valid() && (entries == old(entries) || fresh(entries))
      ensures Entries() == Created(old(Entries())) && r == Lookup(old(Entries()), hash, k)
    {
      CreateIfNeeded();
      var index := hash(k) % entries.Length;
      for offset := 0 to entries.Length
        invariant Valid() && entries != null && Entries() == Created(old(Entries()))
        invariant Find(entries[..], index, k, 0) == Find(entries[..], index, k, offset)
      {
        var lookup := (index + offset) % entries.Length;
        match entries[lookup] {
          case Tombstone =>
          case Vacant => return None;
          case Live(key, value) =>
            if key == k {
              return Some(value);
            }
        }
      }
      r := None;
    }

    method Remove(k: K) returns (removed: bool)
      requires Valid()
      modifies this, entries
      ensures Valid() && (entries == old(entries) || fresh(entries))
      ensures (Entries(), removed) == Removed(old(Entries()), hash, k)
    {
      CreateIfNeeded();
      ghost var es := entries[..];
      var index := hash(k) % entries.Length;
      for offset := 0 to entries.Length
        invariant Valid() && entries != null && entries[..] == es && (entries == old(entries) || fresh(entries))
        invariant Find(es, index, k, 0) == Find(es, index, k, offset)
      {
        var lookup := (index + offset) % entries.Length;
        match entries[lookup] {
          case Tombstone =>
          case Vacant => return false;
          case Live(key, value) =>
            if key == k {
              CountUpdate(es, lookup, Tombstone);
              entries[lookup] := Tombstone;
              load := load - 1;
              assert entries[..] == es[lookup := Tombstone];
              return true;
            }
        }
      }
      removed := false;
    }

    /** Rebuilding adds to a table that is never crowded, so it does not rebuild again. */
    method Add(k: K, v: V) returns (added: bool)
      requires Valid()
      modifies this, entries
      ensures Valid() && entries != null && (entries == old(entries) || fresh(entries))
      ensures (Entries(), added) == Added(old(Entries()), hash, k, v)
      decreases if Crowded(load, if entries == null then STANDARD_SIZE else entries.Length) then 2 else 0
    {
      hide Rebuilt, LiveCount;
      CreateIfNeeded();
      if Crowded(load, entries.Length) {
        Rebuild();
      }
      ghost var es := entries[..];
      var index := hash(k) % entries.Length;
      for offset := 0 to entries.Length
        invariant Valid() && entries != null && entries[..] == es && (entries == old(entries) || fresh(entries))
        invariant FindPlace(es, index, k, 0) == FindPlace(es, index, k, offset)
      {
        var lookup := (index + offset) % entries.Length;
        if !entries[lookup].Live? {
          CountUpdate(es, lookup, Live(k, v));
          entries[lookup] := Live(k, v);
          load := load + 1;
          assert entries[..] == es[lookup := Live(k, v)];
          return true;
        } else if entries[lookup].key == k {
          return false;
        }
      }
      added := false;
    }

    method Rebuild()
      requires Valid() && entries != null
      modifies this
      ensures Valid() && entries != null && fresh(entries)
      ensures Entries() == Rebuilt(old(Entries()), hash)
      decreases 1
    {
      var from := entries;
      ghost var es := from[..];
      Create(2 * from.Length);
      for i := 0 to from.Length
        invariant Valid() && entries != null && fresh(entries) && entries.Length == 2 * from.Length && from[..] == es
        invariant load <= i
        invariant Reinsert(es, i, entries[..], hash) == Rebuilt(es, hash)
      {
        var e := from[i];
        if e.Live? {
          ghost var before := entries[..];
          var added := Add(e.key, e.value);
          InsertCounts(before, hash, e.key, e.value);
        }
      }
    }
  }

  lemma InsertCounts<K, V>(es: seq<Entry<K, V>>, hash: K -> nat, k: K, v: V)
    requires es != []
    ensures LiveCount(Insert(es, hash, k, v).0) <= LiveCount(es) + 1
  {
    var place := FindPlace(es, Home(hash, k, |es|), k, 0);
    if place.Free? {
      CountUpdate(es, place.at, Live(k, v));
    }
  }
}
