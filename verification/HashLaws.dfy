/**
  The hash table refines a finite map, and exactly when adding does not.
*/
module HashLaws {
  import opened Word64
  import opened HashMap

  predicate Distinct<K(==), V>(es: seq<Entry<K, V>>) {
    forall i, j :: 0 <= i < |es| && 0 <= j < |es| && es[i].Live? && es[j].Live? && es[i].key == es[j].key ==> i == j
  }

  /** Nothing vacant lies on the way from the home of `k` to slot `at`. */
  predicate PathTaken<K, V>(es: seq<Entry<K, V>>, home: nat, at: nat)
    requires home < |es| && at < |es|
  {
    forall o :: 0 <= o < Distance(home, at, |es|) ==> es[Slot(home, o, |es|)] != Vacant
  }

  /** The invariant of a table: distinct live keys, each reachable from its home. */
  ghost predicate WellPlaced<K, V>(es: seq<Entry<K, V>>, hash: K -> nat) {
    Distinct(es) && forall at :: 0 <= at < |es| && es[at].Live? ==> PathTaken(es, Home(hash, es[at].key, |es|), at)
  }

  ghost predicate HasKey<K, V>(es: seq<Entry<K, V>>, k: K) {
    exists i :: 0 <= i < |es| && es[i].Live? && es[i].key == k
  }

  /** The live entries are the bindings of `m`. */
  ghost predicate Represents<K, V>(es: seq<Entry<K, V>>, m: map<K, V>) {
    && (forall i :: 0 <= i < |es| && es[i].Live? ==> es[i].key in m && m[es[i].key] == es[i].value)
    && (forall k :: k in m ==> HasKey(es, k))
  }

  lemma RepresentsOne<K, V>(es: seq<Entry<K, V>>, m: map<K, V>, m': map<K, V>)
    requires Represents(es, m) && Represents(es, m')
    ensures m == m'
  {
  }

  // ----- probing -----

  lemma ModOnce(x: nat, d: nat)
    requires x < d
    ensures (x + d) % d == x
  {
  }

  lemma SlotDistance(home: nat, at: nat, capacity: nat)
    requires home < capacity && at < capacity
    ensures Distance(home, at, capacity) < capacity
    ensures Slot(home, Distance(home, at, capacity), capacity) == at
  {
  }

  lemma SlotOnce(home: nat, o: nat, capacity: nat)
    requires home < capacity && o < capacity
    ensures Distance(home, Slot(home, o, capacity), capacity) == o
  {
    if home + o >= capacity {
      ModOnce(home + o - capacity, capacity);
    }
  }

  /** A reachable live key is found, wherever the probe stands on its path. */
  lemma {:induction false} FindsLive<K, V>(es: seq<Entry<K, V>>, home: nat, at: nat, offset: nat)
    requires home < |es| && at < |es| && es[at].Live? && Distinct(es) && PathTaken(es, home, at)
    requires offset <= Distance(home, at, |es|)
    ensures Find(es, home, es[at].key, offset) == Some(at)
    decreases Distance(home, at, |es|) - offset
  {
    SlotDistance(home, at, |es|);
    if offset < Distance(home, at, |es|) {
      SlotOnce(home, offset, |es|);
      FindsLive(es, home, at, offset + 1);
    }
  }

  lemma {:induction false} PlaceBefore<K, V>(es: seq<Entry<K, V>>, home: nat, at: nat, k: K, offset: nat)
    requires home < |es| && at < |es| && offset <= Distance(home, at, |es|)
    requires !es[at].Live? || es[at].key == k
    ensures FindPlace(es, home, k, offset) != Full
    decreases Distance(home, at, |es|) - offset
  {
    SlotDistance(home, at, |es|);
    if offset < Distance(home, at, |es|) {
      PlaceBefore(es, home, at, k, offset + 1);
    }
  }

  /** A free place lies behind live slots with other keys only. */
  lemma {:induction false} PlacePath<K, V>(es: seq<Entry<K, V>>, home: nat, k: K, offset: nat)
    requires home < |es| && FindPlace(es, home, k, offset).Free?
    ensures var at := FindPlace(es, home, k, offset).at;
            && offset <= Distance(home, at, |es|)
            && forall o :: offset <= o < Distance(home, at, |es|) ==>
                 es[Slot(home, o, |es|)].Live? && es[Slot(home, o, |es|)].key != k
    decreases |es| - offset
  {
    SlotOnce(home, offset, |es|);
    if es[Slot(home, offset, |es|)].Live? {
      PlacePath(es, home, k, offset + 1);
    }
  }

  lemma {:induction false} PresentIsLive<K, V>(es: seq<Entry<K, V>>, home: nat, k: K, offset: nat) returns (at: nat)
    requires home < |es| && FindPlace(es, home, k, offset).Present?
    ensures at < |es| && es[at].Live? && es[at].key == k && offset <= Distance(home, at, |es|)
    ensures forall o :: offset <= o < Distance(home, at, |es|) ==> es[Slot(home, o, |es|)].Live?
    decreases |es| - offset
  {
    at := Slot(home, offset, |es|);
    SlotOnce(home, offset, |es|);
    if es[at].key != k {
      at := PresentIsLive(es, home, k, offset + 1);
    }
  }

  // ----- one update -----

  lemma VacantTable<K, V>(n: nat, hash: K -> nat)
    ensures var es: seq<Entry<K, V>> := Vacants(n); WellPlaced(es, hash) && Represents(es, map[])
  {
  }

  lemma CreatedKeeps<K, V>(es: seq<Entry<K, V>>, hash: K -> nat, m: map<K, V>)
    requires WellPlaced(es, hash) && Represents(es, m)
    ensures WellPlaced(Created(es), hash) && Represents(Created(es), m)
  {
  }

  /** Filling the place the probe stopped at keeps everything reachable. */
  lemma FilledOk<K, V>(es: seq<Entry<K, V>>, hash: K -> nat, m: map<K, V>, k: K, v: V)
    requires es != [] && WellPlaced(es, hash) && Represents(es, m) && k !in m
    requires FindPlace(es, Home(hash, k, |es|), k, 0).Free?
    ensures var es' := es[FindPlace(es, Home(hash, k, |es|), k, 0).at := Live(k, v)];
            WellPlaced(es', hash) && Represents(es', m[k := v])
  {
    var home := Home(hash, k, |es|);
    var at := FindPlace(es, home, k, 0).at;
    var es' := es[at := Live(k, v)];
    PlacePath(es, home, k, 0);
    forall p | 0 <= p < |es'| && es'[p].Live?
      ensures PathTaken(es', Home(hash, es'[p].key, |es'|), p)
    {
      if p != at {
        assert PathTaken(es, Home(hash, es[p].key, |es|), p);
      }
    }
    forall k' | k' in m[k := v]
      ensures HasKey(es', k')
    {
      if k' == k {
        assert es'[at].key == k;
      } else {
        var i :| 0 <= i < |es| && es[i].Live? && es[i].key == k';
        assert es'[i].key == k';
      }
    }
  }

  /** A tombstone hides one binding and keeps every path taken. */
  lemma ClearedOk<K, V>(es: seq<Entry<K, V>>, hash: K -> nat, m: map<K, V>, at: nat)
    requires WellPlaced(es, hash) && Represents(es, m) && at < |es| && es[at].Live?
    ensures WellPlaced(es[at := Tombstone], hash) && Represents(es[at := Tombstone], m - {es[at].key})
  {
    var es' := es[at := Tombstone];
    forall p | 0 <= p < |es'| && es'[p].Live?
      ensures PathTaken(es', Home(hash, es'[p].key, |es'|), p)
    {
      assert PathTaken(es, Home(hash, es[p].key, |es|), p);
    }
    forall k | k in m - {es[at].key}
      ensures HasKey(es', k)
    {
      var i :| 0 <= i < |es| && es[i].Live? && es[i].key == k;
      assert es'[i].key == k;
    }
  }

  // ----- the operations -----

  lemma FindExact<K, V>(es: seq<Entry<K, V>>, hash: K -> nat, m: map<K, V>, k: K)
    requires es != [] && WellPlaced(es, hash) && Represents(es, m)
    ensures Find(es, Home(hash, k, |es|), k, 0).Some? <==> k in m
  {
    if k in m {
      var at :| 0 <= at < |es| && es[at].Live? && es[at].key == k;
      FindsLive(es, Home(hash, k, |es|), at, 0);
    }
  }

  /** `get` returns exactly the binding of the map. */
  lemma LookupExact<K, V>(es: seq<Entry<K, V>>, hash: K -> nat, m: map<K, V>, k: K)
    requires WellPlaced(es, hash) && Represents(es, m)
    ensures Lookup(es, hash, k) == if k in m then Some(m[k]) else None
  {
    hide WellPlaced, Find;
    CreatedKeeps(es, hash, m);
    FindExact(Created(es), hash, m, k);
  }

  /** `remove` succeeds exactly on the keys of the map and removes only that binding. */
  lemma RemoveExact<K, V>(es: seq<Entry<K, V>>, hash: K -> nat, m: map<K, V>, k: K)
    requires WellPlaced(es, hash) && Represents(es, m)
    ensures var r := Removed(es, hash, k);
            (r.1 <==> k in m) && WellPlaced(r.0, hash) && Represents(r.0, m - {k})
  {
    hide WellPlaced, Represents, Find;
    CreatedKeeps(es, hash, m);
    var es1 := Created(es);
    FindExact(es1, hash, m, k);
    var found := Find(es1, Home(hash, k, |es1|), k, 0);
    if found.Some? {
      ClearedOk(es1, hash, m, found.value);
    } else {
      assert m - {k} == m;
    }
  }

  lemma InsertAbsent<K, V>(es: seq<Entry<K, V>>, hash: K -> nat, m: map<K, V>, k: K, v: V)
    requires es != [] && WellPlaced(es, hash) && Represents(es, m) && k !in m && LiveCount(es) < |es|
    ensures var r := Insert(es, hash, k, v);
            r.1 && WellPlaced(r.0, hash) && Represents(r.0, m[k := v])
  {
    hide WellPlaced, FindPlace;
    var home := Home(hash, k, |es|);
    var gap := CountBelow(es);
    PlaceBefore(es, home, gap, k, 0);
    if FindPlace(es, home, k, 0).Present? {
      var at := PresentIsLive(es, home, k, 0);
    }
    FilledOk(es, hash, m, k, v);
  }

  predicate NoTombstones<K, V>(es: seq<Entry<K, V>>) {
    forall i :: 0 <= i < |es| ==> !es[i].Tombstone?
  }

  lemma {:induction false} ReinsertExact<K, V>(old_: seq<Entry<K, V>>, i: nat, es: seq<Entry<K, V>>, hash: K -> nat,
                                               done: map<K, V>)
    requires i <= |old_| < |es| && Distinct(old_) && LiveCount(es) <= i
    requires Represents(old_[..i], done) && Represents(es, done) && WellPlaced(es, hash) && NoTombstones(es)
    ensures var r := Reinsert(old_, i, es, hash);
            WellPlaced(r, hash) && NoTombstones(r) && exists m :: Represents(old_, m) && Represents(r, m)
    decreases |old_| - i
  {
    hide WellPlaced;
    if i == |old_| {
      assert old_[..i] == old_;
    } else if old_[i].Live? {
      var k, v := old_[i].key, old_[i].value;
      assert k !in done;
      InsertAbsent(es, hash, done, k, v);
      InsertCounts(es, hash, k, v);
      PrefixGrows(old_, i, done);
      ReinsertExact(old_, i + 1, Insert(es, hash, k, v).0, hash, done[k := v]);
    } else {
      PrefixGrows(old_, i, done);
      ReinsertExact(old_, i + 1, es, hash, done);
    }
  }

  lemma PrefixGrows<K, V>(es: seq<Entry<K, V>>, i: nat, m: map<K, V>)
    requires i < |es| && Represents(es[..i], m) && (es[i].Live? ==> es[i].key !in m)
    ensures Represents(es[..i + 1], if es[i].Live? then m[es[i].key := es[i].value] else m)
  {
  }

  /** Rebuilding keeps exactly the bindings, and no tombstone survives. */
  lemma RebuildExact<K, V>(es: seq<Entry<K, V>>, hash: K -> nat, m: map<K, V>)
    requires es != [] && WellPlaced(es, hash) && Represents(es, m)
    ensures var r := Rebuilt(es, hash);
            WellPlaced(r, hash) && Represents(r, m) && NoTombstones(r)
  {
    var fresh_: seq<Entry<K, V>> := Vacants(2 * |es|);
    VacantTable<K, V>(2 * |es|, hash);
    CountVacant(fresh_);
    assert es[..0] == [];
    ReinsertExact(es, 0, fresh_, hash, map[]);
    var m' :| Represents(es, m') && Represents(Rebuilt(es, hash), m');
    RepresentsOne(es, m, m');
  }

  /** Every slot on the way to the live key is live: no removal left a gap before it. */
  ghost predicate NoGapBefore<K, V>(es: seq<Entry<K, V>>, hash: K -> nat, k: K)
    requires es != []
  {
    forall at, o :: 0 <= at < |es| && es[at].Live? && es[at].key == k &&
                    0 <= o < Distance(Home(hash, k, |es|), at, |es|) ==>
      es[Slot(Home(hash, k, |es|), o, |es|)].Live?
  }

  /** Adding a key that is present is refused exactly when no tombstone comes before it;
      otherwise the table gets a second entry for the key. */
  lemma InsertPresent<K, V>(es: seq<Entry<K, V>>, hash: K -> nat, m: map<K, V>, k: K, v: V)
    requires es != [] && WellPlaced(es, hash) && Represents(es, m) && k in m
    ensures var r := Insert(es, hash, k, v);
            && (!r.1 <==> NoGapBefore(es, hash, k))
            && (!r.1 ==> r.0 == es)
            && (r.1 ==> !Distinct(r.0))
  {
    var home := Home(hash, k, |es|);
    var at :| 0 <= at < |es| && es[at].Live? && es[at].key == k;
    PlaceBefore(es, home, at, k, 0);
    if FindPlace(es, home, k, 0).Present? {
      var p := PresentIsLive(es, home, k, 0);
      assert p == at;
    } else {
      var free := FindPlace(es, home, k, 0).at;
      GapBefore(es, home, at, k);
      var es' := es[free := Live(k, v)];
      assert es'[at].key == k && es'[free].key == k && at != free;
    }
  }

  lemma GapBefore<K, V>(es: seq<Entry<K, V>>, home: nat, at: nat, k: K)
    requires home < |es| && at < |es| && es[at].Live? && es[at].key == k && FindPlace(es, home, k, 0).Free?
    ensures exists o :: 0 <= o < Distance(home, at, |es|) && !es[Slot(home, o, |es|)].Live?
  {
    var free := FindPlace(es, home, k, 0).at;
    PlacePath(es, home, k, 0);
    SlotDistance(home, at, |es|);
    SlotDistance(home, free, |es|);
    var o := Distance(home, free, |es|);
    assert !es[Slot(home, o, |es|)].Live?;
  }

  /** `add` of an absent key always succeeds and extends the map; of a present key it is
      refused, leaving the map alone, exactly when no gap precedes it in the table probed. */
  lemma AddExact<K, V>(es: seq<Entry<K, V>>, hash: K -> nat, m: map<K, V>, k: K, v: V)
    requires WellPlaced(es, hash) && Represents(es, m)
    ensures var r := Added(es, hash, k, v);
            var crowded := Crowded(LiveCount(Created(es)), |Created(es)|);
            && (k !in m ==> r.1 && WellPlaced(r.0, hash) && Represents(r.0, m[k := v]))
            && (k in m ==> (!r.1 <==> crowded || NoGapBefore(Created(es), hash, k)))
            && (k in m && !r.1 ==> WellPlaced(r.0, hash) && Represents(r.0, m))
            && (k in m && r.1 ==> !Distinct(r.0))
  {
    hide WellPlaced, Represents, Insert, Rebuilt, NoGapBefore, Distinct;
    CreatedKeeps(es, hash, m);
    var es1 := Created(es);
    if Crowded(LiveCount(es1), |es1|) {
      RebuildExact(es1, hash, m);
      var es2 := Rebuilt(es1, hash);
      RebuiltCount(es1, hash);
      if k in m {
        InsertPresent(es2, hash, m, k, v);
        SolidPath(es2, hash, k);
      } else {
        InsertAbsent(es2, hash, m, k, v);
      }
    } else if k in m {
      InsertPresent(es1, hash, m, k, v);
    } else {
      InsertAbsent(es1, hash, m, k, v);
    }
  }

  lemma SolidPath<K, V>(es: seq<Entry<K, V>>, hash: K -> nat, k: K)
    requires es != [] && WellPlaced(es, hash) && NoTombstones(es)
    ensures NoGapBefore(es, hash, k)
  {
  }

  lemma {:induction false} ReinsertCount<K, V>(old_: seq<Entry<K, V>>, i: nat, es: seq<Entry<K, V>>, hash: K -> nat)
    requires es != [] && i <= |old_| && LiveCount(es) <= i
    ensures LiveCount(Reinsert(old_, i, es, hash)) <= |old_|
    decreases |old_| - i
  {
    hide Insert;
    if i < |old_| {
      if old_[i].Live? {
        InsertCounts(es, hash, old_[i].key, old_[i].value);
        ReinsertCount(old_, i + 1, Insert(es, hash, old_[i].key, old_[i].value).0, hash);
      } else {
        ReinsertCount(old_, i + 1, es, hash);
      }
    }
  }

  lemma RebuiltCount<K, V>(es: seq<Entry<K, V>>, hash: K -> nat)
    requires es != []
    ensures LiveCount(Rebuilt(es, hash)) < |Rebuilt(es, hash)|
  {
    var fresh_: seq<Entry<K, V>> := Vacants(2 * |es|);
    CountVacant(fresh_);
    ReinsertCount(es, 0, fresh_, hash);
  }

  /** The table starts with sixteen slots and doubles exactly when more than three quarters of them
      are live: behind an addition at most one slot more than three quarters is. */
  lemma AddedCapacity<K, V>(es: seq<Entry<K, V>>, hash: K -> nat, k: K, v: V)
    ensures var es' := Added(es, hash, k, v).0;
            && |es'| == (if es == [] then 16 else if 4 * LiveCount(es) > 3 * |es| then 2 * |es| else |es|)
            && 4 * (LiveCount(es') - 1) <= 3 * |es'|
  {
    if es == [] {
      CountVacant(Vacants<K, V>(16));
    }
    var es1 := Created(es);
    var es2 := if Crowded(LiveCount(es1), |es1|) then Rebuilt(es1, hash) else es1;
    if Crowded(LiveCount(es1), |es1|) {
      CountVacant(Vacants<K, V>(2 * |es1|));
      ReinsertCount(es1, 0, Vacants(2 * |es1|), hash);
    }
    InsertCounts(es2, hash, k, v);
    hide Insert, LiveCount, Reinsert;
  }

  // ----- whole histories -----

  datatype Command<+K, +V> = Put(key: K, value: V) | Delete(key: K)

  /** What a command makes of the map; adding a bound key is refused. */
  function NextMap<K, V>(m: map<K, V>, c: Command<K, V>): map<K, V> {
    match c
    case Put(k, v) => if k in m then m else m[k := v]
    case Delete(k) => m - {k}
  }

  function NextTable<K(==), V>(es: seq<Entry<K, V>>, hash: K -> nat, c: Command<K, V>): seq<Entry<K, V>> {
    match c
    case Put(k, v) => Added(es, hash, k, v).0
    case Delete(k) => Removed(es, hash, k).0
  }

  function MapAfter<K, V>(m: map<K, V>, cs: seq<Command<K, V>>): map<K, V>
    decreases |cs|
  {
    if cs == [] then m else MapAfter(NextMap(m, cs[0]), cs[1..])
  }

  function TableAfter<K(==), V>(es: seq<Entry<K, V>>, hash: K -> nat, cs: seq<Command<K, V>>): seq<Entry<K, V>>
    decreases |cs|
  {
    if cs == [] then es else TableAfter(NextTable(es, hash, cs[0]), hash, cs[1..])
  }

  ghost predicate Refines<K, V>(es: seq<Entry<K, V>>, hash: K -> nat, m: map<K, V>) {
    WellPlaced(es, hash) && Represents(es, m)
  }

  /** The table refines the map after every command of the history. */
  ghost predicate Faithful<K, V>(es: seq<Entry<K, V>>, hash: K -> nat, m: map<K, V>, cs: seq<Command<K, V>>)
    decreases |cs|
  {
    Refines(es, hash, m) && (cs == [] || Faithful(NextTable(es, hash, cs[0]), hash, NextMap(m, cs[0]), cs[1..]))
  }

  /** A bound key is only added again where the probe meets it before a gap. */
  ghost predicate Safe<K, V>(es: seq<Entry<K, V>>, hash: K -> nat, m: map<K, V>, c: Command<K, V>) {
    c.Put? && c.key in m ==> Crowded(LiveCount(Created(es)), |Created(es)|) || NoGapBefore(Created(es), hash, c.key)
  }

  ghost predicate AllSafe<K, V>(es: seq<Entry<K, V>>, hash: K -> nat, m: map<K, V>, cs: seq<Command<K, V>>)
    decreases |cs|
  {
    cs == [] || (Safe(es, hash, m, cs[0]) && AllSafe(NextTable(es, hash, cs[0]), hash, NextMap(m, cs[0]), cs[1..]))
  }

  lemma CommandExact<K, V>(es: seq<Entry<K, V>>, hash: K -> nat, m: map<K, V>, c: Command<K, V>)
    requires Refines(es, hash, m)
    ensures Refines(NextTable(es, hash, c), hash, NextMap(m, c)) <==> Safe(es, hash, m, c)
  {
    hide Represents, Added, Removed, NoGapBefore, Distinct, PathTaken;
    match c
    case Put(k, v) => AddExact(es, hash, m, k, v);
    case Delete(k) => RemoveExact(es, hash, m, k);
  }

  /** Over every history of additions and removals, rebuilds and refused additions included, the
      table refines the map exactly when no bound key is added again behind a gap. */
  lemma {:induction false} HistoryExact<K, V>(es: seq<Entry<K, V>>, hash: K -> nat, m: map<K, V>,
                                              cs: seq<Command<K, V>>)
    requires Refines(es, hash, m)
    ensures Faithful(es, hash, m, cs) <==> AllSafe(es, hash, m, cs)
    decreases |cs|
  {
    hide Refines, Safe, NextTable, NextMap;
    if cs != [] {
      CommandExact(es, hash, m, cs[0]);
      if Safe(es, hash, m, cs[0]) {
        HistoryExact(NextTable(es, hash, cs[0]), hash, NextMap(m, cs[0]), cs[1..]);
      }
    }
  }

  /** Behind such a history the table answers as the map does. */
  lemma {:induction false} HistoryAnswers<K, V>(es: seq<Entry<K, V>>, hash: K -> nat, m: map<K, V>,
                                                cs: seq<Command<K, V>>, k: K)
    requires Refines(es, hash, m) && AllSafe(es, hash, m, cs)
    ensures var m' := MapAfter(m, cs);
            Lookup(TableAfter(es, hash, cs), hash, k) == if k in m' then Some(m'[k]) else None
    decreases |cs|
  {
    hide Lookup, Safe, NextTable, NextMap, WellPlaced, Represents;
    if cs == [] {
      LookupExact(es, hash, m, k);
    } else {
      CommandExact(es, hash, m, cs[0]);
      HistoryAnswers(NextTable(es, hash, cs[0]), hash, NextMap(m, cs[0]), cs[1..], k);
    }
  }

  /** No key is added while it is bound. */
  predicate AddsAbsent<K, V>(m: map<K, V>, cs: seq<Command<K, V>>)
    decreases |cs|
  {
    cs == [] || ((cs[0].Put? ==> cs[0].key !in m) && AddsAbsent(NextMap(m, cs[0]), cs[1..]))
  }

  /** Who only adds absent keys is safe. */
  lemma AbsentSafe<K, V>(es: seq<Entry<K, V>>, hash: K -> nat, m: map<K, V>, cs: seq<Command<K, V>>)
    requires AddsAbsent(m, cs)
    ensures AllSafe(es, hash, m, cs)
    decreases |cs|
  {
    if cs != [] {
      AbsentSafe(NextTable(es, hash, cs[0]), hash, NextMap(m, cs[0]), cs[1..]);
    }
  }

  /** Adding where the home of the key is free, or the slot behind it. */
  lemma AddedNear<K, V>(es: seq<Entry<K, V>>, hash: K -> nat, k: K, v: V)
    requires |es| == STANDARD_SIZE && LiveCount(es) <= 2
    ensures var home := Home(hash, k, |es|);
            && (!es[home].Live? ==> Added(es, hash, k, v).0 == es[home := Live(k, v)])
            && (es[home].Live? && es[home].key != k && !es[Slot(home, 1, |es|)].Live? ==>
                  Added(es, hash, k, v).0 == es[Slot(home, 1, |es|) := Live(k, v)])
  {
    hide LiveCount;
    var home := Home(hash, k, |es|);
    assert Slot(home, 0, |es|) == home;
    if es[home].Live? && es[home].key != k && !es[Slot(home, 1, |es|)].Live? {
      assert FindPlace(es, home, k, 1) == Free(Slot(home, 1, |es|));
    }
  }

  lemma RemovedHome<K, V>(es: seq<Entry<K, V>>, hash: K -> nat, k: K)
    requires |es| == STANDARD_SIZE && es[Home(hash, k, |es|)].Live? && es[Home(hash, k, |es|)].key == k
    ensures Removed(es, hash, k).0 == es[Home(hash, k, |es|) := Tombstone]
  {
    var home := Home(hash, k, |es|);
    assert Slot(home, 0, |es|) == home;
  }

  lemma OneCommand<K, V>(es: seq<Entry<K, V>>, hash: K -> nat, c: Command<K, V>, cs: seq<Command<K, V>>)
    ensures TableAfter(es, hash, [c] + cs) == TableAfter(NextTable(es, hash, c), hash, cs)
  {
    hide NextTable;
    assert ([c] + cs)[1..] == cs;
  }

  /** Two colliding keys, the first removed and the second added again: it is stored twice. */
  lemma StoredTwice<K, V>(hash: K -> nat, j: K, k: K, u: V, v: V, w: V)
    requires j != k && hash(j) % 16 == hash(k) % 16
    ensures var es := TableAfter([], hash, [Put(j, u)] + ([Put(k, v)] + ([Delete(j)] + ([Put(k, w)] + []))));
            && |es| == 16 && !Distinct(es)
            && es[hash(k) % 16] == Live(k, w) && es[(hash(k) % 16 + 1) % 16] == Live(k, v)
  {
    hide Added, Removed, LiveCount, TableAfter;
    var home, next := Home(hash, k, STANDARD_SIZE), Slot(Home(hash, k, STANDARD_SIZE), 1, STANDARD_SIZE);
    var es0: seq<Entry<K, V>> := Vacants(STANDARD_SIZE);
    CountVacant(es0);
    FirstAdded(hash, j, u);
    var es1 := es0[home := Live(j, u)];
    CountUpdate(es0, home, Live(j, u));
    AddedNear(es1, hash, k, v);
    var es2 := es1[next := Live(k, v)];
    CountUpdate(es1, next, Live(k, v));
    RemovedHome(es2, hash, j);
    var es3 := es2[home := Tombstone];
    CountUpdate(es2, home, Tombstone);
    AddedNear(es3, hash, k, w);
    OneCommand([], hash, Put(j, u), [Put(k, v)] + ([Delete(j)] + ([Put(k, w)] + [])));
    OneCommand(es1, hash, Put(k, v), [Delete(j)] + ([Put(k, w)] + []));
    OneCommand(es2, hash, Delete(j), [Put(k, w)] + []);
    OneCommand(es3, hash, Put(k, w), []);
    var end := es3[home := Live(k, w)];
    NoCommand(end, hash);
    assert end[home].key == end[next].key && home != next;
  }

  lemma NoCommand<K, V>(es: seq<Entry<K, V>>, hash: K -> nat)
    ensures TableAfter(es, hash, []) == es
  {
  }

  lemma FirstAdded<K, V>(hash: K -> nat, k: K, v: V)
    ensures var es: seq<Entry<K, V>> := Vacants(STANDARD_SIZE);
            Added([], hash, k, v).0 == es[Home(hash, k, STANDARD_SIZE) := Live(k, v)]
  {
    var es: seq<Entry<K, V>> := Vacants(STANDARD_SIZE);
    CountVacant(es);
    AddedNear(es, hash, k, v);
  }
}
