/**
 Which keys the capacity limit evicts. The documentation promises that adding a new item to a full mapping deletes the
 item that expires soonest. The code keeps the promise exactly when the heap root is the current entry of its key, is
 less than the new entry, and expires no later than the keys that have no heap entry.
 */
module MappingEviction {
  import opened Wrappers
  import opened EntryOrder
  import opened HeapQueue
  import opened ExpiringMapping
  import opened IndexCoverage
  import opened MappingRuns
  import opened MappingCapacity

  // ----- one insertion into a full mapping -----

  ghost predicate Full<V>(c: Cache<V>, capacity: Option<nat>) {
    capacity.Some? && |c.timestamps| >= capacity.value
  }

  /** No key of the mapping expires before `k`. */
  ghost predicate Soonest<V>(c: Cache<V>, k: string) {
    k in c.timestamps && forall k' :: k' in c.timestamps ==> c.timestamps[k].expiresAt <= c.timestamps[k'].expiresAt
  }

  /** The promise: `key` came in and exactly one key went, one that expired soonest. */
  ghost predicate KeepsPromise<V>(c: Cache<V>, r: Cache<V>, key: string) {
    exists k :: Soonest(c, k) && r.timestamps.Keys == c.timestamps.Keys - {k} + {key}
  }

  /** The heap root gives way to the new entry, and is no orphan. */
  ghost predicate RootGives<V>(c: Cache<V>, capacity: Option<nat>, e: Entry) {
    && Replaces(c, capacity, e.key) && c.sequence != [] && Less(c.sequence[0], e)
    && c.sequence[0].key in c.timestamps && c.timestamps[c.sequence[0].key] == StampOf(c.sequence[0])
  }

  /** An insertion deletes the root's key when the root gives way, and otherwise no key at all. */
  lemma InsertionKeys<V>(c: Cache<V>, capacity: Option<nat>, key: string, value: V, ttl: int, now: int)
    requires key !in c.timestamps
    ensures var e := Entry(now + ttl, now, key);
            Insert(c, capacity, key, value, ttl, now).timestamps.Keys ==
            (if RootGives(c, capacity, e) then c.timestamps.Keys - {c.sequence[0].key} else c.timestamps.Keys) + {key}
  {
    var e, r := Entry(now + ttl, now, key), Insert(c, capacity, key, value, ttl, now);
    if Replaces(c, capacity, key) {
      var dropped := DropIndexed(c, PushPop(c.sequence, e).0);
      assert r.timestamps.Keys == dropped.timestamps.Keys + {key};
    } else {
      assert r.timestamps == c.timestamps[key := StampOf(e)];
    }
  }

  lemma RootExpiresFirst<V>(c: Cache<V>, k: string)
    requires Consistent(c) && k in c.timestamps && k !in Uncovered(c)
    ensures c.sequence != [] && c.sequence[0].expiresAt <= c.timestamps[k].expiresAt
  {
    var i :| 0 <= i < |c.sequence| && c.sequence[i] == EntryOf(c.timestamps[k], k);
    RootIsLeast(c.sequence, i);
  }

  /**
   For every insertion of a new key into a full mapping: the promise is kept iff the root gives way and no key without
   a heap entry expires before it. Otherwise nothing is deleted, or a key that does not expire soonest.
   */
  lemma PromiseKeptIff<V>(c: Cache<V>, capacity: Option<nat>, key: string, value: V, ttl: int, now: int)
    requires Consistent(c) && Full(c, capacity) && key !in c.timestamps
    ensures KeepsPromise(c, Insert(c, capacity, key, value, ttl, now), key) <==>
            && RootGives(c, capacity, Entry(now + ttl, now, key))
            && forall k :: k in Uncovered(c) ==> c.sequence[0].expiresAt <= c.timestamps[k].expiresAt
  {
    var e, r := Entry(now + ttl, now, key), Insert(c, capacity, key, value, ttl, now);
    InsertionKeys(c, capacity, key, value, ttl, now);
    if RootGives(c, capacity, e) {
      var root := c.sequence[0];
      if forall k :: k in Uncovered(c) ==> root.expiresAt <= c.timestamps[k].expiresAt {
        forall k | k in c.timestamps ensures root.expiresAt <= c.timestamps[k].expiresAt {
          if k !in Uncovered(c) { RootExpiresFirst(c, k); }
        }
        assert Soonest(c, root.key);
      }
      if k :| Soonest(c, k) && r.timestamps.Keys == c.timestamps.Keys - {k} + {key} {
        assert k !in r.timestamps.Keys;
        assert k == root.key;
      }
    }
  }

  /** The same for `set`, from a mapping all of whose keys have a heap entry: only the root of the heap decides. */
  lemma SetKeepsPromiseIff<V>(c: Cache<V>, capacity: Option<nat>, key: string, value: V, ttl: int, t0: int, t1: int)
    requires Consistent(c) && Uncovered(c) == {} && key != INDEX
    ensures var (d, r) := (Maintain(c, capacity, t0).0, SetStep(c, capacity, key, value, ttl, t0, t1));
            && r.1 == Ok(())
            && (Full(d, capacity) && key !in d.timestamps ==>
                  (KeepsPromise(d, r.0, key) <==> RootGives(d, capacity, Entry(t1 + ttl, t1, key))))
  {
    MaintenanceRaisesIff(c, capacity, t0);
    var d := Maintain(c, capacity, t0).0;
    if Full(d, capacity) && key !in d.timestamps { PromiseKeptIff(d, capacity, key, value, ttl, t1); }
  }

  /**
   Coverage alone does not keep the promise. With capacity 1, `a` is set for 5 s and again for 10 s, which leaves its
   first entry as an orphan at the root; setting `b` for 20 s only removes that orphan, and both keys are held.
   */
  lemma OrphanRootEvictsNothing()
    ensures var ops := [Op.Set("a", 0, 5, 0, 0), Op.Set("a", 0, 10, 0, 0), Op.Set("b", 0, 20, 0, 0)];
            && Guarded(EmptyCache(), Some(1), ops) && AlwaysCovered(EmptyCache(), Some(1), ops)
            && Run(EmptyCache(), Some(1), ops).0.timestamps == map["a" := Stamp(10, 0), "b" := Stamp(20, 0)]
  {
    var ops := [Op.Set("a", 0, 5, 0, 0), Op.Set("a", 0, 10, 0, 0), Op.Set("b", 0, 20, 0, 0)];
    var first := Cache(map["a" := 0], [Entry(5, 0, "a")], map["a" := Stamp(5, 0)]);
    var second := Cache(map["a" := 0], [Entry(5, 0, "a"), Entry(10, 0, "a")], map["a" := Stamp(10, 0)]);
    var third := Cache(map["a" := 0, "b" := 0], [Entry(10, 0, "a"), Entry(20, 0, "b")],
                       map["a" := Stamp(10, 0), "b" := Stamp(20, 0)]);
    OrphanLeft(first, second);
    OrphanRemoved(second, third);
    assert ops[1..] == [ops[1], ops[2]] && ops[1..][1..] == [ops[2]] && ops[1..][1..][1..] == [];
    assert Uncovered(EmptyCache<int>()) == {} && Uncovered(first) == {} && Uncovered(second) == {};
    EmptySimulates<int>(0);
    CoverageIffGuarded(EmptyCache(), Some(1), ops);
    assert AlwaysCovered(third, Some(1), []);
    assert AlwaysCovered(second, Some(1), [ops[2]]);
    assert AlwaysCovered(first, Some(1), [ops[1], ops[2]]);
    assert Run(second, Some(1), [ops[2]]).0 == third;
    assert Run(first, Some(1), [ops[1], ops[2]]).0 == third;
  }

  lemma OrphanLeft(first: Cache<int>, second: Cache<int>)
    requires first == Cache(map["a" := 0], [Entry(5, 0, "a")], map["a" := Stamp(5, 0)])
    requires second == Cache(map["a" := 0], [Entry(5, 0, "a"), Entry(10, 0, "a")], map["a" := Stamp(10, 0)])
    ensures SetStep(EmptyCache(), Some(1), "a", 0, 5, 0, 0) == (first, Ok(()))
    ensures SetStep(first, Some(1), "a", 0, 10, 0, 0) == (second, Ok(()))
  {
    var empty: Cache<int> := EmptyCache();
    assert Maintain(empty, Some(1), 0) == (empty, Ok(()));
    assert [] + [Entry(5, 0, "a")] == [Entry(5, 0, "a")];
    assert |first.timestamps| == 1;
    assert Maintain(first, Some(1), 0) == (first, Ok(()));
    assert first.sequence + [Entry(10, 0, "a")] == second.sequence;
    assert !Less(Entry(10, 0, "a"), Entry(5, 0, "a"));
    assert Push(first.sequence, Entry(10, 0, "a")) == second.sequence;
    assert first.timestamps["a" := Stamp(10, 0)] == second.timestamps && first.store["a" := 0] == second.store;
    assert Insert(first, Some(1), "a", 0, 10, 0) == second;
  }

  lemma OrphanRemoved(second: Cache<int>, third: Cache<int>)
    requires second == Cache(map["a" := 0], [Entry(5, 0, "a"), Entry(10, 0, "a")], map["a" := Stamp(10, 0)])
    requires third == Cache(map["a" := 0, "b" := 0], [Entry(10, 0, "a"), Entry(20, 0, "b")],
                            map["a" := Stamp(10, 0), "b" := Stamp(20, 0)])
    ensures SetStep(second, Some(1), "b", 0, 20, 0, 0) == (third, Ok(())) && Uncovered(third) == {}
  {
    var e, h := Entry(20, 0, "b"), second.sequence;
    assert |second.timestamps| == 1;
    assert Maintain(second, Some(1), 0) == (second, Ok(()));
    assert [e] + h[1..] == [e, Entry(10, 0, "a")];
    assert SmallerChild([e, Entry(10, 0, "a")], 0) == 1;
    assert Swap([e, Entry(10, 0, "a")], 0, 1) == third.sequence;
    assert SiftDown(third.sequence, 1) == third.sequence;
    assert PushPop(h, e) == (Entry(5, 0, "a"), third.sequence);
    assert DropIndexed(second, Entry(5, 0, "a")) == second;
    assert Entry(10, 0, "a") == third.sequence[0] && e == third.sequence[1];
  }

  // ----- the order of eviction, over runs -----

  /** Each key of `c` that `r` no longer holds expires no later than every key `r` still holds. */
  ghost predicate EvictedSoonest<V>(c: Cache<V>, r: Cache<V>) {
    forall k, k' :: k in c.timestamps && k !in r.timestamps && k' in r.timestamps ==>
                      c.timestamps[k].expiresAt <= r.timestamps[k'].expiresAt
  }

  /** With coverage, maintenance for capacity evicts the keys that expire soonest. */
  lemma {:induction false} MaintenanceEvictsSoonest<V>(c: Cache<V>, capacity: Option<nat>)
    requires Consistent(c) && Uncovered(c) == {}
    ensures EvictedSoonest(c, DropOverCapacity(c, capacity).0)
    decreases |c.sequence|
  {
    if Over(c, capacity) && c.sequence != [] {
      var d, r := DropHead(c), DropOverCapacity(c, capacity).0;
      DropHeadEffect(c);
      DropOverCapacityEffect(d, capacity);
      MaintenanceEvictsSoonest(d, capacity);
      forall k, k' | k in c.timestamps && k !in r.timestamps && k' in r.timestamps
        ensures c.timestamps[k].expiresAt <= r.timestamps[k'].expiresAt
      {
        RootExpiresFirst(c, k');
      }
    }
  }

  /** With coverage, whatever key an insertion deletes expires no later than every key kept, the new one included. */
  lemma InsertionEvictsSoonest<V>(c: Cache<V>, capacity: Option<nat>, key: string, value: V, ttl: int, now: int)
    requires Consistent(c) && Uncovered(c) == {}
    ensures EvictedSoonest(c, Insert(c, capacity, key, value, ttl, now))
  {
    var e, r := Entry(now + ttl, now, key), Insert(c, capacity, key, value, ttl, now);
    if key !in c.timestamps {
      InsertionKeys(c, capacity, key, value, ttl, now);
      forall k, k' | k in c.timestamps && k !in r.timestamps && k' in r.timestamps
        ensures c.timestamps[k].expiresAt <= r.timestamps[k'].expiresAt
      {
        assert k !in r.timestamps.Keys && k == c.sequence[0].key;
        if k' != key { RootExpiresFirst(c, k'); }
      }
    }
  }

  /** What the capacity limit evicts in one operation goes in the order of expiry. */
  ghost predicate StepEvictsSoonest<V>(c: Cache<V>, capacity: Option<nat>, op: Op<V>) {
    match op
    case Set(key, value, ttl, t0, t1) =>
      key != INDEX ==>
        && EvictedSoonest(DropExpired(c, t0), Maintain(c, capacity, t0).0)
        && EvictedSoonest(Maintain(c, capacity, t0).0, SetStep(c, capacity, key, value, ttl, t0, t1).0)
    case Length(at) => EvictedSoonest(DropExpired(c, at), Maintain(c, capacity, at).0)
    case Keys(at) => EvictedSoonest(DropExpired(c, at), Maintain(c, capacity, at).0)
    case _ => true
  }

  ghost predicate AlwaysEvictsSoonest<V>(c: Cache<V>, capacity: Option<nat>, ops: seq<Op<V>>)
    decreases |ops|
  {
    ops != [] ==>
      && StepEvictsSoonest(c, capacity, ops[0])
      && AlwaysEvictsSoonest(Step(c, capacity, ops[0]).0, capacity, ops[1..])
  }

  lemma CoveredMaintenance<V>(c: Cache<V>, capacity: Option<nat>, at: int)
    requires Consistent(c) && Uncovered(c) == {}
    ensures EvictedSoonest(DropExpired(c, at), Maintain(c, capacity, at).0)
    ensures var (d, e) := Maintain(c, capacity, at); e.Ok? && Consistent(d) && Uncovered(d) == {}
  {
    DropExpiredEffect(c, at);
    MaintenanceEvictsSoonest(DropExpired(c, at), capacity);
    MaintenanceRaisesIff(c, capacity, at);
  }

  lemma CoveredStep<V>(c: Cache<V>, capacity: Option<nat>, op: Op<V>)
    requires Consistent(c) && Uncovered(c) == {}
    ensures StepEvictsSoonest(c, capacity, op)
  {
    match op
    case Set(key, value, ttl, t0, t1) =>
      CoveredMaintenance(c, capacity, t0);
      InsertionEvictsSoonest(Maintain(c, capacity, t0).0, capacity, key, value, ttl, t1);
    case Length(at) => CoveredMaintenance(c, capacity, at);
    case Keys(at) => CoveredMaintenance(c, capacity, at);
    case _ =>
  }

  /** Over every guarded run, for any capacity and clock, the capacity limit always evicts in the order of expiry. */
  lemma {:induction false} GuardedRunsEvictSoonest<V>(c: Cache<V>, capacity: Option<nat>, ops: seq<Op<V>>)
    requires Consistent(c) && Uncovered(c) == {} && Guarded(c, capacity, ops)
    ensures AlwaysEvictsSoonest(c, capacity, ops)
    decreases |ops|
  {
    if ops != [] {
      CoveredStep(c, capacity, ops[0]);
      StepCoverage(c, capacity, ops[0]);
      GuardedRunsEvictSoonest(Step(c, capacity, ops[0]).0, capacity, ops[1..]);
    }
  }
}
