/**
 The capacity limit: when the index keeps covering every key, how many keys are held, and what
 happens once more keys have lost their heap entry than the capacity allows.
 */
module MappingCapacity {
  import opened Wrappers
  import opened EntryOrder
  import opened HeapQueue
  import opened ExpiringMapping
  import opened IndexCoverage
  import opened MappingRuns

  /** The operation is not an insertion into a full mapping whose heap root exceeds the new entry. */
  ghost predicate Guard<V>(c: Cache<V>, capacity: Option<nat>, op: Op<V>) {
    op.Set? && op.key != INDEX ==>
      !LeavesUncovered(Maintain(c, capacity, op.t0).0, capacity, Entry(op.t1 + op.ttl, op.t1, op.key))
  }

  ghost predicate Guarded<V>(c: Cache<V>, capacity: Option<nat>, ops: seq<Op<V>>)
    decreases |ops|
  {
    ops != [] ==> Guard(c, capacity, ops[0]) && Guarded(Step(c, capacity, ops[0]).0, capacity, ops[1..])
  }

  /** Every state of the run has a heap entry for every key it holds. */
  ghost predicate AlwaysCovered<V>(c: Cache<V>, capacity: Option<nat>, ops: seq<Op<V>>)
    decreases |ops|
  {
    && Uncovered(c) == {}
    && (ops != [] ==> AlwaysCovered(Step(c, capacity, ops[0]).0, capacity, ops[1..]))
  }

  ghost predicate Raises<V>(obs: Obs<V>) {
    obs == Stored(Err(IndexError)) || obs == Counted(Err(IndexError)) || obs == Listed(Err(IndexError))
  }

  lemma SetCoverage<V>(c: Cache<V>, capacity: Option<nat>, key: string, value: V, ttl: int, t0: int, t1: int)
    requires Consistent(c) && Uncovered(c) == {}
    ensures var (r, e) := SetStep(c, capacity, key, value, ttl, t0, t1);
            && Consistent(r) && e != Err(IndexError)
            && (Uncovered(r) == {} <==> Guard(c, capacity, Set(key, value, ttl, t0, t1)))
  {
    MaintenanceRaisesIff(c, capacity, t0);
    if key != INDEX { InsertCoverage(Maintain(c, capacity, t0).0, capacity, key, value, ttl, t1); }
  }

  lemma ForgetKeepsCoverage<V>(c: Cache<V>, key: string, at: int)
    requires Consistent(c) && Uncovered(c) == {}
    ensures Consistent(GetStep(c, key, at).0) && Uncovered(GetStep(c, key, at).0) == {}
    ensures Consistent(DeleteStep(c, key).0) && Uncovered(DeleteStep(c, key).0) == {}
  {
    ForgetCoverage(c, key);
  }

  lemma StepCoverage<V>(c: Cache<V>, capacity: Option<nat>, op: Op<V>)
    requires Consistent(c) && Uncovered(c) == {}
    ensures var (r, obs) := Step(c, capacity, op);
            Consistent(r) && (Uncovered(r) == {} <==> Guard(c, capacity, op)) && !Raises(obs)
  {
    match op
    case Set(key, value, ttl, t0, t1) => SetCoverage(c, capacity, key, value, ttl, t0, t1);
    case Get(key, at) => ForgetKeepsCoverage(c, key, at);
    case Delete(key) => ForgetKeepsCoverage(c, key, 0);
    case Length(at) => MaintenanceRaisesIff(c, capacity, at);
    case Keys(at) => MaintenanceRaisesIff(c, capacity, at);
  }

  /** For every run, clock and capacity: coverage holds throughout iff every step meets its guard. */
  lemma {:induction false} CoverageIffGuarded<V>(c: Cache<V>, capacity: Option<nat>, ops: seq<Op<V>>)
    requires Consistent(c) && Uncovered(c) == {}
    ensures AlwaysCovered(c, capacity, ops) <==> Guarded(c, capacity, ops)
    decreases |ops|
  {
    if ops != [] {
      var r := Step(c, capacity, ops[0]).0;
      StepCoverage(c, capacity, ops[0]);
      if Guard(c, capacity, ops[0]) { CoverageIffGuarded(r, capacity, ops[1..]); }
    }
  }

  /** A guarded run never raises IndexError, whatever the clock does. */
  lemma {:induction false} GuardedNeverRaises<V>(c: Cache<V>, capacity: Option<nat>, ops: seq<Op<V>>, i: nat)
    requires Consistent(c) && Uncovered(c) == {} && Guarded(c, capacity, ops) && i < |ops|
    ensures !Raises(Run(c, capacity, ops).1[i])
    decreases |ops|
  {
    StepCoverage(c, capacity, ops[0]);
    if i > 0 { GuardedNeverRaises(Step(c, capacity, ops[0]).0, capacity, ops[1..], i - 1); }
  }

  /** At most one key above the capacity after a set, none after len or iter, on every run that does not raise. */
  lemma SizeBounds<V>(c: Cache<V>, capacity: Option<nat>, key: string, value: V, ttl: int, t0: int, t1: int)
    requires capacity.Some?
    ensures var (r, e) := SetStep(c, capacity, key, value, ttl, t0, t1);
            e.Ok? ==> |r.timestamps| <= capacity.value + 1
    ensures LengthStep(c, capacity, t0).1.Ok? ==> LengthStep(c, capacity, t0).1.value <= capacity.value
    ensures var (r, e) := KeysStep(c, capacity, t0);
            e.Ok? ==> |r.timestamps| <= capacity.value && e.value == r.timestamps.Keys
  {
    MaintenanceRaisesIff(c, capacity, t0);
    if key != INDEX && Maintain(c, capacity, t0).1.Ok? {
      var d := Maintain(c, capacity, t0).0;
      var r := Insert(d, capacity, key, value, ttl, t1);
      assert r.timestamps.Keys <= d.timestamps.Keys + {key};
      CardinalityMonotone(r.timestamps.Keys, d.timestamps.Keys + {key});
      assert |d.timestamps.Keys + {key}| <= |d.timestamps| + 1;
    }
  }

  // ----- how many keys are left -----

  /** The smaller of the capacity, if there is one, and `n`. */
  function Limited(capacity: Option<nat>, n: nat): nat {
    if capacity.Some? && capacity.value < n then capacity.value else n
  }

  /**
   For every state: maintenance that does not raise leaves exactly as many keys as the capacity allows, or all that the
   expiry loop left, and it leaves those untouched when they are not too many. A len answers that number.
   */
  lemma MaintenanceLeaves<V>(c: Cache<V>, capacity: Option<nat>, now: int)
    ensures var (d, (r, e)) := (DropExpired(c, now), Maintain(c, capacity, now));
            && (e.Ok? ==> |r.timestamps| == Limited(capacity, |d.timestamps|))
            && (!Over(d, capacity) ==> r == d)
            && (e.Err? ==> r.timestamps.Keys == Uncovered(c))
            && (e.Ok? ==> LengthStep(c, capacity, now).1 == Ok(Limited(capacity, |d.timestamps|)))
  {
    DropExpiredEffect(c, now);
    DropOverCapacityExact(DropExpired(c, now), capacity);
  }

  /** What a len counts at `now`: the keys that have not expired, and those without a heap entry. */
  ghost function StillCounted<V>(c: Cache<V>, now: int): set<string> {
    set k | k in c.timestamps && (k in Uncovered(c) || now < c.timestamps[k].expiresAt)
  }

  /**
   For every consistent state and a clock that does not run backwards, a len raises iff too many keys lack a heap
   entry, and otherwise answers the smaller of the capacity and the number of keys that count.
   */
  lemma LengthIsExact<V>(c: Cache<V>, capacity: Option<nat>, now: int)
    requires Consistent(c) && Behind(c, now)
    ensures LengthStep(c, capacity, now).1 ==
            if capacity.Some? && |Uncovered(c)| > capacity.value then Err(IndexError)
            else Ok(Limited(capacity, |StillCounted(c, now)|))
  {
    MaintenanceRaisesIff(c, capacity, now);
    MaintenanceLeaves(c, capacity, now);
    ExpiryIsExact(c, now);
    assert |DropExpired(c, now).timestamps| == |DropExpired(c, now).timestamps.Keys|;
  }
}
