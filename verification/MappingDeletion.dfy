/**
 When deleting an expired key raises. The docstring of `__delitem__` promises KeyError for an expired item; the code
 does not test freshness, so the answer depends on which operations ran after the expiry. Over runs without a capacity
 limit and under a clock that does not run backwards, the answer is settled exactly.
 */
module MappingDeletion {
  import opened Wrappers
  import opened ExpiringMapping
  import opened IndexCoverage
  import opened MappingRuns

  /** The operation comes at or after the expiry of `key`, and either reads the key or runs maintenance. */
  ghost predicate Evicts<V>(op: Op<V>, key: string, expiresAt: int) {
    match op
    case Set(k, _, _, t0, _) => k != INDEX && expiresAt <= t0
    case Get(k, at) => k == key && expiresAt <= at
    case Delete(_) => false
    case Length(at) => expiresAt <= at
    case Keys(at) => expiresAt <= at
  }

  ghost predicate Sets<V>(op: Op<V>, key: string) {
    op.Set? && op.key == key
  }

  /** A key with this expiry is left in place by the operation: not set anew, not deleted, not evicted. */
  ghost predicate Spares<V>(op: Op<V>, key: string, expiresAt: int) {
    !Sets(op, key) && !Erased(op, key) && !Evicts(op, key, expiresAt)
  }

  ghost predicate Unharmed<V>(ops: seq<Op<V>>, key: string, expiresAt: int) {
    forall l :: 0 <= l < |ops| ==> Spares(ops[l], key, expiresAt)
  }

  /** The write at `j` was the last thing done to `key`, and nothing evicted the key once it had expired. */
  ghost predicate Survives<V>(ops: seq<Op<V>>, key: string, j: nat)
    requires j < |ops|
  {
    Sets(ops[j], key) && Unharmed(ops[j + 1..], key, ops[j].t1 + ops[j].ttl)
  }

  ghost predicate SomeWriteSurvives<V>(ops: seq<Op<V>>, key: string) {
    exists j :: 0 <= j < |ops| && Survives(ops, key, j)
  }

  /** Maintenance drops a key iff it has expired, and never changes a stamp. */
  lemma MaintenanceEvicts<V>(c: Cache<V>, m: map<string, Item<V>>, clock: int, at: int, key: string)
    requires Simulates(c, m, clock) && clock <= at
    ensures var r := Maintain(c, None, at).0;
            && (key in r.timestamps <==> key in c.timestamps && at < c.timestamps[key].expiresAt)
            && (key in r.timestamps ==> r.timestamps[key] == c.timestamps[key])
  {
    UnboundedMaintenance(c, m, clock, at);
    MaintenanceRaisesIff(c, None, at);
  }

  /** One operation: which stamp `key` has afterwards, if any. */
  lemma StepEvicts<V>(c: Cache<V>, m: map<string, Item<V>>, clock: int, op: Op<V>, key: string)
    requires Simulates(c, m, clock) && Advances(clock, op) && key != INDEX
    ensures var r := Step(c, None, op).0;
            if Sets(op, key) then key in r.timestamps && r.timestamps[key] == Stamp(op.t1 + op.ttl, op.t1)
            else if key in c.timestamps && Spares(op, key, c.timestamps[key].expiresAt)
            then key in r.timestamps && r.timestamps[key] == c.timestamps[key]
            else key !in r.timestamps
  {
    match op
    case Set(_, _, _, t0, _) => MaintenanceEvicts(c, m, clock, t0, key);
    case Get(_, _) =>
    case Delete(_) =>
    case Length(at) => MaintenanceEvicts(c, m, clock, at, key);
    case Keys(at) => MaintenanceEvicts(c, m, clock, at, key);
  }

  lemma UnharmedStep<V>(ops: seq<Op<V>>, key: string, expiresAt: int)
    requires ops != []
    ensures Unharmed(ops, key, expiresAt) <==> Spares(ops[0], key, expiresAt) && Unharmed(ops[1..], key, expiresAt)
  {
    assert forall l :: 0 < l < |ops| ==> ops[l] == ops[1..][l - 1];
    if Unharmed(ops, key, expiresAt) {
      assert forall l :: 0 <= l < |ops| - 1 ==> ops[1..][l] == ops[l + 1];
    }
  }

  lemma SurvivorStep<V>(ops: seq<Op<V>>, key: string)
    requires ops != []
    ensures SomeWriteSurvives(ops, key) <==> Survives(ops, key, 0) || SomeWriteSurvives(ops[1..], key)
  {
    var rest := ops[1..];
    if j :| 0 <= j < |ops| && Survives(ops, key, j) {
      if j > 0 {
        assert rest[j - 1] == ops[j] && rest[j..] == ops[j + 1..];
        assert Survives(rest, key, j - 1);
      }
    }
    if j :| 0 <= j < |rest| && Survives(rest, key, j) {
      assert rest[j] == ops[j + 1] && rest[j + 1..] == ops[j + 2..];
      assert Survives(ops, key, j + 1);
    }
  }

  /** A key is held after a run iff the stamp it had at the start is unharmed, or some write of the run survives. */
  lemma {:induction false} HeldIff<V>(c: Cache<V>, m: map<string, Item<V>>, clock: int, ops: seq<Op<V>>, key: string)
    requires Simulates(c, m, clock) && Monotone(clock, ops) && key != INDEX
    ensures key in Run(c, None, ops).0.timestamps <==>
            || (key in c.timestamps && Unharmed(ops, key, c.timestamps[key].expiresAt))
            || SomeWriteSurvives(ops, key)
    decreases |ops|
  {
    if ops != [] {
      var s := Step(c, None, ops[0]);
      UnboundedStep(c, m, clock, ops[0]);
      StepEvicts(c, m, clock, ops[0], key);
      SurvivorStep(ops, key);
      if key in c.timestamps { UnharmedStep(ops, key, c.timestamps[key].expiresAt); }
      HeldIff(s.0, Apply(m, ops[0], s.1), Tick(clock, ops[0]), ops[1..], key);
    }
  }

  /**
   After every run that neither sets nor deletes a held key, deleting it raises KeyError iff some operation at or after
   the key's expiry was a get of that key, a set of any key but the reserved one, a len or an iter.
   */
  lemma DeleteRaisesIffEvicted<V>(c: Cache<V>, m: map<string, Item<V>>, clock: int, ops: seq<Op<V>>, key: string)
    requires Simulates(c, m, clock) && Monotone(clock, ops) && key in c.timestamps
    requires forall i :: 0 <= i < |ops| ==> !Sets(ops[i], key) && !Erased(ops[i], key)
    ensures DeleteStep(Run(c, None, ops).0, key).1 ==
            if exists i :: 0 <= i < |ops| && Evicts(ops[i], key, c.timestamps[key].expiresAt)
            then Err(KeyError) else Ok(())
  {
    HeldIff(c, m, clock, ops, key);
  }

  /**
   After every run from the empty mapping, deleting a key succeeds iff it was set, neither set anew nor deleted since,
   and no get of it, set, len or iter came at or after the expiry of that write. Otherwise it raises KeyError.
   */
  lemma DeleteAfterRun<V>(clock: int, ops: seq<Op<V>>, key: string)
    requires Monotone(clock, ops) && key != INDEX
    ensures DeleteStep(Run(EmptyCache<V>(), None, ops).0, key).1 ==
            if SomeWriteSurvives(ops, key) then Ok(()) else Err(KeyError)
  {
    EmptySimulates<V>(clock);
    HeldIff(EmptyCache<V>(), map[], clock, ops, key);
  }

  /** The docstring is false: the same expired item is deleted quietly, unless something evicted it before. */
  lemma DeleteOfExpiredKey(key: string)
    requires key != INDEX
    ensures var put := SetStep(EmptyCache(), None, key, 7, 1, 0, 0).0;
            && DeleteStep(put, key).1 == Ok(())
            && DeleteStep(GetStep(put, key, 5).0, key).1 == Err(KeyError)
            && DeleteStep(LengthStep(put, None, 5).0, key).1 == Err(KeyError)
  {
    var put := SetStep(EmptyCache(), None, key, 7, 1, 0, 0).0;
    assert put.timestamps == map[key := Stamp(1, 0)];
    EmptySimulates<int>(0);
    UnboundedSet(EmptyCache(), map[], 0, key, 7, 1, 0, 0);
    UnboundedMaintenance(put, map[key := Item(7, Stamp(1, 0))], 0, 5);
  }
}
