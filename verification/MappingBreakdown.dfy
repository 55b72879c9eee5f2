/**
 What follows once more keys have lost their heap entry than the capacity allows: every `set`, `len` and iter raises
 IndexError until a `delete`, or a `get` that finds its key expired, takes away enough of those keys.
 */
module MappingBreakdown {
  import opened Wrappers
  import opened EntryOrder
  import opened HeapQueue
  import opened ExpiringMapping
  import opened IndexCoverage
  import opened MappingRuns
  import opened MappingCapacity

  ghost predicate Broken<V>(c: Cache<V>, capacity: Option<nat>) {
    capacity.Some? && |Uncovered(c)| > capacity.value
  }

  /** The operation runs maintenance: a set of any key but the reserved one, a len, or an iter. */
  ghost predicate Maintains<V>(op: Op<V>) {
    op.Length? || op.Keys? || (op.Set? && op.key != INDEX)
  }

  /** The operation is a delete, or a get of a key outside its lifetime. */
  ghost predicate Forgets<V>(c: Cache<V>, op: Op<V>) {
    || (op.Delete? && op.key != INDEX)
    || (op.Get? && op.key != INDEX && op.key in c.timestamps && !Fresh(c.timestamps[op.key], op.at))
  }

  /** The key without a heap entry that the operation takes away, if any. */
  ghost function Healed<V>(c: Cache<V>, op: Op<V>): set<string> {
    if Forgets(c, op) then Uncovered(c) * {op.key} else {}
  }

  lemma ForgetHeals<V>(c: Cache<V>, key: string)
    ensures Uncovered(Forget(c, key)) == Uncovered(c) - Uncovered(c) * {key}
    ensures |Uncovered(Forget(c, key))| == |Uncovered(c)| - |Uncovered(c) * {key}|
  {
    ForgetCoverage(c, key);
    var u := Uncovered(c);
    assert if key in u then u * {key} == {key} else u - {key} == u && u * {key} == {};
    assert Uncovered(c) - {key} == Uncovered(c) - Uncovered(c) * {key};
  }

  lemma ReadOrDelete<V>(c: Cache<V>, capacity: Option<nat>, op: Op<V>)
    requires op.Get? || op.Delete?
    ensures Step(c, capacity, op).0 == (if Forgets(c, op) then Forget(c, op.key) else c)
    ensures !Raises(Step(c, capacity, op).1)
  {
  }

  lemma MaintainingStep<V>(c: Cache<V>, capacity: Option<nat>, op: Op<V>)
    requires Broken(c, capacity) && !op.Get? && !op.Delete?
    ensures Raises(Step(c, capacity, op).1) <==> Maintains(op)
    ensures Uncovered(Step(c, capacity, op).0) == Uncovered(c)
  {
    MaintenanceRaisesIff(c, capacity, if op.Set? then op.t0 else op.at);
  }

  /**
   One operation in a broken mapping: it raises iff it runs maintenance, and it takes away exactly the healed key.
   */
  lemma BrokenStep<V>(c: Cache<V>, capacity: Option<nat>, op: Op<V>)
    requires Broken(c, capacity)
    ensures Raises(Step(c, capacity, op).1) <==> Maintains(op)
    ensures Uncovered(Step(c, capacity, op).0) == Uncovered(c) - Healed(c, op)
    ensures |Uncovered(Step(c, capacity, op).0)| == |Uncovered(c)| - |Healed(c, op)|
  {
    if op.Get? || op.Delete? {
      ReadOrDelete(c, capacity, op);
      ForgetHeals(c, op.key);
    } else {
      MaintainingStep(c, capacity, op);
    }
  }

  /** How many keys without a heap entry the run takes away, as long as the mapping is broken. */
  ghost function HealedInRun<V>(c: Cache<V>, capacity: Option<nat>, ops: seq<Op<V>>): nat
    decreases |ops|
  {
    if ops == [] || !Broken(c, capacity) then 0
    else |Healed(c, ops[0])| + HealedInRun(Step(c, capacity, ops[0]).0, capacity, ops[1..])
  }

  /** The mapping is broken in every state of the run. */
  ghost predicate AlwaysBroken<V>(c: Cache<V>, capacity: Option<nat>, ops: seq<Op<V>>)
    decreases |ops|
  {
    Broken(c, capacity) && (ops != [] ==> AlwaysBroken(Step(c, capacity, ops[0]).0, capacity, ops[1..]))
  }

  /**
   Over every run, at any times: a broken mapping stays broken throughout iff the deletes, and the gets of expired
   keys, have taken away too few of the keys without a heap entry.
   */
  lemma {:induction false} BrokenUntilHealed<V>(c: Cache<V>, capacity: Option<nat>, ops: seq<Op<V>>)
    requires Broken(c, capacity)
    ensures AlwaysBroken(c, capacity, ops) <==> |Uncovered(c)| - HealedInRun(c, capacity, ops) > capacity.value
    decreases |ops|
  {
    if ops != [] {
      BrokenStep(c, capacity, ops[0]);
      var r := Step(c, capacity, ops[0]).0;
      if Broken(r, capacity) { BrokenUntilHealed(r, capacity, ops[1..]); }
    }
  }

  /** In a run that stays broken, the operations that raise are exactly those that run maintenance. */
  lemma {:induction false} BrokenRunRaises<V>(c: Cache<V>, capacity: Option<nat>, ops: seq<Op<V>>, i: nat)
    requires AlwaysBroken(c, capacity, ops) && i < |ops|
    ensures Raises(Run(c, capacity, ops).1[i]) <==> Maintains(ops[i])
    decreases |ops|
  {
    BrokenStep(c, capacity, ops[0]);
    if i > 0 { BrokenRunRaises(Step(c, capacity, ops[0]).0, capacity, ops[1..], i - 1); }
  }

  /** Sets, lens and iters alone never heal: over every run of them, at any times, each one raises. */
  lemma {:induction false} NothingElseHeals<V>(c: Cache<V>, capacity: Option<nat>, ops: seq<Op<V>>, i: nat)
    requires Broken(c, capacity) && i < |ops|
    requires forall l :: 0 <= l < |ops| ==> Maintains(ops[l])
    ensures AlwaysBroken(c, capacity, ops) && Raises(Run(c, capacity, ops).1[i])
  {
    NoneHealed(c, capacity, ops);
    BrokenUntilHealed(c, capacity, ops);
    BrokenRunRaises(c, capacity, ops, i);
  }

  lemma {:induction false} NoneHealed<V>(c: Cache<V>, capacity: Option<nat>, ops: seq<Op<V>>)
    requires forall l :: 0 <= l < |ops| ==> Maintains(ops[l])
    ensures HealedInRun(c, capacity, ops) == 0
    decreases |ops|
  {
    if ops != [] && Broken(c, capacity) {
      assert Maintains(ops[0]);
      NoneHealed(Step(c, capacity, ops[0]).0, capacity, ops[1..]);
    }
  }

  /**
   How a mapping breaks. With capacity 1, setting `a` for 10 s and then `b` for 5 s leaves `b` without a heap entry:
   the next count evicts `a`, although `b` expires sooner. One more short-lived key breaks the mapping. Deleting `b`,
   or reading it after it has expired, heals it.
   */
  lemma ShortLivedKeysBreakTheIndex()
    ensures var a := SetStep(EmptyCache(), Some(1), "a", 0, 10, 0, 0);
            var b := SetStep(a.0, Some(1), "b", 0, 5, 0, 0);
            var c := SetStep(b.0, Some(1), "c", 0, 3, 0, 0);
            && a.1 == Ok(()) && b.1 == Ok(()) && c.1 == Ok(())
            && KeysStep(b.0, Some(1), 0).1 == Ok({"b"})
            && Broken(c.0, Some(1))
            && LengthStep(DeleteStep(c.0, "b").0, Some(1), 0).1 == Ok(1)
            && LengthStep(GetStep(c.0, "b", 6).0, Some(1), 6).1 == Ok(1)
  {
    var b := Cache(map["a" := 0, "b" := 0], [Entry(10, 0, "a")], map["a" := Stamp(10, 0), "b" := Stamp(5, 0)]);
    var c := Cache(map["b" := 0, "c" := 0], [], map["b" := Stamp(5, 0), "c" := Stamp(3, 0)]);
    FirstKey();
    SecondKey();
    EvictsTheLaterKey(b);
    assert map["b" := Stamp(5, 0)].Keys == {"b"};
    ThirdKey(b);
    Heals(c);
  }

  lemma Heals(c: Cache<int>)
    requires c == Cache(map["b" := 0, "c" := 0], [], map["b" := Stamp(5, 0), "c" := Stamp(3, 0)])
    ensures Broken(c, Some(1))
    ensures LengthStep(DeleteStep(c, "b").0, Some(1), 0).1 == Ok(1)
    ensures LengthStep(GetStep(c, "b", 6).0, Some(1), 6).1 == Ok(1)
  {
    assert Uncovered(c) == {"b", "c"};
    var healed := Cache(map["c" := 0], [], map["c" := Stamp(3, 0)]);
    assert Forget(c, "b") == healed && |healed.timestamps| == 1;
    assert Maintain(healed, Some(1), 0) == (healed, Ok(())) && Maintain(healed, Some(1), 6) == (healed, Ok(()));
  }

  lemma FirstKey()
    ensures SetStep(EmptyCache(), Some(1), "a", 0, 10, 0, 0) ==
            (Cache(map["a" := 0], [Entry(10, 0, "a")], map["a" := Stamp(10, 0)]), Ok(()))
  {
    var m: Cache<int> := EmptyCache();
    assert Maintain(m, Some(1), 0) == (m, Ok(()));
    assert [] + [Entry(10, 0, "a")] == [Entry(10, 0, "a")];
  }

  lemma SecondKey()
    ensures SetStep(Cache(map["a" := 0], [Entry(10, 0, "a")], map["a" := Stamp(10, 0)]), Some(1), "b", 0, 5, 0, 0) ==
            (Cache(map["a" := 0, "b" := 0], [Entry(10, 0, "a")], map["a" := Stamp(10, 0), "b" := Stamp(5, 0)]), Ok(()))
  {
    var a := Cache(map["a" := 0], [Entry(10, 0, "a")], map["a" := Stamp(10, 0)]);
    assert |a.timestamps| == 1;
    assert Maintain(a, Some(1), 0) == (a, Ok(()));
    assert DropIndexed(a, Entry(5, 0, "b")) == a;
  }

  lemma EvictsTheLaterKey(b: Cache<int>)
    requires b == Cache(map["a" := 0, "b" := 0], [Entry(10, 0, "a")], map["a" := Stamp(10, 0), "b" := Stamp(5, 0)])
    ensures Maintain(b, Some(1), 0) == (Cache(map["b" := 0], [], map["b" := Stamp(5, 0)]), Ok(()))
  {
    var left := Cache(map["b" := 0], [], map["b" := Stamp(5, 0)]);
    assert |b.timestamps| == 2 && |left.timestamps| == 1;
    assert DropExpired(b, 0) == b;
    assert DropHead(b) == left;
    assert DropOverCapacity(left, Some(1)) == (left, Ok(()));
  }

  lemma ThirdKey(b: Cache<int>)
    requires b == Cache(map["a" := 0, "b" := 0], [Entry(10, 0, "a")], map["a" := Stamp(10, 0), "b" := Stamp(5, 0)])
    ensures SetStep(b, Some(1), "c", 0, 3, 0, 0) ==
            (Cache(map["b" := 0, "c" := 0], [], map["b" := Stamp(5, 0), "c" := Stamp(3, 0)]), Ok(()))
  {
    EvictsTheLaterKey(b);
    var left := Cache(map["b" := 0], [], map["b" := Stamp(5, 0)]);
    assert |left.timestamps| == 1;
    assert DropIndexed(left, Entry(3, 0, "c")) == left;
  }
}
