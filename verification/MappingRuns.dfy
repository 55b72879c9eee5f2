/**
 Whole runs of the expiring mapping against a mapping that never evicts: an `Ideal`
 remembers for each key the last value written and its stamp, and nothing else.
 */
module MappingRuns {
  import opened Wrappers
  import opened EntryOrder
  import opened HeapQueue
  import opened ExpiringMapping
  import opened IndexCoverage

  datatype Op<V> =
    | Set(key: string, value: V, ttl: int, t0: int, t1: int)
    | Get(key: string, at: int)
    | Delete(key: string)
    | Length(at: int)
    | Keys(at: int)

  /** What the caller sees of one operation. */
  datatype Obs<V> =
    | Stored(stored: Result<(), Error>)
    | Got(got: Result<V, Error>)
    | Deleted(deleted: Result<(), Error>)
    | Counted(counted: Result<nat, Error>)
    | Listed(listed: Result<set<string>, Error>)

  function Step<V>(c: Cache<V>, capacity: Option<nat>, op: Op<V>): (Cache<V>, Obs<V>) {
    match op
    case Set(key, value, ttl, t0, t1) => var r := SetStep(c, capacity, key, value, ttl, t0, t1); (r.0, Stored(r.1))
    case Get(key, at) => var r := GetStep(c, key, at); (r.0, Got(r.1))
    case Delete(key) => var r := DeleteStep(c, key); (r.0, Deleted(r.1))
    case Length(at) => var r := LengthStep(c, capacity, at); (r.0, Counted(r.1))
    case Keys(at) => var r := KeysStep(c, capacity, at); (r.0, Listed(r.1))
  }

  function Run<V>(c: Cache<V>, capacity: Option<nat>, ops: seq<Op<V>>): (r: (Cache<V>, seq<Obs<V>>))
    ensures |r.1| == |ops|
    decreases |ops|
  {
    if ops == [] then (c, []) else
      var s := Step(c, capacity, ops[0]);
      var rest := Run(s.0, capacity, ops[1..]);
      (rest.0, [s.1] + rest.1)
  }

  function EmptyCache<V>(): Cache<V> {
    Cache(map[], [], map[])
  }

  // ----- the ideal mapping -----

  datatype Item<V> = Item(value: V, stamp: Stamp)

  /** The operation stored a value under `key`. */
  ghost predicate Wrote<V>(op: Op<V>, obs: Obs<V>, key: string) {
    op.Set? && op.key == key && obs.Stored? && obs.stored.Ok?
  }

  ghost predicate Erased<V>(op: Op<V>, key: string) {
    op.Delete? && op.key == key
  }

  ghost function Apply<V>(m: map<string, Item<V>>, op: Op<V>, obs: Obs<V>): map<string, Item<V>> {
    if op.Set? && Wrote(op, obs, op.key) then m[op.key := Item(op.value, Stamp(op.t1 + op.ttl, op.t1))]
    else if op.Delete? then m - {op.key}
    else m
  }

  ghost function History<V>(m: map<string, Item<V>>, ops: seq<Op<V>>, obs: seq<Obs<V>>): map<string, Item<V>>
    requires |ops| == |obs|
    decreases |ops|
  {
    if ops == [] then m else History(Apply(m, ops[0], obs[0]), ops[1..], obs[1..])
  }

  /** The write at `j` is the last thing the run did to `key`. */
  ghost predicate LastWrite<V>(ops: seq<Op<V>>, obs: seq<Obs<V>>, key: string, j: nat)
    requires |ops| == |obs| && j < |ops|
  {
    && Wrote(ops[j], obs[j], key)
    && forall l :: j < l < |ops| ==> !Wrote(ops[l], obs[l], key) && !Erased(ops[l], key)
  }

  /** The ideal mapping holds exactly the last values set and not deleted since. */
  lemma {:induction false} HistoryIsLastWrite<V>(m: map<string, Item<V>>, ops: seq<Op<V>>, obs: seq<Obs<V>>,
                                                 key: string)
    requires |ops| == |obs|
    ensures forall j {:trigger LastWrite(ops, obs, key, j)} :: 0 <= j < |ops| && LastWrite(ops, obs, key, j) ==>
              && key in History(m, ops, obs)
              && History(m, ops, obs)[key] == Item(ops[j].value, Stamp(ops[j].t1 + ops[j].ttl, ops[j].t1))
    ensures key in History(m, ops, obs) ==>
              || (exists j {:trigger LastWrite(ops, obs, key, j)} :: 0 <= j < |ops| && LastWrite(ops, obs, key, j))
              || (&& key in m && History(m, ops, obs)[key] == m[key]
                  && forall l :: 0 <= l < |ops| ==> !Wrote(ops[l], obs[l], key) && !Erased(ops[l], key))
    decreases |ops|
  {
    if ops != [] {
      var m', ops', obs' := Apply(m, ops[0], obs[0]), ops[1..], obs[1..];
      HistoryIsLastWrite(m', ops', obs', key);
      forall j | 0 <= j < |ops| && LastWrite(ops, obs, key, j)
        ensures && key in History(m, ops, obs)
                && History(m, ops, obs)[key] == Item(ops[j].value, Stamp(ops[j].t1 + ops[j].ttl, ops[j].t1))
      {
        if j > 0 {
          assert LastWrite(ops', obs', key, j - 1);
        } else {
          LaterUntouched(m', ops', obs', key);
        }
      }
      if j' :| 0 <= j' < |ops'| && LastWrite(ops', obs', key, j') {
        assert LastWrite(ops, obs, key, j' + 1);
      } else if key in History(m, ops, obs) && Wrote(ops[0], obs[0], key) {
        assert LastWrite(ops, obs, key, 0);
      }
    }
  }

  lemma {:induction false} LaterUntouched<V>(m: map<string, Item<V>>, ops: seq<Op<V>>, obs: seq<Obs<V>>, key: string)
    requires |ops| == |obs| && key in m
    requires forall l :: 0 <= l < |ops| ==> !Wrote(ops[l], obs[l], key) && !Erased(ops[l], key)
    ensures key in History(m, ops, obs) && History(m, ops, obs)[key] == m[key]
    decreases |ops|
  {
    if ops != [] {
      assert !Wrote(ops[0], obs[0], key) && !Erased(ops[0], key);
      LaterUntouched(Apply(m, ops[0], obs[0]), ops[1..], obs[1..], key);
    }
  }

  // ----- every hit is true, for any capacity and any clock -----

  /** Whatever the mapping still holds is what the ideal mapping holds. */
  ghost predicate Agrees<V>(c: Cache<V>, m: map<string, Item<V>>) {
    && c.store.Keys == c.timestamps.Keys && INDEX !in c.timestamps
    && forall k :: k in c.timestamps ==> k in m && m[k] == Item(c.store[k], c.timestamps[k])
  }

  lemma MaintainAgrees<V>(c: Cache<V>, capacity: Option<nat>, now: int, m: map<string, Item<V>>)
    requires Agrees(c, m)
    ensures Agrees(Maintain(c, capacity, now).0, m)
  {
    MaintenanceRaisesIff(c, capacity, now);
    SameKeys(c, now);
    SameKeysOver(DropExpired(c, now), capacity);
  }

  lemma {:induction false} SameKeys<V>(c: Cache<V>, now: int)
    requires c.store.Keys == c.timestamps.Keys
    ensures DropExpired(c, now).store.Keys == DropExpired(c, now).timestamps.Keys
    decreases |c.sequence|
  {
    if c.sequence != [] && !Fresh(StampOf(c.sequence[0]), now) { SameKeys(DropHead(c), now); }
  }

  lemma {:induction false} SameKeysOver<V>(c: Cache<V>, capacity: Option<nat>)
    requires c.store.Keys == c.timestamps.Keys
    ensures DropOverCapacity(c, capacity).0.store.Keys == DropOverCapacity(c, capacity).0.timestamps.Keys
    decreases |c.sequence|
  {
    if Over(c, capacity) && c.sequence != [] { SameKeysOver(DropHead(c), capacity); }
  }

  lemma DropAgrees<V>(c: Cache<V>, e: Entry, m: map<string, Item<V>>)
    requires Agrees(c, m)
    ensures Agrees(DropIndexed(c, e), m)
  {
  }

  lemma InsertAgrees<V>(c: Cache<V>, capacity: Option<nat>, key: string, value: V, ttl: int, now: int,
                        m: map<string, Item<V>>)
    requires Agrees(c, m) && key != INDEX
    ensures Agrees(Insert(c, capacity, key, value, ttl, now), m[key := Item(value, Stamp(now + ttl, now))])
  {
    var e := Entry(now + ttl, now, key);
    DropAgrees(c, PushPop(c.sequence, e).0, m);
  }

  lemma SetAgrees<V>(c: Cache<V>, capacity: Option<nat>, key: string, value: V, ttl: int, t0: int, t1: int,
                     m: map<string, Item<V>>)
    requires Agrees(c, m)
    ensures var (r, e) := SetStep(c, capacity, key, value, ttl, t0, t1);
            Agrees(r, if e.Ok? then m[key := Item(value, Stamp(t1 + ttl, t1))] else m)
  {
    MaintainAgrees(c, capacity, t0, m);
    if key != INDEX { InsertAgrees(Maintain(c, capacity, t0).0, capacity, key, value, ttl, t1, m); }
  }

  lemma StepAgrees<V>(c: Cache<V>, capacity: Option<nat>, op: Op<V>, m: map<string, Item<V>>)
    requires Agrees(c, m)
    ensures Agrees(Step(c, capacity, op).0, Apply(m, op, Step(c, capacity, op).1))
  {
    match op
    case Set(key, value, ttl, t0, t1) => SetAgrees(c, capacity, key, value, ttl, t0, t1, m);
    case Length(at) => MaintainAgrees(c, capacity, at, m);
    case Keys(at) => MaintainAgrees(c, capacity, at, m);
    case Get(key, at) =>
    case Delete(key) =>
  }

  /**
   For every capacity, every run and every clock, even one that runs backwards: a `get` that
   answers gives the last value written, within its lifetime.
   */
  lemma {:induction false} HitsAreTrue<V>(c: Cache<V>, capacity: Option<nat>, ops: seq<Op<V>>, m: map<string, Item<V>>,
                                          i: nat, value: V)
    requires Agrees(c, m) && i < |ops| && ops[i].Get?
    requires Run(c, capacity, ops).1[i] == Got(Ok(value))
    ensures var h := History(m, ops[..i], Run(c, capacity, ops).1[..i]);
            ops[i].key in h && h[ops[i].key].value == value && Fresh(h[ops[i].key].stamp, ops[i].at)
    decreases |ops|
  {
    var s := Step(c, capacity, ops[0]);
    var obs := Run(c, capacity, ops).1;
    if i > 0 {
      StepAgrees(c, capacity, ops[0], m);
      HitsAreTrue(s.0, capacity, ops[1..], Apply(m, ops[0], s.1), i - 1, value);
      HistoryStep(m, ops[..i], obs[..i]);
      assert ops[..i][1..] == ops[1..][..i - 1] && obs[..i][1..] == obs[1..][..i - 1];
    }
  }

  lemma HistoryStep<V>(m: map<string, Item<V>>, ops: seq<Op<V>>, obs: seq<Obs<V>>)
    requires |ops| == |obs| > 0
    ensures History(m, ops, obs) == History(Apply(m, ops[0], obs[0]), ops[1..], obs[1..])
  {
  }

  // ----- without a capacity, eviction cannot be observed -----

  ghost predicate Advances<V>(clock: int, op: Op<V>) {
    match op
    case Set(_, _, _, t0, t1) => clock <= t0 <= t1
    case Delete(_) => true
    case Get(_, at) => clock <= at
    case Length(at) => clock <= at
    case Keys(at) => clock <= at
  }

  ghost function Tick<V>(clock: int, op: Op<V>): int {
    match op
    case Set(_, _, _, _, t1) => t1
    case Delete(_) => clock
    case Get(_, at) => at
    case Length(at) => at
    case Keys(at) => at
  }

  ghost predicate Monotone<V>(clock: int, ops: seq<Op<V>>)
    decreases |ops|
  {
    ops != [] ==> Advances(clock, ops[0]) && Monotone(Tick(clock, ops[0]), ops[1..])
  }

  ghost function FreshKeys<V>(m: map<string, Item<V>>, now: int): set<string> {
    set k | k in m && Fresh(m[k].stamp, now)
  }

  /** What the ideal mapping answers; a `delete` of a key other than the reserved one answers nothing. */
  ghost function Expected<V>(m: map<string, Item<V>>, op: Op<V>): Obs<V> {
    match op
    case Set(key, _, _, _, _) => Stored(if key == INDEX then Err(ValueError) else Ok(()))
    case Get(key, at) =>
      Got(if key == INDEX then Err(ValueError)
          else if key in m && Fresh(m[key].stamp, at) then Ok(m[key].value) else Err(KeyError))
    case Delete(key) => Deleted(if key == INDEX then Err(ValueError) else Ok(()))
    case Length(at) => Counted(Ok(|FreshKeys(m, at)|))
    case Keys(at) => Listed(Ok(FreshKeys(m, at)))
  }

  ghost function Visible<V>(op: Op<V>, obs: Obs<V>): Obs<V> {
    if op.Delete? && op.key != INDEX then Deleted(Ok(())) else obs
  }

  ghost predicate AnswersIdeally<V>(m: map<string, Item<V>>, ops: seq<Op<V>>, obs: seq<Obs<V>>)
    requires |ops| == |obs|
    decreases |ops|
  {
    ops != [] ==>
      && Visible(ops[0], obs[0]) == Expected(m, ops[0])
      && AnswersIdeally(Apply(m, ops[0], obs[0]), ops[1..], obs[1..])
  }

  /** All keys are covered, and a key the mapping has lost had expired by `clock`. */
  ghost predicate Simulates<V>(c: Cache<V>, m: map<string, Item<V>>, clock: int) {
    && Consistent(c) && Uncovered(c) == {} && Agrees(c, m) && INDEX !in m
    && (forall k :: k in m ==> m[k].stamp.createdAt <= clock)
    && (forall k :: k in m && k !in c.timestamps ==> m[k].stamp.expiresAt <= clock)
  }

  ghost predicate Behind<V>(c: Cache<V>, now: int) {
    forall k :: k in c.timestamps ==> c.timestamps[k].createdAt <= now
  }

  /**
   Under a clock that does not run backwards the first loop removes exactly the expired keys among those with a heap
   entry, so all expired keys when every key has one.
   */
  lemma {:induction false} ExpiryIsExact<V>(c: Cache<V>, now: int)
    requires Consistent(c) && Behind(c, now)
    ensures DropExpired(c, now).timestamps.Keys ==
            set k | k in c.timestamps && (k in Uncovered(c) || now < c.timestamps[k].expiresAt)
    decreases |c.sequence|
  {
    if c.sequence == [] {
      assert Uncovered(c) == c.timestamps.Keys;
    } else if Fresh(StampOf(c.sequence[0]), now) {
      forall k | k in c.timestamps && k !in Uncovered(c) ensures now < c.timestamps[k].expiresAt {
        var i :| 0 <= i < |c.sequence| && c.sequence[i] == EntryOf(c.timestamps[k], k);
        RootIsLeast(c.sequence, i);
      }
    } else {
      DropHeadEffect(c);
      RootWasExpired(c, now);
      ExpiryIsExact(DropHead(c), now);
    }
  }

  /** The key that goes with an expired root had a heap entry, and had expired. */
  lemma RootWasExpired<V>(c: Cache<V>, now: int)
    requires c.sequence != [] && Behind(c, now) && !Fresh(StampOf(c.sequence[0]), now)
    ensures forall k :: k in c.timestamps && k !in DropHead(c).timestamps ==>
                          k !in Uncovered(c) && c.timestamps[k].expiresAt <= now
  {
    DropHeadEffect(c);
    forall k | k in c.timestamps && k !in DropHead(c).timestamps
      ensures k !in Uncovered(c) && c.timestamps[k].expiresAt <= now
    {
      assert EntryOf(c.timestamps[k], k) == c.sequence[0];
    }
  }

  lemma UnboundedMaintenance<V>(c: Cache<V>, m: map<string, Item<V>>, clock: int, now: int)
    requires Simulates(c, m, clock) && clock <= now
    ensures var (r, e) := Maintain(c, None, now);
            e == Ok(()) && Simulates(r, m, now) && r.timestamps.Keys == FreshKeys(m, now)
            && |r.timestamps| == |FreshKeys(m, now)|
  {
    MaintenanceRaisesIff(c, None, now);
    MaintainAgrees(c, None, now, m);
    assert Behind(c, now);
    ExpiryIsExact(c, now);
  }

  lemma UnboundedSet<V>(c: Cache<V>, m: map<string, Item<V>>, clock: int, key: string, value: V, ttl: int, t0: int,
                        t1: int)
    requires Simulates(c, m, clock) && clock <= t0 <= t1 && key != INDEX
    ensures var (r, e) := SetStep(c, None, key, value, ttl, t0, t1);
            e == Ok(()) && Simulates(r, m[key := Item(value, Stamp(t1 + ttl, t1))], t1)
  {
    UnboundedMaintenance(c, m, clock, t0);
    var d := Maintain(c, None, t0).0;
    InsertCoverage(d, None, key, value, ttl, t1);
    InsertAgrees(d, None, key, value, ttl, t1, m);
  }

  lemma UnboundedForget<V>(c: Cache<V>, m: map<string, Item<V>>, clock: int, key: string)
    requires Simulates(c, m, clock)
    ensures Simulates(Forget(c, key), m - {key}, clock)
    ensures key in m && m[key].stamp.expiresAt <= clock ==> Simulates(Forget(c, key), m, clock)
  {
    ForgetCoverage(c, key);
  }

  lemma UnboundedGet<V>(c: Cache<V>, m: map<string, Item<V>>, clock: int, key: string, at: int)
    requires Simulates(c, m, clock) && clock <= at
    ensures Simulates(GetStep(c, key, at).0, m, at)
    ensures Got(GetStep(c, key, at).1) == Expected(m, Get(key, at))
  {
    if key in c.timestamps && !Fresh(c.timestamps[key], at) { UnboundedForget(c, m, at, key); }
  }

  lemma UnboundedDelete<V>(c: Cache<V>, m: map<string, Item<V>>, clock: int, key: string)
    requires Simulates(c, m, clock)
    ensures Simulates(DeleteStep(c, key).0, m - {key}, clock)
  {
    UnboundedForget(c, m, clock, key);
    assert key == INDEX ==> m - {key} == m;
  }

  lemma UnboundedList<V>(c: Cache<V>, m: map<string, Item<V>>, clock: int, at: int)
    requires Simulates(c, m, clock) && clock <= at
    ensures Simulates(LengthStep(c, None, at).0, m, at) && Simulates(KeysStep(c, None, at).0, m, at)
    ensures LengthStep(c, None, at).1 == Ok(|FreshKeys(m, at)|) && KeysStep(c, None, at).1 == Ok(FreshKeys(m, at))
  {
    UnboundedMaintenance(c, m, clock, at);
  }

  lemma UnboundedStep<V>(c: Cache<V>, m: map<string, Item<V>>, clock: int, op: Op<V>)
    requires Simulates(c, m, clock) && Advances(clock, op)
    ensures var (r, obs) := Step(c, None, op);
            Simulates(r, Apply(m, op, obs), Tick(clock, op)) && Visible(op, obs) == Expected(m, op)
  {
    match op
    case Set(key, value, ttl, t0, t1) =>
      if key != INDEX { UnboundedSet(c, m, clock, key, value, ttl, t0, t1); }
    case Get(key, at) => UnboundedGet(c, m, clock, key, at);
    case Delete(key) => UnboundedDelete(c, m, clock, key);
    case Length(at) => UnboundedList(c, m, clock, at);
    case Keys(at) => UnboundedList(c, m, clock, at);
  }

  lemma ForgetCoverage<V>(c: Cache<V>, key: string)
    ensures Uncovered(Forget(c, key)) == Uncovered(c) - {key}
  {
  }

  /**
   Over every run of set, get, delete, len and iter with no capacity limit and a clock that
   does not run backwards, every answer is the ideal mapping's, whenever entries happened to
   be evicted; in particular nothing raises IndexError.
   */
  lemma {:induction false} EvictionIsUnobservable<V>(c: Cache<V>, m: map<string, Item<V>>, clock: int, ops: seq<Op<V>>)
    requires Simulates(c, m, clock) && Monotone(clock, ops)
    ensures AnswersIdeally(m, ops, Run(c, None, ops).1)
    decreases |ops|
  {
    if ops != [] {
      var s := Step(c, None, ops[0]);
      UnboundedStep(c, m, clock, ops[0]);
      EvictionIsUnobservable(s.0, Apply(m, ops[0], s.1), Tick(clock, ops[0]), ops[1..]);
    }
  }

  lemma EmptySimulates<V>(clock: int)
    ensures Simulates(EmptyCache<V>(), map[], clock) && Agrees(EmptyCache<V>(), map[])
    ensures Consistent(EmptyCache<V>()) && Uncovered(EmptyCache<V>()) == {}
  {
  }
}
