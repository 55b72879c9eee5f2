/**
 What the index of the expiring mapping keeps: the heap order, the agreement of the data
 map with `timestamps`, and which keys have no heap entry. A key without one is what
 later makes `sequence[0]` raise, so the set of such keys is tracked exactly.
 */
module IndexCoverage {
  import opened Wrappers
  import opened EntryOrder
  import opened HeapQueue
  import opened ExpiringMapping

  ghost predicate Consistent<V>(c: Cache<V>) {
    IsHeap(c.sequence) && c.store.Keys == c.timestamps.Keys && INDEX !in c.timestamps
  }

  /** The keys whose current entry is missing from the heap. */
  ghost function Uncovered<V>(c: Cache<V>): set<string> {
    set k | k in c.timestamps && EntryOf(c.timestamps[k], k) !in c.sequence
  }

  /** `r` is `c` with some keys dropped from the data map and `timestamps` alike. */
  ghost predicate Shrunk<V>(c: Cache<V>, r: Cache<V>) {
    && r.timestamps.Keys <= c.timestamps.Keys
    && (forall k :: k in r.timestamps ==> r.timestamps[k] == c.timestamps[k])
    && (forall k :: k in r.timestamps && k in c.store ==> k in r.store && r.store[k] == c.store[k])
  }

  lemma PopMember(h: seq<Entry>, x: Entry)
    requires h != []
    ensures x in Pop(h) ==> x in h
    ensures x in h && x != h[0] ==> x in Pop(h)
  {
    PopRemovesRoot(h);
    assert x in multiset(Pop(h)) <==> x in Pop(h);
    assert x in multiset(h) <==> x in h;
  }

  lemma DropHeadEffect<V>(c: Cache<V>)
    requires c.sequence != []
    ensures Shrunk(c, DropHead(c)) && Uncovered(DropHead(c)) == Uncovered(c)
    ensures Consistent(c) ==> Consistent(DropHead(c))
    ensures forall k :: k in c.timestamps && k !in DropHead(c).timestamps ==>
                          EntryOf(c.timestamps[k], k) == c.sequence[0]
  {
    var r := DropHead(c);
    if Consistent(c) { PopKeepsHeap(c.sequence); }
    forall k | k in c.timestamps
      ensures k in Uncovered(r) <==> k in Uncovered(c)
    {
      PopMember(c.sequence, EntryOf(c.timestamps[k], k));
    }
  }

  lemma {:induction false} DropExpiredEffect<V>(c: Cache<V>, now: int)
    ensures Shrunk(c, DropExpired(c, now)) && Uncovered(DropExpired(c, now)) == Uncovered(c)
    ensures Consistent(c) ==> Consistent(DropExpired(c, now))
    decreases |c.sequence|
  {
    if c.sequence != [] && !Fresh(StampOf(c.sequence[0]), now) {
      DropHeadEffect(c);
      DropExpiredEffect(DropHead(c), now);
    }
  }

  lemma {:induction false} DropOverCapacityEffect<V>(c: Cache<V>, capacity: Option<nat>)
    ensures var (r, e) := DropOverCapacity(c, capacity);
            && Shrunk(c, r) && Uncovered(r) == Uncovered(c) && (Consistent(c) ==> Consistent(r))
            && (e.Err? <==> capacity.Some? && |Uncovered(c)| > capacity.value)
            && (e.Err? ==> e == Err(IndexError))
            && (e.Ok? ==> !Over(r, capacity))
    decreases |c.sequence|
  {
    assert Uncovered(c) <= c.timestamps.Keys;
    CardinalityMonotone(Uncovered(c), c.timestamps.Keys);
    if Over(c, capacity) {
      if c.sequence == [] {
        assert Uncovered(c) == c.timestamps.Keys;
      } else {
        DropHeadEffect(c);
        DropOverCapacityEffect(DropHead(c), capacity);
      }
    }
  }

  /** One turn of a loop drops at most one key. */
  lemma DropHeadSize<V>(c: Cache<V>)
    requires c.sequence != []
    ensures |c.timestamps| - 1 <= |DropHead(c).timestamps| <= |c.timestamps|
  {
    var r, key := DropHead(c), c.sequence[0].key;
    if r.timestamps != c.timestamps {
      assert r.timestamps.Keys == c.timestamps.Keys - {key};
      assert c.timestamps.Keys == r.timestamps.Keys + {key};
    }
  }

  /**
   The capacity loop evicts no more than it must, for every state: nothing when the capacity is respected already, else
   down to exactly the capacity. When it raises, exactly the keys without a heap entry are left.
   */
  lemma {:induction false} DropOverCapacityExact<V>(c: Cache<V>, capacity: Option<nat>)
    ensures var (r, e) := DropOverCapacity(c, capacity);
            && (!Over(c, capacity) ==> r == c && e == Ok(()))
            && (Over(c, capacity) && e.Ok? ==> |r.timestamps| == capacity.value)
            && (e.Err? ==> r.timestamps.Keys == Uncovered(c))
    decreases |c.sequence|
  {
    if Over(c, capacity) {
      if c.sequence == [] {
        assert Uncovered(c) == c.timestamps.Keys;
      } else {
        DropHeadSize(c);
        DropHeadEffect(c);
        DropOverCapacityExact(DropHead(c), capacity);
      }
    }
  }

  lemma {:induction false} CardinalityMonotone<T>(a: set<T>, b: set<T>)
    requires a <= b
    ensures |a| <= |b|
  {
    if a != {} {
      var x :| x in a;
      CardinalityMonotone(a - {x}, b - {x});
    }
  }

  /**
   Maintenance raises exactly when more keys lack a heap entry than the capacity allows;
   it never changes which keys those are, and drops keys from both maps alike.
   */
  lemma MaintenanceRaisesIff<V>(c: Cache<V>, capacity: Option<nat>, now: int)
    ensures var (r, e) := Maintain(c, capacity, now);
            && Shrunk(c, r) && Uncovered(r) == Uncovered(c) && (Consistent(c) ==> Consistent(r))
            && (e.Err? <==> capacity.Some? && |Uncovered(c)| > capacity.value)
            && (e.Err? ==> e == Err(IndexError))
            && (e.Ok? ==> !Over(r, capacity))
  {
    DropExpiredEffect(c, now);
    DropOverCapacityEffect(DropExpired(c, now), capacity);
  }

  /** The new key goes uncovered exactly when the mapping is full and the heap root exceeds the new entry. */
  ghost predicate LeavesUncovered<V>(c: Cache<V>, capacity: Option<nat>, e: Entry) {
    Replaces(c, capacity, e.key) && (c.sequence == [] || Less(e, c.sequence[0]))
  }

  /** The keys without a heap entry once `e` has been set in `c`. */
  ghost function CoverageAfter<V>(c: Cache<V>, capacity: Option<nat>, e: Entry): set<string> {
    if LeavesUncovered(c, capacity, e) then Uncovered(c) + {e.key} else Uncovered(c) - {e.key}
  }

  lemma InsertConsistent<V>(c: Cache<V>, capacity: Option<nat>, key: string, value: V, ttl: int, now: int)
    requires Consistent(c) && key != INDEX
    ensures Consistent(Insert(c, capacity, key, value, ttl, now))
  {
    var e := Entry(now + ttl, now, key);
    PushPopKeepsHeap(c.sequence, e);
    PushKeepsHeap(c.sequence, e);
  }

  lemma PushedCoverage<V>(c: Cache<V>, capacity: Option<nat>, key: string, value: V, ttl: int, now: int)
    requires !Replaces(c, capacity, key)
    ensures Uncovered(Insert(c, capacity, key, value, ttl, now)) == Uncovered(c) - {key}
  {
    var e := Entry(now + ttl, now, key);
    var r := Insert(c, capacity, key, value, ttl, now);
    forall k | k in r.timestamps
      ensures EntryOf(r.timestamps[k], k) in r.sequence <==> k == key || EntryOf(c.timestamps[k], k) in c.sequence
    {
      InsertMember(c.sequence, e, EntryOf(r.timestamps[k], k));
    }
  }

  /** In a heap, a new entry that is handed straight back was in the heap before iff it equals the root. */
  lemma RootMembership(h: seq<Entry>, e: Entry)
    requires IsHeap(h) && (h == [] || !Less(h[0], e))
    ensures e in h <==> h != [] && !Less(e, h[0])
  {
    if h != [] { LessTotal(h[0], e); }
    if e in h {
      var i :| 0 <= i < |h| && h[i] == e;
      RootIsLeast(h, i);
    }
  }

  lemma SwappedCoverage<V>(c: Cache<V>, capacity: Option<nat>, key: string, value: V, ttl: int, now: int)
    requires Replaces(c, capacity, key) && c.sequence != [] && Less(c.sequence[0], Entry(now + ttl, now, key))
    ensures Uncovered(Insert(c, capacity, key, value, ttl, now)) == Uncovered(c) - {key}
  {
    var e := Entry(now + ttl, now, key);
    var r := Insert(c, capacity, key, value, ttl, now);
    assert PushPop(c.sequence, e).0 == c.sequence[0] && r.sequence == PushPop(c.sequence, e).1;
    forall k | k in r.timestamps
      ensures EntryOf(r.timestamps[k], k) in r.sequence <==> k == key || EntryOf(c.timestamps[k], k) in c.sequence
    {
      InsertMember(c.sequence, e, EntryOf(r.timestamps[k], k));
    }
  }

  lemma ReturnedCoverage<V>(c: Cache<V>, capacity: Option<nat>, key: string, value: V, ttl: int, now: int)
    requires IsHeap(c.sequence) && Replaces(c, capacity, key)
    requires c.sequence == [] || !Less(c.sequence[0], Entry(now + ttl, now, key))
    ensures var r := Insert(c, capacity, key, value, ttl, now);
            Uncovered(r) == CoverageAfter(c, capacity, Entry(now + ttl, now, key))
  {
    var e := Entry(now + ttl, now, key);
    var r := Insert(c, capacity, key, value, ttl, now);
    RootMembership(c.sequence, e);
    assert r.sequence == c.sequence && r.timestamps == c.timestamps[key := StampOf(e)];
    assert EntryOf(StampOf(e), key) == e;
  }

  lemma InsertCoverage<V>(c: Cache<V>, capacity: Option<nat>, key: string, value: V, ttl: int, now: int)
    requires Consistent(c) && key != INDEX
    ensures var r := Insert(c, capacity, key, value, ttl, now);
            var e := Entry(now + ttl, now, key);
            Consistent(r) && Uncovered(r) == CoverageAfter(c, capacity, e)
  {
    var e := Entry(now + ttl, now, key);
    InsertConsistent(c, capacity, key, value, ttl, now);
    if !Replaces(c, capacity, key) {
      PushedCoverage(c, capacity, key, value, ttl, now);
    } else if c.sequence != [] && Less(c.sequence[0], e) {
      SwappedCoverage(c, capacity, key, value, ttl, now);
      LessTotal(c.sequence[0], e);
    } else {
      ReturnedCoverage(c, capacity, key, value, ttl, now);
    }
  }

  lemma PushMember(h: seq<Entry>, e: Entry, x: Entry)
    ensures x in Push(h, e) <==> x in h || x == e
  {
    PushAdds(h, e);
    assert x in multiset(Push(h, e)) <==> x in multiset(h) || x == e;
    assert x in multiset(h) <==> x in h;
    assert x in multiset(Push(h, e)) <==> x in Push(h, e);
  }

  /** The root gives way to the new entry, every other entry stays. */
  lemma SwapMember(h: seq<Entry>, e: Entry, x: Entry)
    requires h != [] && Less(h[0], e)
    ensures PushPop(h, e).0 == h[0] && (x in PushPop(h, e).1 <==> x in h[1..] || x == e)
  {
    var s := [e] + h[1..];
    SiftDownPermutes(s, 0);
    assert x in multiset(SiftDown(s, 0)) <==> x in multiset(s);
    assert x in multiset(SiftDown(s, 0)) <==> x in SiftDown(s, 0);
    assert x in multiset(s) <==> x in s;
  }

  lemma InsertMember(h: seq<Entry>, e: Entry, x: Entry)
    ensures x in Push(h, e) <==> x in h || x == e
    ensures x in PushPop(h, e).1 ==> x in h || x == e
    ensures x in h || x == e ==> x in PushPop(h, e).1 || x == PushPop(h, e).0
    ensures h != [] && Less(h[0], e) ==> e in PushPop(h, e).1
  {
    PushMember(h, e, x);
    if h != [] && Less(h[0], e) {
      SwapMember(h, e, x);
      SwapMember(h, e, e);
      assert h == [h[0]] + h[1..];
    }
  }
}
