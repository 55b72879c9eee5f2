/**
 The expiring, capacity-bounded mapping of `lib/msal/individual_cache.py`.
 Functions on the value type `Cache` say what each operation computes; the class below
 performs the operations in place and is proved against them. The clock is a parameter:
 `_set` reads it twice, once in its maintenance (`t0`) and once for the new entry (`t1`).
 */
module ExpiringMapping {
  import opened Wrappers
  import opened EntryOrder
  import opened HeapQueue

  const INDEX := "_index_"

  datatype Error = KeyError | ValueError | IndexError

  /** `[expires_at, created_at]` as kept in `timestamps`. */
  datatype Stamp = Stamp(expiresAt: int, createdAt: int)

  /** The user's keys in `_mapping`, and the index kept there under the reserved key. */
  datatype Cache<V> = Cache(store: map<string, V>, sequence: seq<Entry>, timestamps: map<string, Stamp>)

  predicate Fresh(s: Stamp, now: int) {
    s.createdAt <= now < s.expiresAt
  }

  function StampOf(e: Entry): Stamp {
    Stamp(e.expiresAt, e.createdAt)
  }

  function EntryOf(s: Stamp, key: string): Entry {
    Entry(s.expiresAt, s.createdAt, key)
  }

  /** `_drop_indexed_entry`: an orphan drops nothing. */
  function DropIndexed<V>(c: Cache<V>, e: Entry): Cache<V> {
    if e.key in c.timestamps && c.timestamps[e.key] == StampOf(e) then
      c.(store := c.store - {e.key}, timestamps := c.timestamps - {e.key})
    else c
  }

  /** One turn of either loop of `_maintenance`. */
  function DropHead<V>(c: Cache<V>): Cache<V>
    requires c.sequence != []
  {
    DropIndexed(c, c.sequence[0]).(sequence := Pop(c.sequence))
  }

  function DropExpired<V>(c: Cache<V>, now: int): Cache<V>
    decreases |c.sequence|
  {
    if c.sequence == [] || Fresh(StampOf(c.sequence[0]), now) then c else DropExpired(DropHead(c), now)
  }

  predicate Over<V>(c: Cache<V>, capacity: Option<nat>) {
    capacity.Some? && |c.timestamps| > capacity.value
  }

  /** The second loop; `sequence[0]` raises when the heap runs out first. */
  function DropOverCapacity<V>(c: Cache<V>, capacity: Option<nat>): (Cache<V>, Result<(), Error>)
    decreases |c.sequence|
  {
    if !Over(c, capacity) then (c, Ok(()))
    else if c.sequence == [] then (c, Err(IndexError))
    else DropOverCapacity(DropHead(c), capacity)
  }

  function Maintain<V>(c: Cache<V>, capacity: Option<nat>, now: int): (Cache<V>, Result<(), Error>) {
    DropOverCapacity(DropExpired(c, now), capacity)
  }

  /** `is_new_item and is_beyond_capacity`: a capacity of zero counts as none here. */
  predicate Replaces<V>(c: Cache<V>, capacity: Option<nat>, key: string) {
    key !in c.timestamps && capacity.Some? && capacity.value != 0 && |c.timestamps| >= capacity.value
  }

  function Insert<V>(c: Cache<V>, capacity: Option<nat>, key: string, value: V, ttl: int, now: int): Cache<V> {
    var e := Entry(now + ttl, now, key);
    var d := if Replaces(c, capacity, key)
             then DropIndexed(c, PushPop(c.sequence, e).0).(sequence := PushPop(c.sequence, e).1)
             else c.(sequence := Push(c.sequence, e));
    d.(store := d.store[key := value], timestamps := d.timestamps[key := StampOf(e)])
  }

  function SetStep<V>(c: Cache<V>, capacity: Option<nat>, key: string, value: V, ttl: int, t0: int, t1: int)
    : (Cache<V>, Result<(), Error>)
  {
    if key == INDEX then (c, Err(ValueError)) else
      var m := Maintain(c, capacity, t0);
      if m.1.Err? then (m.0, m.1) else (Insert(m.0, capacity, key, value, ttl, t1), Ok(()))
  }

  function Forget<V>(c: Cache<V>, key: string): Cache<V> {
    c.(store := c.store - {key}, timestamps := c.timestamps - {key})
  }

  function GetStep<V>(c: Cache<V>, key: string, now: int): (Cache<V>, Result<V, Error>) {
    if key == INDEX then (c, Err(ValueError))
    else if key !in c.timestamps then (c, Err(KeyError))
    else if !Fresh(c.timestamps[key], now) then (Forget(c, key), Err(KeyError))
    else (c, if key in c.store then Ok(c.store[key]) else Err(KeyError))
  }

  function DeleteStep<V>(c: Cache<V>, key: string): (Cache<V>, Result<(), Error>) {
    if key == INDEX then (c, Err(ValueError))
    else (Forget(c, key), if key in c.timestamps then Ok(()) else Err(KeyError))
  }

  function KeysStep<V>(c: Cache<V>, capacity: Option<nat>, now: int): (Cache<V>, Result<set<string>, Error>) {
    var m := Maintain(c, capacity, now);
    (m.0, if m.1.Ok? then Ok(m.0.timestamps.Keys) else Err(m.1.error))
  }

  function LengthStep<V>(c: Cache<V>, capacity: Option<nat>, now: int): (Cache<V>, Result<nat, Error>) {
    var m := Maintain(c, capacity, now);
    (m.0, if m.1.Ok? then Ok(|m.0.timestamps|) else Err(m.1.error))
  }

  class Mapping<V> {
    const capacity: Option<nat>
    const expiresIn: Option<int>
    var store: map<string, V>
    var sequence: seq<Entry>
    var timestamps: map<string, Stamp>

    constructor (capacity: Option<nat>, expiresIn: Option<int>)
      ensures State() == Cache(map[], [], map[])
      ensures this.capacity == capacity && this.expiresIn == expiresIn
    {
      this.capacity, this.expiresIn := capacity, expiresIn;
      store, sequence, timestamps := map[], [], map[];
    }

    ghost function State(): Cache<V>
      reads this
    {
      Cache(store, sequence, timestamps)
    }

    method DropIndexedEntry(e: Entry)
      modifies `store, `timestamps
      ensures State() == DropIndexed(old(State()), e)
    {
      if e.key in timestamps && timestamps[e.key] == StampOf(e) {
        store := store - {e.key};
        timestamps := timestamps - {e.key};
      }
    }

    method Maintenance(now: int) returns (r: Result<(), Error>)
      modifies this
      ensures (State(), r) == Maintain(old(State()), capacity, now)
    {
      while sequence != []
        invariant DropExpired(State(), now) == DropExpired(old(State()), now)
        decreases |sequence|
      {
        if Fresh(StampOf(sequence[0]), now) {
          break;
        }
        DropIndexedEntry(sequence[0]);
        sequence := Pop(sequence);
      }
      while capacity.Some? && |timestamps| > capacity.value
        invariant DropOverCapacity(State(), capacity) == Maintain(old(State()), capacity, now)
        decreases |sequence|
      {
        if sequence == [] {
          return Err(IndexError);
        }
        DropIndexedEntry(sequence[0]);
        sequence := Pop(sequence);
      }
      return Ok(());
    }

    method Set(key: string, value: V, ttl: int, t0: int, t1: int) returns (r: Result<(), Error>)
      modifies this
      ensures (State(), r) == SetStep(old(State()), capacity, key, value, ttl, t0, t1)
    {
      if key == INDEX {
        return Err(ValueError);
      }
      r := Maintenance(t0);
      if r.Err? {
        return;
      }
      Add(key, value, ttl, t1);
      r := Ok(());
    }

    /** The rest of `_set`, after its maintenance. */
    method Add(key: string, value: V, ttl: int, now: int)
      modifies this
      ensures State() == Insert(old(State()), capacity, key, value, ttl, now)
    {
      var entry := Entry(now + ttl, now, key);
      var isNewItem := key !in timestamps;
      var isBeyondCapacity := capacity.Some? && capacity.value != 0 && |timestamps| >= capacity.value;
      if isNewItem && isBeyondCapacity {
        var r := PushPop(sequence, entry);
        sequence := r.1;
        DropIndexedEntry(r.0);
      } else {
        sequence := Push(sequence, entry);
      }
      timestamps := timestamps[key := Stamp(now + ttl, now)];
      store := store[key := value];
    }

    /** `__setitem__`: the class-wide lifetime must have been given. */
    method SetItem(key: string, value: V, t0: int, t1: int) returns (r: Result<(), Error>)
      modifies this
      ensures (State(), r) == if expiresIn.None? then (old(State()), Err(ValueError))
                              else SetStep(old(State()), capacity, key, value, expiresIn.value, t0, t1)
    {
      if expiresIn.None? {
        return Err(ValueError);
      }
      r := Set(key, value, expiresIn.value, t0, t1);
    }

    method GetItem(key: string, now: int) returns (r: Result<V, Error>)
      modifies this
      ensures (State(), r) == GetStep(old(State()), key, now)
    {
      if key == INDEX {
        return Err(ValueError);
      }
      if key !in timestamps {
        return Err(KeyError);
      }
      if !Fresh(timestamps[key], now) {
        store := store - {key};
        timestamps := timestamps - {key};
        return Err(KeyError);
      }
      r := if key in store then Ok(store[key]) else Err(KeyError);
    }

    method DeleteItem(key: string) returns (r: Result<(), Error>)
      modifies this
      ensures (State(), r) == DeleteStep(old(State()), key)
    {
      if key == INDEX {
        return Err(ValueError);
      }
      store := store - {key};
      if key !in timestamps {
        assert timestamps - {key} == timestamps;
        return Err(KeyError);
      }
      timestamps := timestamps - {key};
      r := Ok(());
    }

    method Length(now: int) returns (r: Result<nat, Error>)
      modifies this
      ensures (State(), r) == LengthStep(old(State()), capacity, now)
    {
      var m := Maintenance(now);
      r := if m.Ok? then Ok(|timestamps|) else Err(m.error);
    }

    method Keys(now: int) returns (r: Result<set<string>, Error>)
      modifies this
      ensures (State(), r) == KeysStep(old(State()), capacity, now)
    {
      var m := Maintenance(now);
      r := if m.Ok? then Ok(timestamps.Keys) else Err(m.error);
    }
  }
}
