/**
 The ownership and checkpoint store of `bin/eventhub_helper.py`. The shared KV value is a list of
 records, one per partition. `uuid4` is modelled by a counter, so a new etag was never used before;
 an offset names an event by its index in the partition, and `None` stands for the empty offset.
 Each method call is one atomic step.
 */
module CheckpointStore {
  import opened Wrappers

  type Etag = nat

  datatype Record = Record(partition: nat, owner: string, etag: Etag, modified: int, offset: Option<nat>, seqNo: int)

  datatype Store = Store(records: seq<Record>, next: Etag)

  datatype Claim = Claim(partition: nat, owner: string, etag: Option<Etag>, modified: int)

  /** The three names that the list methods copy into every entry. */
  datatype Scope = Scope(fullyQualifiedNamespace: string, eventhubName: string, consumerGroup: string)

  datatype OwnershipEntry = OwnershipEntry(scope: Scope, claim: Claim)

  datatype CheckpointEntry = CheckpointEntry(scope: Scope, partition: nat, offset: Option<nat>, seqNo: int)

  datatype Error = IndexError

  // ----- what the methods compute -----

  function NewRecords(partitions: seq<nat>, next: Etag, now: int): seq<Record> {
    seq(|partitions|, i requires 0 <= i < |partitions| => Record(partitions[i], "", next + i, now, None, 0))
  }

  function Initialized(s: Store, partitions: seq<nat>, now: int): Store {
    Store(NewRecords(partitions, s.next, now), s.next + |partitions|)
  }

  /** The constructor: a missing checkpoint, or one of another length, is created afresh. */
  function Opened(s: Store, partitions: seq<nat>, now: int): Store {
    if s.records == [] || |s.records| != |partitions| then Initialized(s, partitions, now) else s
  }

  /** `etag_arr`: the etag of each partition when the call begins. */
  function Snapshot(records: seq<Record>, arr: seq<Option<Etag>>): Result<seq<Option<Etag>>, Error> {
    if records == [] then Ok(arr)
    else if records[0].partition >= |arr| then Err(IndexError)
    else Snapshot(records[1..], arr[records[0].partition := Some(records[0].etag)])
  }

  /** The first record of a partition, or the length of the list. */
  function Find(records: seq<Record>, partition: nat): (i: nat)
    ensures i <= |records|
    ensures i < |records| ==> records[i].partition == partition
    ensures forall j :: 0 <= j < i ==> records[j].partition != partition
  {
    if records == [] || records[0].partition == partition then 0 else 1 + Find(records[1..], partition)
  }

  function Granted(s: Store, c: Claim, now: int): (Store, Claim) {
    var i := Find(s.records, c.partition);
    if i == |s.records| then (s, c)
    else (Store(s.records[i := s.records[i].(owner := c.owner, etag := s.next, modified := now)], s.next + 1),
          c.(etag := Some(s.next), modified := now))
  }

  predicate Presents(arr: seq<Option<Etag>>, c: Claim)
    requires c.partition < |arr|
  {
    c.etag.Some? && c.etag == arr[c.partition]
  }

  /** The loop over the listed claims; an index error loses the result but not the grants already stored. */
  function ClaimAll(s: Store, arr: seq<Option<Etag>>, claims: seq<Claim>, acquired: seq<Claim>, now: int)
    : (Store, Result<seq<Claim>, Error>)
    decreases |claims|
  {
    if claims == [] then (s, Ok(acquired))
    else if claims[0].partition >= |arr| then (s, Err(IndexError))
    else if !Presents(arr, claims[0]) then ClaimAll(s, arr, claims[1..], acquired, now)
    else
      var g := Granted(s, claims[0], now);
      ClaimAll(g.0, arr, claims[1..], acquired + [g.1], now)
  }

  function Blank(n: nat): seq<Option<Etag>> {
    seq(n, _ => None)
  }

  function Claimed(s: Store, claims: seq<Claim>, now: int): (Store, Result<seq<Claim>, Error>) {
    var arr := Snapshot(s.records, Blank(|s.records|));
    if arr.Err? then (s, Err(IndexError)) else ClaimAll(s, arr.value, claims, [], now)
  }

  function Checkpointed(s: Store, partition: nat, offset: Option<nat>, seqNo: int): Store {
    var i := Find(s.records, partition);
    if i == |s.records| then s
    else s.(records := s.records[i := s.records[i].(offset := offset, seqNo := seqNo)])
  }

  // ----- the store -----

  class KVCheckpointStore {
    var records: seq<Record>
    var next: Etag

    ghost function State(): Store
      reads this
    {
      Store(records, next)
    }

    method Open(partitions: seq<nat>, now: int)
      modifies this
      ensures State() == Opened(old(State()), partitions, now)
    {
      if records == [] {
        Initialize(partitions, now);
      } else if |records| != |partitions| {
        Initialize(partitions, now);
      }
    }

    method Initialize(partitions: seq<nat>, now: int)
      modifies this
      ensures State() == Initialized(old(State()), partitions, now)
    {
      var init: seq<Record> := [];
      ghost var first := next;
      for i := 0 to |partitions|
        invariant next == first + i && init == NewRecords(partitions, first, now)[..i]
        invariant records == old(records)
      {
        init := init + [Record(partitions[i], "", next, now, None, 0)];
        next := next + 1;
      }
      assert init == NewRecords(partitions, first, now);
      records := init;
    }

    method ClaimOwnership(claims: seq<Claim>, now: int) returns (r: Result<seq<Claim>, Error>)
      modifies this
      ensures (State(), r) == Claimed(old(State()), claims, now)
    {
      var arr := Blank(|records|);
      ghost var arr0 := arr;
      var k := 0;
      while k < |records|
        invariant k <= |records| && Snapshot(records, arr0) == Snapshot(records[k..], arr)
        invariant State() == old(State())
      {
        if records[k].partition >= |arr| {
          return Err(IndexError);
        }
        arr := arr[records[k].partition := Some(records[k].etag)];
        k := k + 1;
      }
      var acquired: seq<Claim> := [];
      for j := 0 to |claims|
        invariant ClaimAll(State(), arr, claims[j..], acquired, now) == Claimed(old(State()), claims, now)
      {
        var c := claims[j];
        assert claims[j..][1..] == claims[j + 1..];
        if c.partition >= |arr| {
          return Err(IndexError);
        }
        if !c.etag.Some? || c.etag != arr[c.partition] {
          continue;
        }
        var i := FindRecord(c.partition);
        if i < |records| {
          records := records[i := records[i].(owner := c.owner, etag := next, modified := now)];
          c := c.(etag := Some(next), modified := now);
          next := next + 1;
        }
        acquired := acquired + [c];
      }
      r := Ok(acquired);
    }

    method FindRecord(partition: nat) returns (i: nat)
      ensures i == Find(records, partition)
    {
      i := 0;
      while i < |records| && records[i].partition != partition
        invariant i <= |records| && i + Find(records[i..], partition) == Find(records, partition)
      {
        i := i + 1;
      }
    }

    method UpdateCheckpoint(partition: nat, offset: Option<nat>, seqNo: int)
      modifies this
      ensures State() == Checkpointed(old(State()), partition, offset, seqNo)
    {
      var i := FindRecord(partition);
      if i < |records| {
        records := records[i := records[i].(offset := offset, seqNo := seqNo)];
      }
    }

    method ListOwnership(scope: Scope) returns (r: seq<OwnershipEntry>)
      ensures |r| == |records|
      ensures forall i :: 0 <= i < |records| ==>
                && r[i].scope == scope
                && r[i].claim ==
                   Claim(records[i].partition, records[i].owner, Some(records[i].etag), records[i].modified)
    {
      r := [];
      for k := 0 to |records|
        invariant |r| == k
        invariant forall i :: 0 <= i < k ==>
                    && r[i].scope == scope
                    && r[i].claim ==
                       Claim(records[i].partition, records[i].owner, Some(records[i].etag), records[i].modified)
      {
        var c := records[k];
        r := r + [OwnershipEntry(scope, Claim(c.partition, c.owner, Some(c.etag), c.modified))];
      }
    }

    method ListCheckpoints(scope: Scope) returns (r: seq<CheckpointEntry>)
      ensures |r| == |records|
      ensures forall i :: 0 <= i < |records| ==>
                r[i] == CheckpointEntry(scope, records[i].partition, records[i].offset, records[i].seqNo)
    {
      r := [];
      for k := 0 to |records|
        invariant |r| == k
        invariant forall i :: 0 <= i < k ==>
                    r[i] == CheckpointEntry(scope, records[i].partition, records[i].offset, records[i].seqNo)
      {
        r := r + [CheckpointEntry(scope, records[k].partition, records[k].offset, records[k].seqNo)];
      }
    }
  }
}
