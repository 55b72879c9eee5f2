/**
 The event handler of `bin/eventhub_helper.py`: it filters the records of a batch, counts them, asks for a
 checkpoint after the batch, and logs statistics when every partition has gone quiet. JSON parsing is given by
 its outcome, and the time of a log line is a parameter.
 */
module ConsumerHandler {
  import opened Wrappers

  /** One element of `records`: a dict with a string category (missing counts as empty), a string that is not
      JSON, or anything on which `.get` or `.replace` fails. */
  datatype Item = Record(category: string) | BadJson | NotADict

  datatype Body = NotJson | NoRecords | Records(items: seq<Item>)

  /** An entry of `_partition_details`; the dict is kept in insertion order. */
  datatype Detail = Detail(partition: string, isDone: int, received: nat)

  datatype Stats = Stats(received: nat, skipped: nat, ingested: nat, time: int)

  datatype Outcome = Checkpoint | NoCheckpoint | Raised

  /** What happened to a partition since the last reset: a callback that raised, a full batch, or an empty one. */
  datatype Mark = Aborted(partition: string) | Full(partition: string) | Idle(partition: string)

  datatype State = State(
    details: seq<Detail>, skipped: nat, ingested: nat, logged: seq<Stats>,
    written: seq<string>, dropped: nat, completed: nat, marks: seq<Mark>)

  const PREFIX := "AdvancedHunting-"

  /** `str.replace(pattern, "")`. */
  function RemoveAll(s: string, pattern: string): string
    requires pattern != ""
  {
    if |s| < |pattern| then s
    else if s[..|pattern|] == pattern then RemoveAll(s[|pattern|..], pattern)
    else [s[0]] + RemoveAll(s[1..], pattern)
  }

  predicate Streams(types: seq<string>, category: string) {
    var t := RemoveAll(category, PREFIX);
    t != "" && t in types
  }

  /** `_write_event`. */
  function Written(s: State, types: seq<string>, category: string): State {
    if Streams(types, category) then s.(ingested := s.ingested + 1, written := s.written + [category])
    else s.(skipped := s.skipped + 1, dropped := s.dropped + 1)
  }

  /** `_select_elements` over the records: a string that is not JSON ends the event quietly. */
  function SelectItems(s: State, types: seq<string>, items: seq<Item>): (State, bool)
    decreases |items|
  {
    if items == [] || items[0].BadJson? then (s, false)
    else if items[0].NotADict? then (s, true)
    else SelectItems(Written(s, types, items[0].category), types, items[1..])
  }

  function SelectBody(s: State, types: seq<string>, body: Body): (State, bool) {
    if body.Records? then SelectItems(s, types, body.items) else (s, false)
  }

  function SelectAll(s: State, types: seq<string>, bodies: seq<Body>): (State, bool)
    decreases |bodies|
  {
    if bodies == [] then (s, false) else
      var r := SelectBody(s, types, bodies[0]);
      if r.1 then r else SelectAll(r.0, types, bodies[1..])
  }

  function IndexOf(details: seq<Detail>, partition: string): (i: nat)
    ensures i <= |details|
    ensures i < |details| ==> details[i].partition == partition
    ensures forall j :: 0 <= j < i ==> details[j].partition != partition
  {
    if details == [] || details[0].partition == partition then 0 else 1 + IndexOf(details[1..], partition)
  }

  /** `_get_partition_details`. */
  function Tracked(details: seq<Detail>, partition: string): seq<Detail> {
    if IndexOf(details, partition) == |details| then details + [Detail(partition, -1, 0)] else details
  }

  function TotalReceived(details: seq<Detail>): nat {
    if details == [] then 0 else TotalReceived(details[..|details| - 1]) + details[|details| - 1].received
  }

  /** `_log_event_stats`: one summary, and everything starts again. */
  function Flushed(s: State, now: int): State {
    s.(logged := s.logged + [Stats(TotalReceived(s.details), s.skipped, s.ingested, now)],
       details := [], skipped := 0, ingested := 0, marks := [])
  }

  predicate AllDone(details: seq<Detail>) {
    forall i :: 0 <= i < |details| ==> details[i].isDone > 0
  }

  /** `_on_event_batch`. */
  function OnBatch(s: State, types: seq<string>, p: string, bodies: seq<Body>, now: int): (State, Outcome) {
    var i := IndexOf(s.details, p);
    var t := s.(details := Tracked(s.details, p));
    if bodies != [] then
      var r := SelectAll(t, types, bodies);
      if r.1 then (r.0.(marks := s.marks + [Aborted(p)]), Raised)
      else (r.0.(details := t.details[i := Detail(p, 0, t.details[i].received + |bodies|)],
                 completed := s.completed + |bodies|, marks := s.marks + [Full(p)]), Checkpoint)
    else
      var u := t.(details := t.details[i := t.details[i].(isDone := t.details[i].isDone + 1)],
                  marks := s.marks + [Idle(p)]);
      (if AllDone(u.details) then Flushed(u, now) else u, NoCheckpoint)
  }

  class EventHubConsumerHandler {
    const streamingEventTypes: seq<string>
    var partitionDetails: seq<Detail>
    var skippedEventsCount: nat
    var ingestedEventsCount: nat
    ghost var logged: seq<Stats>
    ghost var written: seq<string>
    ghost var dropped: nat
    ghost var completed: nat
    ghost var marks: seq<Mark>

    constructor (types: seq<string>)
      ensures streamingEventTypes == types && Value() == State([], 0, 0, [], [], 0, 0, [])
    {
      streamingEventTypes := types;
      partitionDetails, skippedEventsCount, ingestedEventsCount := [], 0, 0;
      logged, written, dropped, completed, marks := [], [], 0, 0, [];
    }

    ghost function Value(): State
      reads this
    {
      State(partitionDetails, skippedEventsCount, ingestedEventsCount, logged, written, dropped, completed, marks)
    }

    method WriteEvent(category: string)
      modifies this
      ensures Value() == Written(old(Value()), streamingEventTypes, category)
    {
      var eventType := RemoveAll(category, PREFIX);
      if eventType == "" || eventType !in streamingEventTypes {
        skippedEventsCount := skippedEventsCount + 1;
        dropped := dropped + 1;
        return;
      }
      written := written + [category];
      ingestedEventsCount := ingestedEventsCount + 1;
    }

    method SelectElements(body: Body) returns (raised: bool)
      modifies this
      ensures (Value(), raised) == SelectBody(old(Value()), streamingEventTypes, body)
    {
      if !body.Records? {
        return false;
      }
      var items := body.items;
      for k := 0 to |items|
        invariant SelectItems(Value(), streamingEventTypes, items[k..])
                  == SelectItems(old(Value()), streamingEventTypes, items)
      {
        assert items[k..][1..] == items[k + 1..];
        if items[k].BadJson? {
          return false;
        }
        if items[k].NotADict? {
          return true;
        }
        WriteEvent(items[k].category);
      }
      return false;
    }

    method GetPartitionDetails(partition: string) returns (i: nat)
      modifies this
      ensures i == IndexOf(old(partitionDetails), partition)
      ensures Value() == old(Value()).(details := Tracked(old(partitionDetails), partition))
    {
      i := 0;
      while i < |partitionDetails| && partitionDetails[i].partition != partition
        invariant i <= |partitionDetails| && Value() == old(Value())
        invariant i + IndexOf(partitionDetails[i..], partition) == IndexOf(partitionDetails, partition)
      {
        i := i + 1;
      }
      if i == |partitionDetails| {
        partitionDetails := partitionDetails + [Detail(partition, -1, 0)];
      }
    }

    method OnEventBatch(partition: string, bodies: seq<Body>, now: int) returns (o: Outcome)
      modifies this
      ensures (Value(), o) == OnBatch(old(Value()), streamingEventTypes, partition, bodies, now)
    {
      var i := GetPartitionDetails(partition);
      if bodies != [] {
        ghost var start := Value();
        for k := 0 to |bodies|
          invariant SelectAll(Value(), streamingEventTypes, bodies[k..])
                    == SelectAll(start, streamingEventTypes, bodies)
          invariant partitionDetails == start.details && marks == old(marks) && completed == old(completed)
        {
          assert bodies[k..][1..] == bodies[k + 1..];
          SelectionKeeps(Value(), streamingEventTypes, bodies[k]);
          var raised := SelectElements(bodies[k]);
          if raised {
            marks := marks + [Aborted(partition)];
            return Raised;
          }
        }
        partitionDetails := partitionDetails[i := Detail(partition, 0, partitionDetails[i].received + |bodies|)];
        completed := completed + |bodies|;
        marks := marks + [Full(partition)];
        return Checkpoint;
      }
      partitionDetails := partitionDetails[i := partitionDetails[i].(isDone := partitionDetails[i].isDone + 1)];
      marks := marks + [Idle(partition)];
      if forall j :: 0 <= j < |partitionDetails| ==> partitionDetails[j].isDone > 0 {
        LogEventStats(now);
      }
      o := NoCheckpoint;
    }

    method LogEventStats(now: int)
      modifies this
      ensures Value() == Flushed(old(Value()), now)
    {
      var total := 0;
      for k := 0 to |partitionDetails|
        invariant total == TotalReceived(partitionDetails[..k])
        invariant Value() == old(Value())
      {
        assert partitionDetails[..k + 1][..k] == partitionDetails[..k];
        total := total + partitionDetails[k].received;
      }
      assert partitionDetails[..|partitionDetails|] == partitionDetails;
      logged := logged + [Stats(total, skippedEventsCount, ingestedEventsCount, now)];
      partitionDetails := [];
      skippedEventsCount := 0;
      ingestedEventsCount := 0;
      marks := [];
    }
  }

  // ----- what filtering a batch keeps -----

  lemma {:induction false} ItemsKeep(s: State, types: seq<string>, items: seq<Item>)
    ensures var r := SelectItems(s, types, items).0;
            && r.details == s.details && r.logged == s.logged && r.marks == s.marks && r.completed == s.completed
            && r.ingested - s.ingested == |r.written| - |s.written| && r.skipped - s.skipped == r.dropped - s.dropped
            && s.written <= r.written
            && forall i :: |s.written| <= i < |r.written| ==> Streams(types, r.written[i])
    decreases |items|
  {
    if items != [] && items[0].Record? { ItemsKeep(Written(s, types, items[0].category), types, items[1..]); }
  }

  lemma SelectionKeeps(s: State, types: seq<string>, body: Body)
    ensures var r := SelectBody(s, types, body).0;
            r.details == s.details && r.logged == s.logged && r.marks == s.marks && r.completed == s.completed
  {
    if body.Records? { ItemsKeep(s, types, body.items); }
  }

  /** Over a batch, raised or not: each event written is counted once and is of a streamed type. */
  lemma {:induction false} BatchKeeps(s: State, types: seq<string>, bodies: seq<Body>)
    ensures var r := SelectAll(s, types, bodies).0;
            && r.details == s.details && r.logged == s.logged && r.marks == s.marks && r.completed == s.completed
            && r.ingested - s.ingested == |r.written| - |s.written| && r.skipped - s.skipped == r.dropped - s.dropped
            && s.written <= r.written
            && forall i :: |s.written| <= i < |r.written| ==> Streams(types, r.written[i])
    decreases |bodies|
  {
    if bodies != [] {
      if bodies[0].Records? { ItemsKeep(s, types, bodies[0].items); }
      var r := SelectBody(s, types, bodies[0]);
      if !r.1 { BatchKeeps(r.0, types, bodies[1..]); }
    }
  }
}
