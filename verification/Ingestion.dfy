/**
 At-least-once ingestion: several consumers over one shared checkpoint store, as a state machine.
 The events of a partition are numbered from 0. What the SDK contributes is assumed: receiving starts
 at a checkpoint listed earlier, the empty offset means the start of the log, and the events of a
 partition reach a receiver in order. A consumer may crash or be stopped between any two steps.
 */
module Ingestion {
  import opened Wrappers
  import opened CheckpointStore
  import opened Ownership

  /** The next event to receive, and the batch in hand: its size and how many events were passed on. */
  datatype Receiver = Receiver(position: nat, size: nat, done: nat)

  /** `listed` and `receivers` are keyed by consumer and partition; `selected` is what reached `_select_elements`. */
  datatype System = System(
    store: Store, listed: map<(nat, nat), nat>, receivers: map<(nat, nat), Receiver>, selected: set<(nat, nat)>)

  datatype Step =
    | Claims(claims: seq<Claim>, now: int)
    | Open(partitions: nat, now: int)
    | ListCheckpoints(consumer: nat)
    | Receive(consumer: nat, partition: nat)
    | Deliver(consumer: nat, partition: nat, size: nat)
    | Select(consumer: nat, partition: nat)
    | Finish(consumer: nat, partition: nat, seqNo: int)
    | Stop(consumer: nat, partition: nat)
    | Crash(consumer: nat)

  /** The first event not covered by a stored offset. */
  function Position(offset: Option<nat>): nat {
    match offset
    case None => 0
    case Some(i) => i + 1
  }

  predicate Enabled(s: System, step: Step) {
    match step
    case Claims(_, _) => true
    case Open(_, _) => true
    case ListCheckpoints(_) => true
    case Receive(c, p) => (c, p) in s.listed
    case Deliver(c, p, size) => (c, p) in s.receivers && s.receivers[(c, p)].size == 0 && size > 0
    case Select(c, p) => (c, p) in s.receivers && s.receivers[(c, p)].done < s.receivers[(c, p)].size
    case Finish(c, p, _) =>
      (c, p) in s.receivers && s.receivers[(c, p)].size > 0 && s.receivers[(c, p)].done == s.receivers[(c, p)].size
    case Stop(_, _) => true
    case Crash(_) => true
  }

  ghost function Listing(records: seq<Record>, c: nat): map<(nat, nat), nat> {
    map i | 0 <= i < |records| :: (c, i) := Position(records[i].offset)
  }

  ghost function Next(s: System, step: Step): System
    requires Enabled(s, step)
  {
    match step
    case Claims(claims, now) => s.(store := Claimed(s.store, claims, now).0)
    case Open(n, now) => s.(store := Opened(s.store, Ids(n), now))
    case ListCheckpoints(c) => s.(listed := s.listed + Listing(s.store.records, c))
    case Receive(c, p) => s.(receivers := s.receivers[(c, p) := Receiver(s.listed[(c, p)], 0, 0)])
    case Deliver(c, p, size) =>
      s.(receivers := s.receivers[(c, p) := s.receivers[(c, p)].(size := size, done := 0)])
    case Select(c, p) =>
      var r := s.receivers[(c, p)];
      s.(receivers := s.receivers[(c, p) := r.(done := r.done + 1)],
         selected := s.selected + {(p, r.position + r.done)})
    case Finish(c, p, seqNo) =>
      var r := s.receivers[(c, p)];
      s.(store := Checkpointed(s.store, p, Some(r.position + r.size - 1), seqNo),
         receivers := s.receivers[(c, p) := Receiver(r.position + r.size, 0, 0)])
    case Stop(c, p) => s.(receivers := s.receivers - {(c, p)})
    case Crash(c) =>
      s.(listed := map k | k in s.listed && k.0 != c :: s.listed[k],
         receivers := map k | k in s.receivers && k.0 != c :: s.receivers[k])
  }

  ghost predicate Feasible(s: System, steps: seq<Step>)
    decreases |steps|
  {
    steps != [] ==> Enabled(s, steps[0]) && Feasible(Next(s, steps[0]), steps[1..])
  }

  ghost function RunSteps(s: System, steps: seq<Step>): System
    requires Feasible(s, steps)
    decreases |steps|
  {
    if steps == [] then s else RunSteps(Next(s, steps[0]), steps[1..])
  }

  /** The first `n` events of partition `p` have all been passed on. */
  ghost predicate AllSelected(selected: set<(nat, nat)>, p: nat, n: nat) {
    forall i :: 0 <= i < n ==> (p, i) in selected
  }

  /** Every event before a stored checkpoint has reached `_select_elements` at least once. */
  ghost predicate AtLeastOnce(s: System) {
    forall p :: 0 <= p < |s.store.records| ==> AllSelected(s.selected, p, Position(s.store.records[p].offset))
  }

  ghost predicate Invariant(s: System) {
    && Shape(s.store) && AtLeastOnce(s)
    && (forall k :: k in s.listed ==> AllSelected(s.selected, k.1, s.listed[k]))
    && (forall k :: k in s.receivers ==>
          AllSelected(s.selected, k.1, s.receivers[k].position + s.receivers[k].done))
  }

  lemma StoreStep(s: System, step: Step)
    requires Invariant(s) && (step.Claims? || step.Open?)
    ensures Invariant(Next(s, step))
  {
    match step
    case Claims(claims, now) =>
      ClaimsExact(s.store, claims, now);
      ClaimKeepsCheckpoints(s.store, claims, now);
    case Open(n, now) => OpenInShape(s.store, n, now);
  }

  lemma SelectStep(s: System, step: Step)
    requires Invariant(s) && step.Select? && Enabled(s, step)
    ensures Invariant(Next(s, step))
  {
  }

  lemma FinishStep(s: System, step: Step)
    requires Invariant(s) && step.Finish? && Enabled(s, step)
    ensures Invariant(Next(s, step))
  {
    var r := s.receivers[(step.consumer, step.partition)];
    var s' := Next(s, step);
    CheckpointInShape(s.store, step.partition, Some(r.position + r.size - 1), step.seqNo);
    assert AllSelected(s.selected, step.partition, r.position + r.size);
    forall p | 0 <= p < |s'.store.records|
      ensures AllSelected(s.selected, p, Position(s'.store.records[p].offset))
    {
      assert p != step.partition ==> s'.store.records[p] == s.store.records[p];
    }
    assert AtLeastOnce(s');
  }

  lemma ConsumerStep(s: System, step: Step)
    requires Invariant(s) && Enabled(s, step)
    requires step.ListCheckpoints? || step.Receive? || step.Deliver? || step.Stop? || step.Crash?
    ensures Invariant(Next(s, step))
  {
    if step.ListCheckpoints? {
      var s' := Next(s, step);
      forall k | k in s'.listed ensures AllSelected(s.selected, k.1, s'.listed[k]) {
        if k !in Listing(s.store.records, step.consumer) { assert k in s.listed; }
      }
    } else if step.Deliver? {
      var r := s.receivers[(step.consumer, step.partition)];
      assert AllSelected(s.selected, step.partition, r.position);
    }
  }

  lemma {:induction false} StepKeepsInvariant(s: System, step: Step)
    requires Invariant(s) && Enabled(s, step)
    ensures Invariant(Next(s, step))
  {
    match step
    case Claims(_, _) => StoreStep(s, step);
    case Open(_, _) => StoreStep(s, step);
    case Select(_, _) => SelectStep(s, step);
    case Finish(_, _, _) => FinishStep(s, step);
    case _ => ConsumerStep(s, step);
  }

  lemma {:induction false} RunKeepsInvariant(s: System, steps: seq<Step>)
    requires Invariant(s) && Feasible(s, steps)
    ensures Invariant(RunSteps(s, steps))
    decreases |steps|
  {
    if steps != [] {
      StepKeepsInvariant(s, steps[0]);
      RunKeepsInvariant(Next(s, steps[0]), steps[1..]);
    }
  }

  /**
   Over every run from an empty store, with any number of consumers, stale listings, crashes in the middle of
   a batch, restarts, changes of ownership and re-initialised checkpoints: every event before a stored
   checkpoint has been passed to `_select_elements` at least once.
   */
  lemma IngestedAtLeastOnce(steps: seq<Step>)
    requires Feasible(System(Store([], 0), map[], map[], {}), steps)
    ensures AtLeastOnce(RunSteps(System(Store([], 0), map[], map[], {}), steps))
  {
    RunKeepsInvariant(System(Store([], 0), map[], map[], {}), steps);
  }

  /** A receiver passes events on without a gap: whatever it has reached, all earlier events are covered too. */
  lemma ReceiversLeaveNoGap(steps: seq<Step>, consumer: nat, partition: nat, i: nat)
    requires Feasible(System(Store([], 0), map[], map[], {}), steps)
    ensures var s := RunSteps(System(Store([], 0), map[], map[], {}), steps);
            (consumer, partition) in s.receivers && i < s.receivers[(consumer, partition)].position ==>
              (partition, i) in s.selected
  {
    var s0 := System(Store([], 0), map[], map[], {});
    RunKeepsInvariant(s0, steps);
    var s := RunSteps(s0, steps);
    if (consumer, partition) in s.receivers {
      var r := s.receivers[(consumer, partition)];
      assert AllSelected(s.selected, (consumer, partition).1, r.position + r.done);
    }
  }

  /** A finished batch moves the stored checkpoint exactly behind its last event, and the receiver with it. */
  lemma FinishStores(s: System, c: nat, p: nat, seqNo: int)
    requires Invariant(s) && Enabled(s, Finish(c, p, seqNo)) && p < |s.store.records|
    ensures var s', r := Next(s, Finish(c, p, seqNo)), s.receivers[(c, p)];
            && |s'.store.records| == |s.store.records|
            && Position(s'.store.records[p].offset) == r.position + r.size && s'.store.records[p].seqNo == seqNo
            && s'.receivers[(c, p)] == Receiver(r.position + r.size, 0, 0)
            && forall q :: 0 <= q < |s.store.records| && q != p ==> s'.store.records[q] == s.store.records[q]
  {
    var r := s.receivers[(c, p)];
    CheckpointInShape(s.store, p, Some(r.position + r.size - 1), seqNo);
  }

  /** A consumer that lists the checkpoints and then receives begins exactly at the stored checkpoint. */
  lemma ResumesAtCheckpoint(s: System, c: nat, p: nat)
    requires p < |s.store.records|
    ensures var s' := Next(s, ListCheckpoints(c));
            && Enabled(s', Receive(c, p))
            && Next(s', Receive(c, p)).receivers[(c, p)].position == Position(s.store.records[p].offset)
  {
    assert (c, p) in Listing(s.store.records, c);
  }

  /** So whoever takes over after a finished batch goes on exactly where that batch ended. */
  lemma HandoverResumes(s: System, c: nat, p: nat, seqNo: int, c': nat)
    requires Invariant(s) && Enabled(s, Finish(c, p, seqNo)) && p < |s.store.records|
    ensures var s' := Next(Next(s, Finish(c, p, seqNo)), ListCheckpoints(c'));
            && Enabled(s', Receive(c', p))
            && Next(s', Receive(c', p)).receivers[(c', p)].position
               == s.receivers[(c, p)].position + s.receivers[(c, p)].size
  {
    FinishStores(s, c, p, seqNo);
    ResumesAtCheckpoint(Next(s, Finish(c, p, seqNo)), c', p);
  }
}
