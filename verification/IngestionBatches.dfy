/**
 The batch callback of one receiver as steps of the ingestion state machine: its `Finish` step, which writes the
 checkpoint, is open exactly when the callback asks for one.
 */
module IngestionBatches {
  import opened Ingestion
  import Handler = ConsumerHandler

  /** How many events of the batch were passed to `_select_elements` and came back, before the first that raised. */
  function PassedOn(s: Handler.State, types: seq<string>, bodies: seq<Handler.Body>): (n: nat)
    ensures n <= |bodies|
    decreases |bodies|
  {
    if bodies == [] then 0 else
      var r := Handler.SelectBody(s, types, bodies[0]);
      if r.1 then 0 else 1 + PassedOn(r.0, types, bodies[1..])
  }

  lemma {:induction false} RaisedIffStoppedEarly(s: Handler.State, types: seq<string>, bodies: seq<Handler.Body>)
    ensures Handler.SelectAll(s, types, bodies).1 <==> PassedOn(s, types, bodies) < |bodies|
    decreases |bodies|
  {
    if bodies != [] {
      var r := Handler.SelectBody(s, types, bodies[0]);
      if !r.1 { RaisedIffStoppedEarly(r.0, types, bodies[1..]); }
    }
  }

  /** The handler's state once the callback has looked its partition up. */
  function Looked(h: Handler.State, p: string): Handler.State {
    h.(details := Handler.Tracked(h.details, p))
  }

  /** A checkpoint is asked for iff the batch is not empty and every one of its events was passed on. */
  lemma CheckpointIffAllPassed(h: Handler.State, types: seq<string>, p: string, bodies: seq<Handler.Body>, now: int)
    ensures Handler.OnBatch(h, types, p, bodies, now).1 == Handler.Checkpoint <==>
            bodies != [] && PassedOn(Looked(h, p), types, bodies) == |bodies|
  {
    RaisedIffStoppedEarly(Looked(h, p), types, bodies);
  }

  function Selections(consumer: nat, partition: nat, k: nat): seq<Step> {
    if k == 0 then [] else [Select(consumer, partition)] + Selections(consumer, partition, k - 1)
  }

  /** Passing on `k` more events of the batch in hand is possible, counts them, and leaves the checkpoints alone. */
  lemma {:induction false} SelectionsRun(s: System, consumer: nat, partition: nat, k: nat)
    requires (consumer, partition) in s.receivers
    requires s.receivers[(consumer, partition)].done + k <= s.receivers[(consumer, partition)].size
    ensures Feasible(s, Selections(consumer, partition, k))
    ensures var s' := RunSteps(s, Selections(consumer, partition, k));
            && s'.store == s.store && (consumer, partition) in s'.receivers
            && s'.receivers[(consumer, partition)]
               == s.receivers[(consumer, partition)].(done := s.receivers[(consumer, partition)].done + k)
    decreases k
  {
    if k > 0 {
      var step := Select(consumer, partition);
      assert Selections(consumer, partition, k)[1..] == Selections(consumer, partition, k - 1);
      SelectionsRun(Next(s, step), consumer, partition, k - 1);
    }
  }

  /**
   One callback against the state machine, for every batch: the selections that the handler completes are a feasible
   run, and after it the step that writes the checkpoint is enabled iff the handler asks for a checkpoint.
   */
  lemma FinishIffCheckpoint(s: System, consumer: nat, partition: nat, seqNo: int, h: Handler.State, types: seq<string>,
                            p: string, bodies: seq<Handler.Body>, now: int)
    requires (consumer, partition) in s.receivers && s.receivers[(consumer, partition)].done == 0
    requires s.receivers[(consumer, partition)].size == |bodies|
    ensures var steps := Selections(consumer, partition, PassedOn(Looked(h, p), types, bodies));
            && Feasible(s, steps)
            && (Enabled(RunSteps(s, steps), Finish(consumer, partition, seqNo)) <==>
                Handler.OnBatch(h, types, p, bodies, now).1 == Handler.Checkpoint)
  {
    SelectionsRun(s, consumer, partition, PassedOn(Looked(h, p), types, bodies));
    CheckpointIffAllPassed(h, types, p, bodies, now);
  }
}
