/** Runs of the event handler: the counters are conserved, and the summary line means what it suggests. */
module HandlerRuns {
  import opened ConsumerHandler

  datatype Callback = Callback(partition: string, bodies: seq<Body>, now: int)

  function LoggedReceived(l: seq<Stats>): nat {
    if l == [] then 0 else LoggedReceived(l[..|l| - 1]) + l[|l| - 1].received
  }

  function LoggedIngested(l: seq<Stats>): nat {
    if l == [] then 0 else LoggedIngested(l[..|l| - 1]) + l[|l| - 1].ingested
  }

  function LoggedSkipped(l: seq<Stats>): nat {
    if l == [] then 0 else LoggedSkipped(l[..|l| - 1]) + l[|l| - 1].skipped
  }

  /** Logged so far plus current equals what really happened. */
  ghost predicate Conserved(s: State) {
    && LoggedIngested(s.logged) + s.ingested == |s.written|
    && LoggedSkipped(s.logged) + s.skipped == s.dropped
    && LoggedReceived(s.logged) + TotalReceived(s.details) == s.completed
  }

  lemma {:induction false} TotalAfterUpdate(d: seq<Detail>, i: nat, x: Detail)
    requires i < |d|
    ensures TotalReceived(d[i := x]) == TotalReceived(d) - d[i].received + x.received
  {
    var n := |d| - 1;
    if i == n {
      assert d[i := x][..n] == d[..n];
    } else {
      TotalAfterUpdate(d[..n], i, x);
      assert d[i := x][..n] == d[..n][i := x];
    }
  }

  lemma TotalAfterTracking(d: seq<Detail>, p: string)
    ensures TotalReceived(Tracked(d, p)) == TotalReceived(d)
  {
    assert (d + [Detail(p, -1, 0)])[..|d|] == d;
  }

  lemma FlushConserves(s: State, now: int)
    requires Conserved(s)
    ensures Conserved(Flushed(s, now))
  {
    var l := Flushed(s, now).logged;
    assert l[..|l| - 1] == s.logged;
  }

  /** Counting a batch of `n` events in the details of its partition and in what was completed. */
  lemma CompletionConserves(r: State, i: nat, x: Detail, n: nat, marks: seq<Mark>)
    requires Conserved(r) && i < |r.details| && x.received == r.details[i].received + n
    ensures Conserved(r.(details := r.details[i := x], completed := r.completed + n, marks := marks))
  {
    TotalAfterUpdate(r.details, i, x);
  }

  /** A batch with events: the state after the filtering, and what is made of it when nothing was raised. */
  lemma BatchResult(s: State, types: seq<string>, p: string, bodies: seq<Body>, now: int)
    returns (r: State, i: nat, x: Detail, raised: bool)
    requires bodies != []
    ensures r.ingested - s.ingested == |r.written| - |s.written| && r.skipped - s.skipped == r.dropped - s.dropped
    ensures r.logged == s.logged && r.completed == s.completed && r.details == Tracked(s.details, p)
    ensures i < |r.details| && x.received == r.details[i].received + |bodies|
    ensures OnBatch(s, types, p, bodies, now).0 ==
            if raised then r.(marks := s.marks + [Aborted(p)])
            else r.(details := r.details[i := x], completed := r.completed + |bodies|, marks := s.marks + [Full(p)])
  {
    var t := s.(details := Tracked(s.details, p));
    i := IndexOf(s.details, p);
    x := Detail(p, 0, t.details[i].received + |bodies|);
    r, raised := SelectAll(t, types, bodies).0, SelectAll(t, types, bodies).1;
    BatchKeeps(t, types, bodies);
  }

  lemma BatchConserves(s: State, types: seq<string>, p: string, bodies: seq<Body>, now: int)
    requires Conserved(s) && bodies != []
    ensures Conserved(OnBatch(s, types, p, bodies, now).0)
  {
    var r, i, x, raised := BatchResult(s, types, p, bodies, now);
    TotalAfterTracking(s.details, p);
    assert Conserved(r);
    if !raised { CompletionConserves(r, i, x, |bodies|, s.marks + [Full(p)]); }
  }

  lemma IdleConserves(s: State, types: seq<string>, p: string, now: int)
    requires Conserved(s)
    ensures Conserved(OnBatch(s, types, p, [], now).0)
  {
    var i, d := IndexOf(s.details, p), Tracked(s.details, p);
    TotalAfterTracking(s.details, p);
    TotalAfterUpdate(d, i, d[i].(isDone := d[i].isDone + 1));
    IdleLogsIffAllDone(s, types, p, now);
    FlushConserves(Idled(s, p), now);
  }

  // ----- what `is_done` means -----

  ghost predicate FullBefore(marks: seq<Mark>, p: string, i: int) {
    exists j :: 0 <= j < i && j < |marks| && marks[j] == Full(p)
  }

  /** The empty batch at `i` came after the last full one. */
  ghost predicate QuietAt(marks: seq<Mark>, p: string, i: nat)
    requires i < |marks|
  {
    marks[i] == Idle(p) && forall j :: i < j < |marks| ==> marks[j] != Full(p)
  }

  /** A full batch, or another empty one, came before `i`. */
  ghost predicate Earlier(marks: seq<Mark>, p: string, i: nat) {
    FullBefore(marks, p, i) || exists k :: 0 <= k < i && k < |marks| && marks[k] == Idle(p)
  }

  /** An empty batch since the last full one, or two empty ones if there was no full one since the reset. */
  ghost predicate Quiet(marks: seq<Mark>, p: string) {
    exists i :: 0 <= i < |marks| && QuietAt(marks, p, i) && Earlier(marks, p, i)
  }

  /** The counter as the code maintains it, read off the marks. */
  ghost function DoneCount(marks: seq<Mark>, p: string): int {
    if marks == [] then -1 else
      var last, rest := marks[|marks| - 1], marks[..|marks| - 1];
      if last == Full(p) then 0 else if last == Idle(p) then DoneCount(rest, p) + 1 else DoneCount(rest, p)
  }

  ghost predicate Mentioned(marks: seq<Mark>, p: string) {
    exists i :: 0 <= i < |marks| && marks[i].partition == p
  }

  /** Some batch of the partition was completed since the reset. */
  ghost predicate Batched(marks: seq<Mark>, p: string) {
    exists i :: 0 <= i < |marks| && (marks[i] == Full(p) || marks[i] == Idle(p))
  }

  /** How a further mark changes what is known of a partition. */
  lemma BatchedAfter(marks: seq<Mark>, m: Mark, p: string)
    ensures Batched(marks + [m], p) <==> Batched(marks, p) || m == Full(p) || m == Idle(p)
  {
    var all := marks + [m];
    assert all[|marks|] == m;
    if Batched(marks, p) {
      var i :| 0 <= i < |marks| && (marks[i] == Full(p) || marks[i] == Idle(p));
      assert all[i] == marks[i];
    }
  }

  lemma EarlierPrefix(marks: seq<Mark>, m: Mark, p: string, i: nat)
    requires i <= |marks|
    ensures Earlier(marks + [m], p, i) <==> Earlier(marks, p, i)
  {
    var all := marks + [m];
    assert forall k :: 0 <= k < i ==> all[k] == marks[k];
    if FullBefore(marks, p, i) {
      var j :| 0 <= j < i && marks[j] == Full(p);
      assert all[j] == Full(p);
    }
    if k :| 0 <= k < i && marks[k] == Idle(p) { assert all[k] == Idle(p); }
  }

  lemma QuietAfter(marks: seq<Mark>, m: Mark, p: string)
    ensures m == Full(p) ==> !Quiet(marks + [m], p)
    ensures m == Idle(p) ==> (Quiet(marks + [m], p) <==> Batched(marks, p))
    ensures m != Full(p) && m != Idle(p) ==> (Quiet(marks + [m], p) <==> Quiet(marks, p))
  {
    var all, n := marks + [m], |marks|;
    assert all[n] == m;
    assert Earlier(marks, p, n) <==> Batched(marks, p);
    EarlierPrefix(marks, m, p, n);
    if m == Idle(p) { assert QuietAt(all, p, n); }
    if Quiet(all, p) && m != Full(p) {
      var i :| 0 <= i < |all| && QuietAt(all, p, i) && Earlier(all, p, i);
      EarlierPrefix(marks, m, p, i);
      if i < n {
        assert QuietAt(marks, p, i) by { assert forall j :: 0 <= j < n ==> all[j] == marks[j]; }
        assert marks[i] == Idle(p);
      }
    }
    if Quiet(marks, p) && m != Full(p) {
      var i :| 0 <= i < n && QuietAt(marks, p, i) && Earlier(marks, p, i);
      EarlierPrefix(marks, m, p, i);
      assert QuietAt(all, p, i);
    }
  }

  /** `is_done` is positive exactly when the partition is quiet, and non-negative once a batch was completed. */
  lemma {:induction false} DoneMeansQuiet(marks: seq<Mark>, p: string)
    ensures DoneCount(marks, p) > 0 <==> Quiet(marks, p)
    ensures DoneCount(marks, p) >= 0 <==> Batched(marks, p)
    ensures DoneCount(marks, p) >= -1
    decreases |marks|
  {
    if marks != [] {
      var rest, m := marks[..|marks| - 1], marks[|marks| - 1];
      assert marks == rest + [m];
      DoneMeansQuiet(rest, p);
      BatchedAfter(rest, m, p);
      QuietAfter(rest, m, p);
    }
  }

  /** The details list each partition mentioned since the reset exactly once, with the counter its marks give. */
  ghost predicate Faithful(s: State) {
    && (forall i, j :: 0 <= i < j < |s.details| ==> s.details[i].partition != s.details[j].partition)
    && (forall i :: 0 <= i < |s.details| ==>
          && s.details[i].isDone == DoneCount(s.marks, s.details[i].partition)
          && Mentioned(s.marks, s.details[i].partition))
    && (forall p :: Mentioned(s.marks, p) ==> IndexOf(s.details, p) < |s.details|)
  }

  lemma MentionedAfter(marks: seq<Mark>, m: Mark, p: string)
    ensures Mentioned(marks + [m], p) <==> Mentioned(marks, p) || m.partition == p
    ensures DoneCount(marks + [m], p) == if m == Full(p) then 0 else if m == Idle(p) then DoneCount(marks, p) + 1
                                         else DoneCount(marks, p)
  {
    var all := marks + [m];
    assert all[..|all| - 1] == marks;
    assert all[|marks|] == m;
    if Mentioned(marks, p) {
      var i :| 0 <= i < |marks| && marks[i].partition == p;
      assert all[i].partition == p;
    }
  }

  /** One callback seen as a new mark on the partition, with the counter set accordingly. */
  lemma MarkKeepsFaithful(s: State, p: string, m: Mark, x: Detail, s': State)
    requires Faithful(s) && m.partition == p == x.partition
    requires s'.marks == s.marks + [m]
    requires s'.details == Tracked(s.details, p)[IndexOf(s.details, p) := x]
    requires x.isDone == DoneCount(s'.marks, p)
    ensures Faithful(s')
  {
    var k := IndexOf(s.details, p);
    var d' := s'.details;
    forall i | 0 <= i < |d'|
      ensures d'[i].isDone == DoneCount(s'.marks, d'[i].partition) && Mentioned(s'.marks, d'[i].partition)
    {
      MentionedAfter(s.marks, m, d'[i].partition);
      if i != k {
        assert d'[i] == s.details[i];
      }
    }
    forall i, j | 0 <= i < j < |d'| ensures d'[i].partition != d'[j].partition {
      if i == k || j == k {
        var o := if i == k then j else i;
        assert d'[o] == s.details[o];
      }
    }
    forall q | Mentioned(s'.marks, q) ensures IndexOf(d', q) < |d'| {
      MentionedAfter(s.marks, m, q);
      if q == p {
        assert d'[k].partition == p;
      } else {
        assert d'[IndexOf(s.details, q)].partition == q;
      }
    }
  }

  lemma BatchFaithful(s: State, types: seq<string>, p: string, bodies: seq<Body>, now: int)
    requires Faithful(s) && bodies != []
    ensures Faithful(OnBatch(s, types, p, bodies, now).0)
  {
    var i, t := IndexOf(s.details, p), s.(details := Tracked(s.details, p));
    CountOfTracked(s, p);
    BatchKeeps(t, types, bodies);
    var (s', o) := OnBatch(s, types, p, bodies, now);
    if o.Raised? {
      MentionedAfter(s.marks, Aborted(p), p);
      assert t.details[i := t.details[i]] == t.details;
      MarkKeepsFaithful(s, p, Aborted(p), t.details[i], s');
    } else {
      MentionedAfter(s.marks, Full(p), p);
      MarkKeepsFaithful(s, p, Full(p), Detail(p, 0, t.details[i].received + |bodies|), s');
    }
  }

  lemma IdleFaithful(s: State, types: seq<string>, p: string, now: int)
    requires Faithful(s)
    ensures Faithful(OnBatch(s, types, p, [], now).0)
  {
    IdledFaithful(s, p);
    IdleLogsIffAllDone(s, types, p, now);
  }

  lemma CountOfTracked(s: State, p: string)
    requires Faithful(s)
    ensures Tracked(s.details, p)[IndexOf(s.details, p)].isDone == DoneCount(s.marks, p)
    ensures Tracked(s.details, p)[IndexOf(s.details, p)].partition == p
  {
    if IndexOf(s.details, p) == |s.details| { DoneMeansQuiet(s.marks, p); }
  }

  /** The state once an empty batch has been counted, before anything is logged. */
  function Idled(s: State, p: string): State {
    var i, d := IndexOf(s.details, p), Tracked(s.details, p);
    s.(details := d[i := d[i].(isDone := d[i].isDone + 1)], marks := s.marks + [Idle(p)])
  }

  lemma IdledFaithful(s: State, p: string)
    requires Faithful(s)
    ensures Faithful(Idled(s, p))
  {
    var i, d := IndexOf(s.details, p), Tracked(s.details, p);
    CountOfTracked(s, p);
    MentionedAfter(s.marks, Idle(p), p);
    MarkKeepsFaithful(s, p, Idle(p), d[i].(isDone := d[i].isDone + 1), Idled(s, p));
  }

  lemma IdleLogsIffAllDone(s: State, types: seq<string>, p: string, now: int)
    ensures var s' := OnBatch(s, types, p, [], now).0;
            && s' == (if AllDone(Idled(s, p).details) then Flushed(Idled(s, p), now) else Idled(s, p))
            && (s'.logged != s.logged <==> AllDone(Idled(s, p).details))
  {
    assert |Flushed(Idled(s, p), now).logged| == |s.logged| + 1;
  }

  /**
   A callback logs the statistics exactly when its batch is empty and every partition mentioned since the last
   reset, this one included, is quiet.
   */
  lemma {:induction false} LogsIffAllQuiet(s: State, types: seq<string>, p: string, bodies: seq<Body>, now: int)
    requires Faithful(s)
    ensures var s' := OnBatch(s, types, p, bodies, now).0;
            s'.logged != s.logged <==>
              bodies == [] && forall q :: Mentioned(s.marks + [Idle(p)], q) ==> Quiet(s.marks + [Idle(p)], q)
    ensures var s' := OnBatch(s, types, p, bodies, now).0;
            s'.logged != s.logged ==>
              && |s'.logged| == |s.logged| + 1 && s'.logged[..|s.logged|] == s.logged
              && s'.logged[|s.logged|].time == now
              && s'.details == [] && s'.skipped == 0 && s'.ingested == 0 && s'.marks == []
  {
    if bodies != [] {
      BatchKeeps(s.(details := Tracked(s.details, p)), types, bodies);
    } else {
      IdledFaithful(s, p);
      IdleLogsIffAllDone(s, types, p, now);
      AllDoneIffAllQuiet(Idled(s, p));
    }
  }

  lemma AllDoneIffAllQuiet(s: State)
    requires Faithful(s)
    ensures AllDone(s.details) <==> forall q :: Mentioned(s.marks, q) ==> Quiet(s.marks, q)
  {
    forall q | Mentioned(s.marks, q) ensures s.details[IndexOf(s.details, q)].isDone > 0 <==> Quiet(s.marks, q) {
      DoneMeansQuiet(s.marks, q);
    }
    forall i | 0 <= i < |s.details| ensures Quiet(s.marks, s.details[i].partition) <==> s.details[i].isDone > 0 {
      DoneMeansQuiet(s.marks, s.details[i].partition);
    }
  }

  // ----- runs -----

  function RunHandler(s: State, types: seq<string>, calls: seq<Callback>): State
    decreases |calls|
  {
    if calls == [] then s
    else RunHandler(OnBatch(s, types, calls[0].partition, calls[0].bodies, calls[0].now).0, types, calls[1..])
  }

  /**
   Over every sequence of callbacks, raised ones included: events ingested, skipped and received are each conserved
   between the log and the counters, and the per-partition counters mean what the marks say.
   */
  lemma {:induction false} CountersConserved(s: State, types: seq<string>, calls: seq<Callback>)
    requires Conserved(s) && Faithful(s)
    ensures Conserved(RunHandler(s, types, calls)) && Faithful(RunHandler(s, types, calls))
    decreases |calls|
  {
    if calls != [] {
      if calls[0].bodies == [] {
        IdleConserves(s, types, calls[0].partition, calls[0].now);
        IdleFaithful(s, types, calls[0].partition, calls[0].now);
      } else {
        BatchConserves(s, types, calls[0].partition, calls[0].bodies, calls[0].now);
        BatchFaithful(s, types, calls[0].partition, calls[0].bodies, calls[0].now);
      }
      CountersConserved(OnBatch(s, types, calls[0].partition, calls[0].bodies, calls[0].now).0, types, calls[1..]);
    }
  }

  /** A handler that has just been made, or has just logged. */
  lemma NothingTracked(s: State)
    requires s.details == [] && s.marks == []
    ensures Faithful(s)
  {
  }

  lemma {:induction false} NewHandlerConserved(s: State)
    requires s == State([], 0, 0, [], [], 0, 0, [])
    ensures Conserved(s) && Faithful(s)
  {
    NothingTracked(s);
  }
}
