/**
 The telemetry contexts of `lib/msal/telemetry.py`. Contexts share one buffer, which counts successes and keeps the
 failures to report; the size kept beside them predicts the length of the header exactly.
 */
module Telemetry {
  import opened Arithmetic
  import opened Strings

  const LAST_HEADER_SIZE_LIMIT := 350

  /** One recorded failure: `a`, `c` and `e`. */
  datatype Failure = Failure(apiId: string, correlationId: string, error: string)

  /** The contents of the shared buffer; a missing key counts as zero or as an empty list. */
  datatype Record = Record(succeeded: nat, failureSize: nat, failed: seq<Failure>)

  datatype Op =
    | Hit
    | Failed(apiId: string, correlationId: string, error: string)
    | Succeeded
    | Nothing

  /** `len(",{api_id},{correlation_id},{error}")`. */
  function SizeOf(f: Failure): nat {
    |f.apiId| + |f.correlationId| + |f.error| + 3
  }

  function Recorded(b: Record, f: Failure): Record {
    if b.failureSize + SizeOf(f) < LAST_HEADER_SIZE_LIMIT
    then b.(failureSize := b.failureSize + SizeOf(f), failed := b.failed + [f]) else b
  }

  /** A token hit, an error result, a successful result, or an empty result. */
  function OpStep(b: Record, op: Op): Record {
    match op
    case Hit => b.(succeeded := b.succeeded + 1)
    case Failed(a, c, e) => Recorded(b, Failure(a, c, e))
    case Succeeded => Record(0, 0, [])
    case Nothing => b
  }

  // ----- the header -----

  function DigitChar(d: nat): char
    requires d < 10
  {
    ('0' as int + d) as char
  }

  function Decimal(n: nat): string {
    if n < 10 then [DigitChar(n)] else Decimal(n / 10) + [DigitChar(n % 10)]
  }

  function Requests(fs: seq<Failure>): seq<string> {
    seq(|fs|, i requires 0 <= i < |fs| => fs[i].apiId + "," + fs[i].correlationId)
  }

  function Errors(fs: seq<Failure>): seq<string> {
    seq(|fs|, i requires 0 <= i < |fs| => fs[i].error)
  }

  function LastTelemetry(b: Record): string {
    "4|" + Decimal(b.succeeded) + "|" + Join(Requests(b.failed), ',') + "|" + Join(Errors(b.failed), ',') + "|"
  }

  function CurrentTelemetry(apiId: string, refreshReason: string): string {
    "4|" + apiId + "," + refreshReason + "|"
  }

  class Buffer {
    var succeeded: nat
    var failureSize: nat
    var failed: seq<Failure>

    constructor ()
      ensures Value() == Record(0, 0, [])
    {
      succeeded, failureSize, failed := 0, 0, [];
    }

    ghost function Value(): Record
      reads this
    {
      Record(succeeded, failureSize, failed)
    }
  }

  /** What `update_telemetry` is given: nothing, a result with an error, or one without. */
  datatype AuthResult = Empty | WithError(error: string) | WithoutError

  class TelemetryContext {
    const buffer: Buffer
    const apiId: string
    const correlationId: string
    const refreshReason: string

    constructor (buffer: Buffer, apiId: string, correlationId: string, refreshReason: string)
      ensures this.buffer == buffer && this.apiId == apiId && this.correlationId == correlationId
      ensures this.refreshReason == refreshReason
    {
      this.buffer, this.apiId, this.correlationId, this.refreshReason := buffer, apiId, correlationId, refreshReason;
    }

    method HitAnAccessToken()
      modifies buffer
      ensures buffer.Value() == OpStep(old(buffer.Value()), Hit)
    {
      buffer.succeeded := buffer.succeeded + 1;
    }

    method UpdateTelemetry(result: AuthResult)
      modifies buffer
      ensures buffer.Value() == OpStep(old(buffer.Value()),
                match result
                case Empty => Nothing
                case WithError(error) => Failed(apiId, correlationId, error)
                case WithoutError => Succeeded)
    {
      match result
      case Empty =>
      case WithError(error) => RecordFailure(error);
      case WithoutError => buffer.succeeded, buffer.failureSize, buffer.failed := 0, 0, [];
    }

    method RecordFailure(error: string)
      modifies buffer
      ensures buffer.Value() == Recorded(old(buffer.Value()), Failure(apiId, correlationId, error))
    {
      var simulation := |"," + apiId + "," + correlationId + "," + error|;
      if buffer.failureSize + simulation < LAST_HEADER_SIZE_LIMIT {
        buffer.failureSize := buffer.failureSize + simulation;
        buffer.failed := buffer.failed + [Failure(apiId, correlationId, error)];
      }
    }

    method GenerateHeaders() returns (current: string, last: string)
      ensures current == CurrentTelemetry(apiId, refreshReason) && last == LastTelemetry(buffer.Value())
      ensures |current| == 4 + |apiId| + |refreshReason|
      ensures Exact(buffer.Value()) ==>
                |last| == |Decimal(buffer.succeeded)| + (if buffer.failed == [] then 5 else buffer.failureSize + 3)
      ensures Readable(buffer.failed) ==> ReadsBack(last, buffer.Value())
      ensures Plain(apiId) && Plain(refreshReason) ==>
                Split(current, {'|'}) == ["4", apiId + "," + refreshReason, ""]
    {
      var requests, errors := Join(Requests(buffer.failed), ','), Join(Errors(buffer.failed), ',');
      current := "4|" + apiId + "," + refreshReason + "|";
      last := "4|" + Decimal(buffer.succeeded) + "|" + requests + "|" + errors + "|";
      if Exact(buffer.Value()) { ExactLength(buffer.Value()); }
      if Readable(buffer.failed) { HeaderReadsBack(buffer.Value()); }
      if Plain(apiId) && Plain(refreshReason) { CurrentReadsBack(apiId, refreshReason); }
    }
  }

  // ----- the size is exact -----

  function TotalSize(fs: seq<Failure>): nat {
    if fs == [] then 0 else SizeOf(fs[0]) + TotalSize(fs[1..])
  }

  lemma {:induction false} TotalSizeAppend(fs: seq<Failure>, f: Failure)
    ensures TotalSize(fs + [f]) == TotalSize(fs) + SizeOf(f)
  {
    if fs != [] {
      assert (fs + [f])[1..] == fs[1..] + [f];
      TotalSizeAppend(fs[1..], f);
    }
  }

  ghost predicate Exact(b: Record) {
    b.failureSize == TotalSize(b.failed) < LAST_HEADER_SIZE_LIMIT
  }

  lemma StepExact(b: Record, op: Op)
    requires Exact(b)
    ensures Exact(OpStep(b, op))
  {
    if op.Failed? { TotalSizeAppend(b.failed, Failure(op.apiId, op.correlationId, op.error)); }
  }

  function RunOps(b: Record, ops: seq<Op>): Record
    decreases |ops|
  {
    if ops == [] then b else RunOps(OpStep(b, ops[0]), ops[1..])
  }

  /** Over every run of contexts that share the buffer, the kept size is the summed size of the recorded failures. */
  lemma {:induction false} SizeStaysExact(b: Record, ops: seq<Op>)
    requires Exact(b)
    ensures Exact(RunOps(b, ops))
    decreases |ops|
  {
    if ops != [] {
      StepExact(b, ops[0]);
      SizeStaysExact(OpStep(b, ops[0]), ops[1..]);
    }
  }

  /** What one operation records, for every exact buffer: a failure is kept iff it fits below the limit. */
  lemma StepRecords(b: Record, op: Op)
    requires Exact(b)
    ensures var r := OpStep(b, op);
            match op
            case Hit => r.succeeded == b.succeeded + 1 && r.failed == b.failed
            case Failed(a, c, e) =>
              && r.succeeded == b.succeeded
              && r.failed == if TotalSize(b.failed) + |a| + |c| + |e| + 3 < 350 then b.failed + [Failure(a, c, e)]
                             else b.failed
            case Succeeded => r.succeeded == 0 && r.failed == []
            case Nothing => r == b
  {
  }

  /** Everything from before a successful report is forgotten. */
  lemma {:induction false} SuccessResets(b: Record, before: seq<Op>, after: seq<Op>)
    ensures RunOps(b, before + [Succeeded] + after) == RunOps(Record(0, 0, []), after)
    decreases |before|
  {
    if before == [] {
      assert before + [Succeeded] + after == [Succeeded] + after;
      assert ([Succeeded] + after)[1..] == after;
    } else {
      assert (before + [Succeeded] + after)[1..] == before[1..] + [Succeeded] + after;
      SuccessResets(OpStep(b, before[0]), before[1..], after);
    }
  }

  function Hits(ops: seq<Op>): nat {
    if ops == [] then 0 else (if ops[0].Hit? then 1 else 0) + Hits(ops[1..])
  }

  /** The failures reported by a run, in order. */
  function Failures(ops: seq<Op>): seq<Failure> {
    if ops == [] then []
    else
      (if ops[0].Failed? then [Failure(ops[0].apiId, ops[0].correlationId, ops[0].error)] else []) + Failures(ops[1..])
  }

  lemma {:induction false} TotalSizeJoined(fs: seq<Failure>, gs: seq<Failure>)
    ensures TotalSize(fs + gs) == TotalSize(fs) + TotalSize(gs)
  {
    if fs == [] {
      assert fs + gs == gs;
    } else {
      assert (fs + gs)[1..] == fs[1..] + gs;
      TotalSizeJoined(fs[1..], gs);
    }
  }

  ghost predicate NoSuccess(ops: seq<Op>) {
    forall i :: 0 <= i < |ops| ==> !ops[i].Succeeded?
  }

  /** Over every run without a successful report: each hit is counted, and failures already kept stay in front. */
  lemma {:induction false} RunKeeps(b: Record, ops: seq<Op>)
    requires Exact(b) && NoSuccess(ops)
    ensures var r := RunOps(b, ops); r.succeeded == b.succeeded + Hits(ops) && b.failed <= r.failed
    decreases |ops|
  {
    if ops != [] {
      StepExact(b, ops[0]);
      assert !ops[0].Succeeded?;
      RunKeeps(OpStep(b, ops[0]), ops[1..]);
    }
  }

  /** What one operation adds to the kept failures when there is room for what it reports. */
  lemma StepKeepsAll(b: Record, op: Op, rest: seq<Failure>)
    requires Exact(b) && !op.Succeeded?
    requires TotalSize(b.failed) + TotalSize(Failures([op]) + rest) < 350
    ensures OpStep(b, op).failed == b.failed + Failures([op])
    ensures TotalSize(OpStep(b, op).failed) + TotalSize(rest) < 350
  {
    TotalSizeJoined(Failures([op]), rest);
    TotalSizeJoined(b.failed, Failures([op]));
    assert [op][1..] == [];
    if op.Failed? {
      var f := Failure(op.apiId, op.correlationId, op.error);
      assert Failures([op]) == [f] + [] == [f] && [f][1..] == [];
      assert TotalSize([f]) == SizeOf(f);
    } else {
      assert Failures([op]) == [] && b.failed + [] == b.failed;
    }
  }

  /**
   Over every run without a successful report: all its failures are kept behind the earlier ones, in order, whenever
   together they fit below the limit.
   */
  lemma {:induction false} RunRecordsAll(b: Record, ops: seq<Op>)
    requires Exact(b) && NoSuccess(ops) && TotalSize(b.failed) + TotalSize(Failures(ops)) < 350
    ensures RunOps(b, ops).failed == b.failed + Failures(ops)
    decreases |ops|
  {
    if ops == [] {
      assert b.failed + [] == b.failed;
    } else {
      var op, rest := ops[0], Failures(ops[1..]);
      FirstFailures(ops);
      StepExact(b, op);
      StepKeepsAll(b, op, rest);
      RunRecordsAll(OpStep(b, op), ops[1..]);
      Associative(b.failed, Failures([op]), rest);
    }
  }

  lemma FirstFailures(ops: seq<Op>)
    requires ops != []
    ensures Failures(ops) == Failures([ops[0]]) + Failures(ops[1..])
  {
    assert [ops[0]][1..] == [] && Failures([]) == [];
  }

  lemma {:induction false} JoinedLength(fs: seq<Failure>)
    requires fs != []
    ensures |Join(Requests(fs), ',')| + |Join(Errors(fs), ',')| + 2 == TotalSize(fs)
  {
    assert Requests(fs)[1..] == Requests(fs[1..]) && Errors(fs)[1..] == Errors(fs[1..]);
    if |fs| > 1 { JoinedLength(fs[1..]); }
  }

  lemma ExactLength(b: Record)
    requires Exact(b)
    ensures |LastTelemetry(b)| == |Decimal(b.succeeded)| + if b.failed == [] then 5 else b.failureSize + 3
  {
    if b.failed != [] { JoinedLength(b.failed); }
  }

  /**
   Over every run from an empty buffer: with at least one failure the last-telemetry header is exactly three characters
   longer than the kept size and the digits of the success counter, so never longer than 352 and those digits.
   */
  lemma LastHeaderLength(ops: seq<Op>)
    ensures var b := RunOps(Record(0, 0, []), ops);
            && (b.failed != [] ==> |LastTelemetry(b)| == b.failureSize + 3 + |Decimal(b.succeeded)|)
            && (b.failed == [] ==> |LastTelemetry(b)| == 5 + |Decimal(b.succeeded)|)
            && |LastTelemetry(b)| <= 352 + |Decimal(b.succeeded)|
  {
    SizeStaysExact(Record(0, 0, []), ops);
    ExactLength(RunOps(Record(0, 0, []), ops));
  }

  /** The digits of a counter: `k` digits suffice exactly for the numbers below the `k`-th power of ten. */
  lemma {:induction false} DecimalLength(n: nat, k: nat)
    requires k > 0
    ensures |Decimal(n)| <= k <==> n < Pow10(k)
    decreases k
  {
    if k == 1 {
      assert Pow10(1) == 10 * Pow10(0) == 10;
    } else if n >= 10 {
      DecimalLength(n / 10, k - 1);
      assert Pow10(k) == 10 * Pow10(k - 1);
    }
  }

  function Pow10(k: nat): (p: nat)
    ensures p > 0 && (k > 0 ==> p >= 10)
  {
    if k == 0 then 1 else 10 * Pow10(k - 1)
  }

  // ----- the header can be read -----

  /** There are failures, and none of their fields holds a bar or a comma. */
  ghost predicate Readable(fs: seq<Failure>) {
    fs != [] && forall i :: 0 <= i < |fs| ==> Plain(fs[i].apiId) && Plain(fs[i].correlationId) && Plain(fs[i].error)
  }

  predicate Plain(s: string) {
    Free(s, {'|'}) && Free(s, {','})
  }

  /** Cut at the bars and then at the commas, the header gives back the counter and every failure, field by field. */
  ghost predicate ReadsBack(header: string, b: Record) {
    var parts := Split(header, {'|'});
    && |parts| == 5 && parts[0] == "4" && parts[1] == Decimal(b.succeeded) && parts[4] == ""
    && var ids, errors := Split(parts[2], {','}), Split(parts[3], {','});
       && |ids| == 2 * |b.failed| && |errors| == |b.failed|
       && forall i :: 0 <= i < |b.failed| ==>
            && ids[2 * i] == b.failed[i].apiId && ids[2 * i + 1] == b.failed[i].correlationId
            && errors[i] == b.failed[i].error
  }

  /** API and correlation ids in one row, as the commas separate them. */
  ghost function Ids(fs: seq<Failure>): (r: seq<string>)
    ensures |r| == 2 * |fs|
  {
    if fs == [] then [] else [fs[0].apiId] + ([fs[0].correlationId] + Ids(fs[1..]))
  }

  lemma {:induction false} IdsAt(fs: seq<Failure>, i: nat)
    requires i < |fs|
    ensures Ids(fs)[2 * i] == fs[i].apiId && Ids(fs)[2 * i + 1] == fs[i].correlationId
  {
    if i > 0 {
      var rest := Ids(fs[1..]);
      IdsAt(fs[1..], i - 1);
      assert Ids(fs)[2 * i] == rest[2 * (i - 1)] && Ids(fs)[2 * i + 1] == rest[2 * (i - 1) + 1];
    }
  }

  lemma {:induction false} JoinedIds(fs: seq<Failure>)
    requires fs != []
    ensures Join(Requests(fs), ',') == Join(Ids(fs), ',')
  {
    var a, c, rest := fs[0].apiId, fs[0].correlationId, fs[1..];
    assert Requests(fs) == [a + "," + c] + Requests(rest);
    JoinFirst(a + "," + c, Requests(rest), ',');
    JoinFirst(a, [c] + Ids(rest), ',');
    JoinFirst(c, Ids(rest), ',');
    if rest != [] {
      JoinedIds(rest);
      assert a + "," + c + "," + Join(Ids(rest), ',') == a + "," + (c + "," + Join(Ids(rest), ','));
    }
  }

  lemma {:induction false} DecimalIsFree(n: nat)
    ensures Free(Decimal(n), {'|'})
  {
    if n >= 10 { DecimalIsFree(n / 10); }
  }

  /** Joining with commas brings in no bar. */
  lemma JoinIsFree(parts: seq<string>)
    requires AllFree(parts, {'|'})
    ensures Free(Join(parts, ','), {'|'})
  {
    JoinHasOnlySeparator(parts, ',', {'|'});
  }

  lemma IdsReadBack(fs: seq<Failure>)
    requires Readable(fs)
    ensures Split(Join(Requests(fs), ','), {','}) == Ids(fs) && Free(Join(Requests(fs), ','), {'|'})
  {
    forall k | 0 <= k < |Ids(fs)| ensures Plain(Ids(fs)[k]) {
      IdsAt(fs, k / 2);
      assert k == 2 * (k / 2) || k == 2 * (k / 2) + 1;
    }
    JoinedIds(fs);
    JoinIsFree(Ids(fs));
    SplitJoin(Ids(fs), ',', {','});
  }

  lemma ErrorsReadBack(fs: seq<Failure>)
    requires Readable(fs)
    ensures Split(Join(Errors(fs), ','), {','}) == Errors(fs) && Free(Join(Errors(fs), ','), {'|'})
  {
    JoinIsFree(Errors(fs));
    SplitJoin(Errors(fs), ',', {','});
  }

  /** Five parts joined with bars. */
  lemma JoinBars(a: string, b: string, c: string, d: string)
    ensures Join([a, b, c, d, ""], '|') == a + "|" + b + "|" + c + "|" + d + "|"
  {
    assert [a, b, c, d, ""][1..] == [b, c, d, ""] && [b, c, d, ""][1..] == [c, d, ""];
    assert [c, d, ""][1..] == [d, ""] && [d, ""][1..] == [""];
    assert Join([d, ""], '|') == d + "|";
    assert Join([c, d, ""], '|') == c + "|" + (d + "|");
    assert Join([b, c, d, ""], '|') == b + "|" + (c + "|" + (d + "|"));
  }

  /** The header carries the counter and every failure, whenever their fields hold neither bars nor commas. */
  lemma HeaderReadsBack(b: Record)
    requires Readable(b.failed)
    ensures ReadsBack(LastTelemetry(b), b)
  {
    IdsReadBack(b.failed);
    ErrorsReadBack(b.failed);
    HeaderParts(b);
    forall i | 0 <= i < |b.failed| {
      IdsAt(b.failed, i);
    }
  }

  lemma HeaderParts(b: Record)
    requires Free(Join(Requests(b.failed), ','), {'|'}) && Free(Join(Errors(b.failed), ','), {'|'})
    ensures Split(LastTelemetry(b), {'|'}) ==
            ["4", Decimal(b.succeeded), Join(Requests(b.failed), ','), Join(Errors(b.failed), ','), ""]
  {
    var requests, errors := Join(Requests(b.failed), ','), Join(Errors(b.failed), ',');
    DecimalIsFree(b.succeeded);
    JoinBars("4", Decimal(b.succeeded), requests, errors);
    assert "4" + "|" == "4|";
    SplitJoin(["4", Decimal(b.succeeded), requests, errors, ""], '|', {'|'});
  }

  /** The current header gives back the API id and the refresh reason, in this order. */
  lemma CurrentReadsBack(apiId: string, refreshReason: string)
    requires Plain(apiId) && Plain(refreshReason)
    ensures var parts := Split(CurrentTelemetry(apiId, refreshReason), {'|'});
            parts == ["4", apiId + "," + refreshReason, ""] && Split(parts[1], {','}) == [apiId, refreshReason]
  {
    var ids := [apiId, refreshReason];
    var middle := apiId + "," + refreshReason;
    JoinTwo(apiId, refreshReason, ',');
    JoinIsFree(ids);
    SplitJoin(ids, ',', {','});
    JoinCurrent(middle);
    assert "4|" + apiId + "," + refreshReason + "|" == "4|" + middle + "|";
    SplitJoin(["4", middle, ""], '|', {'|'});
  }

  lemma JoinTwo(a: string, b: string, separator: char)
    ensures Join([a, b], separator) == a + [separator] + b
  {
    assert [a, b] == [a] + [b];
    JoinFirst(a, [b], separator);
  }

  lemma JoinCurrent(middle: string)
    ensures Join(["4", middle, ""], '|') == "4|" + middle + "|"
  {
    assert ["4", middle, ""] == ["4"] + [middle, ""];
    JoinFirst("4", [middle, ""], '|');
    JoinTwo(middle, "", '|');
    assert "4" + ['|'] + (middle + ['|'] + "") == "4|" + middle + "|";
  }
}
