/**
 What the ownership store keeps over runs: the shape of the record list, ownership as a linear
 chain of etags, and the independence of claims and checkpoints.
 */
module Ownership {
  import opened Wrappers
  import opened Arithmetic
  import opened CheckpointStore

  /** One record per partition id, in order, with etags that were all issued and are all different. */
  ghost predicate Shape(s: Store) {
    && (forall i :: 0 <= i < |s.records| ==> s.records[i].partition == i && s.records[i].etag < s.next)
    && (forall i, j :: 0 <= i < j < |s.records| ==> s.records[i].etag != s.records[j].etag)
  }

  ghost predicate SnapshotOf(arr: seq<Option<Etag>>, s: Store) {
    |arr| == |s.records| && forall i :: 0 <= i < |arr| ==> arr[i] == Some(s.records[i].etag)
  }

  lemma {:induction false} FindInShape(records: seq<Record>, from: nat, partition: nat)
    requires forall i :: 0 <= i < |records| ==> records[i].partition == from + i
    requires from <= partition
    ensures Find(records, partition) == if partition - from < |records| then partition - from else |records|
  {
    if records != [] && records[0].partition != partition {
      FindInShape(records[1..], from + 1, partition);
    }
  }

  lemma {:induction false} SnapshotInShape(s: Store, k: nat, arr: seq<Option<Etag>>)
    requires Shape(s) && k <= |s.records| == |arr|
    requires forall i :: 0 <= i < k ==> arr[i] == Some(s.records[i].etag)
    ensures Snapshot(s.records[k..], arr).Ok? && SnapshotOf(Snapshot(s.records[k..], arr).value, s)
    decreases |s.records| - k
  {
    if k < |s.records| {
      assert s.records[k..][1..] == s.records[k + 1..];
      SnapshotInShape(s, k + 1, arr[k := Some(s.records[k].etag)]);
    }
  }

  /** The claims that are granted: those listed before any unknown partition, presenting the snapshot's etag. */
  ghost function Winners(arr: seq<Option<Etag>>, claims: seq<Claim>): seq<Claim>
    decreases |claims|
  {
    if claims == [] || claims[0].partition >= |arr| then []
    else if Presents(arr, claims[0]) then [claims[0]] + Winners(arr, claims[1..])
    else Winners(arr, claims[1..])
  }

  ghost predicate InRange(n: nat, claims: seq<Claim>) {
    forall i :: 0 <= i < |claims| ==> claims[i].partition < n
  }

  /** What the record of partition `p` becomes when the claims `won` are granted, the first with the etag `next`. */
  ghost function RecordAfter(r: Record, p: nat, won: seq<Claim>, next: Etag, now: int): Record
    decreases |won|
  {
    if won == [] then r
    else RecordAfter(if won[0].partition == p then r.(owner := won[0].owner, etag := next, modified := now) else r,
                     p, won[1..], next + 1, now)
  }

  /** The claims as handed back to the caller, with their new etags. */
  ghost function Receipts(won: seq<Claim>, next: Etag, now: int): (r: seq<Claim>)
    ensures |r| == |won|
    ensures forall i :: 0 <= i < |won| ==> r[i] == won[i].(etag := Some(next + i), modified := now)
    decreases |won|
  {
    if won == [] then [] else [won[0].(etag := Some(next), modified := now)] + Receipts(won[1..], next + 1, now)
  }

  ghost predicate Grants(won: seq<Claim>, p: nat, i: nat) {
    i < |won| && won[i].partition == p
  }

  /** The claim at `i` is the last one granted on `p`. */
  ghost predicate LastGrant(won: seq<Claim>, p: nat, i: nat) {
    Grants(won, p, i) && forall j :: i < j < |won| ==> !Grants(won, p, j)
  }

  lemma LaterGrants(won: seq<Claim>, p: nat)
    requires won != []
    ensures forall i {:trigger Grants(won, p, i)} :: 1 <= i ==> (Grants(won, p, i) <==> Grants(won[1..], p, i - 1))
    ensures forall i {:trigger Grants(won[1..], p, i)} :: 0 <= i ==> (Grants(won, p, i + 1) <==> Grants(won[1..], p, i))
  {
  }

  /** The last grant of the call decides; without one nothing changes; offset and sequence number never do. */
  lemma {:induction false} LastGrantDecides(r: Record, p: nat, won: seq<Claim>, next: Etag, now: int)
    ensures var r' := RecordAfter(r, p, won, next, now);
            && ((forall i :: 0 <= i < |won| ==> won[i].partition != p) ==> r' == r)
            && (forall i {:trigger LastGrant(won, p, i)} :: 0 <= i && LastGrant(won, p, i) ==>
                  r' == r.(owner := won[i].owner, etag := next + i, modified := now))
            && (r' == r || r'.etag >= next)
            && r'.partition == r.partition && r'.offset == r.offset && r'.seqNo == r.seqNo
    decreases |won|
  {
    if won != [] {
      var c, rest := won[0], won[1..];
      var r1 := if c.partition == p then r.(owner := c.owner, etag := next, modified := now) else r;
      LastGrantDecides(r1, p, rest, next + 1, now);
      assert forall i :: 0 <= i < |rest| ==> rest[i] == won[i + 1];
      forall i | 0 <= i && LastGrant(won, p, i)
        ensures RecordAfter(r, p, won, next, now) == r.(owner := won[i].owner, etag := next + i, modified := now)
      {
        LaterGrants(won, p);
        if i > 0 {
          assert LastGrant(rest, p, i - 1);
        } else {
          forall k | 0 <= k < |rest| ensures rest[k].partition != p { assert !Grants(won, p, k + 1); }
        }
      }
    }
  }

  lemma {:induction false} GrantChangesEtag(r: Record, p: nat, won: seq<Claim>, next: Etag, now: int)
    requires r.etag < next && RecordAfter(r, p, won, next, now).etag < next
    ensures RecordAfter(r, p, won, next, now) == r && forall w :: w in won ==> w.partition != p
    decreases |won|
  {
    if won != [] {
      var r1 := if won[0].partition == p then r.(owner := won[0].owner, etag := next, modified := now) else r;
      GrantChangesEtag(r1, p, won[1..], next + 1, now);
      assert won == [won[0]] + won[1..];
    }
  }

  lemma GrantInShape(s: Store, c: Claim, now: int)
    requires Shape(s) && c.partition < |s.records|
    ensures var (s', c') := Granted(s, c, now);
            && Shape(s') && s'.next == s.next + 1 && |s'.records| == |s.records|
            && c' == c.(etag := Some(s.next), modified := now)
            && s'.records ==
               s.records[c.partition := s.records[c.partition].(owner := c.owner, etag := s.next, modified := now)]
  {
    FindInShape(s.records, 0, c.partition);
  }

  /** What one claim call does to a well-shaped store. */
  lemma {:induction false} ClaimLoopStore(s: Store, arr: seq<Option<Etag>>, claims: seq<Claim>, acquired: seq<Claim>,
                                          now: int)
    requires Shape(s) && |arr| == |s.records|
    ensures var (s', r) := ClaimAll(s, arr, claims, acquired, now);
            var won := Winners(arr, claims);
            && Shape(s') && s'.next == s.next + |won| && |s'.records| == |s.records|
            && (forall p :: 0 <= p < |s.records| ==> s'.records[p] == RecordAfter(s.records[p], p, won, s.next, now))
    decreases |claims|
  {
    if claims == [] || claims[0].partition >= |arr| {
    } else if !Presents(arr, claims[0]) {
      ClaimLoopStore(s, arr, claims[1..], acquired, now);
    } else {
      var c, rest := claims[0], Winners(arr, claims[1..]);
      var (t, c') := Granted(s, c, now);
      GrantInShape(s, c, now);
      ClaimLoopStore(t, arr, claims[1..], acquired + [c'], now);
      assert ([c] + rest)[1..] == rest;
      forall p | 0 <= p < |s.records|
        ensures RecordAfter(s.records[p], p, [c] + rest, s.next, now) == RecordAfter(t.records[p], p, rest, t.next, now)
      {
      }
    }
  }

  lemma {:induction false} ClaimLoopRaises(s: Store, arr: seq<Option<Etag>>, claims: seq<Claim>, acquired: seq<Claim>,
                                           now: int)
    ensures ClaimAll(s, arr, claims, acquired, now).1.Ok? <==> InRange(|arr|, claims)
    decreases |claims|
  {
    if claims != [] && claims[0].partition < |arr| {
      InRangeStep(|arr|, claims);
      if Presents(arr, claims[0]) {
        var g := Granted(s, claims[0], now);
        ClaimLoopRaises(g.0, arr, claims[1..], acquired + [g.1], now);
      } else {
        ClaimLoopRaises(s, arr, claims[1..], acquired, now);
      }
    }
  }

  lemma {:induction false} ClaimLoopReceipts(s: Store, arr: seq<Option<Etag>>, claims: seq<Claim>, acquired: seq<Claim>,
                                             now: int)
    requires Shape(s) && |arr| == |s.records|
    ensures var r := ClaimAll(s, arr, claims, acquired, now).1;
            r.Ok? ==> r.value == acquired + Receipts(Winners(arr, claims), s.next, now)
    decreases |claims|
  {
    if claims == [] || claims[0].partition >= |arr| {
    } else if !Presents(arr, claims[0]) {
      ClaimLoopReceipts(s, arr, claims[1..], acquired, now);
    } else {
      var c, rest := claims[0], Winners(arr, claims[1..]);
      var (t, c') := Granted(s, c, now);
      GrantInShape(s, c, now);
      ClaimLoopReceipts(t, arr, claims[1..], acquired + [c'], now);
      assert ([c] + rest)[1..] == rest;
      Associative(acquired, [c'], Receipts(rest, s.next + 1, now));
    }
  }

  lemma InRangeStep(n: nat, claims: seq<Claim>)
    requires claims != [] && claims[0].partition < n
    ensures InRange(n, claims) <==> InRange(n, claims[1..])
  {
    if InRange(n, claims[1..]) {
      forall i | 0 <= i < |claims| ensures claims[i].partition < n {
        assert i > 0 ==> claims[i] == claims[1..][i - 1];
      }
    }
  }

  /** The etag array a claim call works with. */
  ghost function Etags(s: Store): seq<Option<Etag>> {
    seq(|s.records|, i requires 0 <= i < |s.records| => Some(s.records[i].etag))
  }

  /**
   A claim succeeds iff it presents the currently stored etag: the call grants exactly the winners,
   in order, with fresh etags, and it raises iff some listed partition is unknown.
   */
  lemma ClaimsExact(s: Store, claims: seq<Claim>, now: int)
    requires Shape(s)
    ensures var (s', r) := Claimed(s, claims, now);
            var won := Winners(Etags(s), claims);
            && Shape(s') && s'.next == s.next + |won| && |s'.records| == |s.records|
            && (forall p :: 0 <= p < |s.records| ==> s'.records[p] == RecordAfter(s.records[p], p, won, s.next, now))
            && (r.Ok? <==> InRange(|s.records|, claims))
            && (r.Ok? ==> r.value == Receipts(won, s.next, now))
  {
    assert s.records[0..] == s.records;
    SnapshotInShape(s, 0, Blank(|s.records|));
    var arr := Snapshot(s.records, Blank(|s.records|)).value;
    assert arr == Etags(s);
    ClaimLoopStore(s, arr, claims, [], now);
    ClaimLoopRaises(s, arr, claims, [], now);
    ClaimLoopReceipts(s, arr, claims, [], now);
  }

  /** Every winner is a listed claim that presents the stored etag of its partition, and no such claim is missed. */
  lemma {:induction false} WinnersAreCurrent(arr: seq<Option<Etag>>, claims: seq<Claim>)
    requires InRange(|arr|, claims)
    ensures forall c :: c in Winners(arr, claims) <==> c in claims && Presents(arr, c)
    decreases |claims|
  {
    if claims != [] {
      InRangeStep(|arr|, claims);
      WinnersAreCurrent(arr, claims[1..]);
      forall c ensures c in claims <==> c == claims[0] || c in claims[1..] {
        assert claims == [claims[0]] + claims[1..];
      }
    }
  }

  // ----- runs of calls -----

  datatype Call =
    | ClaimCall(claims: seq<Claim>, now: int)
    | CheckpointCall(partition: nat, offset: Option<nat>, seqNo: int)
    | OpenCall(partitions: nat, at: int)

  ghost function Ids(n: nat): seq<nat> {
    seq(n, i requires 0 <= i < n => i)
  }

  ghost function CallStep(s: Store, c: Call): Store {
    match c
    case ClaimCall(claims, now) => Claimed(s, claims, now).0
    case CheckpointCall(p, offset, seqNo) => Checkpointed(s, p, offset, seqNo)
    case OpenCall(n, at) => Opened(s, Ids(n), at)
  }

  /** The claims a call grants, even when it goes on to raise. */
  ghost function Spent(s: Store, c: Call): seq<Claim> {
    if c.ClaimCall? then Winners(Etags(s), c.claims) else []
  }

  ghost function RunCalls(s: Store, calls: seq<Call>): Store
    decreases |calls|
  {
    if calls == [] then s else RunCalls(CallStep(s, calls[0]), calls[1..])
  }

  ghost function SpentInRun(s: Store, calls: seq<Call>): seq<Claim>
    decreases |calls|
  {
    if calls == [] then [] else Spent(s, calls[0]) + SpentInRun(CallStep(s, calls[0]), calls[1..])
  }

  lemma CheckpointInShape(s: Store, p: nat, offset: Option<nat>, seqNo: int)
    requires Shape(s)
    ensures var s' := Checkpointed(s, p, offset, seqNo);
            && Shape(s') && s'.next == s.next && |s'.records| == |s.records|
            && forall i :: 0 <= i < |s.records| ==>
                 s'.records[i] == if i == p then s.records[i].(offset := offset, seqNo := seqNo) else s.records[i]
  {
    FindInShape(s.records, 0, p);
  }

  /** Opening keeps a list of the right length, and otherwise makes one afresh: unowned, unread, with new etags. */
  lemma OpenInShape(s: Store, n: nat, now: int)
    requires Shape(s)
    ensures var s' := Opened(s, Ids(n), now);
            && Shape(s') && |s'.records| == n && s'.next >= s.next
            && (|s.records| == n > 0 ==> s' == s)
            && (|s.records| != n ==>
                  forall i :: 0 <= i < n ==>
                    && s'.records[i].etag >= s.next
                    && s'.records[i] == Record(i, "", s'.records[i].etag, now, None, 0))
  {
  }

  /** A claim call moves no checkpoint, whether it grants, refuses or raises. */
  lemma ClaimKeepsCheckpoints(s: Store, claims: seq<Claim>, now: int)
    requires Shape(s)
    ensures var s' := Claimed(s, claims, now).0;
            && |s'.records| == |s.records|
            && forall p :: 0 <= p < |s.records| ==>
                 && s'.records[p].partition == s.records[p].partition
                 && s'.records[p].offset == s.records[p].offset && s'.records[p].seqNo == s.records[p].seqNo
  {
    ClaimsExact(s, claims, now);
    forall p | 0 <= p < |s.records| {
      LastGrantDecides(s.records[p], p, Winners(Etags(s), claims), s.next, now);
    }
  }

  /** Every call keeps the shape of the store, so the indexing by partition id is always safe. */
  lemma CallKeepsShape(s: Store, c: Call)
    requires Shape(s)
    ensures Shape(CallStep(s, c)) && CallStep(s, c).next >= s.next
  {
    match c
    case ClaimCall(claims, now) => ClaimsExact(s, claims, now);
    case CheckpointCall(p, offset, seqNo) => CheckpointInShape(s, p, offset, seqNo);
    case OpenCall(n, at) => OpenInShape(s, n, at);
  }

  /** The etags in the store now, or still to be issued. */
  ghost predicate Live(s: Store, e: Etag) {
    e >= s.next || exists p :: 0 <= p < |s.records| && s.records[p].etag == e
  }

  lemma LivenessShrinks(s: Store, c: Call, e: Etag)
    requires Shape(s) && Live(CallStep(s, c), e)
    ensures Live(s, e)
    ensures forall w :: w in Spent(s, c) ==> w.etag != Some(e)
  {
    var s' := CallStep(s, c);
    match c
    case ClaimCall(claims, now) =>
      ClaimsExact(s, claims, now);
      var won := Winners(Etags(s), claims);
      WinnersPresent(Etags(s), claims);
      if e < s.next {
        var p :| 0 <= p < |s'.records| && s'.records[p].etag == e;
        GrantChangesEtag(s.records[p], p, won, s.next, now);
        assert s.records[p].etag == e;
        forall w | w in won ensures w.etag != Some(e) {
          assert w.partition != p && w.etag == Some(s.records[w.partition].etag);
        }
      }
    case CheckpointCall(p, offset, seqNo) =>
      CheckpointInShape(s, p, offset, seqNo);
      if e < s.next {
        var q :| 0 <= q < |s'.records| && s'.records[q].etag == e;
        assert s.records[q].etag == e;
      }
    case OpenCall(n, at) =>
      OpenInShape(s, n, at);
  }

  lemma {:induction false} WinnersPresent(arr: seq<Option<Etag>>, claims: seq<Claim>)
    ensures forall w :: w in Winners(arr, claims) ==> w.partition < |arr| && Presents(arr, w)
    decreases |claims|
  {
    if claims != [] && claims[0].partition < |arr| { WinnersPresent(arr, claims[1..]); }
  }

  lemma {:induction false} SpentWasLive(s: Store, calls: seq<Call>)
    requires Shape(s)
    ensures forall w :: w in SpentInRun(s, calls) ==> w.etag.Some? && Live(s, w.etag.value)
    decreases |calls|
  {
    if calls != [] {
      var s' := CallStep(s, calls[0]);
      CallKeepsShape(s, calls[0]);
      SpentWasLive(s', calls[1..]);
      if calls[0].ClaimCall? { WinnersPresent(Etags(s), calls[0].claims); }
      forall w | w in SpentInRun(s, calls) ensures w.etag.Some? && Live(s, w.etag.value) {
        if w in Spent(s, calls[0]) {
          assert s.records[w.partition].etag == w.etag.value;
        } else {
          LivenessShrinks(s, calls[0], w.etag.value);
        }
      }
    }
  }

  ghost predicate DistinctPartitions(claims: seq<Claim>) {
    forall i, j :: 0 <= i < j < |claims| ==> claims[i].partition != claims[j].partition
  }

  ghost predicate DistinctEtags(claims: seq<Claim>) {
    forall i, j :: 0 <= i < j < |claims| ==> claims[i].etag != claims[j].etag
  }

  /** Within one call an etag is spent twice exactly when two granted claims name the same partition. */
  lemma OneCallSpendsOnce(s: Store, claims: seq<Claim>)
    requires Shape(s)
    ensures var won := Winners(Etags(s), claims); DistinctEtags(won) <==> DistinctPartitions(won)
  {
    var won := Winners(Etags(s), claims);
    WinnersPresent(Etags(s), claims);
    forall i, j | 0 <= i < j < |won|
      ensures won[i].etag == won[j].etag <==> won[i].partition == won[j].partition
    {
      assert won[i] in won && won[j] in won;
      var p, q := won[i].partition, won[j].partition;
      assert won[i].etag == Some(s.records[p].etag) && won[j].etag == Some(s.records[q].etag);
      assert p < q ==> s.records[p].etag != s.records[q].etag;
      assert q < p ==> s.records[q].etag != s.records[p].etag;
    }
  }

  lemma DistinctParts(a: seq<Claim>, b: seq<Claim>)
    ensures DistinctEtags(a + b) <==>
            && DistinctEtags(a) && DistinctEtags(b)
            && forall i, j :: 0 <= i < |a| && 0 <= j < |b| ==> a[i].etag != b[j].etag
  {
    var all := a + b;
    assert forall i :: 0 <= i < |a| ==> all[i] == a[i];
    assert forall j :: 0 <= j < |b| ==> all[|a| + j] == b[j];
    if DistinctEtags(all) {
      forall i, j | 0 <= i < j < |b| ensures b[i].etag != b[j].etag {
        assert all[|a| + i].etag != all[|a| + j].etag;
      }
      forall i, j | 0 <= i < |a| && 0 <= j < |b| ensures a[i].etag != b[j].etag {
        assert all[i].etag != all[|a| + j].etag;
      }
    }
  }

  /** What one call spends is spent for good: no later call can present the same etag with success. */
  lemma SpentForGood(s: Store, call: Call, calls: seq<Call>)
    requires Shape(s)
    ensures var now, later := Spent(s, call), SpentInRun(CallStep(s, call), calls);
            forall i, j :: 0 <= i < |now| && 0 <= j < |later| ==> now[i].etag != later[j].etag
  {
    var s', now, later := CallStep(s, call), Spent(s, call), SpentInRun(CallStep(s, call), calls);
    CallKeepsShape(s, call);
    SpentWasLive(s', calls);
    forall i, j | 0 <= i < |now| && 0 <= j < |later| ensures now[i].etag != later[j].etag {
      assert now[i] in now && later[j] in later;
      LivenessShrinks(s, call, later[j].etag.value);
    }
  }

  /**
   Ownership is a linear chain: over every run of claims, checkpoints and re-initialisations, from any well-shaped
   store, no etag is spent by two successful claims iff no single call is granted the same partition twice.
   */
  lemma {:induction false} NoEtagSpentTwice(s: Store, calls: seq<Call>)
    requires Shape(s)
    ensures DistinctEtags(SpentInRun(s, calls)) <==> NoDoubleGrant(s, calls)
    decreases |calls|
  {
    if calls != [] {
      CallKeepsShape(s, calls[0]);
      NoEtagSpentTwice(CallStep(s, calls[0]), calls[1..]);
      SpentForGood(s, calls[0], calls[1..]);
      DistinctParts(Spent(s, calls[0]), SpentInRun(CallStep(s, calls[0]), calls[1..]));
      if calls[0].ClaimCall? { OneCallSpendsOnce(s, calls[0].claims); }
    }
  }

  ghost predicate NoDoubleGrant(s: Store, calls: seq<Call>)
    decreases |calls|
  {
    calls != [] ==> DistinctPartitions(Spent(s, calls[0])) && NoDoubleGrant(CallStep(s, calls[0]), calls[1..])
  }

  lemma {:induction false} WinnersDistinct(arr: seq<Option<Etag>>, claims: seq<Claim>)
    requires DistinctPartitions(claims)
    ensures DistinctPartitions(Winners(arr, claims))
    ensures forall w :: w in Winners(arr, claims) ==> w in claims
    decreases |claims|
  {
    if claims != [] && claims[0].partition < |arr| {
      WinnersDistinct(arr, claims[1..]);
      assert claims == [claims[0]] + claims[1..];
      forall w | w in claims[1..] ensures w.partition != claims[0].partition {
        var i :| 0 <= i < |claims[1..]| && claims[1..][i] == w;
        assert claims[i + 1] == w;
      }
    }
  }

  /** Listing each partition at most once in every call is enough. */
  lemma {:induction false} DistinctCallsNeverDoubleGrant(s: Store, calls: seq<Call>)
    requires forall i :: 0 <= i < |calls| && calls[i].ClaimCall? ==> DistinctPartitions(calls[i].claims)
    ensures NoDoubleGrant(s, calls)
    decreases |calls|
  {
    if calls != [] {
      if calls[0].ClaimCall? { WinnersDistinct(Etags(s), calls[0].claims); }
      DistinctCallsNeverDoubleGrant(CallStep(s, calls[0]), calls[1..]);
    }
  }

  /** Without that, the stale etag array lets one call spend an etag twice: both claims are acquired. */
  lemma SamePartitionTwice(s: Store, p: nat, a: string, b: string, now: int)
    requires Shape(s) && p < |s.records|
    ensures var e := Some(s.records[p].etag);
            var (s', r) := Claimed(s, [Claim(p, a, e, 0), Claim(p, b, e, 0)], now);
            && r == Ok([Claim(p, a, Some(s.next), now), Claim(p, b, Some(s.next + 1), now)])
            && |s'.records| == |s.records| && s'.records[p].owner == b
  {
    var e := Some(s.records[p].etag);
    var claims := [Claim(p, a, e, 0), Claim(p, b, e, 0)];
    ClaimsExact(s, claims, now);
    assert claims[1..] == [Claim(p, b, e, 0)] && claims[1..][1..] == [];
    assert Winners(Etags(s), claims[1..]) == claims[1..];
    assert Winners(Etags(s), claims) == [claims[0]] + claims[1..] == claims;
    var s' := Claimed(s, claims, now).0;
    assert LastGrant(claims, p, 1);
    LastGrantDecides(s.records[p], p, claims, s.next, now);
    assert Receipts(claims, s.next, now) == [Claim(p, a, Some(s.next), now), Claim(p, b, Some(s.next + 1), now)];
  }

  /** Nobody is granted `p`, and the store is not created afresh. */
  ghost predicate Undisturbed(s: Store, calls: seq<Call>, p: nat)
    decreases |calls|
  {
    calls != [] ==>
      && (forall w :: w in Spent(s, calls[0]) ==> w.partition != p)
      && (calls[0].OpenCall? ==> calls[0].partitions == |s.records|)
      && Undisturbed(CallStep(s, calls[0]), calls[1..], p)
  }

  lemma {:induction false} EtagStays(s: Store, calls: seq<Call>, p: nat)
    requires Shape(s) && p < |s.records| && Undisturbed(s, calls, p)
    ensures var s' := RunCalls(s, calls);
            && Shape(s') && |s'.records| == |s.records|
            && s'.records[p].etag == s.records[p].etag && s'.records[p].owner == s.records[p].owner
    decreases |calls|
  {
    if calls != [] {
      CallKeepsShape(s, calls[0]);
      match calls[0] {
        case ClaimCall(claims, now) =>
          ClaimsExact(s, claims, now);
          LastGrantDecides(s.records[p], p, Spent(s, calls[0]), s.next, now);
        case CheckpointCall(q, offset, seqNo) => CheckpointInShape(s, q, offset, seqNo);
        case OpenCall(n, at) => OpenInShape(s, n, at);
      }
      EtagStays(CallStep(s, calls[0]), calls[1..], p);
    }
  }

  /** The etag a successful claim returns lets the owner renew until someone else succeeds on the partition. */
  lemma OwnerCanRenew(s: Store, claim: Claim, now: int, calls: seq<Call>, later: int)
    requires Shape(s) && claim.partition < |s.records| && Presents(Etags(s), claim)
    requires Undisturbed(Claimed(s, [claim], now).0, calls, claim.partition)
    ensures var (s1, r) := Claimed(s, [claim], now);
            && r == Ok([claim.(etag := Some(s.next), modified := now)])
            && var s2 := RunCalls(s1, calls);
               Claimed(s2, r.value, later).1 == Ok([claim.(etag := Some(s2.next), modified := later)])
  {
    var p, arr := claim.partition, Etags(s);
    assert [claim][1..] == [];
    assert Winners(arr, [claim]) == [claim];
    ClaimsExact(s, [claim], now);
    var (s1, r) := Claimed(s, [claim], now);
    LastGrantDecides(s.records[p], p, [claim], s.next, now);
    EtagStays(s1, calls, p);
    var s2 := RunCalls(s1, calls);
    assert r.value == [claim.(etag := Some(s.next), modified := now)];
    assert r.value[1..] == [];
    assert Winners(Etags(s2), r.value) == r.value;
    ClaimsExact(s2, r.value, later);
    assert Receipts(r.value, s2.next, later) == [claim.(etag := Some(s2.next), modified := later)];
  }

  // ----- claims and checkpoints do not interfere -----

  lemma {:induction false} SnapshotIgnoresOffsets(a: seq<Record>, b: seq<Record>, arr: seq<Option<Etag>>)
    requires |a| == |b|
    requires forall i :: 0 <= i < |a| ==> a[i].partition == b[i].partition && a[i].etag == b[i].etag
    ensures Snapshot(a, arr) == Snapshot(b, arr)
  {
    if a != [] && a[0].partition < |arr| {
      SnapshotIgnoresOffsets(a[1..], b[1..], arr[a[0].partition := Some(a[0].etag)]);
    }
  }

  lemma {:induction false} FindIgnoresRest(a: seq<Record>, b: seq<Record>, p: nat)
    requires |a| == |b|
    requires forall i :: 0 <= i < |a| ==> a[i].partition == b[i].partition
    ensures Find(a, p) == Find(b, p)
  {
    if a != [] && a[0].partition != p { FindIgnoresRest(a[1..], b[1..], p); }
  }

  lemma FieldUpdatesCommute(r: seq<Record>, i: nat, j: nat, owner: string, etag: Etag, now: int, offset: Option<nat>,
                            seqNo: int)
    requires i < |r| && j < |r|
    ensures var a := r[i := r[i].(owner := owner, etag := etag, modified := now)];
            var b := r[j := r[j].(offset := offset, seqNo := seqNo)];
            a[j := a[j].(offset := offset, seqNo := seqNo)]
            == b[i := b[i].(owner := owner, etag := etag, modified := now)]
  {
  }

  lemma GrantCommutes(s: Store, c: Claim, now: int, p: nat, offset: Option<nat>, seqNo: int)
    ensures Granted(Checkpointed(s, p, offset, seqNo), c, now) ==
            (Checkpointed(Granted(s, c, now).0, p, offset, seqNo), Granted(s, c, now).1)
  {
    var i, j := Find(s.records, c.partition), Find(s.records, p);
    FindIgnoresRest(s.records, Checkpointed(s, p, offset, seqNo).records, c.partition);
    FindIgnoresRest(s.records, Granted(s, c, now).0.records, p);
    if i < |s.records| && j < |s.records| {
      FieldUpdatesCommute(s.records, i, j, c.owner, s.next, now, offset, seqNo);
    }
  }

  lemma {:induction false} ClaimLoopCommutes(s: Store, arr: seq<Option<Etag>>, claims: seq<Claim>, acquired: seq<Claim>,
                                             now: int, p: nat, offset: Option<nat>, seqNo: int)
    ensures var (a, b) := (ClaimAll(s, arr, claims, acquired, now),
                           ClaimAll(Checkpointed(s, p, offset, seqNo), arr, claims, acquired, now));
            b.0 == Checkpointed(a.0, p, offset, seqNo) && b.1 == a.1
    decreases |claims|
  {
    if claims != [] && claims[0].partition < |arr| {
      if Presents(arr, claims[0]) {
        GrantCommutes(s, claims[0], now, p, offset, seqNo);
        var g := Granted(s, claims[0], now);
        ClaimLoopCommutes(g.0, arr, claims[1..], acquired + [g.1], now, p, offset, seqNo);
      } else {
        ClaimLoopCommutes(s, arr, claims[1..], acquired, now, p, offset, seqNo);
      }
    }
  }

  /** A claim call and a checkpoint update give the same store and the same answer in either order. */
  lemma ClaimAndCheckpointCommute(s: Store, claims: seq<Claim>, now: int, p: nat, offset: Option<nat>, seqNo: int)
    ensures var (s', r) := Claimed(s, claims, now);
            Claimed(Checkpointed(s, p, offset, seqNo), claims, now) == (Checkpointed(s', p, offset, seqNo), r)
  {
    var t := Checkpointed(s, p, offset, seqNo);
    SnapshotIgnoresOffsets(s.records, t.records, Blank(|s.records|));
    var arr := Snapshot(s.records, Blank(|s.records|));
    if arr.Ok? { ClaimLoopCommutes(s, arr.value, claims, [], now, p, offset, seqNo); }
  }
}
