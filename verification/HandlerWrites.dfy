/**
 Which records the event handler writes. Of each event it reaches the records in order, up to the first that is neither
 a dict nor the JSON of one; what it reaches and streams is written, and the rest of what it reaches is counted as
 skipped.
 */
module HandlerWrites {
  import opened Arithmetic
  import opened ConsumerHandler
  import opened HandlerRuns

  // ----- the name of an event type -----

  predicate OccursAt(s: string, pattern: string, i: nat) {
    i + |pattern| <= |s| && s[i..i + |pattern|] == pattern
  }

  /** Without an occurrence nothing is removed. */
  lemma {:induction false} NothingRemoved(s: string, pattern: string)
    requires pattern != "" && forall i: nat :: !OccursAt(s, pattern, i)
    ensures RemoveAll(s, pattern) == s
  {
    if |s| >= |pattern| {
      assert !OccursAt(s, pattern, 0);
      forall i: nat ensures !OccursAt(s[1..], pattern, i) { LaterOccurrence(s, pattern, i); }
      NothingRemoved(s[1..], pattern);
    }
  }

  lemma LaterOccurrence(s: string, pattern: string, i: nat)
    requires s != ""
    ensures OccursAt(s[1..], pattern, i) <==> OccursAt(s, pattern, i + 1)
  {
    if i + 1 + |pattern| <= |s| { assert s[1..][i..i + |pattern|] == s[i + 1..i + 1 + |pattern|]; }
  }

  /** The first occurrence goes, and the text behind it is searched on. */
  lemma {:induction false} FirstRemoved(before: string, pattern: string, after: string)
    requires pattern != "" && forall i: nat :: i < |before| ==> !OccursAt(before + pattern + after, pattern, i)
    ensures RemoveAll(before + pattern + after, pattern) == before + RemoveAll(after, pattern)
  {
    var s := before + pattern + after;
    if before == "" {
      assert s == pattern + after && s[..|pattern|] == pattern && s[|pattern|..] == after;
    } else {
      assert !OccursAt(s, pattern, 0);
      assert s[1..] == before[1..] + pattern + after;
      forall i: nat | i < |before[1..]| ensures !OccursAt(before[1..] + pattern + after, pattern, i) {
        LaterOccurrence(s, pattern, i);
      }
      FirstRemoved(before[1..], pattern, after);
      assert [before[0]] + (before[1..] + RemoveAll(after, pattern)) == before + RemoveAll(after, pattern);
    }
  }

  ghost predicate Plain(s: string) {
    forall i: nat :: !OccursAt(s, "AdvancedHunting-", i)
  }

  /** A category streams iff its type is asked for, whether or not it carries the prefix; the empty type never does. */
  lemma StreamsIff(types: seq<string>, eventType: string)
    requires Plain(eventType)
    ensures Streams(types, eventType) <==> eventType != "" && eventType in types
    ensures Streams(types, "AdvancedHunting-" + eventType) <==> eventType != "" && eventType in types
  {
    NothingRemoved(eventType, PREFIX);
    FirstRemoved("", PREFIX, eventType);
    assert "" + PREFIX + eventType == "AdvancedHunting-" + eventType;
    assert "" + RemoveAll(eventType, PREFIX) == RemoveAll(eventType, PREFIX);
  }

  // ----- one event -----

  /** The first item that is no record, or the number of items. */
  function FirstBad(items: seq<Item>): (k: nat)
    ensures k <= |items| && (forall j :: 0 <= j < k ==> items[j].Record?) && (k < |items| ==> !items[k].Record?)
  {
    if items == [] || !items[0].Record? then 0 else 1 + FirstBad(items[1..])
  }

  /** The categories of the records that come before any bad item. */
  function Reached(items: seq<Item>): seq<string> {
    seq(FirstBad(items), j requires 0 <= j < FirstBad(items) => items[j].category)
  }

  /** The event is abandoned with an exception: its first bad item is not a dict. */
  predicate Abandoned(items: seq<Item>) {
    FirstBad(items) < |items| && items[FirstBad(items)].NotADict?
  }

  /** The streamed ones among the categories, in order. */
  function Streamed(types: seq<string>, categories: seq<string>): seq<string> {
    if categories == [] then []
    else (if Streams(types, categories[0]) then [categories[0]] else []) + Streamed(types, categories[1..])
  }

  lemma {:induction false} StreamedParts(types: seq<string>, a: seq<string>, b: seq<string>)
    ensures Streamed(types, a + b) == Streamed(types, a) + Streamed(types, b)
  {
    if a == [] {
      assert a + b == b;
    } else {
      StreamedParts(types, a[1..], b);
      assert (a + b)[1..] == a[1..] + b && (a + b)[0] == a[0];
      var head := if Streams(types, a[0]) then [a[0]] else [];
      Associative(head, Streamed(types, a[1..]), Streamed(types, b));
    }
  }

  /** A selection wrote exactly the streamed ones of `reached`, in order, and skipped the others. */
  ghost predicate Writes(s: State, r: State, types: seq<string>, reached: seq<string>) {
    var kept := Streamed(types, reached);
    && r.written == s.written + kept && r.ingested == s.ingested + |kept|
    && r.skipped == s.skipped + |reached| - |kept| && r.dropped == s.dropped + |reached| - |kept|
  }

  lemma WritesTwice(s: State, m: State, r: State, types: seq<string>, a: seq<string>, b: seq<string>)
    requires Writes(s, m, types, a) && Writes(m, r, types, b)
    ensures Writes(s, r, types, a + b)
  {
    StreamedParts(types, a, b);
  }

  /**
   One event, for every list of items: exactly the streamed records before the first bad item are written, in order,
   the others before it are skipped, and an exception is raised iff that item is not a dict.
   */
  lemma {:induction false} SelectionWrites(s: State, types: seq<string>, items: seq<Item>)
    ensures var (r, raised) := SelectItems(s, types, items);
            Writes(s, r, types, Reached(items)) && (raised <==> Abandoned(items))
    decreases |items|
  {
    if items != [] && items[0].Record? {
      var c, m := items[0].category, Written(s, types, items[0].category);
      SelectionWrites(m, types, items[1..]);
      assert Reached(items) == [c] + Reached(items[1..]);
      assert [c][1..] == [];
      assert Writes(s, m, types, [c]);
      WritesTwice(s, m, SelectItems(m, types, items[1..]).0, types, [c], Reached(items[1..]));
    } else {
      assert Reached(items) == [];
    }
  }

  // ----- a batch, and a run -----

  function ItemsOf(body: Body): seq<Item> {
    if body.Records? then body.items else []
  }

  /** The categories that a batch reaches: those of each event in turn, up to an abandoned event. */
  function ReachedInAll(bodies: seq<Body>): seq<string> {
    if bodies == [] then []
    else Reached(ItemsOf(bodies[0])) + (if Abandoned(ItemsOf(bodies[0])) then [] else ReachedInAll(bodies[1..]))
  }

  /** A whole batch: it writes exactly the streamed records that it reaches, and raises iff some event is abandoned. */
  lemma {:induction false} BatchWrites(s: State, types: seq<string>, bodies: seq<Body>)
    ensures var (r, raised) := SelectAll(s, types, bodies);
            && Writes(s, r, types, ReachedInAll(bodies))
            && (raised <==> exists b :: b in bodies && Abandoned(ItemsOf(b)))
    decreases |bodies|
  {
    if bodies != [] {
      var first, rest := ItemsOf(bodies[0]), bodies[1..];
      SelectionWrites(s, types, first);
      var (m, raised) := SelectBody(s, types, bodies[0]);
      assert Writes(s, m, types, Reached(first)) && (raised <==> Abandoned(first));
      if raised {
        assert Reached(first) + [] == Reached(first);
      } else {
        BatchWrites(m, types, rest);
        WritesTwice(s, m, SelectAll(m, types, rest).0, types, Reached(first), ReachedInAll(rest));
        assert bodies == [bodies[0]] + rest;
      }
    }
  }

  /** A batch without an abandoned event reaches the records of all its events. */
  lemma {:induction false} NothingAbandoned(bodies: seq<Body>, i: nat, c: string)
    requires i < |bodies| && forall j :: 0 <= j < |bodies| ==> !Abandoned(ItemsOf(bodies[j]))
    ensures c in Reached(ItemsOf(bodies[i])) ==> c in ReachedInAll(bodies)
  {
    assert !Abandoned(ItemsOf(bodies[0]));
    if i > 0 {
      assert forall j :: 0 <= j < |bodies[1..]| ==> bodies[1..][j] == bodies[j + 1];
      NothingAbandoned(bodies[1..], i - 1, c);
    }
  }

  function ReachedInRun(calls: seq<Callback>): seq<string> {
    if calls == [] then [] else ReachedInAll(calls[0].bodies) + ReachedInRun(calls[1..])
  }

  lemma CallbackWrites(s: State, types: seq<string>, p: string, bodies: seq<Body>, now: int)
    ensures OnBatch(s, types, p, bodies, now).0.written == s.written + Streamed(types, ReachedInAll(bodies))
  {
    BatchWrites(s.(details := Tracked(s.details, p)), types, bodies);
  }

  /** Over every sequence of callbacks: what has been written is exactly the streamed records reached, in order. */
  lemma {:induction false} RunWrites(s: State, types: seq<string>, calls: seq<Callback>)
    ensures RunHandler(s, types, calls).written == s.written + Streamed(types, ReachedInRun(calls))
    decreases |calls|
  {
    if calls != [] {
      var c := calls[0];
      var m := OnBatch(s, types, c.partition, c.bodies, c.now).0;
      CallbackWrites(s, types, c.partition, c.bodies, c.now);
      RunWrites(m, types, calls[1..]);
      StreamedParts(types, ReachedInAll(c.bodies), ReachedInRun(calls[1..]));
      Associative(s.written, Streamed(types, ReachedInAll(c.bodies)), Streamed(types, ReachedInRun(calls[1..])));
    }
  }
}
