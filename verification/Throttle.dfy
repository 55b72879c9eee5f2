/**
 The three caching layers of `lib/msal/throttled_http_client.py` over one expiring mapping.
 The network's answer and every reading of the clock are parameters of a call. A ghost log
 records each response a layer stores.
 */
module Throttle {
  import opened Wrappers
  import opened Arithmetic
  import opened ExpiringMapping
  import opened IndexCoverage
  import opened MappingRuns

  const DEVICE_AUTH_GRANT := "urn:ietf:params:oauth:grant-type:device_code"
  const CAPACITY: Option<nat> := Some(1024)

  /** The hash of a key part, `int()` on a header value, and `str.lower()`. */
  datatype Env = Env(hash: Option<string> -> string, parseInt: string -> Option<int>, lower: string -> string)

  /** The `data` argument: a dict (a missing argument counts as an empty one), or anything else. */
  datatype Data = Form(fields: map<string, string>) | NotForm

  /** `digest` is `str(params) + str(data)` for a POST and the params for a GET. */
  datatype Request = Request(url: string, data: Data, digest: string)

  datatype Response = Response(status: int, headers: seq<(string, string)>)

  datatype Layer = RetryAfter | BadRequest | Discovery

  function FieldOf(data: Data, key: string, default: Option<string>): Option<string> {
    match data
    case Form(fields) => if key in fields then Some(fields[key]) else None
    case NotForm => default
  }

  function Show(o: Option<string>): string {
    match o
    case None => "None"
    case Some(s) => s
  }

  function Account(data: Data): Option<string> {
    FieldOf(data, "refresh_token", FieldOf(data, "code", FieldOf(data, "username", None)))
  }

  function KeyOf(env: Env, layer: Layer, r: Request): string {
    match layer
    case RetryAfter =>
      "POST " + r.url + " client_id=" + Show(FieldOf(r.data, "client_id", None)) + " scope="
      + Show(FieldOf(r.data, "scope", None)) + " hash=" + env.hash(Account(r.data)) + " 429/5xx/Retry-After"
    case BadRequest => "POST " + r.url + " hash=" + env.hash(Some(r.digest)) + " 400"
    case Discovery => "GET " + r.url + " hash=" + env.hash(Some(r.digest)) + " 2xx"
  }

  /** `lowercase_headers.get("retry-after")`: a later header of the same name wins. */
  function RetryHeader(env: Env, headers: seq<(string, string)>): Option<string> {
    if headers == [] then None
    else
      var last := headers[|headers| - 1];
      if env.lower(last.0) == "retry-after" then Some(last.1) else RetryHeader(env, headers[..|headers| - 1])
  }

  /** `RetryAfterParser.parse`: seconds to throttle. */
  function Parse(env: Env, default: int, r: Response): int {
    var header := RetryHeader(env, r.headers);
    if r.status != 429 && r.status < 500 && header.None? then 0
    else
      var parsed := if header.Some? then env.parseInt(header.value) else Some(default);
      Min(3600, if parsed.Some? then parsed.value else default)
  }

  /** Each layer's `expires_in`; zero means that the response is not stored. */
  function Lifetime(env: Env, default: int, layer: Layer, q: Request, r: Response): int {
    match layer
    case RetryAfter => Parse(env, default, r)
    case BadRequest =>
      if && r.status == 400
         && !(q.data.Form? && "grant_type" in q.data.fields && q.data.fields["grant_type"] == DEVICE_AUTH_GRANT)
         && RetryHeader(env, r.headers).None?
      then 60 else 0
    case Discovery => if 200 <= r.status < 300 then 86400 else 0
  }

  function Bound(layer: Layer): int {
    match layer
    case RetryAfter => 3600
    case BadRequest => 60
    case Discovery => 86400
  }

  // ----- one call -----

  datatype StoreEvent = StoreEvent(layer: Layer, key: string, resp: Response, ttl: int, at: int)

  datatype Client = Client(cache: Cache<Response>, log: seq<StoreEvent>)

  datatype Source = Network | Replay(layer: Layer)

  datatype Outcome = Answered(resp: Response, source: Source) | Raised(error: Error)

  /** When a layer looked its key up, ran the maintenance of its store, and stamped the new entry. */
  datatype Times = Times(lookup: int, t0: int, t1: int)

  function Recall(w: Client, key: string, now: int): (Client, Result<Response, Error>) {
    var g := GetStep(w.cache, key, now);
    (w.(cache := g.0), g.1)
  }

  function Remember(w: Client, layer: Layer, key: string, resp: Response, ttl: int, t: Times)
    : (Client, Result<(), Error>)
  {
    if ttl == 0 then (w, Ok(())) else
      var s := SetStep(w.cache, CAPACITY, key, resp, ttl, t.t0, t.t1);
      (Client(s.0, if s.1.Ok? then w.log + [StoreEvent(layer, key, resp, ttl, t.t1)] else w.log), s.1)
  }

  /** The wrapper of `_IndividualCache` after a miss: `inner` is what the wrapped function did. */
  function AfterMiss(env: Env, default: int, layer: Layer, q: Request, w: Client, inner: Outcome, t: Times)
    : (Client, Outcome)
  {
    if inner.Raised? then (w, inner) else
      var ttl := Lifetime(env, default, layer, q, inner.resp);
      var s := Remember(w, layer, KeyOf(env, layer, q), inner.resp, ttl, t);
      (s.0, if s.1.Ok? then inner else Raised(s.1.error))
  }

  /** A layer directly over the network. */
  function NetworkLayer(env: Env, default: int, layer: Layer, w: Client, q: Request, net: Response, t: Times)
    : (Client, Outcome)
  {
    var g := Recall(w, KeyOf(env, layer, q), t.lookup);
    if g.1.Ok? then (g.0, Answered(g.1.value, Replay(layer)))
    else if g.1.error != KeyError then (g.0, Raised(g.1.error))
    else AfterMiss(env, default, layer, q, g.0, Answered(net, Network), t)
  }

  function PostStep(env: Env, default: int, w: Client, q: Request, net: Response, inner: Times, outer: Times)
    : (Client, Outcome)
  {
    var g := Recall(w, KeyOf(env, BadRequest, q), outer.lookup);
    if g.1.Ok? then (g.0, Answered(g.1.value, Replay(BadRequest)))
    else if g.1.error != KeyError then (g.0, Raised(g.1.error))
    else
      var p := NetworkLayer(env, default, RetryAfter, g.0, q, net, inner);
      AfterMiss(env, default, BadRequest, q, p.0, p.1, outer)
  }

  function GetCallStep(env: Env, default: int, w: Client, q: Request, net: Response, t: Times): (Client, Outcome) {
    NetworkLayer(env, default, Discovery, w, q, net, t)
  }

  /** `default_throttle_time or 5`. */
  function DefaultThrottle(given: Option<int>): int {
    if given.Some? && given.value != 0 then given.value else 5
  }

  class ThrottledHttpClient {
    const env: Env
    const default: int
    const mapping: Mapping<Response>
    ghost var log: seq<StoreEvent>

    constructor (env: Env, defaultThrottleTime: Option<int>)
      ensures State() == Client(EmptyCache(), []) && fresh(mapping)
      ensures this.env == env && mapping.capacity == CAPACITY == Some(1024)
      ensures default == match defaultThrottleTime
                         case None => 5
                         case Some(seconds) => if seconds == 0 then 5 else seconds
    {
      this.env, default, log := env, DefaultThrottle(defaultThrottleTime), [];
      mapping := new Mapping(CAPACITY, None);
    }

    ghost function State(): Client
      reads this, mapping
    {
      Client(mapping.State(), log)
    }

    method Lookup(key: string, now: int) returns (r: Result<Response, Error>)
      modifies mapping
      ensures (State(), r) == Recall(old(State()), key, now)
    {
      r := mapping.GetItem(key, now);
    }

    method Store(layer: Layer, q: Request, resp: Response, t: Times) returns (r: Result<(), Error>)
      requires mapping.capacity == CAPACITY
      modifies this, mapping
      ensures (State(), r) == Remember(old(State()), layer, KeyOf(env, layer, q), resp,
                                       Lifetime(env, default, layer, q, resp), t)
    {
      var ttl := Lifetime(env, default, layer, q, resp);
      if ttl == 0 {
        return Ok(());
      }
      r := mapping.Set(KeyOf(env, layer, q), resp, ttl, t.t0, t.t1);
      if r.Ok? {
        log := log + [StoreEvent(layer, KeyOf(env, layer, q), resp, ttl, t.t1)];
      }
    }

    method CallThrough(layer: Layer, q: Request, net: Response, t: Times) returns (o: Outcome)
      requires mapping.capacity == CAPACITY
      modifies this, mapping
      ensures (State(), o) == NetworkLayer(env, default, layer, old(State()), q, net, t)
    {
      var hit := Lookup(KeyOf(env, layer, q), t.lookup);
      if hit.Ok? {
        return Answered(hit.value, Replay(layer));
      }
      if hit.error != KeyError {
        return Raised(hit.error);
      }
      var s := Store(layer, q, net, t);
      o := if s.Ok? then Answered(net, Network) else Raised(s.error);
    }

    method Post(q: Request, net: Response, inner: Times, outer: Times) returns (o: Outcome)
      requires mapping.capacity == CAPACITY
      modifies this, mapping
      ensures (State(), o) == PostStep(env, default, old(State()), q, net, inner, outer)
    {
      var hit := Lookup(KeyOf(env, BadRequest, q), outer.lookup);
      if hit.Ok? {
        return Answered(hit.value, Replay(BadRequest));
      }
      if hit.error != KeyError {
        return Raised(hit.error);
      }
      o := CallThrough(RetryAfter, q, net, inner);
      if o.Raised? {
        return;
      }
      var s := Store(BadRequest, q, o.resp, outer);
      if s.Err? {
        o := Raised(s.error);
      }
    }

    method Get(q: Request, net: Response, t: Times) returns (o: Outcome)
      requires mapping.capacity == CAPACITY
      modifies this, mapping
      ensures (State(), o) == GetCallStep(env, default, old(State()), q, net, t)
    {
      o := CallThrough(Discovery, q, net, t);
    }
  }

  // ----- keys -----

  function Mark(layer: Layer): char {
    match layer
    case RetryAfter => 'r'
    case BadRequest => '0'
    case Discovery => 'x'
  }

  lemma KeyEnd(prefix: string, suffix: string)
    requires suffix != ""
    ensures |prefix + suffix| > 0 && (prefix + suffix)[|prefix + suffix| - 1] == suffix[|suffix| - 1]
  {
  }

  /** Keys of different layers, and the reserved index key, never coincide, whatever the requests. */
  lemma KeysNeverCollide(env: Env, layer: Layer, other: Layer, q: Request, q': Request)
    ensures var key := KeyOf(env, layer, q);
            && key != INDEX && |key| > 0 && key[|key| - 1] == Mark(layer)
            && (layer != other ==> key != KeyOf(env, other, q'))
  {
    KeyMark(env, layer, q);
    KeyMark(env, other, q');
  }

  lemma KeyMark(env: Env, layer: Layer, q: Request)
    ensures var key := KeyOf(env, layer, q);
            key != INDEX && |key| > 0 && key[|key| - 1] == Mark(layer)
  {
    match layer
    case RetryAfter =>
      KeyEnd("POST " + q.url + " client_id=" + Show(FieldOf(q.data, "client_id", None)) + " scope="
             + Show(FieldOf(q.data, "scope", None)) + " hash=" + env.hash(Account(q.data)), " 429/5xx/Retry-After");
    case BadRequest => KeyEnd("POST " + q.url + " hash=" + env.hash(Some(q.digest)), " 400");
    case Discovery => KeyEnd("GET " + q.url + " hash=" + env.hash(Some(q.digest)), " 2xx");
  }

  // ----- what a run of calls keeps -----

  ghost function FromLog(log: seq<StoreEvent>): map<string, Item<Response>> {
    if log == [] then map[] else
      var e := log[|log| - 1];
      FromLog(log[..|log| - 1])[e.key := Item(e.resp, Stamp(e.at + e.ttl, e.at))]
  }

  lemma {:induction false} LogSource(log: seq<StoreEvent>, key: string) returns (j: nat)
    requires key in FromLog(log)
    ensures j < |log| && log[j].key == key
    ensures FromLog(log)[key] == Item(log[j].resp, Stamp(log[j].at + log[j].ttl, log[j].at))
  {
    var n := |log| - 1;
    if log[n].key == key { return n; }
    j := LogSource(log[..n], key);
  }

  ghost predicate SoundEvent(env: Env, default: int, e: StoreEvent) {
    && |e.key| > 0 && e.key[|e.key| - 1] == Mark(e.layer)
    && e.ttl <= Bound(e.layer)
    && (e.layer == RetryAfter ==> Parse(env, default, e.resp) == e.ttl != 0)
  }

  ghost predicate Trusted(env: Env, default: int, w: Client) {
    && Agrees(w.cache, FromLog(w.log))
    && forall j :: 0 <= j < |w.log| ==> SoundEvent(env, default, w.log[j])
  }

  /** The replayed response was stored by the same layer, under the same key, less than its bound ago. */
  ghost predicate ReplayIsRecent(log: seq<StoreEvent>, layer: Layer, key: string, resp: Response, now: int) {
    exists j :: && 0 <= j < |log| && log[j].layer == layer && log[j].key == key && log[j].resp == resp
                && 0 <= now - log[j].at < Bound(layer)
  }

  lemma RecallIsRecent(env: Env, default: int, w: Client, layer: Layer, q: Request, now: int)
    requires Trusted(env, default, w)
    ensures var (w', r) := Recall(w, KeyOf(env, layer, q), now);
            && Trusted(env, default, w') && w'.log == w.log && (r.Err? ==> r.error == KeyError)
            && (r.Ok? ==> && ReplayIsRecent(w.log, layer, KeyOf(env, layer, q), r.value, now)
                          && (layer == RetryAfter ==> Parse(env, default, r.value) != 0))
  {
    var key := KeyOf(env, layer, q);
    KeyMark(env, layer, q);
    if Recall(w, key, now).1.Ok? {
      var j := LogSource(w.log, key);
      assert SoundEvent(env, default, w.log[j]);
      assert w.log[j].layer == layer;
    }
  }

  /** No lifetime exceeds its layer's bound, and no key is stored under another layer's mark. */
  lemma LifetimeIsSound(env: Env, default: int, layer: Layer, q: Request, resp: Response, at: int)
    requires Lifetime(env, default, layer, q, resp) != 0
    ensures SoundEvent(env, default,
                       StoreEvent(layer, KeyOf(env, layer, q), resp, Lifetime(env, default, layer, q, resp), at))
  {
    KeyMark(env, layer, q);
  }

  lemma RememberedAgrees(w: Client, layer: Layer, key: string, resp: Response, ttl: int, t: Times)
    requires Agrees(w.cache, FromLog(w.log)) && ttl != 0
    ensures var (w', r) := Remember(w, layer, key, resp, ttl, t);
            && Agrees(w'.cache, FromLog(w'.log))
            && w'.log == if r.Ok? then w.log + [StoreEvent(layer, key, resp, ttl, t.t1)] else w.log
  {
    SetAgrees(w.cache, CAPACITY, key, resp, ttl, t.t0, t.t1, FromLog(w.log));
    var log' := w.log + [StoreEvent(layer, key, resp, ttl, t.t1)];
    assert log'[..|log'| - 1] == w.log;
  }

  /** A sound event is stored, and logged, iff its lifetime is not zero and the mapping does not raise. */
  lemma RememberKeepsTrust(env: Env, default: int, w: Client, e: StoreEvent, t: Times)
    requires Trusted(env, default, w) && e.at == t.t1 && (e.ttl != 0 ==> SoundEvent(env, default, e))
    ensures var (w', r) := Remember(w, e.layer, e.key, e.resp, e.ttl, t);
            && Trusted(env, default, w')
            && w'.log == if e.ttl != 0 && r.Ok? then w.log + [e] else w.log
  {
    if e.ttl != 0 { RememberedAgrees(w, e.layer, e.key, e.resp, e.ttl, t); }
  }

  /** What a layer stores for a request. */
  function EventFor(env: Env, default: int, layer: Layer, q: Request, resp: Response, at: int): StoreEvent {
    StoreEvent(layer, KeyOf(env, layer, q), resp, Lifetime(env, default, layer, q, resp), at)
  }

  /** A response the Retry-After layer stores or replays is never one the 400 layer stores. */
  lemma PostLayersExclude(env: Env, default: int, q: Request, r: Response)
    requires Parse(env, default, r) != 0
    ensures Lifetime(env, default, BadRequest, q, r) == 0
  {
  }

  /** One call adds to the log at most one event, for its own network answer, under its own key. */
  ghost predicate Adds(env: Env, post: bool, q: Request, net: Response, w: Client, w': Client) {
    || w'.log == w.log
    || exists e: StoreEvent :: StoredFor(env, post, q, net, e) && w'.log == w.log + [e]
  }

  ghost predicate StoredFor(env: Env, post: bool, q: Request, net: Response, e: StoreEvent) {
    e.resp == net && e.key == KeyOf(env, e.layer, q) && (e.layer != Discovery <==> post)
  }

  lemma MissSound(env: Env, default: int, layer: Layer, w: Client, q: Request, net: Response, t: Times)
    requires Trusted(env, default, w)
    ensures var (w', o) := AfterMiss(env, default, layer, q, w, Answered(net, Network), t);
            && Trusted(env, default, w') && Adds(env, layer != Discovery, q, net, w, w')
            && (o.Answered? ==> o == Answered(net, Network))
            && (Lifetime(env, default, layer, q, net) == 0 ==> w' == w)
  {
    if Lifetime(env, default, layer, q, net) != 0 { LifetimeIsSound(env, default, layer, q, net, t.t1); }
    RememberKeepsTrust(env, default, w, EventFor(env, default, layer, q, net, t.t1), t);
  }

  lemma NetworkLayerSound(env: Env, default: int, layer: Layer, w: Client, q: Request, net: Response, t: Times)
    requires Trusted(env, default, w)
    ensures var (w', o) := NetworkLayer(env, default, layer, w, q, net, t);
            && Trusted(env, default, w') && Adds(env, layer != Discovery, q, net, w, w')
            && (o.Answered? && o.source == Network ==> o.resp == net)
            && (o.Answered? && o.source == Network && layer == RetryAfter && Parse(env, default, net) == 0 ==>
                  w'.log == w.log)
            && (o.Answered? && o.source.Replay? ==>
                  && w'.log == w.log && o.source == Replay(layer)
                  && ReplayIsRecent(w.log, layer, KeyOf(env, layer, q), o.resp, t.lookup)
                  && (layer == RetryAfter ==> Parse(env, default, o.resp) != 0))
  {
    RecallIsRecent(env, default, w, layer, q, t.lookup);
    var g := Recall(w, KeyOf(env, layer, q), t.lookup);
    if g.1.Err? { MissSound(env, default, layer, g.0, q, net, t); }
  }

  ghost predicate ReplaySound(env: Env, w: Client, q: Request, o: Outcome, inner: Times, outer: Times) {
    o.Answered? && o.source.Replay? ==>
      var layer := o.source.layer;
      && layer != Discovery
      && ReplayIsRecent(w.log, layer, KeyOf(env, layer, q), o.resp,
                        if layer == RetryAfter then inner.lookup else outer.lookup)
  }

  lemma {:induction false} PostSound(env: Env, default: int, w: Client, q: Request, net: Response, inner: Times,
                                     outer: Times)
    requires Trusted(env, default, w)
    ensures var (w', o) := PostStep(env, default, w, q, net, inner, outer);
            && Trusted(env, default, w') && Adds(env, true, q, net, w, w') && ReplaySound(env, w, q, o, inner, outer)
            && (o.Answered? && o.source.Replay? ==> w'.log == w.log)
            && (o.Answered? && o.source == Network ==> o.resp == net)
  {
    RecallIsRecent(env, default, w, BadRequest, q, outer.lookup);
    var g := Recall(w, KeyOf(env, BadRequest, q), outer.lookup);
    if g.1.Err? {
      NetworkLayerSound(env, default, RetryAfter, g.0, q, net, inner);
      var (p, o) := NetworkLayer(env, default, RetryAfter, g.0, q, net, inner);
      if o.Answered? {
        if Lifetime(env, default, BadRequest, q, o.resp) != 0 {
          LifetimeIsSound(env, default, BadRequest, q, o.resp, outer.t1);
        }
        RememberKeepsTrust(env, default, p, EventFor(env, default, BadRequest, q, o.resp, outer.t1), outer);
        if Parse(env, default, o.resp) != 0 { PostLayersExclude(env, default, q, o.resp); }
      }
    }
  }

  // ----- runs of calls -----

  datatype Call =
    | PostCall(q: Request, net: Response, inner: Times, outer: Times)
    | GetCall(q: Request, net: Response, outer: Times)

  function CallStep(env: Env, default: int, w: Client, c: Call): (Client, Outcome) {
    match c
    case PostCall(q, net, inner, outer) => PostStep(env, default, w, q, net, inner, outer)
    case GetCall(q, net, outer) => GetCallStep(env, default, w, q, net, outer)
  }

  function RunCalls(env: Env, default: int, w: Client, calls: seq<Call>): (r: (Client, seq<Outcome>))
    ensures |r.1| == |calls|
    decreases |calls|
  {
    if calls == [] then (w, []) else
      var s := CallStep(env, default, w, calls[0]);
      var rest := RunCalls(env, default, s.0, calls[1..]);
      (rest.0, [s.1] + rest.1)
  }

  /** When the call looked up the key of `layer`. */
  ghost function LookupTime(c: Call, layer: Layer): int {
    if c.PostCall? && layer == RetryAfter then c.inner.lookup else c.outer.lookup
  }

  /** The answer is the call's own, or a recent replay of what `log` holds. */
  ghost predicate AnswerSound(env: Env, log: seq<StoreEvent>, c: Call, o: Outcome) {
    o.Answered? ==>
      if o.source == Network then o.resp == c.net
      else
        && ReplayIsRecent(log, o.source.layer, KeyOf(env, o.source.layer, c.q), o.resp, LookupTime(c, o.source.layer))
        && (c.PostCall? <==> o.source.layer != Discovery)
  }

  lemma CallSound(env: Env, default: int, w: Client, c: Call)
    requires Trusted(env, default, w)
    ensures var (w', o) := CallStep(env, default, w, c);
            && Trusted(env, default, w') && Adds(env, c.PostCall?, c.q, c.net, w, w') && w.log <= w'.log
            && AnswerSound(env, w.log, c, o)
  {
    match c
    case PostCall(q, net, inner, outer) => PostSound(env, default, w, q, net, inner, outer);
    case GetCall(q, net, outer) => NetworkLayerSound(env, default, Discovery, w, q, net, outer);
  }

  lemma {:induction false} LogGrows(env: Env, default: int, w: Client, calls: seq<Call>)
    requires Trusted(env, default, w)
    ensures var w' := RunCalls(env, default, w, calls).0; w.log <= w'.log && |w'.log| <= |w.log| + |calls|
    decreases |calls|
  {
    if calls != [] {
      CallSound(env, default, w, calls[0]);
      LogGrows(env, default, CallStep(env, default, w, calls[0]).0, calls[1..]);
    }
  }

  lemma RunFromSecond(env: Env, default: int, w: Client, calls: seq<Call>, i: nat)
    requires 0 < i < |calls|
    ensures var w1 := CallStep(env, default, w, calls[0]).0;
            && RunCalls(env, default, w, calls).1[i] == RunCalls(env, default, w1, calls[1..]).1[i - 1]
            && RunCalls(env, default, w, calls[..i]).0 == RunCalls(env, default, w1, calls[1..][..i - 1]).0
  {
    assert calls[..i][1..] == calls[1..][..i - 1];
  }

  /**
   Over every run of POSTs and GETs, under any clock: an answer is this call's own network response, or a response
   stored before this call by the same layer, under the same key, less than 3600, 60 or 86400 seconds earlier.
   */
  lemma {:induction false} BoundedReplay(env: Env, default: int, w: Client, calls: seq<Call>, i: nat)
    requires Trusted(env, default, w) && i < |calls|
    ensures AnswerSound(env, RunCalls(env, default, w, calls[..i]).0.log, calls[i],
                        RunCalls(env, default, w, calls).1[i])
    decreases |calls|
  {
    CallSound(env, default, w, calls[0]);
    if i > 0 {
      RunFromSecond(env, default, w, calls, i);
      BoundedReplay(env, default, CallStep(env, default, w, calls[0]).0, calls[1..], i - 1);
    }
  }

  /** Whatever a run adds to the log was the network's answer to one of its calls, under that call's key. */
  lemma {:induction false} LogFromCalls(env: Env, default: int, w: Client, calls: seq<Call>, k: nat) returns (j: nat)
    requires Trusted(env, default, w) && |w.log| <= k
    ensures var log := RunCalls(env, default, w, calls).0.log;
            k < |log| ==> j < |calls| && StoredFor(env, calls[j].PostCall?, calls[j].q, calls[j].net, log[k])
    decreases |calls|
  {
    j := 0;
    if calls != [] {
      CallSound(env, default, w, calls[0]);
      var w1 := CallStep(env, default, w, calls[0]).0;
      LogGrows(env, default, w1, calls[1..]);
      if k >= |w1.log| {
        j := LogFromCalls(env, default, w1, calls[1..], k);
        j := j + 1;
      }
    }
  }

  lemma NewClientTrusted(env: Env, default: int)
    ensures Trusted(env, default, NewClient())
  {
  }

  function NewClient(): Client {
    Client(EmptyCache(), [])
  }

  /** Over every run of a new client, a replay is the network's answer to an earlier call with the same key. */
  lemma ReplaysAnEarlierCall(env: Env, default: int, calls: seq<Call>, i: nat, layer: Layer) returns (j: nat)
    requires i < |calls|
    ensures var o := RunCalls(env, default, NewClient(), calls).1[i];
            o.Answered? && o.source == Replay(layer) ==>
              && j < i && (calls[j].PostCall? <==> calls[i].PostCall?) && calls[j].net == o.resp
              && (calls[i].PostCall? <==> layer != Discovery)
              && KeyOf(env, layer, calls[j].q) == KeyOf(env, layer, calls[i].q)
  {
    j := 0;
    var o := RunCalls(env, default, NewClient(), calls).1[i];
    NewClientTrusted(env, default);
    BoundedReplay(env, default, NewClient(), calls, i);
    if o.Answered? && o.source == Replay(layer) {
      var log := RunCalls(env, default, NewClient(), calls[..i]).0.log;
      var k :| && 0 <= k < |log| && log[k].layer == layer && log[k].key == KeyOf(env, layer, calls[i].q)
               && log[k].resp == o.resp && 0 <= LookupTime(calls[i], layer) - log[k].at < Bound(layer);
      j := LogFromCalls(env, default, NewClient(), calls[..i], k);
    }
  }
}
