/**
 Two calls in a row from a new client, settled exactly: when the second is answered from which layer, and when it
 reaches the network.
 */
module ThrottleRepeats {
  import opened Wrappers
  import opened ExpiringMapping
  import opened IndexCoverage
  import opened MappingRuns
  import opened Throttle

  // ----- what one stored response does to a later call -----

  /** What the client holds under one key, if anything. */
  datatype Held = Nothing | Entry(key: string, resp: Response, s: Stamp)

  /** The client holds this and nothing else. */
  ghost predicate Holds(w: Client, h: Held) {
    match h
    case Nothing => w.cache.store == map[] && w.cache.timestamps == map[]
    case Entry(key, resp, s) => w.cache.store == map[key := resp] && w.cache.timestamps == map[key := s]
  }

  ghost predicate Hits(h: Held, key: string, now: int) {
    h.Entry? && h.key == key && Fresh(h.s, now)
  }

  lemma RecallHeld(w: Client, h: Held, key: string, now: int)
    requires Holds(w, h) && key != INDEX
    ensures var (w', r) := Recall(w, key, now);
            && r == (if Hits(h, key, now) then Ok(h.resp) else Err(KeyError))
            && (h.Entry? && h.key != key ==> w' == w)
            && (!Hits(h, key, now) ==> Holds(w', if h.Entry? && h.key == key then Nothing else h))
            && |w'.cache.timestamps| <= 1
  {
    if h.Entry? {
      assert |w.cache.timestamps| == 1;
      if h.key == key && !Fresh(h.s, now) {
        assert w.cache.timestamps - {key} == map[] && w.cache.store - {key} == map[];
      }
    }
  }

  /** Room for one more: with few keys held, a store does not raise and adds at most one key. */
  lemma RoomToRemember(w: Client, layer: Layer, key: string, resp: Response, ttl: int, t: Times)
    requires |w.cache.timestamps| < 1024 && key != INDEX
    ensures var (w', r) := Remember(w, layer, key, resp, ttl, t);
            r == Ok(()) && |w'.cache.timestamps| <= |w.cache.timestamps| + 1
  {
    var c := w.cache;
    MaintenanceRaisesIff(c, CAPACITY, t.t0);
    var r := SetStep(c, CAPACITY, key, resp, ttl, t.t0, t.t1).0;
    assert Uncovered(c) <= c.timestamps.Keys;
    CardinalityMonotone(Uncovered(c), c.timestamps.Keys);
    assert r.timestamps.Keys <= c.timestamps.Keys + {key};
    CardinalityMonotone(r.timestamps.Keys, c.timestamps.Keys + {key});
    assert |c.timestamps.Keys + {key}| <= |c.timestamps| + 1;
  }

  lemma FirstStore(w: Client, layer: Layer, key: string, resp: Response, ttl: int, t: Times)
    requires w.cache == EmptyCache() && key != INDEX
    ensures var (w', r) := Remember(w, layer, key, resp, ttl, t);
            && r == Ok(()) && (ttl == 0 ==> w' == w)
            && (ttl != 0 ==> Holds(w', Entry(key, resp, Stamp(t.t1 + ttl, t.t1))))
  {
    assert Maintain(w.cache, CAPACITY, t.t0) == (w.cache, Ok(()));
  }

  // ----- one layer: a GET, or the inner layer of a POST -----

  /** What a layer holds once it has answered its first call. */
  ghost function KeptBy(env: Env, default: int, layer: Layer, q: Request, net: Response, t: Times): Held {
    var ttl := Lifetime(env, default, layer, q, net);
    if ttl == 0 then Nothing else Entry(KeyOf(env, layer, q), net, Stamp(t.t1 + ttl, t.t1))
  }

  lemma FirstCall(env: Env, default: int, layer: Layer, q: Request, net: Response, t: Times)
    ensures var (w, o) := NetworkLayer(env, default, layer, NewClient(), q, net, t);
            && o == Answered(net, Network) && Holds(w, KeptBy(env, default, layer, q, net, t))
            && (Lifetime(env, default, layer, q, net) == 0 ==> w == NewClient())
  {
    KeyMark(env, layer, q);
    FirstStore(NewClient(), layer, KeyOf(env, layer, q), net, Lifetime(env, default, layer, q, net), t);
  }

  lemma LaterCall(env: Env, default: int, layer: Layer, w: Client, h: Held, q: Request, net: Response, t: Times)
    requires Holds(w, h)
    ensures var (w', o) := NetworkLayer(env, default, layer, w, q, net, t);
            && o == (if Hits(h, KeyOf(env, layer, q), t.lookup) then Answered(h.resp, Replay(layer))
                     else Answered(net, Network))
            && |w'.cache.timestamps| <= 2
  {
    var key := KeyOf(env, layer, q);
    KeyMark(env, layer, q);
    RecallHeld(w, h, key, t.lookup);
    RoomToRemember(Recall(w, key, t.lookup).0, layer, key, net, Lifetime(env, default, layer, q, net), t);
  }

  /**
   Two GETs: the second is answered from the cache iff the first answer was kept, the two share their key, and the
   second comes within 86400 seconds of the first; otherwise it gets the network's own answer.
   */
  lemma GetTwice(env: Env, default: int, a: Request, b: Request, net: Response, net': Response, t: Times, t': Times)
    ensures var (w, o) := GetCallStep(env, default, NewClient(), a, net, t);
            && o == Answered(net, Network)
            && GetCallStep(env, default, w, b, net', t').1 ==
               if && Lifetime(env, default, Discovery, a, net) != 0
                  && KeyOf(env, Discovery, a) == KeyOf(env, Discovery, b) && 0 <= t'.lookup - t.t1 < 86400
               then Answered(net, Replay(Discovery)) else Answered(net', Network)
  {
    FirstCall(env, default, Discovery, a, net, t);
    var w := GetCallStep(env, default, NewClient(), a, net, t).0;
    LaterCall(env, default, Discovery, w, KeptBy(env, default, Discovery, a, net, t), b, net', t');
  }

  // ----- a POST, through both layers -----

  /** What the two layers hold after a first POST: at most one of them keeps the answer. */
  ghost function KeptByPost(env: Env, default: int, q: Request, net: Response, inner: Times, outer: Times): Held {
    if Parse(env, default, net) != 0 then KeptBy(env, default, RetryAfter, q, net, inner)
    else KeptBy(env, default, BadRequest, q, net, outer)
  }

  lemma FirstPost(env: Env, default: int, q: Request, net: Response, inner: Times, outer: Times)
    ensures var (w, o) := PostStep(env, default, NewClient(), q, net, inner, outer);
            o == Answered(net, Network) && Holds(w, KeptByPost(env, default, q, net, inner, outer))
  {
    KeyMark(env, BadRequest, q);
    FirstCall(env, default, RetryAfter, q, net, inner);
    var w := NetworkLayer(env, default, RetryAfter, NewClient(), q, net, inner).0;
    if Parse(env, default, net) != 0 {
      PostLayersExclude(env, default, q, net);
    } else {
      FirstStore(w, BadRequest, KeyOf(env, BadRequest, q), net, Lifetime(env, default, BadRequest, q, net), outer);
    }
  }

  lemma LaterPost(env: Env, default: int, w: Client, h: Held, q: Request, net: Response, inner: Times, outer: Times)
    requires Holds(w, h) && (h.Entry? && h.key == KeyOf(env, RetryAfter, q) ==> Parse(env, default, h.resp) != 0)
    ensures PostStep(env, default, w, q, net, inner, outer).1 ==
            if Hits(h, KeyOf(env, BadRequest, q), outer.lookup) then Answered(h.resp, Replay(BadRequest))
            else if Hits(h, KeyOf(env, RetryAfter, q), inner.lookup) then Answered(h.resp, Replay(RetryAfter))
            else Answered(net, Network)
  {
    var key := KeyOf(env, BadRequest, q);
    KeyMark(env, BadRequest, q);
    KeysNeverCollide(env, RetryAfter, BadRequest, q, q);
    RecallHeld(w, h, key, outer.lookup);
    if !Hits(h, key, outer.lookup) {
      var g := Recall(w, key, outer.lookup).0;
      var h' := if h.Entry? && h.key == key then Nothing else h;
      LaterCall(env, default, RetryAfter, g, h', q, net, inner);
      var (p, o) := NetworkLayer(env, default, RetryAfter, g, q, net, inner);
      RoomToRemember(p, BadRequest, key, o.resp, Lifetime(env, default, BadRequest, q, o.resp), outer);
    }
  }

  /**
   Two POSTs, settled exactly. A first answer to be retried later is replayed by the Retry-After layer to requests that
   share its throttling key, for its lifetime; another kept answer by the 400 layer to requests that share its 400 key,
   for 60 seconds; everything else reaches the network.
   */
  lemma PostTwice(env: Env, default: int, a: Request, b: Request, net: Response, net': Response,
                  inner: Times, outer: Times, inner': Times, outer': Times)
    ensures var (w, o) := PostStep(env, default, NewClient(), a, net, inner, outer);
            && o == Answered(net, Network)
            && PostStep(env, default, w, b, net', inner', outer').1 ==
               if && Parse(env, default, net) != 0 && KeyOf(env, RetryAfter, a) == KeyOf(env, RetryAfter, b)
                  && 0 <= inner'.lookup - inner.t1 < Parse(env, default, net)
               then Answered(net, Replay(RetryAfter))
               else if && Parse(env, default, net) == 0 && Lifetime(env, default, BadRequest, a, net) != 0
                       && KeyOf(env, BadRequest, a) == KeyOf(env, BadRequest, b) && 0 <= outer'.lookup - outer.t1 < 60
               then Answered(net, Replay(BadRequest))
               else Answered(net', Network)
  {
    FirstPost(env, default, a, net, inner, outer);
    var w := PostStep(env, default, NewClient(), a, net, inner, outer).0;
    KeysNeverCollide(env, RetryAfter, BadRequest, a, b);
    KeysNeverCollide(env, RetryAfter, BadRequest, b, a);
    LaterPost(env, default, w, KeptByPost(env, default, a, net, inner, outer), b, net', inner', outer');
  }
}
