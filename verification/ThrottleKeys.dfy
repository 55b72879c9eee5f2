/**
 What the keys of the three layers tell apart, and how long each layer keeps a response. The hash is a hexadecimal
 digest, so all its values have the same length; that two inputs do not collide is assumed only of the inputs at hand.
 */
module ThrottleKeys {
  import opened Wrappers
  import opened Strings
  import opened Throttle

  /** All hashes have one length, as hexadecimal digests do. */
  ghost predicate FixedLength(env: Env) {
    forall x, y :: |env.hash(x)| == |env.hash(y)|
  }

  ghost predicate NoCollision(env: Env, x: Option<string>, y: Option<string>) {
    env.hash(x) == env.hash(y) ==> x == y
  }

  lemma SameTail(a: string, b: string, x: string, y: string)
    requires a + x == b + y && |x| == |y|
    ensures a == b && x == y
  {
    assert |a| == |b|;
    assert a == (a + x)[..|a|] && b == (b + y)[..|b|];
    assert x == (a + x)[|a|..] && y == (b + y)[|b|..];
  }

  lemma SameHead(x: string, y: string, a: string, b: string)
    requires x + a == y + b && |x| == |y|
    ensures x == y && a == b
  {
    assert x == (x + a)[..|x|] && y == (y + b)[..|y|];
    assert a == (x + a)[|x|..] && b == (y + b)[|y|..];
  }

  /** The key of a layer whose key is a url and a hash between fixed texts. */
  lemma UrlAndHash(head: string, middle: string, tail: string, u: string, v: string, h: string, g: string)
    requires |h| == |g|
    ensures head + u + middle + h + tail == head + v + middle + g + tail <==> u == v && h == g
  {
    if head + u + middle + h + tail == head + v + middle + g + tail {
      SameTail(head + u + middle + h, head + v + middle + g, tail, tail);
      SameTail(head + u + middle, head + v + middle, h, g);
      SameTail(head + u, head + v, middle, middle);
      SameHead(head, head, u, v);
    }
  }

  /**
   At the discovery layer and at the 400 layer, two requests share a key iff they have the same url and the same digest
   of their parameters and data.
   */
  lemma DigestKeyIff(env: Env, layer: Layer, a: Request, b: Request)
    requires FixedLength(env) && layer != RetryAfter && NoCollision(env, Some(a.digest), Some(b.digest))
    ensures KeyOf(env, layer, a) == KeyOf(env, layer, b) <==> a.url == b.url && a.digest == b.digest
  {
    var h, g := env.hash(Some(a.digest)), env.hash(Some(b.digest));
    assert |h| == |g|;
    if layer == BadRequest {
      UrlAndHash("POST ", " hash=", " 400", a.url, b.url, h, g);
    } else {
      UrlAndHash("GET ", " hash=", " 2xx", a.url, b.url, h, g);
    }
  }

  /** Texts that hold no space end at the first space behind them. */
  lemma FirstWord(u: string, v: string, x: string, y: string)
    requires Free(u, {' '}) && Free(v, {' '}) && u + " " + x == v + " " + y
    ensures u == v && x == y
  {
    var s, t := u + " " + x, v + " " + y;
    assert s[|u|] == ' ' && t[|v|] == ' ';
    assert forall k :: 0 <= k < |u| ==> s[k] == u[k];
    assert forall k :: 0 <= k < |v| ==> t[k] == v[k];
    assert |u| == |v|;
    SameHead(u + " ", v + " ", x, y);
    SameTail(u, v, " ", " ");
  }

  function ClientId(q: Request): string {
    Show(FieldOf(q.data, "client_id", None))
  }

  function Scope(q: Request): string {
    Show(FieldOf(q.data, "scope", None))
  }

  lemma ThreeParts(u: string, c: string, s: string, v: string, d: string, t: string)
    requires Free(u, {' '}) && Free(v, {' '}) && Free(c, {' '}) && Free(d, {' '})
    requires "POST " + u + " client_id=" + c + " scope=" + s == "POST " + v + " client_id=" + d + " scope=" + t
    ensures u == v && c == d && s == t
  {
    Regrouped(u, c, s);
    Regrouped(v, d, t);
    SameHead("POST ", "POST ", u + " " + ("client_id=" + (c + " " + ("scope=" + s))),
             v + " " + ("client_id=" + (d + " " + ("scope=" + t))));
    FirstWord(u, v, "client_id=" + (c + " " + ("scope=" + s)), "client_id=" + (d + " " + ("scope=" + t)));
    SameHead("client_id=", "client_id=", c + " " + ("scope=" + s), d + " " + ("scope=" + t));
    FirstWord(c, d, "scope=" + s, "scope=" + t);
    SameHead("scope=", "scope=", s, t);
  }

  lemma Regrouped(u: string, c: string, s: string)
    ensures "POST " + u + " client_id=" + c + " scope=" + s
            == "POST " + (u + " " + ("client_id=" + (c + " " + ("scope=" + s))))
  {
    assert " client_id=" == " " + "client_id=" && " scope=" == " " + "scope=";
    assert "POST " + u + (" " + "client_id=") + c + (" " + "scope=") + s
           == "POST " + (u + " " + ("client_id=" + (c + " " + ("scope=" + s))));
  }

  /**
   At the Retry-After layer, two requests whose url and client id hold no space share a key iff they agree in url,
   client id, scope and account.
   */
  lemma ThrottlingKeyIff(env: Env, a: Request, b: Request)
    requires FixedLength(env) && NoCollision(env, Account(a.data), Account(b.data))
    requires Free(a.url, {' '}) && Free(b.url, {' '}) && Free(ClientId(a), {' '}) && Free(ClientId(b), {' '})
    ensures KeyOf(env, RetryAfter, a) == KeyOf(env, RetryAfter, b) <==>
            a.url == b.url && ClientId(a) == ClientId(b) && Scope(a) == Scope(b) && Account(a.data) == Account(b.data)
    ensures Account(a.data) ==
            if a.data.Form? && "refresh_token" in a.data.fields then Some(a.data.fields["refresh_token"]) else None
  {
    var h, g, tail := env.hash(Account(a.data)), env.hash(Account(b.data)), " 429/5xx/Retry-After";
    var x := "POST " + a.url + " client_id=" + ClientId(a) + " scope=" + Scope(a);
    var y := "POST " + b.url + " client_id=" + ClientId(b) + " scope=" + Scope(b);
    assert |h| == |g|;
    if KeyOf(env, RetryAfter, a) == KeyOf(env, RetryAfter, b) {
      SameTail(x + " hash=" + h, y + " hash=" + g, tail, tail);
      SameTail(x + " hash=", y + " hash=", h, g);
      SameTail(x, y, " hash=", " hash=");
      ThreeParts(a.url, ClientId(a), Scope(a), b.url, ClientId(b), Scope(b));
    }
  }

  /** With a space in them, a url and a client id can run together: different pairs give one key. */
  lemma SpacesRunTogether(env: Env, u: string, c: string, d: string)
    ensures var a := Request(u, Form(map["client_id" := c + " client_id=" + d]), "");
            var b := Request(u + " client_id=" + c, Form(map["client_id" := d]), "");
            && a.url != b.url && ClientId(a) != ClientId(b)
            && KeyOf(env, RetryAfter, a) == KeyOf(env, RetryAfter, b)
  {
    var m := " client_id=";
    assert "POST " + u + m + (c + m + d) == "POST " + (u + m + c) + m + d;
  }

  /**
   Over every run of a new client: a replay of the discovery or the 400 layer answers an earlier call to the same url
   with the same parameters and data.
   */
  lemma ReplayAnswersSameRequest(env: Env, default: int, calls: seq<Call>, i: nat, layer: Layer)
    requires i < |calls| && layer != RetryAfter && FixedLength(env)
    requires forall j :: 0 <= j < i ==> NoCollision(env, Some(calls[j].q.digest), Some(calls[i].q.digest))
    ensures var o := RunCalls(env, default, NewClient(), calls).1[i];
            o.Answered? && o.source == Replay(layer) ==>
              exists j :: && 0 <= j < i && calls[j].net == o.resp && (calls[j].PostCall? <==> calls[i].PostCall?)
                          && calls[j].q.url == calls[i].q.url && calls[j].q.digest == calls[i].q.digest
  {
    var o := RunCalls(env, default, NewClient(), calls).1[i];
    var j := ReplaysAnEarlierCall(env, default, calls, i, layer);
    if o.Answered? && o.source == Replay(layer) {
      DigestKeyIff(env, layer, calls[j].q, calls[i].q);
    }
  }

  // ----- how long a response is kept -----

  ghost predicate IsRetryAfter(env: Env, header: (string, string)) {
    env.lower(header.0) == "retry-after"
  }

  /** The header at `j` is the last one with that name. */
  ghost predicate LastRetryAfter(env: Env, headers: seq<(string, string)>, j: nat)
    requires j < |headers|
  {
    IsRetryAfter(env, headers[j]) && forall k :: j < k < |headers| ==> !IsRetryAfter(env, headers[k])
  }

  ghost predicate NoRetryAfter(env: Env, headers: seq<(string, string)>) {
    forall j :: 0 <= j < |headers| ==> !IsRetryAfter(env, headers[j])
  }

  lemma {:induction false} RetryHeaderIs(env: Env, headers: seq<(string, string)>)
    ensures RetryHeader(env, headers).None? <==> NoRetryAfter(env, headers)
    ensures forall j {:trigger LastRetryAfter(env, headers, j)} ::
              0 <= j < |headers| && LastRetryAfter(env, headers, j) ==> RetryHeader(env, headers) == Some(headers[j].1)
  {
    if headers != [] {
      var n := |headers| - 1;
      var rest := headers[..n];
      RetryHeaderIs(env, rest);
      assert headers == rest + [headers[n]];
      if !IsRetryAfter(env, headers[n]) {
        forall j | 0 <= j < |headers| && LastRetryAfter(env, headers, j)
          ensures RetryHeader(env, headers) == Some(headers[j].1)
        {
          assert LastRetryAfter(env, rest, j);
        }
        if NoRetryAfter(env, rest) {
          assert forall j :: 0 <= j < n ==> headers[j] == rest[j];
        }
      } else {
        assert !NoRetryAfter(env, headers);
      }
    }
  }

  /** At most an hour. */
  function Capped(seconds: int): int {
    if seconds > 3600 then 3600 else seconds
  }

  /**
   The lifetime at the Retry-After layer, for every response: nothing for a status other than 429 and 5xx without the
   header; with the header its number, or the default where it is no number; without it the default; an hour at most.
   */
  lemma RetryLifetimeIs(env: Env, default: int, q: Request, r: Response)
    ensures NoRetryAfter(env, r.headers) ==>
              Lifetime(env, default, RetryAfter, q, r) ==
              if r.status == 429 || r.status >= 500 then Capped(default) else 0
    ensures forall j {:trigger LastRetryAfter(env, r.headers, j)} ::
              0 <= j < |r.headers| && LastRetryAfter(env, r.headers, j) ==>
                Lifetime(env, default, RetryAfter, q, r) ==
                match env.parseInt(r.headers[j].1)
                case Some(n) => Capped(n)
                case None => Capped(default)
  {
    RetryHeaderIs(env, r.headers);
  }

  /** The lifetimes at the other two layers, for every response. */
  lemma OtherLifetimesAre(env: Env, default: int, q: Request, r: Response)
    ensures Lifetime(env, default, Discovery, q, r) == if r.status / 100 == 2 then 86400 else 0
    ensures Lifetime(env, default, BadRequest, q, r) ==
            if r.status == 400 && NoRetryAfter(env, r.headers)
               && !(q.data.Form? && "grant_type" in q.data.fields
                    && q.data.fields["grant_type"] == "urn:ietf:params:oauth:grant-type:device_code")
            then 60 else 0
  {
    RetryHeaderIs(env, r.headers);
  }
}
