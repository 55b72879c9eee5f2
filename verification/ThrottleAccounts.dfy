/**
 The account part of the throttling key: which users share a throttled response, and which are kept apart. The comments
 in the source describe a key per account, from the refresh token, else the auth code, else the user name; the code
 reads only the refresh token of form data.
 */
module ThrottleAccounts {
  import opened Wrappers
  import opened Strings
  import opened Throttle
  import opened ThrottleKeys
  import opened ThrottleRepeats

  /** Two form requests to the same endpoint, by the same client, for the same scope. */
  ghost predicate SameEndpoint(a: Request, b: Request) {
    && a.url == b.url && a.data.Form? && b.data.Form?
    && FieldOf(a.data, "client_id", None) == FieldOf(b.data, "client_id", None)
    && FieldOf(a.data, "scope", None) == FieldOf(b.data, "scope", None)
  }

  ghost predicate SameToken(a: Request, b: Request) {
    FieldOf(a.data, "refresh_token", None) == FieldOf(b.data, "refresh_token", None)
  }

  /**
   For form data the auth code and the user name are never consulted. At one endpoint two form requests share the
   throttling key iff their refresh tokens are the same, or both have none, whatever their codes and user names.
   */
  lemma SameThrottlingKeyIff(env: Env, a: Request, b: Request)
    requires SameEndpoint(a, b) && NoCollision(env, Account(a.data), Account(b.data))
    ensures KeyOf(env, RetryAfter, a) == KeyOf(env, RetryAfter, b) <==> SameToken(a, b)
  {
    var prefix := "POST " + a.url + " client_id=" + Show(FieldOf(a.data, "client_id", None)) + " scope="
                  + Show(FieldOf(a.data, "scope", None)) + " hash=";
    if KeyOf(env, RetryAfter, a) == KeyOf(env, RetryAfter, b) {
      var h, g, tail := env.hash(Account(a.data)), env.hash(Account(b.data)), " 429/5xx/Retry-After";
      SameTail(prefix + h, prefix + g, tail, tail);
      SameHead(prefix, prefix, h, g);
    }
  }

  /**
   Accounts are kept apart over every run: a response that the Retry-After layer replays was the network's answer to an
   earlier POST; to the same endpoint that POST carried the same refresh token, and where urls and client ids hold no
   space it went to the same url, for the same client, scope and account.
   */
  lemma ReplayKeepsAccountsApart(env: Env, default: int, calls: seq<Call>, i: nat)
    requires i < |calls|
    requires forall j :: 0 <= j < i ==> NoCollision(env, Account(calls[j].q.data), Account(calls[i].q.data))
    ensures var o := RunCalls(env, default, NewClient(), calls).1[i];
            o.Answered? && o.source == Replay(RetryAfter) ==>
              exists j :: && 0 <= j < i && calls[j].PostCall? && calls[j].net == o.resp
                          && (SameEndpoint(calls[j].q, calls[i].q) ==> SameToken(calls[j].q, calls[i].q))
                          && (FixedLength(env) && Spaceless(calls[j].q) && Spaceless(calls[i].q) ==>
                                SameUse(calls[j].q, calls[i].q))
  {
    var o := RunCalls(env, default, NewClient(), calls).1[i];
    var j := ReplaysAnEarlierCall(env, default, calls, i, RetryAfter);
    if o.Answered? && o.source == Replay(RetryAfter) {
      if SameEndpoint(calls[j].q, calls[i].q) { SameThrottlingKeyIff(env, calls[j].q, calls[i].q); }
      if FixedLength(env) && Spaceless(calls[j].q) && Spaceless(calls[i].q) {
        ThrottlingKeyIff(env, calls[j].q, calls[i].q);
      }
    }
  }

  predicate Spaceless(q: Request) {
    Free(q.url, {' '}) && Free(ClientId(q), {' '})
  }

  /** The same url, client, scope and account. */
  predicate SameUse(a: Request, b: Request) {
    a.url == b.url && ClientId(a) == ClientId(b) && Scope(a) == Scope(b) && Account(a.data) == Account(b.data)
  }

  /** The second POST comes within the lifetime of the throttling response to the first. */
  ghost predicate WhileThrottled(env: Env, default: int, net: Response, inner: Times, inner': Times) {
    0 <= inner'.lookup - inner.t1 < Parse(env, default, net)
  }

  /**
   While one user is throttled at an endpoint, another user's POST there gets the first user's response iff the two
   have the same refresh token, or both have none; otherwise it gets the network's own answer.
   */
  lemma {:induction false} ThrottlingIgnoresTheUser(
    env: Env, default: int, a: Request, b: Request, net: Response, net': Response,
    inner: Times, outer: Times, inner': Times, outer': Times)
    requires SameEndpoint(a, b) && NoCollision(env, Account(a.data), Account(b.data))
    requires WhileThrottled(env, default, net, inner, inner')
    ensures var (w, o) := PostStep(env, default, NewClient(), a, net, inner, outer);
            && o == Answered(net, Network)
            && PostStep(env, default, w, b, net', inner', outer').1 ==
               if SameToken(a, b) then Answered(net, Replay(RetryAfter)) else Answered(net', Network)
  {
    SameThrottlingKeyIff(env, a, b);
    PostTwice(env, default, a, b, net, net', inner, outer, inner', outer');
  }
}
