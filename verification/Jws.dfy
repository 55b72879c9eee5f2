/**
 JWS compact serialization: `PyJWS` of `lib/jwt/api_jws.py`. JSON and the signature algorithms are given; a token is
 a byte string.
 */
module Jws {
  import opened Wrappers
  import Codecs = ByteCodecs

  type Bytes = Codecs.Bytes

  const DOT: Codecs.Byte := 46

  /** The JSON values a header may hold, as far as the code looks at them. */
  datatype Json = Null | Bool(b: bool) | Str(s: string) | Other(n: int)

  type Header = map<string, Json>

  datatype JsonCodec = JsonCodec(dumps: (Header, bool) -> Bytes, loads: Bytes -> Option<Header>)

  datatype Algorithm = Algorithm(
    prepare: Bytes -> Option<Bytes>, sign: (Bytes, Bytes) -> Bytes, verify: (Bytes, Bytes, Bytes) -> bool)

  datatype Error =
    | DecodeError | InvalidAlgorithmError | InvalidSignatureError | InvalidTokenError | NotImplementedError
    | KeyRejected | AlreadyRegistered | KeyError

  datatype Decoded = Decoded(payload: Bytes, header: Header, signature: Bytes)

  predicate Truthy(j: Json) {
    match j
    case Null => false
    case Bool(b) => b
    case Str(s) => s != ""
    case Other(n) => n != 0
  }

  // ----- the token -----

  /** The position of the first dot, or the length. */
  function FirstDot(b: Bytes): (i: nat)
    ensures i <= |b| && (i < |b| ==> b[i] == DOT) && forall j :: 0 <= j < i ==> b[j] != DOT
  {
    if b == [] || b[0] == DOT then 0 else 1 + FirstDot(b[1..])
  }

  /** The position of the last dot, or the length. */
  function LastDot(b: Bytes): (i: nat)
    ensures i <= |b| && (i < |b| ==> b[i] == DOT && forall j :: i < j < |b| ==> b[j] != DOT)
    ensures i == |b| ==> forall j :: 0 <= j < |b| ==> b[j] != DOT
  {
    if b == [] then 0
    else if b[|b| - 1] == DOT then |b| - 1
    else if LastDot(b[..|b| - 1]) == |b| - 1 then |b| else LastDot(b[..|b| - 1])
  }

  function Dotted(a: Bytes, b: Bytes): Bytes {
    a + [DOT] + b
  }

  /** The algorithm name that signs: the header's when it is truthy, else the argument. */
  function SigningName(algorithm: Option<string>, headers: Header): Json {
    if "alg" in headers && Truthy(headers["alg"]) then headers["alg"]
    else Str(if algorithm.Some? then algorithm.value else "none")
  }

  function IsDetached(headers: Header, detached: bool): bool {
    detached || ("b64" in headers && headers["b64"] == Bool(false))
  }

  /** The header that is written: a falsy `typ` and a redundant `b64` go, the caller's values win. */
  function FinalHeader(algorithm: Option<string>, headers: Header, detached: bool): Header {
    var h := map["typ" := Str("JWT"), "alg" := SigningName(algorithm, headers)] + headers;
    var t := if Truthy(h["typ"]) then h else h - {"typ"};
    if IsDetached(headers, detached) then t["b64" := Bool(false)] else t - {"b64"}
  }

  function Lookup(algorithms: map<string, Algorithm>, name: Json): Option<Algorithm> {
    if name.Str? && name.s in algorithms then Some(algorithms[name.s]) else None
  }

  function SigningInput(json: JsonCodec, h: Header, payload: Bytes, detached: bool, sort: bool): Bytes {
    Dotted(Codecs.Encode(json.dumps(h, sort)), if detached then payload else Codecs.Encode(payload))
  }

  function EncodeToken(json: JsonCodec, algorithms: map<string, Algorithm>, payload: Bytes, key: Bytes,
                       algorithm: Option<string>, headers: Header, detached: bool, sort: bool): Result<Bytes, Error>
  {
    var alg := Lookup(algorithms, SigningName(algorithm, headers));
    if "kid" in headers && !headers["kid"].Str? then Err(InvalidTokenError)
    else if alg.None? then Err(NotImplementedError)
    else if alg.value.prepare(key).None? then Err(KeyRejected)
    else
      var h, d := FinalHeader(algorithm, headers, detached), IsDetached(headers, detached);
      var signature := alg.value.sign(SigningInput(json, h, payload, d, sort), alg.value.prepare(key).value);
      var head := Codecs.Encode(json.dumps(h, sort));
      Ok(Dotted(Dotted(head, if d then [] else Codecs.Encode(payload)), Codecs.Encode(signature)))
  }

  datatype Loaded = Loaded(payload: Bytes, signingInput: Bytes, header: Header, signature: Bytes)

  datatype Segments = Segments(head: Bytes, middle: Bytes, crypto: Bytes)

  /** The token cut at its last dot, and what stands before it at its first. */
  function CutAt(token: Bytes): Option<Segments> {
    var last := LastDot(token);
    if last == |token| then None
    else
      var first := FirstDot(token[..last]);
      if first == last then None
      else Some(Segments(token[..first], token[first + 1..last], token[last + 1..]))
  }

  /** `_load`; the signing input is everything before the last dot. */
  function Load(json: JsonCodec, token: Bytes): Result<Loaded, Error> {
    var g := CutAt(token);
    if g.None? then Err(DecodeError)
    else
      var head := Codecs.Decode(g.value.head);
      var payload, signature := Codecs.Decode(g.value.middle), Codecs.Decode(g.value.crypto);
      if head.Err? || json.loads(head.value).None? || payload.Err? || signature.Err? then Err(DecodeError)
      else Ok(Loaded(payload.value, token[..LastDot(token)], json.loads(head.value).value, signature.value))
  }

  /** `_verify_signature`. */
  function Verify(algorithms: map<string, Algorithm>, input: Bytes, header: Header, signature: Bytes, key: Bytes,
                  allowed: seq<string>): Result<(), Error>
  {
    if "alg" !in header || !Truthy(header["alg"]) || !(header["alg"].Str? && header["alg"].s in allowed)
       || Lookup(algorithms, header["alg"]).None?
    then Err(InvalidAlgorithmError)
    else
      var alg := Lookup(algorithms, header["alg"]).value;
      if alg.prepare(key).None? then Err(KeyRejected)
      else if alg.verify(input, alg.prepare(key).value, signature) then Ok(()) else Err(InvalidSignatureError)
  }

  predicate Detached(h: Header) {
    "b64" in h && h["b64"] == Bool(false)
  }

  /** The payload and the signing input to go on with: a detached payload is the caller's. */
  function Attach(l: Loaded, detachedPayload: Option<Bytes>): Result<Loaded, Error> {
    if !Detached(l.header) then Ok(l)
    else if detachedPayload.None? then Err(DecodeError)
    else
      var payload := detachedPayload.value;
      Ok(l.(payload := payload, signingInput := Dotted(l.signingInput[..LastDot(l.signingInput)], payload)))
  }

  /** The answer for a loaded token. */
  function Answer(algorithms: map<string, Algorithm>, l: Loaded, key: Bytes, allowed: seq<string>, verify: bool)
    : Result<Decoded, Error>
  {
    var v := if verify then Verify(algorithms, l.signingInput, l.header, l.signature, key, allowed) else Ok(());
    if v.Err? then Err(v.error) else Ok(Decoded(l.payload, l.header, l.signature))
  }

  function DecodeToken(json: JsonCodec, algorithms: map<string, Algorithm>, token: Bytes, key: Bytes,
                       allowed: seq<string>, verify: bool, detachedPayload: Option<Bytes>): Result<Decoded, Error>
  {
    if verify && allowed == [] then Err(DecodeError)
    else
      var l := Load(json, token);
      if l.Err? then Err(l.error)
      else
        var a := Attach(l.value, detachedPayload);
        if a.Err? then Err(a.error) else Answer(algorithms, a.value, key, allowed, verify)
  }

  class PyJWS {
    const json: JsonCodec
    const verifySignature: bool
    var algorithms: map<string, Algorithm>
    var validAlgs: set<string>

    /** Every name in the table is allowed; `__init__` may allow names the table lacks. */
    ghost predicate Valid()
      reads this
    {
      algorithms.Keys <= validAlgs
    }

    constructor (json: JsonCodec, defaults: map<string, Algorithm>, only: Option<set<string>>, verify: bool)
      ensures Valid() && this.json == json && verifySignature == verify
      ensures validAlgs == if only.Some? then only.value else defaults.Keys
      ensures algorithms.Keys == defaults.Keys * validAlgs
      ensures forall a :: a in algorithms ==> algorithms[a] == defaults[a]
    {
      this.json, verifySignature := json, verify;
      validAlgs := if only.Some? then only.value else defaults.Keys;
      algorithms := map a | a in defaults && (only.None? || a in only.value) :: defaults[a];
    }

    method RegisterAlgorithm(id: string, alg: Algorithm) returns (r: Result<(), Error>)
      requires Valid()
      modifies this
      ensures Valid() && (r.Ok? <==> id !in old(algorithms))
      ensures r.Ok? ==> algorithms == old(algorithms)[id := alg] && validAlgs == old(validAlgs) + {id}
      ensures r.Err? ==> r == Err(AlreadyRegistered) && algorithms == old(algorithms) && validAlgs == old(validAlgs)
    {
      if id in algorithms {
        return Err(AlreadyRegistered);
      }
      algorithms := algorithms[id := alg];
      validAlgs := validAlgs + {id};
      r := Ok(());
    }

    method UnregisterAlgorithm(id: string) returns (r: Result<(), Error>)
      requires Valid()
      modifies this
      ensures Valid() && (r.Ok? <==> id in old(algorithms))
      ensures r.Ok? ==> algorithms == old(algorithms) - {id} && validAlgs == old(validAlgs) - {id}
      ensures r.Err? ==> r == Err(KeyError) && algorithms == old(algorithms) && validAlgs == old(validAlgs)
    {
      if id !in algorithms {
        return Err(KeyError);
      }
      algorithms := algorithms - {id};
      validAlgs := validAlgs - {id};
      r := Ok(());
    }

    /** The header to write, the algorithm to sign with, and whether the payload is detached. */
    method BuildHeader(algorithm: Option<string>, headers: Header, detached: bool)
      returns (r: Result<Header, Error>, name: Json, isPayloadDetached: bool)
      ensures name == SigningName(algorithm, headers) && isPayloadDetached == IsDetached(headers, detached)
      ensures r == if "kid" in headers && !headers["kid"].Str? then Err(InvalidTokenError)
                   else Ok(FinalHeader(algorithm, headers, detached))
    {
      name := Str(if algorithm.Some? then algorithm.value else "none");
      isPayloadDetached := detached;
      if "alg" in headers && Truthy(headers["alg"]) {
        name := headers["alg"];
      }
      if "b64" in headers && headers["b64"] == Bool(false) {
        isPayloadDetached := true;
      }
      var header: Header := map["typ" := Str("JWT"), "alg" := name];
      if "kid" in headers && !headers["kid"].Str? {
        return Err(InvalidTokenError), name, isPayloadDetached;
      }
      header := header + headers;
      if !Truthy(header["typ"]) {
        header := header - {"typ"};
      }
      if isPayloadDetached {
        header := header["b64" := Bool(false)];
      } else {
        header := header - {"b64"};
      }
      r := Ok(header);
    }

    method Encode(payload: Bytes, key: Bytes, algorithm: Option<string>, headers: Header, detached: bool, sort: bool)
      returns (r: Result<Bytes, Error>)
      ensures r == EncodeToken(json, algorithms, payload, key, algorithm, headers, detached, sort)
    {
      var header, name, isPayloadDetached := BuildHeader(algorithm, headers, detached);
      if header.Err? {
        return Err(header.error);
      }
      var segments := [Codecs.Encode(json.dumps(header.value, sort))];
      segments := segments + [if isPayloadDetached then payload else Codecs.Encode(payload)];
      var signingInput := Dotted(segments[0], segments[1]);
      var alg := Lookup(algorithms, name);
      if alg.None? {
        return Err(NotImplementedError);
      }
      var prepared := alg.value.prepare(key);
      if prepared.None? {
        return Err(KeyRejected);
      }
      segments := segments + [Codecs.Encode(alg.value.sign(signingInput, prepared.value))];
      if isPayloadDetached {
        segments := segments[1 := []];
      }
      r := Ok(Dotted(Dotted(segments[0], segments[1]), segments[2]));
    }

    method DecodeComplete(token: Bytes, key: Bytes, allowed: seq<string>, verify: Option<bool>,
                          detachedPayload: Option<Bytes>) returns (r: Result<Decoded, Error>)
      ensures r == DecodeToken(json, algorithms, token, key, allowed,
                               if verify.Some? then verify.value else verifySignature, detachedPayload)
      ensures forall d :: r == Ok(d) <==>
                Authentic(json, algorithms, token, key, allowed,
                          if verify.Some? then verify.value else verifySignature, detachedPayload, d)
    {
      var verifying := if verify.Some? then verify.value else verifySignature;
      forall d: Decoded {
        DecodesIffAuthentic(json, algorithms, token, key, allowed, verifying, detachedPayload, d);
      }
      if verifying && allowed == [] {
        return Err(DecodeError);
      }
      var loaded := Load(json, token);
      if loaded.Err? {
        return Err(loaded.error);
      }
      var payload, signingInput := loaded.value.payload, loaded.value.signingInput;
      var header := loaded.value.header;
      if "b64" in header && header["b64"] == Bool(false) {
        if detachedPayload.None? {
          return Err(DecodeError);
        }
        payload := detachedPayload.value;
        signingInput := Dotted(signingInput[..LastDot(signingInput)], payload);
      }
      if verifying {
        var v := Verify(algorithms, signingInput, header, loaded.value.signature, key, allowed);
        if v.Err? {
          return Err(v.error);
        }
      }
      r := Ok(Decoded(payload, header, loaded.value.signature));
    }
  }

  // ----- what a token that decodes is -----

  predicate Dotless(b: Bytes) {
    forall i :: 0 <= i < |b| ==> b[i] != DOT
  }

  /** The token joins three segments, of which the first and the last hold no dot. */
  ghost predicate Cut(token: Bytes, g: Segments) {
    Dotless(g.head) && Dotless(g.crypto) && token == Dotted(Dotted(g.head, g.middle), g.crypto)
  }

  /** What stands before a detached payload in the signing input: the header, and the middle up to its last dot. */
  function Stem(g: Segments): Bytes {
    var cut := LastDot(g.middle);
    if cut == |g.middle| then g.head else Dotted(g.head, g.middle[..cut])
  }

  /** Exactly the bytes that the signature has to cover. */
  function Signed(g: Segments, d: Decoded): Bytes {
    if "b64" in d.header && d.header["b64"] == Bool(false) then Dotted(Stem(g), d.payload) else Dotted(g.head, g.middle)
  }

  /** Header, signature and an attached payload are what the segments say; a detached payload is the caller's. */
  ghost predicate Says(json: JsonCodec, g: Segments, detachedPayload: Option<Bytes>, d: Decoded) {
    && Codecs.Decode(g.head).Ok? && json.loads(Codecs.Decode(g.head).value) == Some(d.header)
    && Codecs.Decode(g.crypto) == Ok(d.signature) && Codecs.Decode(g.middle).Ok?
    && (if "b64" in d.header && d.header["b64"] == Bool(false) then detachedPayload == Some(d.payload)
        else Codecs.Decode(g.middle) == Ok(d.payload))
  }

  /** The header names an allowed and known algorithm, which takes the key and accepts the signature of `input`. */
  ghost predicate Signs(algorithms: map<string, Algorithm>, input: Bytes, h: Header, signature: Bytes, key: Bytes,
                        allowed: seq<string>)
  {
    && "alg" in h && h["alg"].Str? && h["alg"].s != "" && h["alg"].s in allowed && h["alg"].s in algorithms
    && var alg := algorithms[h["alg"].s];
       alg.prepare(key).Some? && alg.verify(input, alg.prepare(key).value, signature)
  }

  ghost predicate Authentic(json: JsonCodec, algorithms: map<string, Algorithm>, token: Bytes, key: Bytes,
                            allowed: seq<string>, verify: bool, detachedPayload: Option<Bytes>, d: Decoded)
  {
    exists g :: && Cut(token, g) && Says(json, g, detachedPayload, d)
                && (verify ==> Signs(algorithms, Signed(g, d), d.header, d.signature, key, allowed))
  }

  /** There is exactly one way to cut a token, and it is the one that `_load` takes. */
  lemma CutIs(token: Bytes, g: Segments)
    requires Cut(token, g)
    ensures CutAt(token) == Some(g) && token[..LastDot(token)] == Dotted(g.head, g.middle)
  {
    var input := Dotted(g.head, g.middle);
    LastDotOf(input, g.crypto);
    FirstDotOf(g.head, g.middle);
    assert token[|g.head| + 1..|input|] == input[|g.head| + 1..];
    assert token[..|g.head|] == input[..|g.head|];
  }

  lemma CutExists(token: Bytes)
    requires CutAt(token).Some?
    ensures Cut(token, CutAt(token).value)
  {
    var last := LastDot(token);
    var input := token[..last];
    var first := FirstDot(input);
    assert token == input + [DOT] + token[last + 1..];
    assert input == token[..first] + [DOT] + token[first + 1..last];
  }

  lemma StemIs(g: Segments)
    ensures var input := Dotted(g.head, g.middle); input[..LastDot(input)] == Stem(g)
  {
    var input, cut := Dotted(g.head, g.middle), LastDot(g.middle);
    if cut == |g.middle| {
      LastDotOf(g.head, g.middle);
    } else {
      var stem, rest := Dotted(g.head, g.middle[..cut]), g.middle[cut + 1..];
      assert g.middle == g.middle[..cut] + [DOT] + rest;
      assert input == Dotted(stem, rest);
      LastDotOf(stem, rest);
    }
  }

  lemma LoadsWhatIsSaid(json: JsonCodec, token: Bytes, g: Segments, detachedPayload: Option<Bytes>, d: Decoded)
    requires Cut(token, g)
    ensures Says(json, g, detachedPayload, d) <==>
            var l := Load(json, token);
            && l.Ok? && l.value.header == d.header && l.value.signature == d.signature
            && l.value.signingInput == Dotted(g.head, g.middle)
            && (if Detached(d.header) then detachedPayload == Some(d.payload) else l.value.payload == d.payload)
  {
    CutIs(token, g);
  }

  lemma AttachIs(l: Loaded, g: Segments, detachedPayload: Option<Bytes>, d: Decoded)
    requires l.signingInput == Dotted(g.head, g.middle)
    ensures Attach(l, detachedPayload) == Ok(Loaded(d.payload, Signed(g, d), d.header, d.signature)) <==>
            && l.header == d.header && l.signature == d.signature
            && (if Detached(d.header) then detachedPayload == Some(d.payload) else l.payload == d.payload)
  {
    StemIs(g);
  }

  /** Whatever is attached, the signing input follows from the segments and the answer. */
  lemma AttachedInput(l: Loaded, g: Segments, detachedPayload: Option<Bytes>)
    requires l.signingInput == Dotted(g.head, g.middle) && Attach(l, detachedPayload).Ok?
    ensures var a := Attach(l, detachedPayload).value;
            a.signingInput == Signed(g, Decoded(a.payload, a.header, a.signature))
  {
    StemIs(g);
  }

  /** A loaded token with its payload attached carries exactly the bytes that the signature has to cover. */
  lemma AttachesWhatIsSaid(json: JsonCodec, token: Bytes, g: Segments, detachedPayload: Option<Bytes>, d: Decoded)
    requires Cut(token, g)
    ensures Says(json, g, detachedPayload, d) <==>
            var l := Load(json, token);
            l.Ok? && Attach(l.value, detachedPayload) == Ok(Loaded(d.payload, Signed(g, d), d.header, d.signature))
  {
    LoadsWhatIsSaid(json, token, g, detachedPayload, d);
    if Load(json, token).Ok? {
      CutIs(token, g);
      AttachIs(Load(json, token).value, g, detachedPayload, d);
    }
  }

  lemma AnswersIffSigned(algorithms: map<string, Algorithm>, l: Loaded, key: Bytes, allowed: seq<string>, verify: bool,
                         d: Decoded)
    ensures Answer(algorithms, l, key, allowed, verify) == Ok(d) <==>
            && l == Loaded(d.payload, l.signingInput, d.header, d.signature)
            && (verify ==> Signs(algorithms, l.signingInput, d.header, d.signature, key, allowed))
  {
  }

  lemma {:induction false} DecodesSegments(
    json: JsonCodec, algorithms: map<string, Algorithm>, token: Bytes, g: Segments, key: Bytes, allowed: seq<string>,
    verify: bool, detachedPayload: Option<Bytes>, d: Decoded)
    requires Cut(token, g)
    ensures DecodeToken(json, algorithms, token, key, allowed, verify, detachedPayload) == Ok(d) <==>
            && Says(json, g, detachedPayload, d)
            && (verify ==> Signs(algorithms, Signed(g, d), d.header, d.signature, key, allowed))
  {
    AttachesWhatIsSaid(json, token, g, detachedPayload, d);
    var l := Load(json, token);
    if l.Ok? && Attach(l.value, detachedPayload).Ok? {
      var a := Attach(l.value, detachedPayload).value;
      CutIs(token, g);
      AttachedInput(l.value, g, detachedPayload);
      AnswersIffSigned(algorithms, a, key, allowed, verify, d);
      assert a == Loaded(d.payload, a.signingInput, d.header, d.signature) ==> a.signingInput == Signed(g, d);
    }
  }

  /**
   For every token and every answer: `decode_complete` gives the answer iff the token has three segments that say it
   and, with verification on, its header names an allowed and known algorithm that accepts the signature of the
   signed bytes.
   */
  lemma {:induction false} DecodesIffAuthentic(
    json: JsonCodec, algorithms: map<string, Algorithm>, token: Bytes, key: Bytes, allowed: seq<string>, verify: bool,
    detachedPayload: Option<Bytes>, d: Decoded)
    ensures DecodeToken(json, algorithms, token, key, allowed, verify, detachedPayload) == Ok(d) <==>
            Authentic(json, algorithms, token, key, allowed, verify, detachedPayload, d)
  {
    if CutAt(token).Some? {
      CutExists(token);
      DecodesSegments(json, algorithms, token, CutAt(token).value, key, allowed, verify, detachedPayload, d);
    }
    forall g | Cut(token, g) ensures CutAt(token) == Some(g) {
      CutIs(token, g);
    }
  }

  // ----- the dots -----

  lemma FirstDotOf(a: Bytes, b: Bytes)
    requires forall i :: 0 <= i < |a| ==> a[i] != DOT
    ensures FirstDot(Dotted(a, b)) == |a| && Dotted(a, b)[..|a|] == a && Dotted(a, b)[|a| + 1..] == b
  {
    assert Dotted(a, b)[|a|] == DOT;
  }

  lemma LastDotOf(a: Bytes, b: Bytes)
    requires forall i :: 0 <= i < |b| ==> b[i] != DOT
    ensures LastDot(Dotted(a, b)) == |a| && Dotted(a, b)[..|a|] == a && Dotted(a, b)[|a| + 1..] == b
  {
    assert Dotted(a, b)[|a|] == DOT;
  }

  // ----- the token that is written -----

  /** Exactly four values count as missing. */
  lemma FalsyValues(j: Json)
    ensures !Truthy(j) <==> j == Null || j == Bool(false) || j == Str("") || j == Other(0)
  {
  }

  /** The caller asks for a detached payload, by the argument or by a `b64` of false. */
  ghost predicate AsksDetached(headers: Header, detached: bool) {
    detached || ("b64" in headers && headers["b64"] == Bool(false))
  }

  /** The name that signs: a truthy `alg` among the headers decides, else the argument, and "none" without one. */
  ghost predicate Names(name: string, algorithm: Option<string>, headers: Header) {
    if "alg" in headers && Truthy(headers["alg"]) then headers["alg"] == Str(name)
    else
      match algorithm
      case Some(a) => name == a
      case None => name == "none"
  }

  /**
   The header to write, entry by entry: the caller's are kept, with `typ` and `alg` filled in where they are missing; a
   falsy `typ` goes; `b64` is false for a detached payload and left out otherwise.
   */
  ghost predicate HeaderFor(h: Header, algorithm: Option<string>, headers: Header, detached: bool) {
    && (forall k :: k !in {"typ", "alg", "b64"} ==> (k in h <==> k in headers) && (k in headers ==> h[k] == headers[k]))
    && ("typ" in h <==> ("typ" in headers ==> Truthy(headers["typ"])))
    && ("typ" in h ==> h["typ"] == if "typ" in headers then headers["typ"] else Str("JWT"))
    && "alg" in h && h["alg"] == (if "alg" in headers then headers["alg"]
                                  else Str(if algorithm.Some? then algorithm.value else "none"))
    && ("b64" in h <==> AsksDetached(headers, detached)) && ("b64" in h ==> h["b64"] == Bool(false))
  }

  /** The header that is written is the one described, and no other is. */
  lemma FinalHeaderFacts(algorithm: Option<string>, headers: Header, detached: bool, h: Header)
    ensures HeaderFor(h, algorithm, headers, detached) <==> h == FinalHeader(algorithm, headers, detached)
  {
    var f := FinalHeader(algorithm, headers, detached);
    assert HeaderFor(f, algorithm, headers, detached);
    if HeaderFor(h, algorithm, headers, detached) {
      forall k ensures k in h <==> k in f {
        assert k in {"typ", "alg", "b64"} || k !in {"typ", "alg", "b64"};
      }
      assert h.Keys == f.Keys;
      assert forall k :: k in h ==> h[k] == f[k];
    }
  }

  /** The bytes to sign: the header's segment, a dot, and the payload, as it is when detached and encoded otherwise. */
  ghost function ToSign(json: JsonCodec, h: Header, payload: Bytes, detached: bool, sort: bool): Bytes {
    Codecs.Encode(json.dumps(h, sort)) + [DOT] + (if detached then payload else Codecs.Encode(payload))
  }

  /** The three segments of a token and the two dots between them. */
  ghost function TokenOf(json: JsonCodec, h: Header, payload: Bytes, signature: Bytes, detached: bool, sort: bool)
    : Bytes
  {
    Codecs.Encode(json.dumps(h, sort)) + [DOT] + (if detached then [] else Codecs.Encode(payload)) + [DOT]
    + Codecs.Encode(signature)
  }

  /**
   The whole of `encode`, for every input: when it raises, which algorithm signs what, and the three segments of the
   token, of which the middle one is empty for a detached payload.
   */
  lemma TokenIs(json: JsonCodec, algorithms: map<string, Algorithm>, payload: Bytes, key: Bytes,
                algorithm: Option<string>, headers: Header, detached: bool, sort: bool, name: string, h: Header)
    requires Names(name, algorithm, headers) && HeaderFor(h, algorithm, headers, detached)
    ensures EncodeToken(json, algorithms, payload, key, algorithm, headers, detached, sort) ==
            if "kid" in headers && !headers["kid"].Str? then Err(InvalidTokenError)
            else if name !in algorithms then Err(NotImplementedError)
            else if algorithms[name].prepare(key).None? then Err(KeyRejected)
            else
              var d, alg := AsksDetached(headers, detached), algorithms[name];
              var signature := alg.sign(ToSign(json, h, payload, d, sort), alg.prepare(key).value);
              Ok(TokenOf(json, h, payload, signature, d, sort))
  {
    FinalHeaderFacts(algorithm, headers, detached, h);
    assert SigningName(algorithm, headers) == Str(name);
  }

  /** A truthy `alg` that is no string names no algorithm. */
  lemma NoSuchAlgorithm(json: JsonCodec, algorithms: map<string, Algorithm>, payload: Bytes, key: Bytes,
                        algorithm: Option<string>, headers: Header, detached: bool, sort: bool)
    requires "alg" in headers && Truthy(headers["alg"]) && !headers["alg"].Str?
    ensures EncodeToken(json, algorithms, payload, key, algorithm, headers, detached, sort) ==
            Err(if "kid" in headers && !headers["kid"].Str? then InvalidTokenError else NotImplementedError)
  {
  }

  // ----- the round trip -----

  /** The JSON reader gives back the headers that the writer wrote. */
  ghost predicate Reads(json: JsonCodec, sort: bool) {
    forall h :: json.loads(json.dumps(h, sort)) == Some(h)
  }

  /**
   The algorithm is in the table and allowed, takes both keys, and verifies with one what it signs with the other.
   */
  ghost predicate Accepts(algorithms: map<string, Algorithm>, name: string, key: Bytes, key': Bytes,
                          allowed: seq<string>)
  {
    && name in algorithms && name in allowed
    && var alg := algorithms[name];
       && alg.prepare(key).Some? && alg.prepare(key').Some?
       && forall m :: alg.verify(m, alg.prepare(key').value, alg.sign(m, alg.prepare(key).value))
  }

  /** What a reader of the token should get back. */
  ghost function Original(json: JsonCodec, alg: Algorithm, payload: Bytes, key: Bytes, h: Header, detached: bool,
                          sort: bool): Decoded
    requires alg.prepare(key).Some?
  {
    Decoded(payload, h, alg.sign(ToSign(json, h, payload, detached, sort), alg.prepare(key).value))
  }

  /** The code rebuilds the signing input exactly, whatever bytes a detached payload holds. */
  lemma SigningInputRebuilt(json: JsonCodec, h: Header, payload: Bytes, sort: bool)
    ensures var loaded := Codecs.Encode(json.dumps(h, sort)) + [DOT];
            loaded[..LastDot(loaded)] + [DOT] + payload == ToSign(json, h, payload, true, sort)
  {
    var head := Codecs.Encode(json.dumps(h, sort));
    LastDotOf(head, []);
    assert Dotted(head, []) == head + [DOT];
  }

  /** The segments of a written token say what was written, and its signature covers the signed bytes. */
  lemma TokenSays(json: JsonCodec, d: Decoded, detached: bool, sort: bool) returns (g: Segments)
    requires Reads(json, sort) && (Detached(d.header) <==> detached)
    ensures Cut(TokenOf(json, d.header, d.payload, d.signature, detached, sort), g)
    ensures Says(json, g, if detached then Some(d.payload) else None, d)
    ensures Signed(g, d) == ToSign(json, d.header, d.payload, detached, sort)
  {
    var middle := if detached then [] else d.payload;
    g := Segments(Codecs.Encode(json.dumps(d.header, sort)), Codecs.Encode(middle), Codecs.Encode(d.signature));
    assert Codecs.Encode([]) == [];
    Codecs.EncodeShape(json.dumps(d.header, sort));
    Codecs.EncodeShape(d.signature);
    Codecs.Base64RoundTrip(json.dumps(d.header, sort));
    Codecs.Base64RoundTrip(middle);
    Codecs.Base64RoundTrip(d.signature);
  }

  /** A written token decodes to the original iff its header names the algorithm. */
  lemma {:induction false} TokenDecodes(
    json: JsonCodec, algorithms: map<string, Algorithm>, key: Bytes, key': Bytes, name: string, h: Header,
    payload: Bytes, d: bool, sort: bool, allowed: seq<string>)
    requires Reads(json, sort) && Accepts(algorithms, name, key, key', allowed)
    requires "alg" in h && (Truthy(h["alg"]) ==> h["alg"] == Str(name)) && (Detached(h) <==> d)
    ensures var original := Original(json, algorithms[name], payload, key, h, d, sort);
            var token := TokenOf(json, h, payload, original.signature, d, sort);
            var given := if d then Some(payload) else None;
            DecodeToken(json, algorithms, token, key', allowed, true, given) == Ok(original) <==> Truthy(h["alg"])
  {
    var original := Original(json, algorithms[name], payload, key, h, d, sort);
    var g := TokenSays(json, original, d, sort);
    DecodesSegments(json, algorithms, TokenOf(json, h, payload, original.signature, d, sort), g, key', allowed, true,
                    if d then Some(payload) else None, original);
  }

  /**
   The JWS round trip, for every payload, attached or detached, and an algorithm, named as the caller asks, whose
   verification accepts its own signatures: a token is produced unless the caller's `kid` is not a string, and given a
   detached payload again, `decode_complete` recovers payload, header and signature from it iff the header has a truthy
   `alg`.
   */
  lemma {:induction false} JwsRoundTripIff(
    json: JsonCodec, algorithms: map<string, Algorithm>, payload: Bytes, key: Bytes, key': Bytes, name: string,
    h: Header, algorithm: Option<string>, headers: Header, detached: bool, sort: bool, allowed: seq<string>)
    requires Names(name, algorithm, headers) && HeaderFor(h, algorithm, headers, detached)
    requires Reads(json, sort) && Accepts(algorithms, name, key, key', allowed)
    ensures var token := EncodeToken(json, algorithms, payload, key, algorithm, headers, detached, sort);
            var d := AsksDetached(headers, detached);
            && (token.Ok? <==> ("kid" in headers ==> headers["kid"].Str?))
            && (token.Ok? ==>
                  (DecodeToken(json, algorithms, token.value, key', allowed, true, if d then Some(payload) else None)
                   == Ok(Original(json, algorithms[name], payload, key, h, d, sort))
                   <==> Truthy(h["alg"])))
  {
    TokenIs(json, algorithms, payload, key, algorithm, headers, detached, sort, name, h);
    TokenDecodes(json, algorithms, key, key', name, h, payload, AsksDetached(headers, detached), sort, allowed);
  }
}
