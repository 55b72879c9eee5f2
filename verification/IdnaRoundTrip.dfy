/** Length bounds of an encoded domain, and what decoding it gives back. */
module IdnaRoundTrip {
  import opened Wrappers
  import opened Strings
  import opened IdnaCore

  /** `p` is a lower-case ASCII text that the punycode decoder takes to `s`. */
  ghost predicate Encodes(t: Tables, p: string, s: string) {
    p != "" && Ascii(p) && Free(p, DOTS) && Lower(p) == p && p[|p| - 1] != '-' && t.unpuny(p) == Some(s)
  }

  /** What is assumed: punycode can be undone and gives lower-case ASCII, and no dot is a valid character. */
  ghost predicate Lawful(t: Tables) {
    && (forall s {:trigger CheckLabel(t, s)} :: !Ascii(s) && CheckLabel(t, s).Ok? ==> Encodes(t, t.puny(s), s))
    && (forall c :: c in DOTS ==> !t.pvalid(c) && !t.contextJ(c) && !t.contextO(c))
  }

  // ----- labels -----

  lemma {:induction false} CodepointsDotless(t: Tables, s: string, pos: nat)
    requires Lawful(t) && pos <= |s| && CheckCodepoints(t, s, pos).Ok?
    ensures forall i :: pos <= i < |s| ==> s[i] !in DOTS
    decreases |s| - pos
  {
    if pos < |s| {
      assert s[pos] !in DOTS;
      CodepointsDotless(t, s, pos + 1);
    }
  }

  lemma CheckedLabel(t: Tables, s: string)
    requires Lawful(t) && CheckLabel(t, s).Ok?
    ensures s != "" && Free(s, DOTS) && HyphensOk(s)
  {
    CodepointsDotless(t, s, 0);
  }

  lemma UlabelResult(t: Tables, s: string)
    requires Lawful(t) && Ulabel(t, s).Ok?
    ensures Ulabel(t, s).value != "" && Free(Ulabel(t, s).value, DOTS) && CheckLabel(t, Ulabel(t, s).value).Ok?
  {
    CheckedLabel(t, Ulabel(t, s).value);
  }

  lemma PrefixIsLower()
    ensures Lower(ALABEL_PREFIX) == ALABEL_PREFIX && Ascii(ALABEL_PREFIX) && Free(ALABEL_PREFIX, DOTS)
  {
  }

  /** A text with the prefix in front of its punycode. */
  ghost predicate Prefixed(a: string, p: string) {
    Ascii(a) && Free(a, DOTS) && Lower(a) == a && ALABEL_PREFIX <= a && a[4..] == p
  }

  lemma PrefixedText(t: Tables, p: string, s: string)
    requires Encodes(t, p, s)
    ensures Prefixed(ALABEL_PREFIX + p, p)
  {
    var a := ALABEL_PREFIX + p;
    PrefixIsLower();
    assert Lower(ALABEL_PREFIX + p) == Lower(ALABEL_PREFIX) + Lower(p);
    forall i | 0 <= i < |a| ensures a[i] < 128 as char && a[i] !in DOTS {
      if i >= 4 { assert a[i] == p[i - 4]; } else { assert a[i] == ALABEL_PREFIX[i]; }
    }
  }

  /** A prefixed text decodes to what its punycode stands for. */
  lemma PrefixedLabel(t: Tables, a: string, p: string, s: string)
    requires Prefixed(a, p) && Encodes(t, p, s) && CheckLabel(t, s).Ok?
    ensures UlabelAscii(t, a) == Ok(s)
  {
    assert a[|a| - 1] == p[|p| - 1];
  }

  /** The punycode form of a label is an ASCII label that decodes to it. */
  lemma PunyLabel(t: Tables, s: string)
    requires Lawful(t) && !Ascii(s) && CheckLabel(t, s).Ok?
    ensures var a := ALABEL_PREFIX + t.puny(s); Prefixed(a, t.puny(s)) && UlabelAscii(t, a) == Ok(s)
  {
    assert Encodes(t, t.puny(s), s);
    PrefixedText(t, t.puny(s), s);
    PrefixedLabel(t, ALABEL_PREFIX + t.puny(s), t.puny(s), s);
  }

  /** An encoded label is short, and decodes to what the label itself decodes to. */
  lemma AlabelThenUlabel(t: Tables, s: string)
    requires Lawful(t) && Free(s, DOTS) && Alabel(t, s).Ok?
    ensures var a := Alabel(t, s).value;
            a != "" && |a| <= 63 && Free(a, DOTS) && Ulabel(t, a) == Ulabel(t, s) && Ulabel(t, s).Ok?
  {
    if Ascii(s) { UlabelResult(t, s); } else { PunyLabel(t, s); }
  }

  /** Decoding leaves a label alone. */
  predicate Stable(l: string) {
    Ascii(l) ==> Lower(l) == l && !(ALABEL_PREFIX <= l)
  }

  lemma LowerPrefix(l: string)
    ensures ALABEL_PREFIX <= l ==> ALABEL_PREFIX <= Lower(l)
    ensures ALABEL_PREFIX <= Lower(l) ==> |l| >= 4 && l[2] == '-' && l[3] == '-'
  {
    if ALABEL_PREFIX <= l {
      assert forall i :: 0 <= i < 4 ==> Lower(l)[i] == LowerChar(ALABEL_PREFIX[i]);
      assert Lower(l)[..4] == ALABEL_PREFIX;
    }
    if ALABEL_PREFIX <= Lower(l) {
      assert Lower(l)[2] == ALABEL_PREFIX[2] && Lower(l)[3] == ALABEL_PREFIX[3];
    }
  }

  lemma DecodesToItselfIff(t: Tables, l: string)
    requires Lawful(t) && Ulabel(t, l).Ok?
    ensures Ulabel(t, l).value == l <==> Stable(l)
  {
    LowerPrefix(l);
    CheckedLabel(t, Ulabel(t, l).value);
  }

  // ----- domains -----

  lemma {:induction false} ConvertTwice(t: Tables, labels: seq<string>)
    requires Lawful(t) && AllFree(labels, DOTS) && ConvertAll(t, ToAscii, labels).Ok?
    ensures var parts := ConvertAll(t, ToAscii, labels).value;
            && |parts| == |labels| && AllFree(parts, DOTS)
            && (forall i :: 0 <= i < |parts| ==> 1 <= |parts[i]| <= 63)
            && ConvertAll(t, ToUnicode, parts) == ConvertAll(t, ToUnicode, labels)
            && ConvertAll(t, ToUnicode, labels).Ok?
  {
    if labels != [] {
      AlabelThenUlabel(t, labels[0]);
      UlabelResult(t, labels[0]);
      ConvertTwice(t, labels[1..]);
      var a, parts := Alabel(t, labels[0]).value, ConvertAll(t, ToAscii, labels).value;
      assert parts[0] == a && parts[1..] == ConvertAll(t, ToAscii, labels[1..]).value;
    }
  }

  lemma {:induction false} DecodedLabels(t: Tables, labels: seq<string>)
    requires Lawful(t) && ConvertAll(t, ToUnicode, labels).Ok?
    ensures var us := ConvertAll(t, ToUnicode, labels).value;
            && |us| == |labels| && AllFree(us, DOTS)
            && (forall i :: 0 <= i < |us| ==> us[i] != "" && (us[i] == labels[i] <==> Stable(labels[i])))
  {
    if labels != [] {
      UlabelResult(t, labels[0]);
      DecodesToItselfIff(t, labels[0]);
      DecodedLabels(t, labels[1..]);
      var rest := ConvertAll(t, ToUnicode, labels[1..]).value;
      assert ConvertAll(t, ToUnicode, labels).value == [Ulabel(t, labels[0]).value] + rest;
    }
  }

  lemma BodyAndTail(labels: seq<string>)
    requires labels != []
    ensures labels == Body(labels) + Tail(labels)
  {
  }

  lemma PartsBody(parts: seq<string>, tail: seq<string>)
    requires parts != [] && (forall i :: 0 <= i < |parts| ==> parts[i] != "") && (tail == [] || tail == [""])
    ensures Body(parts + tail) == parts && Tail(parts + tail) == tail
  {
    if tail == [] { assert parts + tail == parts; }
  }

  /**
   Whenever `encode` succeeds in the default mode, the result is made of labels of 1 to 63 octets and has at most 253
   octets in all, or 254 with a trailing dot.
   */
  lemma EncodedLength(t: Tables, s: string)
    requires Lawful(t) && Encode(t, s, false).Ok?
    ensures var e, labels := Encode(t, s, false).value, Split(Encode(t, s, false).value, DOTS);
            && |e| <= 254 && (Tail(labels) == [] ==> |e| <= 253)
            && (Tail(labels) != [] <==> Tail(Split(s, DOTS)) != [])
            && forall i :: 0 <= i < |Body(labels)| ==> 1 <= |Body(labels)[i]| <= 63
  {
    EncodedLabels(t, s);
  }

  /** The labels of an encoded domain are the encoded labels. */
  lemma EncodedLabels(t: Tables, s: string)
    requires Lawful(t) && Encode(t, s, false).Ok?
    ensures var labels := Split(s, DOTS);
            var parts := ConvertAll(t, ToAscii, Body(labels));
            && parts.Ok? && parts.value != []
            && var out := Split(Encode(t, s, false).value, DOTS);
               && Body(out) == parts.value && Tail(out) == Tail(labels)
               && forall i :: 0 <= i < |parts.value| ==> 1 <= |parts.value[i]| <= 63
  {
    var labels := Split(s, DOTS);
    SplitIsFree(s, DOTS);
    BodyAndTail(labels);
    ConvertTwice(t, Body(labels));
    var parts := ConvertAll(t, ToAscii, Body(labels)).value;
    assert Body(labels) != [];
    PartsBody(parts, Tail(labels));
    SplitJoin(parts + Tail(labels), '.', DOTS);
  }

  /** Decoding an encoded domain gives what decoding the domain itself gives, and always succeeds. */
  lemma DecodeAfterEncode(t: Tables, s: string)
    requires Lawful(t) && Encode(t, s, false).Ok?
    ensures Decode(t, Encode(t, s, false).value, false) == Decode(t, s, false) && Decode(t, s, false).Ok?
  {
    var labels, out := Split(s, DOTS), Split(Encode(t, s, false).value, DOTS);
    SplitIsFree(s, DOTS);
    EncodedLabels(t, s);
    BodyAndTail(out);
    ConvertTwice(t, Body(labels));
    assert out != [""];
  }

  /** The labels that decoding a domain gives, each the original one iff that was stable. */
  lemma DecodedDomain(t: Tables, s: string) returns (us: seq<string>)
    requires Lawful(t) && Encode(t, s, false).Ok?
    ensures var labels := Split(s, DOTS);
            && Decode(t, s, false) == Ok(Join(us + Tail(labels), '.'))
            && |us| == |Body(labels)| && us != [] && AllFree(us, DOTS)
            && forall i :: 0 <= i < |us| ==> us[i] != "" && (us[i] == Body(labels)[i] <==> Stable(Body(labels)[i]))
  {
    var labels := Split(s, DOTS);
    SplitIsFree(s, DOTS);
    BodyAndTail(labels);
    ConvertTwice(t, Body(labels));
    DecodedLabels(t, Body(labels));
    us := ConvertAll(t, ToUnicode, Body(labels)).value;
  }

  /** A domain made of stable labels and full stops is the join of its labels. */
  lemma JoinedBack(s: string, us: seq<string>)
    requires |us| == |Body(Split(s, DOTS))| && OnlySeparator(s, '.', DOTS)
    requires forall i :: 0 <= i < |us| ==> us[i] == Body(Split(s, DOTS))[i]
    ensures Join(us + Tail(Split(s, DOTS)), '.') == s
  {
    assert us == Body(Split(s, DOTS));
    BodyAndTail(Split(s, DOTS));
    JoinSplit(s, '.', DOTS);
  }

  /** Conversely a join of non-empty dotless labels has exactly those labels, and only full stops. */
  lemma JoinedLabels(s: string, us: seq<string>)
    requires us != [] && AllFree(us, DOTS) && forall i :: 0 <= i < |us| ==> us[i] != ""
    requires Join(us + Tail(Split(s, DOTS)), '.') == s
    ensures OnlySeparator(s, '.', DOTS) && Body(Split(s, DOTS)) == us
  {
    var all := us + Tail(Split(s, DOTS));
    JoinHasOnlySeparator(all, '.', DOTS);
    SplitJoin(all, '.', DOTS);
    PartsBody(us, Tail(Split(s, DOTS)));
  }

  /**
   The round trip: an encoded domain decodes to exactly the original iff the original uses only full stops as dots and
   each of its labels is either not ASCII, or ASCII in lower case and without the prefix "xn--". A trailing dot
   survives.
   */
  lemma {:induction false} RoundTripIff(t: Tables, s: string)
    requires Lawful(t) && Encode(t, s, false).Ok?
    ensures Decode(t, Encode(t, s, false).value, false) == Ok(s) <==>
            OnlySeparator(s, '.', DOTS) && forall l :: l in Body(Split(s, DOTS)) ==> Stable(l)
  {
    DecodeAfterEncode(t, s);
    var us := DecodedDomain(t, s);
    var body := Body(Split(s, DOTS));
    if OnlySeparator(s, '.', DOTS) && forall l :: l in body ==> Stable(l) { JoinedBack(s, us); }
    if Join(us + Tail(Split(s, DOTS)), '.') == s {
      JoinedLabels(s, us);
      forall l | l in body ensures Stable(l) {
        var i :| 0 <= i < |body| && body[i] == l;
      }
    }
  }
}
