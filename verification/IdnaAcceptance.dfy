/**
 Which labels and domains `lib/idna/core.py` accepts, and what it makes of them, stated by the rules alone: section 5.4
 of RFC 5891 for the characters, section 2 of RFC 5893 for right-to-left labels, section 2.3.4 of RFC 1035 for the
 lengths.
 */
module IdnaAcceptance {
  import opened Wrappers
  import opened Strings
  import opened IdnaCore
  import Rules = IdnaRules

  // ----- labels -----

  /** A joiner stands behind a character whose combining class is unknown, so that the check of its context raises. */
  ghost predicate Unreadable(t: Tables, s: string, i: nat)
    requires i < |s|
  {
    (t.joiner(s[i]).zwnj || t.joiner(s[i]).zwj) && i > 0 && t.joiner(s[i - 1]).combining.None?
  }

  /** The character at `i` is valid, or allowed by its context. */
  ghost predicate ValidAt(t: Tables, s: string, i: nat)
    requires i < |s|
  {
    || t.pvalid(s[i])
    || (t.contextJ(s[i]) && !Unreadable(t, s, i) && Rules.ContextJ(Joiners(t, s), i))
    || (!t.contextJ(s[i]) && t.contextO(s[i]) && t.validContextO(s, i))
  }

  /** A hyphen neither begins nor ends the label, and does not stand in both third and fourth place. */
  ghost predicate HyphensInPlace(s: string) {
    && s != "" && s[0] != '-' && s[|s| - 1] != '-'
    && !(|s| >= 4 && s[2..4] == "--")
  }

  /** The directions are all known, and a label with right-to-left characters meets the rules for one. */
  ghost predicate DirectionsInOrder(t: Tables, s: string) {
    && (forall i :: 0 <= i < |s| ==> t.direction(s[i]) != Rules.Unknown)
    && ((exists i :: 0 <= i < |s| && Rules.RightToLeft(t.direction(s[i]))) ==>
          Rules.BidiRule(seq(|s|, i requires 0 <= i < |s| => t.direction(s[i]))))
  }

  /** The conditions on a label, each on its own. */
  ghost predicate Acceptable(t: Tables, s: string) {
    && s != "" && t.nfc(s) && HyphensInPlace(s) && !t.mark(s[0])
    && (forall i :: 0 <= i < |s| ==> ValidAt(t, s, i))
    && DirectionsInOrder(t, s)
  }

  lemma {:induction false} CodepointsIff(t: Tables, s: string, pos: nat)
    requires pos <= |s|
    ensures CheckCodepoints(t, s, pos).Ok? <==> forall i :: pos <= i < |s| ==> ValidAt(t, s, i)
    decreases |s| - pos
  {
    if pos < |s| {
      CodepointsIff(t, s, pos + 1);
      assert ValidAt(t, s, pos) || !ValidAt(t, s, pos);
    }
  }

  lemma DirectionsIff(t: Tables, s: string)
    ensures var d := Directions(t, s);
            DirectionsInOrder(t, s) <==> Rules.Unknown !in d && (!Rules.IsBidi(d) || Rules.BidiRule(d))
  {
    var d := Directions(t, s);
    assert |d| == |s| && forall i :: 0 <= i < |s| ==> d[i] == t.direction(s[i]);
    assert d == seq(|s|, i requires 0 <= i < |s| => t.direction(s[i]));
  }

  /** A label passes `check_label` iff it meets every condition. */
  lemma AcceptedIff(t: Tables, s: string)
    ensures CheckLabel(t, s).Ok? <==> Acceptable(t, s)
  {
    if s != "" {
      CodepointsIff(t, s, 0);
      DirectionsIff(t, s);
      HyphensIff(s);
    }
  }

  /** The character at `i` is the first that is not valid. */
  ghost predicate FirstInvalid(t: Tables, s: string, i: nat)
    requires i < |s|
  {
    !ValidAt(t, s, i) && forall j :: 0 <= j < i ==> ValidAt(t, s, j)
  }

  /** What an invalid character raises. */
  ghost function Refusal(t: Tables, s: string, i: nat): Error
    requires i < |s|
  {
    if t.contextJ(s[i]) then (if Unreadable(t, s, i) then ValueError else InvalidContext)
    else if t.contextO(s[i]) then InvalidContext
    else InvalidCodepoint
  }

  lemma {:induction false} CodepointsRefuse(t: Tables, s: string, pos: nat, i: nat)
    requires pos <= i < |s| && FirstInvalid(t, s, i)
    ensures CheckCodepoints(t, s, pos) == CheckCodepoints(t, s, i)
    decreases i - pos
  {
    if pos < i {
      assert ValidAt(t, s, pos);
      CodepointsRefuse(t, s, pos + 1, i);
    }
  }

  /**
   A label that fails is refused for its form first, then for its first invalid character, then for its directions.
   */
  lemma RefusalIs(t: Tables, s: string)
    ensures s == "" || !t.nfc(s) || !HyphensInPlace(s) || t.mark(s[0]) ==> CheckLabel(t, s) == Err(IdnaError)
    ensures s != "" && t.nfc(s) && HyphensInPlace(s) && !t.mark(s[0]) ==>
              && ((forall i :: 0 <= i < |s| ==> ValidAt(t, s, i)) && !DirectionsInOrder(t, s) ==>
                    CheckLabel(t, s) == Err(BidiError))
              && forall i :: 0 <= i < |s| && FirstInvalid(t, s, i) ==>
                   CheckLabel(t, s) == Err(Refusal(t, s, i))
  {
    if s != "" && t.nfc(s) && HyphensInPlace(s) && !t.mark(s[0]) {
      HyphensIff(s);
      CodepointsIff(t, s, 0);
      DirectionsIff(t, s);
      forall i | 0 <= i < |s| && FirstInvalid(t, s, i) ensures CheckLabel(t, s) == Err(Refusal(t, s, i)) {
        CodepointsRefuse(t, s, 0, i);
      }
    } else if s != "" {
      HyphensIff(s);
    }
  }

  lemma HyphensIff(s: string)
    requires s != ""
    ensures HyphensOk(s) <==> HyphensInPlace(s)
  {
    if |s| >= 4 { assert s[2..4] == [s[2], s[3]]; }
  }

  // ----- what a label is converted to -----

  ghost predicate HasPrefix(s: string) {
    |s| >= 4 && s[..4] == "xn--"
  }

  /**
   The Unicode form of a label: the text behind the prefix decoded, an ASCII label in lower case, any other as it is.
   */
  ghost predicate Decodes(t: Tables, s: string, u: string) {
    if !Ascii(s) then u == s
    else if HasPrefix(Lower(s)) then
      |s| > 4 && s[|s| - 1] != '-' && t.unpuny(Lower(s)[4..]) == Some(u)
    else u == Lower(s)
  }

  /** A label is decoded to `u` iff `u` is its Unicode form and acceptable. */
  lemma UlabelIff(t: Tables, s: string, u: string)
    ensures Ulabel(t, s) == Ok(u) <==> Decodes(t, s, u) && Acceptable(t, u)
  {
    AcceptedIff(t, u);
    var l := Lower(s);
    assert |l| >= 4 ==> (ALABEL_PREFIX <= l <==> l[..4] == ALABEL_PREFIX);
    assert s != "" ==> (l[|s| - 1] == '-' <==> s[|s| - 1] == '-');
  }

  /** The ASCII form of a label: itself if it is ASCII, else the prefix and its punycode. */
  ghost function AsciiForm(t: Tables, s: string): string {
    if Ascii(s) then s else "xn--" + t.puny(s)
  }

  /** Some acceptable Unicode form of the label exists, and its ASCII form has at most 63 octets. */
  ghost predicate Encodable(t: Tables, s: string) {
    (exists u :: Decodes(t, s, u) && Acceptable(t, u)) && |AsciiForm(t, s)| <= 63
  }

  /** A label is encoded iff it is encodable, and then to its ASCII form. */
  lemma AlabelIff(t: Tables, s: string, a: string)
    ensures Alabel(t, s) == Ok(a) <==> Encodable(t, s) && a == AsciiForm(t, s)
  {
    if Ulabel(t, s).Ok? { UlabelIff(t, s, Ulabel(t, s).value); }
    forall u | Decodes(t, s, u) && Acceptable(t, u) ensures Ulabel(t, s) == Ok(u) { UlabelIff(t, s, u); }
  }

  // ----- domains -----

  ghost predicate AllEncodable(t: Tables, labels: seq<string>) {
    forall i :: 0 <= i < |labels| ==> Encodable(t, labels[i])
  }

  ghost function AsciiForms(t: Tables, labels: seq<string>): seq<string> {
    seq(|labels|, i requires 0 <= i < |labels| => AsciiForm(t, labels[i]))
  }

  lemma NotEmptied(t: Tables, m: Mode, s: string)
    ensures Convert(t, m, s).Ok? ==> Convert(t, m, s).value != ""
  {
    if m.ToAscii? && Alabel(t, s).Ok? {
      AlabelIff(t, s, Alabel(t, s).value);
      assert Lower("") == "";
    }
    if m.ToUnicode? && Ulabel(t, s).Ok? { UlabelIff(t, s, Ulabel(t, s).value); }
  }

  lemma FirstEncodable(t: Tables, labels: seq<string>)
    requires labels != []
    ensures AllEncodable(t, labels) <==> Encodable(t, labels[0]) && AllEncodable(t, labels[1..])
  {
    var rest := labels[1..];
    if Encodable(t, labels[0]) && AllEncodable(t, rest) {
      forall i | 0 <= i < |labels| ensures Encodable(t, labels[i]) {
        if i > 0 { assert labels[i] == rest[i - 1]; }
      }
    }
    if AllEncodable(t, labels) {
      forall i | 0 <= i < |rest| ensures Encodable(t, rest[i]) {
        assert rest[i] == labels[i + 1];
      }
    }
  }

  lemma FirstForm(t: Tables, labels: seq<string>)
    requires labels != []
    ensures AsciiForms(t, labels) == [AsciiForm(t, labels[0])] + AsciiForms(t, labels[1..])
  {
  }

  /** One label of a domain: the conversion succeeds iff it is encodable, and never comes out empty. */
  lemma EncodesOneIff(t: Tables, s: string)
    ensures Convert(t, ToAscii, s).Ok? <==> Encodable(t, s)
    ensures Convert(t, ToAscii, s).Ok? ==> Convert(t, ToAscii, s) == Ok(AsciiForm(t, s)) && AsciiForm(t, s) != ""
  {
    AlabelIff(t, s, AsciiForm(t, s));
    if Alabel(t, s).Ok? { AlabelIff(t, s, Alabel(t, s).value); }
    NotEmptied(t, ToAscii, s);
  }

  lemma {:induction false} EncodesAllIff(t: Tables, labels: seq<string>)
    ensures ConvertAll(t, ToAscii, labels).Ok? <==> AllEncodable(t, labels)
    ensures ConvertAll(t, ToAscii, labels).Ok? ==> ConvertAll(t, ToAscii, labels).value == AsciiForms(t, labels)
  {
    if labels == [] {
      assert AsciiForms(t, labels) == [];
    } else {
      EncodesOneIff(t, labels[0]);
      EncodesAllIff(t, labels[1..]);
      FirstEncodable(t, labels);
      FirstForm(t, labels);
    }
  }

  /** Only the empty domain has a single empty label. */
  lemma EmptyDomain(s: string, at: set<char>)
    ensures Split(s, at) == [""] <==> s == ""
  {
    SplitWidth(s, at);
  }

  ghost predicate Dotted(labels: seq<string>)
    requires labels != []
  {
    labels[|labels| - 1] == ""
  }

  /**
   A domain is encoded to `e` iff it is not empty, every label but an empty last one is encodable, `e` is the ASCII
   forms joined by full stops, with one behind them if the last label was empty, and `e` has at most 253 octets, or 254
   with that final dot.
   */
  lemma EncodesIff(t: Tables, s: string, strict: bool, e: string)
    ensures var labels := Split(s, Dots(strict));
            Encode(t, s, strict) == Ok(e) <==>
            && s != "" && AllEncodable(t, Body(labels))
            && e == Join(AsciiForms(t, Body(labels)) + (if Dotted(labels) then [""] else []), '.')
            && |e| <= (if Dotted(labels) then 254 else 253)
  {
    EmptyDomain(s, Dots(strict));
    EncodesAllIff(t, Body(Split(s, Dots(strict))));
  }

  ghost predicate AllDecode(t: Tables, labels: seq<string>, us: seq<string>) {
    |us| == |labels| && forall i :: 0 <= i < |us| ==> Decodes(t, labels[i], us[i]) && Acceptable(t, us[i])
  }

  lemma {:induction false} DecodesAllIff(t: Tables, labels: seq<string>, us: seq<string>)
    ensures ConvertAll(t, ToUnicode, labels) == Ok(us) <==> AllDecode(t, labels, us)
  {
    if labels != [] {
      var rest := labels[1..];
      NotEmptied(t, ToUnicode, labels[0]);
      if ConvertAll(t, ToUnicode, labels).Ok? {
        var vs := ConvertAll(t, ToUnicode, labels).value;
        assert vs == [vs[0]] + vs[1..] && ConvertAll(t, ToUnicode, rest) == Ok(vs[1..]);
        UlabelIff(t, labels[0], vs[0]);
        DecodesAllIff(t, rest, vs[1..]);
        assert AllDecode(t, labels, vs);
      }
      if AllDecode(t, labels, us) {
        UlabelIff(t, labels[0], us[0]);
        DecodesAllIff(t, rest, us[1..]);
        assert AllDecode(t, rest, us[1..]);
        assert us == [us[0]] + us[1..];
      }
    }
  }

  /**
   A domain is decoded to `u` iff it is not empty and `u` joins acceptable Unicode forms of its labels, the final dot
   kept.
   */
  lemma DecodesIff(t: Tables, s: string, strict: bool, u: string)
    ensures var labels := Split(s, Dots(strict));
            Decode(t, s, strict) == Ok(u) <==>
            && s != ""
            && exists us :: && AllDecode(t, Body(labels), us)
                            && u == Join(us + (if Dotted(labels) then [""] else []), '.')
  {
    var labels := Split(s, Dots(strict));
    EmptyDomain(s, Dots(strict));
    forall us ensures ConvertAll(t, ToUnicode, Body(labels)) == Ok(us) <==> AllDecode(t, Body(labels), us) {
      DecodesAllIff(t, Body(labels), us);
    }
  }

  // ----- the dots -----

  /** The ideographic full stop, the full-width full stop and the half-width ideographic full stop, as full stops. */
  function WithFullStops(s: string): string {
    seq(|s|, i requires 0 <= i < |s| =>
      if s[i] == '\U{3002}' || s[i] == '\U{FF0E}' || s[i] == '\U{FF61}' then '.' else s[i])
  }

  lemma {:induction false} SplitAtAnyDot(s: string)
    ensures Split(s, DOTS) == Split(WithFullStops(s), {'.'})
  {
    if s != "" {
      SplitAtAnyDot(s[1..]);
      assert WithFullStops(s)[1..] == WithFullStops(s[1..]);
    }
  }

  /**
   By default the four dots are alike: a domain is treated as the one with full stops, and strictly only those count.
   */
  lemma DotsAreAlike(t: Tables, s: string)
    ensures Encode(t, s, false) == Encode(t, WithFullStops(s), true)
    ensures Decode(t, s, false) == Decode(t, WithFullStops(s), true)
  {
    SplitAtAnyDot(s);
    assert Dots(true) == {'.'} && Dots(false) == DOTS;
    assert s == "" <==> WithFullStops(s) == "";
  }

  /** Strictly, the labels joined by full stops are the domain itself. */
  lemma StrictLabels(s: string)
    ensures Join(Split(s, Dots(true)), '.') == s
  {
    JoinSplit(s, '.', {'.'});
  }
}
