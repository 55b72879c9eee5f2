/**
 The streaming codec of `lib/idna/codec.py` against the functions of `lib/idna/core.py`: one final call does what they
 do.
 */
module IdnaOneShot {
  import opened Wrappers
  import opened Strings
  import opened IdnaCore
  import opened IdnaCodec
  import opened IdnaAcceptance

  lemma {:induction false} SameConversion(t: Tables, m: Mode, labels: seq<string>)
    ensures ConvertEach(t, m, labels) == ConvertAll(t, m, labels)
  {
    if labels != [] {
      NotEmptied(t, m, labels[0]);
      SameConversion(t, m, labels[1..]);
    }
  }

  lemma {:induction false} ConvertedLength(t: Tables, m: Mode, labels: seq<string>)
    ensures ConvertAll(t, m, labels).Ok? ==> |ConvertAll(t, m, labels).value| == |labels|
  {
    if labels != [] { ConvertedLength(t, m, labels[1..]); }
  }

  lemma {:induction false} FinalDot(parts: seq<string>)
    requires parts != []
    ensures Join(parts + [""], '.') == Join(parts, '.') + "."
  {
    if |parts| > 1 {
      FinalDot(parts[1..]);
      assert (parts + [""])[1..] == parts[1..] + [""];
      assert parts[0] + "." + (Join(parts[1..], '.') + ".") == parts[0] + "." + Join(parts[1..], '.') + ".";
    } else {
      assert (parts + [""])[1..] == [""];
    }
  }

  /** The converted labels joined, with the final dot that the domain had. */
  function Joined(r: Result<seq<string>, Error>, labels: seq<string>): Result<string, Error>
    requires labels != []
  {
    if r.Err? then Err(r.error) else Ok(Join(r.value + Tail(labels), '.'))
  }

  lemma OneShot(t: Tables, m: Mode, s: string)
    requires s != "" && (m.ToUnicode? ==> Ascii(s))
    ensures Feed(t, m, "", s, true).0 == Joined(ConvertAll(t, m, Body(Split(s, DOTS))), Split(s, DOTS))
  {
    var labels := Split(s, DOTS);
    assert "" + s == s;
    EmptyDomain(s, DOTS);
    SameConversion(t, m, Body(labels));
    ConvertedLength(t, m, Body(labels));
    var r := ConvertAll(t, m, Body(labels));
    if r.Ok? {
      assert r.value != [];
      FinalDot(r.value);
      assert r.value + [] == r.value && Join(r.value, '.') + "" == Join(r.value, '.');
    }
  }

  /** One final call of the decoder on ASCII bytes is `decode`, errors included; only the empty input differs. */
  lemma DecoderIsDecode(t: Tables, s: string)
    requires s != "" && Ascii(s)
    ensures Feed(t, ToUnicode, "", s, true).0 == Decode(t, s, false)
  {
    EmptyDomain(s, DOTS);
    OneShot(t, ToUnicode, s);
  }

  /** One final call of the encoder is `encode` without its limit on the whole length; only the empty input differs. */
  lemma EncoderIsEncode(t: Tables, s: string)
    requires s != ""
    ensures var f := Feed(t, ToAscii, "", s, true).0;
            Encode(t, s, false) ==
            if f.Ok? && |f.value| > (if Tail(Split(s, DOTS)) != [] then 254 else 253) then Err(IdnaError) else f
  {
    EmptyDomain(s, DOTS);
    OneShot(t, ToAscii, s);
  }

  /** On the empty input the codec answers the empty text, where the functions refuse the empty domain. */
  lemma EmptyInput(t: Tables, m: Mode)
    ensures Feed(t, m, "", "", true).0 == Ok("")
    ensures Encode(t, "", false) == Err(IdnaError) && Decode(t, "", false) == Err(IdnaError)
  {
  }
}
