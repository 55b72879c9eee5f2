/**
 Labels and domains of `lib/idna/core.py`: `check_label`, `alabel`, `ulabel`, `encode` and `decode`. The
 UTS 46 mapping, the Unicode tables, normalisation and the punycode codec are given. Byte strings are strings of
 characters below 256.
 */
module IdnaCore {
  import opened Wrappers
  import opened Strings
  import Rules = IdnaRules

  datatype Tables = Tables(
    nfc: string -> bool,
    mark: char -> bool,
    pvalid: char -> bool,
    contextJ: char -> bool,
    contextO: char -> bool,
    validContextO: (string, nat) -> bool,
    joiner: char -> Rules.Char,
    direction: char -> Rules.Dir,
    puny: string -> string,
    unpuny: string -> Option<string>)

  datatype Error = IdnaError | InvalidCodepoint | InvalidContext | BidiError | ValueError

  const ALABEL_PREFIX := "xn--"

  // ----- characters -----

  predicate Ascii(s: string) {
    forall i :: 0 <= i < |s| ==> s[i] < 128 as char
  }

  function LowerChar(c: char): char {
    if 'A' <= c <= 'Z' then (c as int + 32) as char else c
  }

  /** `bytes.lower`. */
  function Lower(s: string): string {
    seq(|s|, i requires 0 <= i < |s| => LowerChar(s[i]))
  }

  /** The full stop and the three ideographic dots. */
  const DOTS := {'.', '\U{3002}', '\U{FF0E}', '\U{FF61}'}

  /** Only the full stop counts when strict. */
  function Dots(strict: bool): set<char> {
    if strict then {'.'} else DOTS
  }

  // ----- labels -----

  predicate HyphensOk(s: string)
    requires s != ""
  {
    !(|s| >= 4 && s[2] == '-' && s[3] == '-') && s[0] != '-' && s[|s| - 1] != '-'
  }

  function Joiners(t: Tables, s: string): seq<Rules.Char> {
    seq(|s|, i requires 0 <= i < |s| => t.joiner(s[i]))
  }

  function Directions(t: Tables, s: string): seq<Rules.Dir> {
    seq(|s|, i requires 0 <= i < |s| => t.direction(s[i]))
  }

  function CheckCodepoints(t: Tables, s: string, pos: nat): Result<(), Error>
    requires pos <= |s|
    decreases |s| - pos
  {
    if pos == |s| then Ok(())
    else if t.pvalid(s[pos]) then CheckCodepoints(t, s, pos + 1)
    else if t.contextJ(s[pos]) then
      var c := Joiners(t, s);
      if (c[pos].zwnj || c[pos].zwj) && pos > 0 && c[pos - 1].combining.None? then Err(ValueError)
      else if Rules.ContextJ(c, pos) then CheckCodepoints(t, s, pos + 1) else Err(InvalidContext)
    else if t.contextO(s[pos]) then
      if t.validContextO(s, pos) then CheckCodepoints(t, s, pos + 1) else Err(InvalidContext)
    else Err(InvalidCodepoint)
  }

  function CheckLabel(t: Tables, s: string): Result<(), Error> {
    if s == "" || !t.nfc(s) || !HyphensOk(s) || t.mark(s[0]) then Err(IdnaError)
    else if CheckCodepoints(t, s, 0).Err? then CheckCodepoints(t, s, 0)
    else
      var d := Directions(t, s);
      if Rules.Unknown !in d && (!Rules.IsBidi(d) || Rules.BidiRule(d)) then Ok(()) else Err(BidiError)
  }

  /** `ulabel` on bytes, or on a string that is ASCII. */
  function UlabelAscii(t: Tables, s: string): Result<string, Error> {
    var l := Lower(s);
    if ALABEL_PREFIX <= l then
      var rest := l[4..];
      if rest == "" || rest[|rest| - 1] == '-' || t.unpuny(rest).None? then Err(IdnaError)
      else
        var u := t.unpuny(rest).value;
        if CheckLabel(t, u).Ok? then Ok(u) else Err(CheckLabel(t, u).error)
    else if CheckLabel(t, l).Ok? then Ok(l) else Err(CheckLabel(t, l).error)
  }

  function Ulabel(t: Tables, s: string): Result<string, Error> {
    if Ascii(s) then UlabelAscii(t, s)
    else if CheckLabel(t, s).Ok? then Ok(s) else Err(CheckLabel(t, s).error)
  }

  function Alabel(t: Tables, s: string): Result<string, Error> {
    if Ascii(s) then
      if UlabelAscii(t, s).Err? then UlabelAscii(t, s) else if |s| > 63 then Err(IdnaError) else Ok(s)
    else if CheckLabel(t, s).Err? then Err(CheckLabel(t, s).error)
    else
      var b := ALABEL_PREFIX + t.puny(s);
      if |b| > 63 then Err(IdnaError) else Ok(b)
  }

  // ----- domains -----

  /** The labels without the empty one that a trailing dot leaves at the end. */
  function Body(labels: seq<string>): seq<string>
    requires labels != []
  {
    if labels[|labels| - 1] == "" then labels[..|labels| - 1] else labels
  }

  function Tail(labels: seq<string>): seq<string>
    requires labels != []
  {
    if labels[|labels| - 1] == "" then [""] else []
  }

  datatype Mode = ToAscii | ToUnicode

  function Convert(t: Tables, m: Mode, s: string): Result<string, Error> {
    if m.ToAscii? then Alabel(t, s) else Ulabel(t, s)
  }

  /** Converts label by label, stopping at the first that fails or comes out empty. */
  function ConvertAll(t: Tables, m: Mode, labels: seq<string>): Result<seq<string>, Error> {
    if labels == [] then Ok([])
    else
      var a := Convert(t, m, labels[0]);
      if a.Err? then Err(a.error)
      else if a.value == "" then Err(IdnaError)
      else
        var rest := ConvertAll(t, m, labels[1..]);
        if rest.Err? then rest else Ok([a.value] + rest.value)
  }

  function Encode(t: Tables, s: string, strict: bool): Result<string, Error> {
    var labels := Split(s, Dots(strict));
    if labels == [""] then Err(IdnaError)
    else
      var r := ConvertAll(t, ToAscii, Body(labels));
      if r.Err? then Err(r.error)
      else
        var e := Join(r.value + Tail(labels), '.');
        if |e| > (if Tail(labels) != [] then 254 else 253) then Err(IdnaError) else Ok(e)
  }

  function Decode(t: Tables, s: string, strict: bool): Result<string, Error> {
    var labels := Split(s, Dots(strict));
    if labels == [""] then Err(IdnaError)
    else
      var r := ConvertAll(t, ToUnicode, Body(labels));
      if r.Err? then Err(r.error) else Ok(Join(r.value + Tail(labels), '.'))
  }

  /** A conversion completed by what was converted before it. */
  ghost function After(result: seq<string>, rest: Result<seq<string>, Error>): Result<seq<string>, Error> {
    if rest.Err? then rest else Ok(result + rest.value)
  }

  lemma AfterEnds(result: seq<string>, rest: Result<seq<string>, Error>)
    ensures After([], rest) == rest && After(result, Ok([])) == Ok(result)
  {
    if rest.Ok? { assert [] + rest.value == rest.value; }
    assert result + [] == result;
  }

  lemma AfterStep(result: seq<string>, a: Result<string, Error>, rest: Result<seq<string>, Error>)
    ensures a.Ok? && rest.Ok? ==> After(result + [a.value], rest) == After(result, Ok([a.value] + rest.value))
  {
    if a.Ok? && rest.Ok? {
      assert result + [a.value] + rest.value == result + ([a.value] + rest.value);
    }
  }

  /** The loop shared by `encode` and `decode`. */
  method ConvertLabels(t: Tables, m: Mode, labels: seq<string>) returns (r: Result<seq<string>, Error>)
    ensures r == ConvertAll(t, m, labels)
  {
    var result: seq<string> := [];
    assert labels[0..] == labels;
    AfterEnds([], ConvertAll(t, m, labels));
    for k := 0 to |labels|
      invariant ConvertAll(t, m, labels) == After(result, ConvertAll(t, m, labels[k..]))
    {
      AfterStep(result, Convert(t, m, labels[k]), ConvertAll(t, m, labels[k + 1..]));
      assert labels[k..][1..] == labels[k + 1..];
      var a := Convert(t, m, labels[k]);
      if a.Err? {
        return Err(a.error);
      }
      if a.value == "" {
        return Err(IdnaError);
      }
      result := result + [a.value];
    }
    AfterEnds(result, Ok([]));
    r := Ok(result);
  }

  // ----- the entry points -----

  /** A `str`, or bytes. */
  datatype Input = Chars(s: string) | Octets(b: string)

  /** The text to work on: bytes must be ASCII, and the UTS 46 mapping, when asked for, may reject a character. */
  function Prepared(input: Input, uts46: Option<string -> Result<string, Error>>): Result<string, Error> {
    if input.Octets? && !Ascii(input.b) then Err(IdnaError)
    else
      var s := if input.Octets? then input.b else input.s;
      if uts46.Some? then uts46.value(s) else Ok(s)
  }

  method EncodeDomain(t: Tables, input: Input, strict: bool, uts46: Option<string -> Result<string, Error>>)
    returns (r: Result<string, Error>)
    ensures r == var p := Prepared(input, uts46); if p.Err? then Err(p.error) else Encode(t, p.value, strict)
  {
    var p := Prepared(input, uts46);
    if p.Err? {
      return Err(p.error);
    }
    var labels, trailingDot := CutDomain(p.value, strict);
    if labels.None? {
      return Err(IdnaError);
    }
    var result := ConvertLabels(t, ToAscii, labels.value);
    if result.Err? {
      return Err(result.error);
    }
    var e := Join(result.value + (if trailingDot then [""] else []), '.');
    r := if |e| > (if trailingDot then 254 else 253) then Err(IdnaError) else Ok(e);
  }

  method DecodeDomain(t: Tables, input: Input, strict: bool, uts46: Option<string -> Result<string, Error>>)
    returns (r: Result<string, Error>)
    ensures r == var p := Prepared(input, uts46); if p.Err? then Err(p.error) else Decode(t, p.value, strict)
  {
    var p := Prepared(input, uts46);
    if p.Err? {
      return Err(p.error);
    }
    var labels, trailingDot := CutDomain(p.value, strict);
    if labels.None? {
      return Err(IdnaError);
    }
    var result := ConvertLabels(t, ToUnicode, labels.value);
    if result.Err? {
      return Err(result.error);
    }
    r := Ok(Join(result.value + (if trailingDot then [""] else []), '.'));
  }

  /** The labels of a domain and whether it ends in a dot; none for the empty domain. */
  method CutDomain(s: string, strict: bool) returns (labels: Option<seq<string>>, trailingDot: bool)
    ensures labels.None? <==> Split(s, Dots(strict)) == [""]
    ensures labels.Some? ==> labels.value == Body(Split(s, Dots(strict)))
    ensures Tail(Split(s, Dots(strict))) == if trailingDot then [""] else []
  {
    var all := Split(s, Dots(strict));
    trailingDot := all[|all| - 1] == "";
    if all == [""] {
      return None, trailingDot;
    }
    labels := Some(if trailingDot then all[..|all| - 1] else all);
  }
}
