/**
 The incremental encoder and decoder of `lib/idna/codec.py`, over the buffering base classes of Python's `codecs`:
 the unconsumed tail of each call is put in front of the next. Fed in pieces, they give what one call gives.
 */
module IdnaCodec {
  import opened Wrappers
  import opened Strings
  import opened IdnaCore

  // ----- what one call computes -----

  function ConvertEach(t: Tables, m: Mode, labels: seq<string>): Result<seq<string>, Error> {
    if labels == [] then Ok([])
    else
      var a := Convert(t, m, labels[0]);
      if a.Err? then Err(a.error)
      else
        var rest := ConvertEach(t, m, labels[1..]);
        if rest.Err? then rest else Ok([a.value] + rest.value)
  }

  /** The running `size`: a dot is added in front of a label only when something was counted before it. */
  function Size(labels: seq<string>): nat {
    if labels == [] then 0
    else
      var before := Size(labels[..|labels| - 1]);
      before + (if before != 0 then 1 else 0) + |labels[|labels| - 1]|
  }

  function Kept(labels: seq<string>, final: bool): seq<string>
    requires labels != []
  {
    if labels[|labels| - 1] == "" || !final then labels[..|labels| - 1] else labels
  }

  function TrailingDot(labels: seq<string>, final: bool): string
    requires labels != []
  {
    if labels[|labels| - 1] == "" || (!final && |labels| > 1) then "." else ""
  }

  /** An output and the length of the input it accounts for. */
  datatype Part = Part(output: string, consumed: nat)

  /** `_buffer_encode` and `_buffer_decode`: the output, and how much of the input it accounts for. */
  function Buffered(t: Tables, m: Mode, data: string, final: bool): Result<Part, Error> {
    if data == "" then Ok(Part("", 0))
    else if m.ToUnicode? && !Ascii(data) then Err(ValueError)
    else
      var labels := Split(data, DOTS);
      Assembled(ConvertEach(t, m, Kept(labels, final)), TrailingDot(labels, final), Size(Kept(labels, final)))
  }

  /** The converted labels joined, with the dot behind them, and the size of what they stand for. */
  function Assembled(r: Result<seq<string>, Error>, dot: string, size: nat): Result<Part, Error> {
    if r.Err? then Err(r.error) else Ok(Part(Join(r.value, '.') + dot, size + |dot|))
  }

  /** `data[consumed:]`: a Python slice does not fail when it begins past the end. */
  function DropFirst(data: string, n: nat): string {
    if n <= |data| then data[n..] else ""
  }

  /** One call of the base class's `encode` or `decode`: the answer and the new buffer. */
  function Feed(t: Tables, m: Mode, buffer: string, input: string, final: bool): (Result<string, Error>, string) {
    var r := Buffered(t, m, buffer + input, final);
    if r.Err? then (Err(r.error), buffer)
    else (Ok(r.value.output), DropFirst(buffer + input, r.value.consumed))
  }

  class IncrementalCodec {
    const t: Tables
    const m: Mode
    var buffer: string

    constructor (t: Tables, m: Mode)
      ensures this.t == t && this.m == m && buffer == ""
    {
      this.t, this.m, buffer := t, m, "";
    }

    method BufferConvert(data: string, final: bool) returns (r: Result<Part, Error>)
      ensures r == Buffered(t, m, data, final)
    {
      if data == "" {
        return Ok(Part("", 0));
      }
      if m.ToUnicode? && !Ascii(data) {
        return Err(ValueError);
      }
      var labels, trailingDot := CutLabels(Split(data, DOTS), final);
      var c, size := ConvertLabels(labels);
      r := Assembled(c, trailingDot, size);
    }

    /** The labels to convert now, and the dot that follows them. */
    method CutLabels(split: seq<string>, final: bool) returns (labels: seq<string>, trailingDot: string)
      requires split != []
      ensures labels == Kept(split, final) && trailingDot == TrailingDot(split, final)
    {
      labels, trailingDot := split, "";
      if labels[|labels| - 1] == "" {
        trailingDot := ".";
        labels := labels[..|labels| - 1];
      } else if !final {
        labels := labels[..|labels| - 1];
        if labels != [] {
          trailingDot := ".";
        }
      }
    }

    /** The loop over the labels: the converted labels, and the length of the input they account for. */
    method ConvertLabels(labels: seq<string>) returns (r: Result<seq<string>, Error>, size: nat)
      ensures r == ConvertEach(t, m, labels) && (r.Ok? ==> size == Size(labels))
    {
      var result: seq<string> := [];
      size := 0;
      assert labels[0..] == labels;
      AfterEnds([], ConvertEach(t, m, labels));
      for k := 0 to |labels|
        invariant ConvertEach(t, m, labels) == After(result, ConvertEach(t, m, labels[k..]))
        invariant size == Size(labels[..k])
      {
        AfterStep(result, Convert(t, m, labels[k]), ConvertEach(t, m, labels[k + 1..]));
        assert labels[k..][1..] == labels[k + 1..] && labels[..k + 1][..k] == labels[..k];
        var a := Convert(t, m, labels[k]);
        if a.Err? {
          return Err(a.error), size;
        }
        result := result + [a.value];
        if size != 0 {
          size := size + 1;
        }
        size := size + |labels[k]|;
      }
      AfterEnds(result, Ok([]));
      assert labels[..|labels|] == labels;
      r := Ok(result);
    }

    method FeedInput(input: string, final: bool) returns (r: Result<string, Error>)
      modifies this
      ensures (r, buffer) == Feed(t, m, old(buffer), input, final)
    {
      var data := buffer + input;
      var b := BufferConvert(data, final);
      if b.Err? {
        return Err(b.error);
      }
      buffer := DropFirst(data, b.value.consumed);
      r := Ok(b.value.output);
    }
  }

  // ----- labels one by one -----

  function Concat(a: Result<string, Error>, b: Result<string, Error>): Result<string, Error> {
    if a.Err? then a else if b.Err? then b else Ok(a.value + b.value)
  }

  /** Each label converted and closed with a dot. */
  function Closed(t: Tables, m: Mode, labels: seq<string>): Result<string, Error> {
    if labels == [] then Ok("")
    else Concat(Concat(Convert(t, m, labels[0]), Ok(".")), Closed(t, m, labels[1..]))
  }

  /** All labels but the last closed; the last converted unless it is empty. */
  function Whole(t: Tables, m: Mode, labels: seq<string>): Result<string, Error>
    requires labels != []
  {
    if |labels| == 1 then (if labels[0] == "" then Ok("") else Convert(t, m, labels[0]))
    else Concat(Concat(Convert(t, m, labels[0]), Ok(".")), Whole(t, m, labels[1..]))
  }

  lemma ConcatAssociative(a: Result<string, Error>, b: Result<string, Error>, c: Result<string, Error>)
    ensures Concat(Concat(a, b), c) == Concat(a, Concat(b, c))
    ensures Concat(Ok(""), a) == a && Concat(a, Ok("")) == a
  {
    if a.Ok? && b.Ok? && c.Ok? { assert a.value + b.value + c.value == a.value + (b.value + c.value); }
    if a.Ok? { assert "" + a.value == a.value && a.value + "" == a.value; }
  }

  lemma {:induction false} WholeConcat(t: Tables, m: Mode, a: seq<string>, b: seq<string>)
    requires b != []
    ensures Whole(t, m, a + b) == Concat(Closed(t, m, a), Whole(t, m, b))
  {
    if a == [] {
      assert a + b == b;
      ConcatAssociative(Whole(t, m, b), Ok(""), Ok(""));
    } else {
      assert (a + b)[1..] == a[1..] + b;
      WholeConcat(t, m, a[1..], b);
      ConcatAssociative(Concat(Convert(t, m, a[0]), Ok(".")), Closed(t, m, a[1..]), Whole(t, m, b));
    }
  }

  lemma ConvertedNotEmpty(t: Tables, m: Mode, s: string)
    ensures Convert(t, m, s).Ok? ==> s != "" && Convert(t, m, s).value != ""
  {
    assert Lower("") == "";
  }

  /** Converting a list and joining it with a dot behind is closing each label. */
  lemma {:induction false} JoinIsClosed(t: Tables, m: Mode, labels: seq<string>)
    requires labels != []
    ensures var r := ConvertEach(t, m, labels);
            Closed(t, m, labels) == if r.Err? then Err(r.error) else Ok(Join(r.value, '.') + ".")
  {
    if |labels| > 1 {
      JoinIsClosed(t, m, labels[1..]);
      var a, r := Convert(t, m, labels[0]), ConvertEach(t, m, labels[1..]);
      if a.Ok? && r.Ok? {
        assert ([a.value] + r.value)[1..] == r.value && r.value != [];
        assert (a.value + ".") + (Join(r.value, '.') + ".") == (a.value + "." + Join(r.value, '.')) + ".";
      }
    } else {
      var a := Convert(t, m, labels[0]);
      assert labels[1..] == [] && ConvertEach(t, m, []) == Ok([]);
      if a.Ok? {
        assert [a.value] + [] == [a.value];
        assert a.value + "." + "" == a.value + ".";
      }
    }
  }

  lemma {:induction false} JoinIsWhole(t: Tables, m: Mode, labels: seq<string>)
    requires labels != [] && labels[|labels| - 1] != ""
    ensures var r := ConvertEach(t, m, labels);
            Whole(t, m, labels) == if r.Err? then Err(r.error) else Ok(Join(r.value, '.'))
  {
    var a := Convert(t, m, labels[0]);
    if |labels| == 1 {
      assert labels[1..] == [] && ConvertEach(t, m, []) == Ok([]);
      if a.Ok? { assert [a.value] + [] == [a.value]; }
    } else {
      JoinIsWhole(t, m, labels[1..]);
      var r := ConvertEach(t, m, labels[1..]);
      if a.Ok? && r.Ok? {
        assert ([a.value] + r.value)[1..] == r.value && r.value != [];
      }
    }
  }

  // ----- how much is consumed -----

  lemma {:induction false} SizeIsWidth(labels: seq<string>)
    requires labels != [] && forall i :: 0 <= i < |labels| ==> labels[i] != ""
    ensures Size(labels) + 1 == Width(labels) && Size(labels) > 0
  {
    var n := |labels| - 1;
    WidthFromEnd(labels);
    if n > 0 { SizeIsWidth(labels[..n]); }
  }

  lemma {:induction false} ConvertedLabels(t: Tables, m: Mode, labels: seq<string>)
    requires ConvertEach(t, m, labels).Ok?
    ensures forall i :: 0 <= i < |labels| ==> labels[i] != ""
  {
    if labels != [] {
      ConvertedNotEmpty(t, m, labels[0]);
      ConvertedLabels(t, m, labels[1..]);
    }
  }

  // ----- one call, restated -----

  lemma FinalAfterDot(t: Tables, m: Mode, data: string)
    requires data != "" && (m.ToUnicode? ==> Ascii(data)) && Split(data, DOTS)[|Split(data, DOTS)| - 1] == ""
    ensures var w, b := Whole(t, m, Split(data, DOTS)), Buffered(t, m, data, true);
            && (b.Ok? <==> w.Ok?) && (b.Ok? ==> b.value.output == w.value && b.value.consumed == |data|)
  {
    var labels := Split(data, DOTS);
    var body := labels[..|labels| - 1];
    SplitWidth(data, DOTS);
    assert labels == body + [""];
    WholeConcat(t, m, body, [""]);
    ConcatAssociative(Closed(t, m, body), Ok(""), Ok(""));
    JoinIsClosed(t, m, body);
    if ConvertEach(t, m, body).Ok? {
      ConvertedLabels(t, m, body);
      SizeIsWidth(body);
    }
  }

  lemma FinalAfterLabel(t: Tables, m: Mode, data: string)
    requires data != "" && (m.ToUnicode? ==> Ascii(data)) && Split(data, DOTS)[|Split(data, DOTS)| - 1] != ""
    ensures var w, b := Whole(t, m, Split(data, DOTS)), Buffered(t, m, data, true);
            && (b.Ok? <==> w.Ok?) && (b.Ok? ==> b.value.output == w.value && b.value.consumed == |data|)
  {
    var labels := Split(data, DOTS);
    SplitWidth(data, DOTS);
    JoinIsWhole(t, m, labels);
    if ConvertEach(t, m, labels).Ok? {
      ConvertedLabels(t, m, labels);
      SizeIsWidth(labels);
      WidthFromEnd(labels);
      assert Join(ConvertEach(t, m, labels).value, '.') + "" == Join(ConvertEach(t, m, labels).value, '.');
    }
  }

  lemma FinalCall(t: Tables, m: Mode, data: string)
    requires m.ToUnicode? ==> Ascii(data)
    ensures var w, b := Whole(t, m, Split(data, DOTS)), Buffered(t, m, data, true);
            && (b.Ok? <==> w.Ok?) && (b.Ok? ==> b.value.output == w.value && b.value.consumed == |data|)
  {
    if data == "" {
    } else if Split(data, DOTS)[|Split(data, DOTS)| - 1] == "" {
      FinalAfterDot(t, m, data);
    } else {
      FinalAfterLabel(t, m, data);
    }
  }

  lemma OpenCall(t: Tables, m: Mode, data: string)
    requires m.ToUnicode? ==> Ascii(data)
    ensures var labels := Split(data, DOTS);
            var c, b := Closed(t, m, labels[..|labels| - 1]), Buffered(t, m, data, false);
            && (b.Ok? <==> c.Ok?)
            && (b.Ok? ==> && b.value.output == c.value && b.value.consumed <= |data|
                          && data[b.value.consumed..] == labels[|labels| - 1])
  {
    var labels := Split(data, DOTS);
    var n := |labels| - 1;
    SplitWidth(data, DOTS);
    if data != "" && n > 0 {
      JoinIsClosed(t, m, labels[..n]);
      if ConvertEach(t, m, labels[..n]).Ok? {
        ConvertedLabels(t, m, labels[..n]);
        SizeIsWidth(labels[..n]);
      }
    } else if data != "" {
      assert labels[..n] == [] && Join([], '.') + "" == "";
    }
  }

  // ----- whole runs -----

  /** The pieces fed one after another, the last with `final` set; the outputs joined. */
  function FeedAll(t: Tables, m: Mode, buffer: string, pieces: seq<string>): Result<string, Error>
    requires pieces != []
    decreases |pieces|
  {
    if |pieces| == 1 then Feed(t, m, buffer, pieces[0], true).0
    else
      var f := Feed(t, m, buffer, pieces[0], false);
      if f.0.Err? then f.0 else Concat(f.0, FeedAll(t, m, f.1, pieces[1..]))
  }

  function Text(pieces: seq<string>): string {
    if pieces == [] then "" else pieces[0] + Text(pieces[1..])
  }

  ghost predicate SameOutcome(a: Result<string, Error>, b: Result<string, Error>) {
    (a.Ok? <==> b.Ok?) && (a.Ok? ==> a.value == b.value)
  }

  /** A call that is not the last answers the finished labels, closed, and keeps the unfinished one. */
  lemma OpenFeed(t: Tables, m: Mode, buffer: string, piece: string)
    requires m.ToUnicode? ==> Ascii(buffer + piece)
    ensures var (r, buffer') := Feed(t, m, buffer, piece, false);
            var labels := Split(buffer + piece, DOTS);
            && SameOutcome(r, Closed(t, m, labels[..|labels| - 1]))
            && (r.Ok? ==> buffer' == labels[|labels| - 1])
  {
    OpenCall(t, m, buffer + piece);
  }

  lemma LastLabelAscii(data: string, rest: string)
    requires Ascii(data + rest)
    ensures Ascii(Split(data, DOTS)[|Split(data, DOTS)| - 1] + rest)
  {
    var labels := Split(data, DOTS);
    SplitWidth(data, DOTS);
    var last := labels[|labels| - 1];
    var k := Width(labels[..|labels| - 1]);
    assert forall i :: 0 <= i < |last + rest| ==> (last + rest)[i] == (data + rest)[k + i];
  }

  /** What a text converts to is what its finished labels give, then the rest. */
  lemma WholeInTwo(t: Tables, m: Mode, data: string, rest: string)
    ensures var labels := Split(data, DOTS);
            var n := |labels| - 1;
            Whole(t, m, Split(data + rest, DOTS))
            == Concat(Closed(t, m, labels[..n]), Whole(t, m, Split(labels[n] + rest, DOTS)))
  {
    var labels := Split(data, DOTS);
    var n := |labels| - 1;
    SplitContinues(data, rest, DOTS);
    ExtendIs(labels, rest, DOTS);
    WholeConcat(t, m, labels[..n], Split(labels[n] + rest, DOTS));
  }

  /** One piece that is not the last: what the whole text converts to is what this call gives, then the rest. */
  lemma FirstPiece(t: Tables, m: Mode, buffer: string, piece: string, rest: string)
    requires m.ToUnicode? ==> Ascii(buffer + piece + rest)
    ensures var (r, buffer') := Feed(t, m, buffer, piece, false);
            var w := Whole(t, m, Split(buffer + piece + rest, DOTS));
            && (r.Err? ==> w.Err?)
            && (r.Ok? ==> && (m.ToUnicode? ==> Ascii(buffer' + rest))
                          && w == Concat(r, Whole(t, m, Split(buffer' + rest, DOTS))))
  {
    if m.ToUnicode? {
      PrefixAscii(buffer + piece, rest);
      LastLabelAscii(buffer + piece, rest);
    }
    OpenFeed(t, m, buffer, piece);
    WholeInTwo(t, m, buffer + piece, rest);
  }

  lemma {:induction false} PiecesAreWhole(t: Tables, m: Mode, buffer: string, pieces: seq<string>)
    requires pieces != [] && (m.ToUnicode? ==> Ascii(buffer + Text(pieces)))
    ensures SameOutcome(FeedAll(t, m, buffer, pieces), Whole(t, m, Split(buffer + Text(pieces), DOTS)))
    decreases |pieces|
  {
    if |pieces| == 1 {
      assert Text(pieces) == pieces[0];
      FinalCall(t, m, buffer + pieces[0]);
    } else {
      var rest := Text(pieces[1..]);
      assert buffer + Text(pieces) == buffer + pieces[0] + rest;
      FirstPiece(t, m, buffer, pieces[0], rest);
      var f := Feed(t, m, buffer, pieces[0], false);
      if f.0.Ok? { PiecesAreWhole(t, m, f.1, pieces[1..]); }
    }
  }

  lemma PrefixAscii(data: string, rest: string)
    requires Ascii(data + rest)
    ensures Ascii(data)
  {
    assert forall i :: 0 <= i < |data| ==> data[i] == (data + rest)[i];
  }

  /**
   However the input is cut into pieces, feeding them one by one and setting `final` on the last succeeds iff the
   single final call on the whole succeeds, and then the joined outputs are that call's output. For the decoder the
   input is bytes; a byte that is not ASCII fails both.
   */
  lemma {:induction false} ChunkInvariance(t: Tables, m: Mode, pieces: seq<string>)
    requires pieces != []
    ensures SameOutcome(FeedAll(t, m, "", pieces), Feed(t, m, "", Text(pieces), true).0)
  {
    var whole := Text(pieces);
    assert "" + whole == whole;
    if m.ToUnicode? && !Ascii(whole) {
      NonAsciiFails(t, m, "", pieces);
    } else {
      PiecesAreWhole(t, m, "", pieces);
      FinalCall(t, m, whole);
    }
  }

  lemma {:induction false} NonAsciiFails(t: Tables, m: Mode, buffer: string, pieces: seq<string>)
    requires pieces != [] && m.ToUnicode? && !Ascii(buffer + Text(pieces))
    ensures FeedAll(t, m, buffer, pieces).Err?
    decreases |pieces|
  {
    var data := buffer + pieces[0];
    if |pieces| == 1 {
      assert Text(pieces) == pieces[0];
    } else if Ascii(data) {
      var rest := Text(pieces[1..]);
      assert buffer + Text(pieces) == data + rest;
      OpenCall(t, m, data);
      var f := Feed(t, m, buffer, pieces[0], false);
      if f.0.Ok? {
        var i :| 0 <= i < |data + rest| && (data + rest)[i] >= 128 as char;
        assert (f.1 + rest)[i - |data| + |f.1|] == (data + rest)[i];
        NonAsciiFails(t, m, f.1, pieces[1..]);
      }
    }
  }

  /** After a final call nothing is left in the buffer. */
  lemma FinalCallEmptiesBuffer(t: Tables, m: Mode, buffer: string, input: string)
    requires Feed(t, m, buffer, input, true).0.Ok?
    ensures Feed(t, m, buffer, input, true).1 == ""
  {
    FinalCall(t, m, buffer + input);
  }
}
