/**
 The single-pass label checks of `lib/idna/core.py`, against the rules as the standards state them: section 2 of
 RFC 5893 for right-to-left labels, and Appendix A.1 and A.2 of RFC 5892 for the two joiners. The Unicode
 properties of a label's characters are given as sequences.
 */
module IdnaRules {
  import opened Wrappers

  /** Bidirectional classes; `Other` is any class the rules never allow, `Unknown` the empty answer. */
  datatype Dir = L | R | AL | AN | EN | ES | CS | ET | ON | BN | NSM | Other | Unknown

  datatype BidiError =
    | UnknownDirection
    | BadFirst
    | InvalidRightToLeft
    | MixedNumerals
    | InvalidLeftToRight
    | BadEnding
    | EmptyLabel

  predicate RightToLeft(d: Dir) {
    d == R || d == AL || d == AN
  }

  // ----- the rules of RFC 5893, section 2 -----

  predicate AllowedRtl(d: Dir) {
    d == R || d == AL || d == AN || d == EN || d == ES || d == CS || d == ET || d == ON || d == BN || d == NSM
  }

  predicate AllowedLtr(d: Dir) {
    d == L || d == EN || d == ES || d == CS || d == ET || d == ON || d == BN || d == NSM
  }

  /** A direction with which a label may end, before any non-spacing marks. */
  predicate Ends(rtl: bool, d: Dir) {
    if rtl then d == R || d == AL || d == EN || d == AN else d == L || d == EN
  }

  /** Only marks stand behind the position. */
  predicate MarksAfter(word: seq<Dir>, i: nat) {
    forall j :: i < j < |word| ==> word[j] == NSM
  }

  /** The last character that is not a non-spacing mark exists and satisfies the ending rule. */
  predicate EndsWith(word: seq<Dir>, rtl: bool) {
    exists i :: 0 <= i < |word| && Ends(rtl, word[i]) && MarksAfter(word, i)
  }

  /** Rules 1 to 4. */
  predicate RtlLabel(word: seq<Dir>) {
    && word != [] && (word[0] == R || word[0] == AL)
    && (forall i :: 0 <= i < |word| ==> AllowedRtl(word[i]))
    && EndsWith(word, true)
    && !(EN in word && AN in word)
  }

  /** Rules 1, 5 and 6. */
  predicate LtrLabel(word: seq<Dir>) {
    && word != [] && word[0] == L
    && (forall i :: 0 <= i < |word| ==> AllowedLtr(word[i]))
    && EndsWith(word, false)
  }

  predicate BidiRule(word: seq<Dir>) {
    RtlLabel(word) || LtrLabel(word)
  }

  /** Some character is right-to-left, which is what makes the rules apply. */
  predicate IsBidi(word: seq<Dir>) {
    exists i :: 0 <= i < |word| && RightToLeft(word[i])
  }

  /** The ending as the single pass tracks it: the latest character other than a mark decides. */
  ghost predicate Ending(word: seq<Dir>, rtl: bool) {
    word != [] &&
      var last := word[|word| - 1];
      if Ends(rtl, last) then true else last == NSM && Ending(word[..|word| - 1], rtl)
  }

  lemma EndsWithOneMore(word: seq<Dir>, last: Dir, rtl: bool)
    ensures EndsWith(word + [last], rtl) <==> Ends(rtl, last) || (last == NSM && EndsWith(word, rtl))
  {
    var all, n := word + [last], |word|;
    if EndsWith(all, rtl) && !Ends(rtl, last) {
      var i :| 0 <= i < |all| && Ends(rtl, all[i]) && MarksAfter(all, i);
      assert i < n && all[n] == NSM && all[i] == word[i];
      assert MarksAfter(word, i) by { assert forall j :: 0 <= j < n ==> all[j] == word[j]; }
    }
    if last == NSM && EndsWith(word, rtl) {
      var i :| 0 <= i < n && Ends(rtl, word[i]) && MarksAfter(word, i);
      assert Ends(rtl, all[i]) && MarksAfter(all, i);
    }
    if Ends(rtl, last) { assert Ends(rtl, all[n]) && MarksAfter(all, n); }
  }

  lemma {:induction false} EndingIsEndsWith(word: seq<Dir>, rtl: bool)
    ensures Ending(word, rtl) <==> EndsWith(word, rtl)
  {
    if word != [] {
      var n := |word| - 1;
      EndingIsEndsWith(word[..n], rtl);
      EndsWithOneMore(word[..n], word[n], rtl);
      assert word == word[..n] + [word[n]];
    }
  }

  /**
   `check_bidi`: over every label, it accepts exactly the labels with known directions that either hold no
   right-to-left character, when the check is not forced, or satisfy the rules.
   */
  method CheckBidi(word: seq<Dir>, checkLtr: bool) returns (r: Result<bool, BidiError>)
    ensures r.Ok? <==> Unknown !in word && ((!IsBidi(word) && !checkLtr) || BidiRule(word))
    ensures r.Ok? ==> r.value
    ensures r == Err(UnknownDirection) <==> Unknown in word
    ensures r == Err(MixedNumerals) ==> EN in word && AN in word
  {
    var bidiLabel := false;
    for idx := 0 to |word|
      invariant Unknown !in word[..idx]
      invariant bidiLabel <==> exists i :: 0 <= i < idx && RightToLeft(word[i])
    {
      if word[idx] == Unknown {
        return Err(UnknownDirection);
      }
      if RightToLeft(word[idx]) {
        bidiLabel := true;
      }
    }
    if !bidiLabel && !checkLtr {
      return Ok(true);
    }
    if word == [] {
      return Err(EmptyLabel);
    }
    var rtl := word[0] == R || word[0] == AL;
    if !rtl && word[0] != L {
      return Err(BadFirst);
    }
    r := ScanLabel(word, rtl);
  }

  /** The second pass, over a label whose direction is known: rules 2 to 4, or 5 and 6. */
  method ScanLabel(word: seq<Dir>, rtl: bool) returns (r: Result<bool, BidiError>)
    ensures r.Ok? <==>
            && (forall i :: 0 <= i < |word| ==> if rtl then AllowedRtl(word[i]) else AllowedLtr(word[i]))
            && EndsWith(word, rtl) && (rtl ==> !(EN in word && AN in word))
    ensures r.Ok? ==> r.value
    ensures r != Err(UnknownDirection)
    ensures r == Err(MixedNumerals) ==> EN in word && AN in word
  {
    var validEnding := false;
    var numberType: Option<Dir> := None;
    for idx := 0 to |word|
      invariant rtl ==> forall i :: 0 <= i < idx ==> AllowedRtl(word[i])
      invariant !rtl ==> forall i :: 0 <= i < idx ==> AllowedLtr(word[i])
      invariant validEnding <==> Ending(word[..idx], rtl)
      invariant numberType.Some? ==> numberType.value in word && (numberType.value == EN || numberType.value == AN)
      invariant rtl ==> forall i :: 0 <= i < idx && (word[i] == EN || word[i] == AN) ==> numberType == Some(word[i])
    {
      var direction := word[idx];
      assert word[..idx + 1][..idx] == word[..idx] && word[..idx + 1] == word[..idx] + [direction];
      if rtl {
        if !AllowedRtl(direction) {
          return Err(InvalidRightToLeft);
        }
        if Ends(rtl, direction) {
          validEnding := true;
        } else if direction != NSM {
          validEnding := false;
        }
        if direction == AN || direction == EN {
          if numberType.None? {
            numberType := Some(direction);
          } else if numberType.value != direction {
            return Err(MixedNumerals);
          }
        }
      } else {
        if !AllowedLtr(direction) {
          return Err(InvalidLeftToRight);
        }
        if Ends(rtl, direction) {
          validEnding := true;
        } else if direction != NSM {
          validEnding := false;
        }
      }
    }
    assert word[..|word|] == word;
    EndingIsEndsWith(word, rtl);
    r := if validEnding then Ok(true) else Err(BadEnding);
  }

  // ----- the joiners of RFC 5892 -----

  datatype Joining = T | JL | JD | JR | NoJoining

  /** A character: whether it is one of the joiners, its joining type, and its combining class unless unnamed. */
  datatype Char = Char(zwnj: bool, zwj: bool, joining: Joining, combining: Option<nat>)

  const VIRAMA := 9

  /** The character before `pos` is a virama. */
  predicate AfterVirama(word: seq<Char>, pos: nat)
    requires pos < |word|
  {
    pos > 0 && word[pos - 1].combining == Some(VIRAMA)
  }

  /** Before `pos`: a left- or dual-joining character, then only transparent ones. */
  predicate JoinsBefore(word: seq<Char>, pos: nat)
    requires pos < |word|
  {
    exists i :: && 0 <= i < pos && (word[i].joining == JL || word[i].joining == JD)
                && forall j :: i < j < pos ==> word[j].joining == T
  }

  /** After `pos`: only transparent characters, then a right- or dual-joining one. */
  predicate JoinsAfter(word: seq<Char>, pos: nat)
    requires pos < |word|
  {
    exists i :: && pos < i < |word| && (word[i].joining == JR || word[i].joining == JD)
                && forall j :: pos < j < i ==> word[j].joining == T
  }

  /** Appendix A.1 for ZERO WIDTH NON-JOINER, A.2 for ZERO WIDTH JOINER. */
  predicate ContextJ(word: seq<Char>, pos: nat)
    requires pos < |word|
  {
    if word[pos].zwnj then AfterVirama(word, pos) || (JoinsBefore(word, pos) && JoinsAfter(word, pos))
    else word[pos].zwj && AfterVirama(word, pos)
  }

  /**
   `valid_contextj`: it answers the rule for every label and position, unless the combining class of the
   character before has to be read and is unknown, which raises.
   */
  method ValidContextJ(word: seq<Char>, pos: nat) returns (r: Result<bool, ()>)
    requires pos < |word|
    ensures r.Err? <==> (word[pos].zwnj || word[pos].zwj) && pos > 0 && word[pos - 1].combining.None?
    ensures r.Ok? ==> (r.value <==> ContextJ(word, pos))
  {
    if word[pos].zwnj {
      if pos > 0 {
        if word[pos - 1].combining.None? {
          return Err(());
        }
        if word[pos - 1].combining.value == VIRAMA {
          return Ok(true);
        }
      }
      var ok := false;
      var i := pos;
      while i > 0
        invariant 0 <= i <= pos && !ok
        invariant forall j :: i <= j < pos ==> word[j].joining == T
      {
        i := i - 1;
        if word[i].joining == T {
          continue;
        } else if word[i].joining == JL || word[i].joining == JD {
          ok := true;
          break;
        } else {
          break;
        }
      }
      assert ok <==> JoinsBefore(word, pos);
      if !ok {
        return Ok(false);
      }
      ok := false;
      i := pos + 1;
      while i < |word|
        invariant pos < i <= |word| && !ok
        invariant forall j :: pos < j < i ==> word[j].joining == T
      {
        if word[i].joining == T {
          i := i + 1;
          continue;
        } else if word[i].joining == JR || word[i].joining == JD {
          ok := true;
          break;
        } else {
          break;
        }
      }
      assert ok <==> JoinsAfter(word, pos);
      return Ok(ok);
    }
    if word[pos].zwj {
      if pos > 0 {
        if word[pos - 1].combining.None? {
          return Err(());
        }
        if word[pos - 1].combining.value == VIRAMA {
          return Ok(true);
        }
      }
      return Ok(false);
    }
    return Ok(false);
  }
}
