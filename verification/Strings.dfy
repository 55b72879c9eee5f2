/** Joining and splitting text. */
module Strings {
  /** `separator.join(parts)`. */
  function Join(parts: seq<string>, separator: char): string {
    if parts == [] then ""
    else if |parts| == 1 then parts[0]
    else parts[0] + [separator] + Join(parts[1..], separator)
  }

  lemma JoinFirst(p: string, parts: seq<string>, separator: char)
    ensures Join([p] + parts, separator) == if parts == [] then p else p + [separator] + Join(parts, separator)
  {
    assert ([p] + parts)[1..] == parts;
  }

  /** The text cut at each of the given characters. */
  function Split(s: string, at: set<char>): (r: seq<string>)
    ensures r != []
  {
    if s == "" then [""]
    else
      var rest := Split(s[1..], at);
      if s[0] in at then [""] + rest else [[s[0]] + rest[0]] + rest[1..]
  }

  /** None of the given characters occurs in the text. */
  predicate Free(s: string, of: set<char>) {
    forall i :: 0 <= i < |s| ==> s[i] !in of
  }

  predicate AllFree(parts: seq<string>, of: set<char>) {
    forall i :: 0 <= i < |parts| ==> Free(parts[i], of)
  }

  lemma {:induction false} SplitOne(p: string, at: set<char>)
    requires Free(p, at)
    ensures Split(p, at) == [p]
  {
    if p != "" {
      SplitOne(p[1..], at);
      assert [p[0]] + p[1..] == p;
    }
  }

  lemma {:induction false} SplitFirst(p: string, separator: char, rest: string, at: set<char>)
    requires Free(p, at) && separator in at
    ensures Split(p + [separator] + rest, at) == [p] + Split(rest, at)
  {
    if p == "" {
      assert p + [separator] + rest == [separator] + rest && ([separator] + rest)[1..] == rest;
    } else {
      SplitFirst(p[1..], separator, rest, at);
      assert (p + [separator] + rest)[1..] == p[1..] + [separator] + rest;
      assert [p[0]] + p[1..] == p;
    }
  }

  /** Splitting what was joined gives the parts back, when none of them holds a splitting character. */
  lemma {:induction false} SplitJoin(parts: seq<string>, separator: char, at: set<char>)
    requires parts != [] && AllFree(parts, at) && separator in at
    ensures Split(Join(parts, separator), at) == parts
  {
    if |parts| == 1 {
      SplitOne(parts[0], at);
    } else {
      SplitFirst(parts[0], separator, Join(parts[1..], separator), at);
      SplitJoin(parts[1..], separator, at);
    }
  }

  lemma {:induction false} SplitIsFree(s: string, at: set<char>)
    ensures AllFree(Split(s, at), at)
  {
    if s != "" {
      SplitIsFree(s[1..], at);
    }
  }

  /** The only splitting character that occurs is the separator. */
  predicate OnlySeparator(s: string, separator: char, at: set<char>) {
    forall i :: 0 <= i < |s| && s[i] in at ==> s[i] == separator
  }

  lemma JoinPrepended(c: char, rest: seq<string>, separator: char)
    requires rest != []
    ensures Join([[c] + rest[0]] + rest[1..], separator) == [c] + Join(rest, separator)
  {
    JoinFirst([c] + rest[0], rest[1..], separator);
    if |rest| > 1 {
      assert [c] + rest[0] + [separator] + Join(rest[1..], separator)
             == [c] + (rest[0] + [separator] + Join(rest[1..], separator));
    }
  }

  /** Joining what was split gives the text back, when it holds no other splitting character than the separator. */
  lemma {:induction false} JoinSplit(s: string, separator: char, at: set<char>)
    requires OnlySeparator(s, separator, at)
    ensures Join(Split(s, at), separator) == s
  {
    if s != "" {
      var rest := Split(s[1..], at);
      JoinSplit(s[1..], separator, at);
      assert [s[0]] + s[1..] == s;
      if s[0] in at {
        JoinFirst("", rest, separator);
        assert "" + [separator] + s[1..] == s;
      } else {
        JoinPrepended(s[0], rest, separator);
      }
    }
  }

  lemma {:induction false} JoinHasOnlySeparator(parts: seq<string>, separator: char, at: set<char>)
    requires AllFree(parts, at)
    ensures OnlySeparator(Join(parts, separator), separator, at)
  {
    if |parts| > 1 {
      JoinHasOnlySeparator(parts[1..], separator, at);
      var s, r := Join(parts, separator), Join(parts[1..], separator);
      forall i | 0 <= i < |s| && s[i] in at ensures s[i] == separator {
        if i > |parts[0]| { assert s[i] == r[i - |parts[0]| - 1]; }
      }
    }
  }

  // ----- splitting text that arrives in pieces -----

  /** The characters that closed parts take up: each part and the separator behind it. */
  function Width(parts: seq<string>): nat {
    if parts == [] then 0 else |parts[0]| + 1 + Width(parts[1..])
  }

  lemma {:induction false} WidthFromEnd(parts: seq<string>)
    requires parts != []
    ensures Width(parts) == Width(parts[..|parts| - 1]) + |parts[|parts| - 1]| + 1
  {
    if |parts| > 1 {
      WidthFromEnd(parts[1..]);
      assert parts[1..][..|parts| - 2] == parts[..|parts| - 1][1..];
    }
  }

  /** The parts of a text with one more character in front. */
  ghost function Prepend(c: char, rest: seq<string>, at: set<char>): (r: seq<string>)
    requires rest != []
    ensures r != []
  {
    if c in at then [""] + rest else [[c] + rest[0]] + rest[1..]
  }

  lemma PrependWidth(c: char, rest: seq<string>, at: set<char>)
    requires rest != []
    ensures var r := Prepend(c, rest, at);
            && r[|r| - 1] == (if c !in at && |rest| == 1 then [c] + rest[0] else rest[|rest| - 1])
            && Width(r[..|r| - 1]) == Width(rest[..|rest| - 1]) + (if c !in at && |rest| == 1 then 0 else 1)
  {
    var r, n := Prepend(c, rest, at), |rest| - 1;
    if c in at {
      assert r[..n + 1][1..] == rest[..n];
    } else if n > 0 {
      assert r[1..] == rest[1..];
      assert r[..n][1..] == r[1..][..n - 1] && rest[..n][1..] == rest[1..][..n - 1];
    }
  }

  /** `last` is what stands behind `width` characters of `s`. */
  ghost predicate StandsBehind(s: string, width: nat, last: string) {
    width + |last| == |s| && last == s[width..]
  }

  /** The last part is exactly the text behind the closed ones. */
  lemma {:induction false} SplitWidth(s: string, at: set<char>)
    ensures var parts := Split(s, at); StandsBehind(s, Width(parts[..|parts| - 1]), parts[|parts| - 1])
    ensures s != "" && Split(s, at)[|Split(s, at)| - 1] == "" ==> |Split(s, at)| > 1
  {
    if s != "" {
      var rest := Split(s[1..], at);
      SplitWidth(s[1..], at);
      PrependWidth(s[0], rest, at);
      assert Split(s, at) == Prepend(s[0], rest, at);
      assert s == [s[0]] + s[1..];
      if s[0] !in at && |rest| == 1 {
        assert rest[..0] == [] && rest[0] == s[1..];
      } else {
        var w := Width(rest[..|rest| - 1]);
        assert s[w + 1..] == s[1..][w..];
      }
    }
  }

  /** The parts of a text once more text is put behind it: the last one goes on. */
  ghost function Extend(parts: seq<string>, x: string, at: set<char>): (r: seq<string>)
    requires parts != []
    ensures r != []
  {
    if |parts| == 1 then Split(parts[0] + x, at) else [parts[0]] + Extend(parts[1..], x, at)
  }

  lemma {:induction false} ExtendIs(parts: seq<string>, x: string, at: set<char>)
    requires parts != []
    ensures Extend(parts, x, at) == parts[..|parts| - 1] + Split(parts[|parts| - 1] + x, at)
  {
    if |parts| > 1 {
      ExtendIs(parts[1..], x, at);
      assert parts[..|parts| - 1] == [parts[0]] + parts[1..][..|parts| - 2];
    }
  }

  lemma SplitFrom(c: char, s: string, at: set<char>)
    ensures Split([c] + s, at) == Prepend(c, Split(s, at), at)
  {
    assert ([c] + s)[1..] == s;
  }

  lemma PrependExtend(c: char, rest: seq<string>, x: string, at: set<char>)
    requires rest != []
    ensures Extend(Prepend(c, rest, at), x, at) == Prepend(c, Extend(rest, x, at), at)
  {
    if c in at {
      assert ([""] + rest)[1..] == rest;
    } else if |rest| == 1 {
      SplitFrom(c, rest[0] + x, at);
      assert [c] + rest[0] + x == [c] + (rest[0] + x);
    } else {
      assert Prepend(c, rest, at)[1..] == rest[1..];
      assert ([rest[0]] + Extend(rest[1..], x, at))[1..] == Extend(rest[1..], x, at);
    }
  }

  /** More text only changes the last part. */
  lemma {:induction false} SplitContinues(s: string, x: string, at: set<char>)
    ensures Split(s + x, at) == Extend(Split(s, at), x, at)
  {
    if s == "" {
      assert s + x == x && [""][0] + x == x;
    } else {
      SplitContinues(s[1..], x, at);
      assert s == [s[0]] + s[1..] && s + x == [s[0]] + (s[1..] + x);
      SplitFrom(s[0], s[1..], at);
      SplitFrom(s[0], s[1..] + x, at);
      PrependExtend(s[0], Split(s[1..], at), x, at);
    }
  }
}
