/**
 The packed integer ranges of `lib/idna/intranges.py`: runs of consecutive integers are written as single
 numbers `start << 32 | end`, and membership is a binary search over them.
 */
module IntRanges {
  const WORD := 0x1_0000_0000

  // ----- shifts and bit operations on unbounded integers -----

  /** `a | b` on two's complement integers of any size. */
  function Or(a: int, b: int): int
    decreases if b < 0 then -b else b
  {
    if b == 0 then a
    else if b == -1 then -1
    else 2 * Or(a / 2, b / 2) + (if a % 2 == 1 || b % 2 == 1 then 1 else 0)
  }

  /** `a & b` for any integer `a` and a non-negative `b`. */
  function And(a: int, b: nat): nat
    decreases b
  {
    if b == 0 then 0 else 2 * And(a / 2, b / 2) + (if a % 2 == 1 && b % 2 == 1 then 1 else 0)
  }

  function Pow2(k: nat): (p: nat)
    ensures p > 0
  {
    if k == 0 then 1 else 2 * Pow2(k - 1)
  }

  lemma {:induction false} OrIsSum(a: int, b: nat, k: nat)
    requires b < Pow2(k)
    ensures Or(a * Pow2(k), b) == a * Pow2(k) + b
  {
    if b != 0 {
      var p := Pow2(k - 1);
      assert a * Pow2(k) == 2 * (a * p);
      assert (a * Pow2(k)) / 2 == a * p && (a * Pow2(k)) % 2 == 0;
      OrIsSum(a, b / 2, k - 1);
    }
  }

  lemma AndOdd(a: int, b: nat, half: nat)
    requires b == 2 * half + 1
    ensures And(a, b) == 2 * And(a / 2, half) + a % 2
  {
    assert b % 2 == 1 && b / 2 == half;
  }

  lemma AndStep(a: int, p: nat, q: nat)
    requires p > 0 && q == 2 * p && And(a / 2, p - 1) == (a / 2) % p
    ensures And(a, q - 1) == a % q
  {
    AndOdd(a, q - 1, p - 1);
    ModDouble(a, p, q);
  }

  lemma {:induction false} AndIsMod(a: int, k: nat)
    ensures And(a, Pow2(k) - 1) == a % Pow2(k)
    decreases k
  {
    if k == 0 {
      assert Pow2(0) == 1;
    } else {
      AndIsMod(a / 2, k - 1);
      AndStep(a, Pow2(k - 1), Pow2(k));
    }
  }

  lemma MultipleBound(n: int, k: int)
    requires n > 0
    ensures k >= 1 ==> n * k >= n
    ensures k <= -1 ==> n * k <= -n
  {
  }

  lemma DivModUnique(a: int, n: int, d: int, m: int)
    requires n > 0 && a == n * d + m && 0 <= m < n
    ensures a / n == d && a % n == m
  {
    var e := a / n;
    assert n * (e - d) == m - a % n;
    MultipleBound(n, e - d);
  }

  lemma ModDouble(a: int, p: int, q: int)
    requires p > 0 && q == 2 * p
    ensures a % q == 2 * ((a / 2) % p) + a % 2
  {
    var h := a / 2;
    var d, m := h / p, h % p;
    assert h == p * d + m;
    assert a == 2 * (p * d + m) + a % 2;
    assert q * d == 2 * (p * d);
    DivModUnique(a, q, d, 2 * m + a % 2);
  }

  // ----- the encoding -----

  function EncodeRange(start: int, end: int): int {
    Or(start * WORD, end)
  }

  function DecodeRange(r: int): (int, nat) {
    (r / WORD, And(r, WORD - 1))
  }

  lemma WordIsPow2()
    ensures Pow2(32) == WORD
  {
    assert Pow2(8) == 256;
    assert Pow2(16) == 65536;
    assert Pow2(24) == 0x100_0000;
  }

  lemma EncodeIsSum(start: int, end: nat)
    requires end < WORD
    ensures EncodeRange(start, end) == start * WORD + end
  {
    WordIsPow2();
    OrIsSum(start, end, 32);
  }

  /** The encoding can be undone exactly when the end is an unsigned 32-bit number. */
  lemma EncodingInvertibleIff(start: int, end: int)
    ensures DecodeRange(EncodeRange(start, end)) == (start, end) <==> 0 <= end < WORD
  {
    WordIsPow2();
    AndIsMod(EncodeRange(start, end), 32);
    if 0 <= end < WORD {
      EncodeIsSum(start, end);
      DivModUnique(start * WORD + end, WORD, start, end);
    }
  }

  // ----- sorting -----

  ghost predicate Sorted(s: seq<int>) {
    forall i, j :: 0 <= i < j < |s| ==> s[i] <= s[j]
  }

  function InsertSorted(x: int, s: seq<int>): seq<int> {
    if s == [] || x <= s[0] then [x] + s else [s[0]] + InsertSorted(x, s[1..])
  }

  /** `sorted`. */
  function Sort(s: seq<int>): seq<int> {
    if s == [] then [] else InsertSorted(s[0], Sort(s[1..]))
  }

  lemma {:induction false} InsertSortedPermutes(x: int, s: seq<int>)
    ensures multiset(InsertSorted(x, s)) == multiset(s) + multiset{x}
  {
    if s != [] && s[0] < x {
      InsertSortedPermutes(x, s[1..]);
      assert s == [s[0]] + s[1..];
    }
  }

  lemma {:induction false} InsertSortedSorts(x: int, s: seq<int>)
    requires Sorted(s)
    ensures Sorted(InsertSorted(x, s))
  {
    if s != [] && s[0] < x {
      var r := InsertSorted(x, s[1..]);
      InsertSortedSorts(x, s[1..]);
      InsertSortedPermutes(x, s[1..]);
      forall k | 0 <= k < |r| ensures s[0] <= r[k] {
        assert r[k] in multiset(r);
        assert r[k] == x || r[k] in multiset(s[1..]);
      }
    }
  }

  lemma {:induction false} SortSorts(s: seq<int>)
    ensures Sorted(Sort(s)) && multiset(Sort(s)) == multiset(s)
  {
    if s != [] {
      SortSorts(s[1..]);
      InsertSortedSorts(s[0], Sort(s[1..]));
      InsertSortedPermutes(s[0], Sort(s[1..]));
      assert s == [s[0]] + s[1..];
    }
  }

  // ----- building the ranges -----

  /** The ranges written from position `i` on, when the current run began at `start`. */
  function Runs(s: seq<int>, start: nat, i: nat): seq<(int, int)>
    requires start <= i <= |s|
    decreases |s| - i
  {
    if i == |s| then []
    else if i + 1 < |s| && s[i] == s[i + 1] - 1 then Runs(s, start, i + 1)
    else [(s[start], s[i] + 1)] + Runs(s, i + 1, i + 1)
  }

  function EncodeAll(p: seq<(int, int)>): seq<int> {
    seq(|p|, j requires 0 <= j < |p| => EncodeRange(p[j].0, p[j].1))
  }

  ghost predicate InRanges(x: int, p: seq<(int, int)>) {
    exists j :: 0 <= j < |p| && p[j].0 <= x < p[j].1
  }

  /** Ranges are non-empty and in order: each begins at the earliest with the last element of the one before. */
  ghost predicate Ordered(p: seq<(int, int)>) {
    && (forall j :: 0 <= j < |p| ==> p[j].0 < p[j].1)
    && (forall j, k :: 0 <= j < k < |p| ==> p[j].0 <= p[k].0 && p[j].1 <= p[k].1)
  }

  /** No range touches the next, so none could be longer. */
  ghost predicate Separated(p: seq<(int, int)>) {
    forall j, k :: 0 <= j < k < |p| ==> p[j].1 < p[k].0
  }

  ghost predicate Consecutive(s: seq<int>, start: nat, i: nat) {
    i < |s| ==> forall k :: start <= k < i ==> s[k + 1] == s[k] + 1
  }

  lemma {:induction false} ConsecutiveGap(s: seq<int>, start: nat, i: nat)
    requires start <= i < |s| && Consecutive(s, start, i)
    ensures s[i] == s[start] + (i - start)
    decreases i
  {
    if start < i { ConsecutiveGap(s, start, i - 1); }
  }

  lemma {:induction false} RunsCover(s: seq<int>, start: nat, i: nat, x: int)
    requires start <= i <= |s| && (i == |s| ==> start == i) && Consecutive(s, start, i)
    ensures InRanges(x, Runs(s, start, i)) <==> x in s[start..]
    decreases |s| - i
  {
    if i == |s| {
      assert s[start..] == [];
    } else {
      if i + 1 < |s| && s[i] == s[i + 1] - 1 {
        RunsCover(s, start, i + 1, x);
      } else {
        RunsCover(s, i + 1, i + 1, x);
        ConsecutiveGap(s, start, i);
        PrependCover((s[start], s[i] + 1), Runs(s, i + 1, i + 1), x);
        RunMembers(s, start, i, x);
      }
    }
  }

  lemma PrependCover(h: (int, int), rest: seq<(int, int)>, x: int)
    ensures InRanges(x, [h] + rest) <==> h.0 <= x < h.1 || InRanges(x, rest)
  {
    var p := [h] + rest;
    assert p[0] == h;
    if InRanges(x, rest) {
      var j :| 0 <= j < |rest| && rest[j].0 <= x < rest[j].1;
      assert p[j + 1] == rest[j];
    }
  }

  lemma RunMembers(s: seq<int>, start: nat, i: nat, x: int)
    requires start <= i < |s| && Consecutive(s, start, i)
    ensures x in s[start..] <==> s[start] <= x < s[i] + 1 || x in s[i + 1..]
  {
    forall k | start <= k <= i ensures s[k] == s[start] + (k - start) {
      ConsecutiveGap(s, start, k);
    }
    if s[start] <= x < s[i] + 1 {
      assert s[start..i + 1][x - s[start]] == x;
    }
    assert s[start..] == s[start..i + 1] + s[i + 1..];
  }

  lemma {:induction false} RunsOrdered(s: seq<int>, start: nat, i: nat)
    requires start <= i <= |s| && (i == |s| ==> start == i) && Sorted(s) && Consecutive(s, start, i)
    ensures Ordered(Runs(s, start, i))
    ensures forall j :: 0 <= j < |Runs(s, start, i)| ==> start < |s| && s[start] <= Runs(s, start, i)[j].0
    decreases |s| - i
  {
    if i < |s| {
      if i + 1 < |s| && s[i] == s[i + 1] - 1 {
        RunsOrdered(s, start, i + 1);
      } else {
        RunsOrdered(s, i + 1, i + 1);
        ConsecutiveGap(s, start, i);
      }
    }
  }

  lemma {:induction false} RunsSeparated(s: seq<int>, start: nat, i: nat)
    requires start <= i <= |s| && (i == |s| ==> start == i) && Sorted(s) && Consecutive(s, start, i)
    requires forall k :: 0 <= k < |s| - 1 ==> s[k] != s[k + 1]
    ensures Separated(Runs(s, start, i))
    decreases |s| - i
  {
    if i < |s| {
      if i + 1 < |s| && s[i] == s[i + 1] - 1 {
        RunsSeparated(s, start, i + 1);
      } else {
        RunsSeparated(s, i + 1, i + 1);
        RunsOrdered(s, i + 1, i + 1);
      }
    }
  }

  /** `intranges_from_list`, as the method below computes it. */
  function FromList(list: seq<int>): seq<int> {
    EncodeAll(Runs(Sort(list), 0, 0))
  }

  method IntrangesFromList(list: seq<int>) returns (ranges: seq<int>)
    ensures ranges == FromList(list)
  {
    var sortedList := Sort(list);
    ghost var all := Runs(sortedList, 0, 0);
    ranges := [];
    var lastWrite := -1;
    for i := 0 to |sortedList|
      invariant -1 <= lastWrite < i
      invariant |ranges| <= |all| && ranges == EncodeAll(all)[..|ranges|]
      invariant all[|ranges|..] == Runs(sortedList, lastWrite + 1, i)
    {
      if i + 1 < |sortedList| {
        if sortedList[i] == sortedList[i + 1] - 1 {
          continue;
        }
      }
      var current := sortedList[lastWrite + 1..i + 1];
      assert all[|ranges|..] == [(current[0], current[|current| - 1] + 1)] + Runs(sortedList, i + 1, i + 1);
      assert all[|ranges| + 1..] == all[|ranges|..][1..];
      ranges := ranges + [EncodeRange(current[0], current[|current| - 1] + 1)];
      lastWrite := i;
    }
  }

  // ----- membership -----

  /** `bisect.bisect_left` between `lo` and `hi`. */
  function Bisect(a: seq<int>, x: int, lo: nat, hi: nat): (r: nat)
    requires lo <= hi <= |a|
    ensures lo <= r <= hi
    decreases hi - lo
  {
    if lo == hi then lo else
      var mid := (lo + hi) / 2;
      if a[mid] < x then Bisect(a, x, mid + 1, hi) else Bisect(a, x, lo, mid)
  }

  lemma {:induction false} BisectFinds(a: seq<int>, x: int, lo: nat, hi: nat)
    requires lo <= hi <= |a| && Sorted(a)
    requires (forall i :: 0 <= i < lo ==> a[i] < x) && (forall i :: hi <= i < |a| ==> a[i] >= x)
    ensures forall i :: 0 <= i < |a| ==> (a[i] < x <==> i < Bisect(a, x, lo, hi))
    decreases hi - lo
  {
    if lo < hi {
      var mid := (lo + hi) / 2;
      if a[mid] < x { BisectFinds(a, x, mid + 1, hi); } else { BisectFinds(a, x, lo, mid); }
    }
  }

  /** `intranges_contain`: the range just before the position found, then the one at it. */
  predicate Contain(x: int, ranges: seq<int>) {
    var pos := Bisect(ranges, EncodeRange(x, 0), 0, |ranges|);
    || (pos > 0 && DecodeRange(ranges[pos - 1]).0 <= x < DecodeRange(ranges[pos - 1]).1)
    || (pos < |ranges| && DecodeRange(ranges[pos]).0 == x)
  }

  /** Ranges whose bounds fit the encoding. */
  ghost predicate Fits(p: seq<(int, int)>) {
    forall j :: 0 <= j < |p| ==> 0 <= p[j].1 < WORD
  }

  lemma EncodedOrder(p: seq<(int, int)>, x: int)
    requires Ordered(p) && Fits(p)
    ensures Sorted(EncodeAll(p)) && EncodeRange(x, 0) == x * WORD
    ensures forall j :: 0 <= j < |p| ==> (EncodeAll(p)[j] < EncodeRange(x, 0) <==> p[j].0 < x)
    ensures forall j :: 0 <= j < |p| ==> DecodeRange(EncodeAll(p)[j]) == p[j]
  {
    forall j | 0 <= j < |p| ensures EncodeAll(p)[j] == p[j].0 * WORD + p[j].1 {
      EncodeIsSum(p[j].0, p[j].1);
    }
    forall j | 0 <= j < |p| ensures DecodeRange(EncodeAll(p)[j]) == p[j] {
      EncodingInvertibleIff(p[j].0, p[j].1);
    }
  }

  /** The two neighbour tests, on ranges already decoded. */
  predicate ContainAt(p: seq<(int, int)>, x: int, pos: nat)
    requires pos <= |p|
  {
    (pos > 0 && p[pos - 1].0 <= x < p[pos - 1].1) || (pos < |p| && p[pos].0 == x)
  }

  lemma ContainDecodes(a: seq<int>, p: seq<(int, int)>, x: int)
    requires |a| == |p| && forall j :: 0 <= j < |p| ==> DecodeRange(a[j]) == p[j]
    ensures Contain(x, a) <==> ContainAt(p, x, Bisect(a, EncodeRange(x, 0), 0, |a|))
  {
    var pos := Bisect(a, EncodeRange(x, 0), 0, |a|);
    assert pos > 0 ==> DecodeRange(a[pos - 1]) == p[pos - 1];
    assert pos < |p| ==> DecodeRange(a[pos]) == p[pos];
  }

  /** What the bisection and the decoding come to on ordered ranges that fit. */
  lemma ContainDecoded(p: seq<(int, int)>, x: int) returns (pos: nat)
    requires Ordered(p) && Fits(p)
    ensures pos <= |p| && forall j :: 0 <= j < |p| ==> (p[j].0 < x <==> j < pos)
    ensures Contain(x, EncodeAll(p)) <==> ContainAt(p, x, pos)
  {
    var a, key := EncodeAll(p), EncodeRange(x, 0);
    EncodedOrder(p, x);
    BisectFinds(a, key, 0, |a|);
    pos := Bisect(a, key, 0, |a|);
    ContainDecodes(a, p, x);
  }

  /** On ordered ranges that fit, the neighbour test after the bisection decides membership exactly. */
  lemma ContainIsMembership(p: seq<(int, int)>, x: int)
    requires Ordered(p) && Fits(p)
    ensures Contain(x, EncodeAll(p)) <==> InRanges(x, p)
  {
    var pos := ContainDecoded(p, x);
    if j :| 0 <= j < |p| && p[j].0 <= x < p[j].1 {
      if p[j].0 == x {
        assert pos <= j && p[pos].0 == x;
      } else {
        assert j <= pos - 1;
      }
    }
  }

  lemma SortMember(list: seq<int>, x: int)
    ensures x in Sort(list) <==> x in list
  {
    SortSorts(list);
    assert x in multiset(Sort(list)) <==> x in multiset(list);
  }

  lemma RunsFit(list: seq<int>)
    requires forall v :: v in list ==> -1 <= v < WORD - 1
    ensures Fits(Runs(Sort(list), 0, 0))
  {
    var s, p := Sort(list), Runs(Sort(list), 0, 0);
    SortSorts(list);
    RunsOrdered(s, 0, 0);
    forall j | 0 <= j < |p| ensures 0 <= p[j].1 < WORD {
      var v := p[j].1 - 1;
      assert p[j].0 <= v < p[j].1;
      RunsCover(s, 0, 0, v);
      assert s[0..] == s;
      SortMember(list, v);
    }
  }

  /**
   For every list of integers from -1 up to 2^32 - 2, in any order and with duplicates: `x` is found in the packed
   ranges iff it is in the list.
   */
  lemma PackedRangesExact(list: seq<int>, x: int)
    requires forall v :: v in list ==> -1 <= v < WORD - 1
    ensures Contain(x, FromList(list)) <==> x in list
  {
    var s := Sort(list);
    SortSorts(list);
    SortMember(list, x);
    RunsOrdered(s, 0, 0);
    RunsCover(s, 0, 0, x);
    assert s[0..] == s;
    RunsFit(list);
    ContainIsMembership(Runs(s, 0, 0), x);
  }

  /** For a list without duplicates the ranges are separated, hence maximal and as few as possible. */
  lemma {:induction false} DistinctListsGiveSeparatedRanges(list: seq<int>)
    requires forall i, j :: 0 <= i < j < |list| ==> list[i] != list[j]
    ensures Separated(Runs(Sort(list), 0, 0))
  {
    SortSorts(list);
    forall k | 0 <= k < |Sort(list)| - 1 ensures Sort(list)[k] != Sort(list)[k + 1] {
      SortedNeighboursDiffer(list, k);
    }
    RunsSeparated(Sort(list), 0, 0);
  }

  lemma SortedNeighboursDiffer(list: seq<int>, k: nat)
    requires forall i, j :: 0 <= i < j < |list| ==> list[i] != list[j]
    requires k + 1 < |Sort(list)|
    ensures Sort(list)[k] != Sort(list)[k + 1]
  {
    SortSorts(list);
    CountAtMostOne(list, Sort(list)[k]);
    if Sort(list)[k] == Sort(list)[k + 1] { AdjacentCount(Sort(list), k); }
  }

  lemma AdjacentCount(s: seq<int>, k: nat)
    requires k + 1 < |s| && s[k] == s[k + 1]
    ensures multiset(s)[s[k]] >= 2
  {
    assert s == s[..k] + [s[k], s[k]] + s[k + 2..];
  }

  lemma {:induction false} CountAtMostOne(list: seq<int>, x: int)
    requires forall i, j :: 0 <= i < j < |list| ==> list[i] != list[j]
    ensures multiset(list)[x] <= 1
  {
    if list != [] {
      CountAtMostOne(list[1..], x);
      assert list == [list[0]] + list[1..];
      assert list[0] !in list[1..];
      assert list[0] !in multiset(list[1..]);
    }
  }

  // ----- outside that range the promise fails on both sides -----

  /** One more integer is too many: the end 2^32 spills into the start, and an element of the list is not found. */
  lemma LargestIntegerIsLost()
    ensures !Contain(WORD - 2, FromList([WORD - 2, WORD - 1]))
  {
    var list, r := [WORD - 2, WORD - 1], (WORD - 1) * WORD;
    assert list[1..] == [WORD - 1] && [WORD - 1][1..] == [];
    assert Sort([WORD - 1]) == [WORD - 1] && Sort(list) == list;
    assert Runs(list, 0, 1) == [(WORD - 2, WORD)] + Runs(list, 2, 2);
    assert Runs(list, 0, 0) == [(WORD - 2, WORD)];
    assert EncodeRange(WORD - 2, WORD) == r by {
      WordIsPow2();
      assert Pow2(33) == 2 * WORD;
      OrIsSum(WORD / 2 - 1, WORD, 33);
    }
    assert FromList(list) == [r];
    EncodeIsSum(WORD - 2, 0);
    assert Bisect([r], (WORD - 2) * WORD, 0, 1) == 0;
  }

  /** Below -1 the end is negative and overwrites the start. */
  lemma NegativeIntegerIsLost()
    ensures !Contain(-2, FromList([-2]))
  {
    assert [-2][1..] == [];
    assert Sort([-2]) == [-2];
    assert Runs([-2], 0, 0) == [(-2, -1)] + Runs([-2], 1, 1);
    assert FromList([-2]) == [-1];
    EncodeIsSum(-2, 0);
    assert Bisect([-1], -2 * WORD, 0, 1) == 0;
  }
}
