/**
 The part of Python's `heapq` that the cache uses. The list is a binary heap kept in a
 sequence; each operation meets the documented contract: the heap order is kept and
 exactly one entry enters or leaves.
 */
module HeapQueue {
  import opened EntryOrder

  /** The entry at `i` is not smaller than its parent. */
  predicate Ordered(h: seq<Entry>, i: nat)
    requires 1 <= i < |h|
  {
    Leq(h[(i - 1) / 2], h[i])
  }

  ghost predicate IsHeap(h: seq<Entry>) {
    forall i :: 1 <= i < |h| ==> Ordered(h, i)
  }

  function Swap(h: seq<Entry>, i: nat, j: nat): seq<Entry>
    requires i < |h| && j < |h|
  {
    h[i := h[j]][j := h[i]]
  }

  /** Moves the entry at `pos` towards the root. */
  function SiftUp(h: seq<Entry>, pos: nat): (r: seq<Entry>)
    requires pos < |h|
    ensures |r| == |h|
    decreases pos
  {
    if pos == 0 || !Less(h[pos], h[(pos - 1) / 2]) then h
    else SiftUp(Swap(h, pos, (pos - 1) / 2), (pos - 1) / 2)
  }

  function SmallerChild(h: seq<Entry>, pos: nat): (c: nat)
    requires 2 * pos + 1 < |h|
    ensures pos < c < |h| && (c - 1) / 2 == pos
  {
    var left := 2 * pos + 1;
    if left + 1 < |h| && Less(h[left + 1], h[left]) then left + 1 else left
  }

  /** Moves the entry at `pos` towards the leaves. */
  function SiftDown(h: seq<Entry>, pos: nat): (r: seq<Entry>)
    requires pos < |h|
    ensures |r| == |h|
    decreases |h| - pos
  {
    if 2 * pos + 1 >= |h| then h
    else
      var child := SmallerChild(h, pos);
      if Less(h[child], h[pos]) then SiftDown(Swap(h, pos, child), child) else h
  }

  function Push(h: seq<Entry>, e: Entry): seq<Entry> {
    SiftUp(h + [e], |h|)
  }

  /** The heap with its root replaced by its last entry, which then sinks. */
  function Pop(h: seq<Entry>): (r: seq<Entry>)
    requires h != []
    ensures |r| == |h| - 1
  {
    if |h| == 1 then [] else SiftDown([h[|h| - 1]] + h[1..|h| - 1], 0)
  }

  /** `heappushpop`: the popped entry and the remaining heap. */
  function PushPop(h: seq<Entry>, e: Entry): (Entry, seq<Entry>) {
    if h != [] && Less(h[0], e) then (h[0], SiftDown([e] + h[1..], 0)) else (e, h)
  }

  // ----- exactly one entry enters or leaves -----

  lemma {:induction false} SiftUpPermutes(h: seq<Entry>, pos: nat)
    requires pos < |h|
    ensures multiset(SiftUp(h, pos)) == multiset(h)
    decreases pos
  {
    if pos != 0 && Less(h[pos], h[(pos - 1) / 2]) {
      SiftUpPermutes(Swap(h, pos, (pos - 1) / 2), (pos - 1) / 2);
    }
  }

  lemma {:induction false} SiftDownPermutes(h: seq<Entry>, pos: nat)
    requires pos < |h|
    ensures multiset(SiftDown(h, pos)) == multiset(h)
    decreases |h| - pos
  {
    if 2 * pos + 1 < |h| && Less(h[SmallerChild(h, pos)], h[pos]) {
      SiftDownPermutes(Swap(h, pos, SmallerChild(h, pos)), SmallerChild(h, pos));
    }
  }

  lemma PushAdds(h: seq<Entry>, e: Entry)
    ensures multiset(Push(h, e)) == multiset(h) + multiset{e}
  {
    SiftUpPermutes(h + [e], |h|);
  }

  lemma PopRemovesRoot(h: seq<Entry>)
    requires h != []
    ensures multiset(Pop(h)) == multiset(h) - multiset{h[0]}
  {
    if |h| == 1 {
      assert h == [h[0]];
    } else {
      assert h == [h[0]] + h[1..|h| - 1] + [h[|h| - 1]];
      PopOfParts(h[0], h[1..|h| - 1], h[|h| - 1]);
    }
  }

  lemma PopOfParts(first: Entry, middle: seq<Entry>, last: Entry)
    ensures multiset(Pop([first] + middle + [last])) == multiset([first] + middle + [last]) - multiset{first}
  {
    var h := [first] + middle + [last];
    assert h[1..|h| - 1] == middle && h[|h| - 1] == last;
    SiftDownPermutes([last] + middle, 0);
    EndsSwapped(first, middle, last);
  }

  lemma EndsSwapped(first: Entry, middle: seq<Entry>, last: Entry)
    ensures multiset([last] + middle) == multiset([first] + middle + [last]) - multiset{first}
  {
    assert multiset([first] + middle + [last]) == multiset{first} + multiset(middle) + multiset{last};
    assert multiset([last] + middle) == multiset{last} + multiset(middle);
  }

  lemma PushPopExchanges(h: seq<Entry>, e: Entry)
    ensures multiset(PushPop(h, e).1) + multiset{PushPop(h, e).0} == multiset(h) + multiset{e}
  {
    if h != [] && Less(h[0], e) {
      SiftDownPermutes([e] + h[1..], 0);
      assert h == [h[0]] + h[1..];
    }
  }

  // ----- the heap order is kept, and the root is the least entry -----

  lemma {:induction false} RootIsLeast(h: seq<Entry>, i: nat)
    requires IsHeap(h) && i < |h|
    ensures Leq(h[0], h[i])
  {
    if i == 0 {
      LessTotal(h[0], h[0]);
    } else {
      RootIsLeast(h, (i - 1) / 2);
      assert Ordered(h, i);
      LeqTransitive(h[0], h[(i - 1) / 2], h[i]);
    }
  }

  /** A heap except that the entry at `pos` may be smaller than its parent. */
  ghost predicate HeapBut(h: seq<Entry>, pos: nat) {
    && (forall i :: 1 <= i < |h| && i != pos ==> Ordered(h, i))
    && (forall i :: 1 <= i < |h| && (i - 1) / 2 == pos && pos > 0 ==> Leq(h[(pos - 1) / 2], h[i]))
  }

  lemma {:induction false} SiftUpKeepsHeap(h: seq<Entry>, pos: nat)
    requires pos < |h| && HeapBut(h, pos)
    ensures IsHeap(SiftUp(h, pos))
    decreases pos
  {
    if pos != 0 && Less(h[pos], h[(pos - 1) / 2]) {
      var parent := (pos - 1) / 2;
      var s := Swap(h, pos, parent);
      LessTotal(h[pos], h[parent]);
      forall i | 1 <= i < |s| && i != parent ensures Ordered(s, i) {
        if i != pos {
          assert Ordered(h, i);
          if (i - 1) / 2 == parent { LeqTransitive(h[pos], h[parent], h[i]); }
        }
      }
      forall i | 1 <= i < |s| && (i - 1) / 2 == parent && parent > 0 ensures Leq(s[(parent - 1) / 2], s[i]) {
        assert Ordered(h, parent);
        if i != pos {
          assert Ordered(h, i);
          LeqTransitive(h[(parent - 1) / 2], h[parent], h[i]);
        }
      }
      SiftUpKeepsHeap(s, parent);
    }
  }

  /** A heap except that the entry at `pos` may be greater than its children. */
  ghost predicate HeapBelow(h: seq<Entry>, pos: nat) {
    && (forall i :: 1 <= i < |h| && (i - 1) / 2 != pos ==> Ordered(h, i))
    && (forall i :: 1 <= i < |h| && (i - 1) / 2 == pos && pos > 0 ==> Leq(h[(pos - 1) / 2], h[i]))
  }

  lemma {:induction false} SiftDownKeepsHeap(h: seq<Entry>, pos: nat)
    requires pos < |h| && HeapBelow(h, pos)
    ensures IsHeap(SiftDown(h, pos))
    decreases |h| - pos
  {
    if 2 * pos + 1 < |h| {
      var child := SmallerChild(h, pos);
      forall i | 1 <= i < |h| && (i - 1) / 2 == pos ensures Leq(h[child], h[i]) {
        assert i == 2 * pos + 1 || i == 2 * pos + 2;
        LessTotal(h[child], h[i]);
      }
      if Less(h[child], h[pos]) {
        var s := Swap(h, pos, child);
        LessTotal(h[child], h[pos]);
        forall i | 1 <= i < |s| && (i - 1) / 2 != child ensures Ordered(s, i) {
          assert (i - 1) / 2 != pos ==> Ordered(h, i);
        }
        forall i | 1 <= i < |s| && (i - 1) / 2 == child ensures Leq(s[(child - 1) / 2], s[i]) {
          assert i > child && s[i] == h[i];
          assert Ordered(h, i);
        }
        SiftDownKeepsHeap(s, child);
      } else {
        forall i | 1 <= i < |h| ensures Ordered(h, i) {
          if (i - 1) / 2 == pos { LeqTransitive(h[pos], h[child], h[i]); } else { assert Ordered(h, i); }
        }
      }
    }
  }

  lemma PushKeepsHeap(h: seq<Entry>, e: Entry)
    requires IsHeap(h)
    ensures IsHeap(Push(h, e))
  {
    var s := h + [e];
    forall i | 1 <= i < |s| && i != |h| ensures Ordered(s, i) {
      assert s[i] == h[i] && s[(i - 1) / 2] == h[(i - 1) / 2];
      assert Ordered(h, i);
    }
    SiftUpKeepsHeap(s, |h|);
  }

  /** A heap with another root is in order except below the root. */
  lemma NewRoot(h: seq<Entry>, s: seq<Entry>)
    requires IsHeap(h) && 1 <= |s| <= |h| && forall i :: 1 <= i < |s| ==> s[i] == h[i]
    ensures HeapBelow(s, 0)
  {
    forall i | 1 <= i < |s| && (i - 1) / 2 != 0 ensures Ordered(s, i) {
      assert s[i] == h[i] && s[(i - 1) / 2] == h[(i - 1) / 2];
      assert Ordered(h, i);
    }
  }

  lemma PopKeepsHeap(h: seq<Entry>)
    requires IsHeap(h) && h != []
    ensures IsHeap(Pop(h))
  {
    if |h| > 1 {
      var s := [h[|h| - 1]] + h[1..|h| - 1];
      NewRoot(h, s);
      SiftDownKeepsHeap(s, 0);
    }
  }

  lemma PushPopKeepsHeap(h: seq<Entry>, e: Entry)
    requires IsHeap(h)
    ensures IsHeap(PushPop(h, e).1)
  {
    if h != [] && Less(h[0], e) {
      NewRoot(h, [e] + h[1..]);
      SiftDownKeepsHeap([e] + h[1..], 0);
    }
  }
}
