/**
 The order Python gives to the index entries `[expires_at, created_at, key]`:
 lists compare element by element, and strings compare code point by code point.
 */
module EntryOrder {
  datatype Entry = Entry(expiresAt: int, createdAt: int, key: string)

  predicate StringLess(a: string, b: string) {
    b != [] && (a == [] || a[0] < b[0] || (a[0] == b[0] && StringLess(a[1..], b[1..])))
  }

  predicate Less(x: Entry, y: Entry) {
    || x.expiresAt < y.expiresAt
    || (x.expiresAt == y.expiresAt && x.createdAt < y.createdAt)
    || (x.expiresAt == y.expiresAt && x.createdAt == y.createdAt && StringLess(x.key, y.key))
  }

  predicate Leq(x: Entry, y: Entry) {
    !Less(y, x)
  }

  lemma {:induction false} StringLessTransitive(a: string, b: string, c: string)
    requires StringLess(a, b) && StringLess(b, c)
    ensures StringLess(a, c)
  {
    if a != [] && a[0] == b[0] == c[0] {
      StringLessTransitive(a[1..], b[1..], c[1..]);
    }
  }

  lemma {:induction false} StringLessTotal(a: string, b: string)
    ensures StringLess(a, b) || a == b || StringLess(b, a)
    ensures !(StringLess(a, b) && StringLess(b, a))
  {
    if a != [] && b != [] && a[0] == b[0] {
      StringLessTotal(a[1..], b[1..]);
      assert a == [a[0]] + a[1..] && b == [b[0]] + b[1..];
    }
  }

  lemma LessTransitive(x: Entry, y: Entry, z: Entry)
    requires Less(x, y) && Less(y, z)
    ensures Less(x, z)
  {
    if x.expiresAt == y.expiresAt == z.expiresAt && x.createdAt == y.createdAt == z.createdAt {
      StringLessTransitive(x.key, y.key, z.key);
    }
  }

  /** The order is total and asymmetric, so `Leq` is a linear order. */
  lemma LessTotal(x: Entry, y: Entry)
    ensures Less(x, y) || x == y || Less(y, x)
    ensures !(Less(x, y) && Less(y, x))
  {
    StringLessTotal(x.key, y.key);
  }

  lemma LeqTransitive(x: Entry, y: Entry, z: Entry)
    requires Leq(x, y) && Leq(y, z)
    ensures Leq(x, z)
  {
    LessTotal(x, y);
    LessTotal(y, z);
    if Less(z, x) {
      if x == y {
      } else if y == z {
      } else {
        LessTransitive(x, y, z);
        LessTotal(x, z);
      }
    }
  }
}
