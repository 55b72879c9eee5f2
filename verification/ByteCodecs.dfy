/**
 The byte codecs of `lib/jwt/utils.py`. Bytes are numbers below 256. The standard library's base64 decoder is
 modelled as it behaves without validation: characters outside the alphabet are skipped.
 */
module ByteCodecs {
  import opened Wrappers
  import opened Arithmetic

  newtype Byte = x: int | 0 <= x < 256

  type Bytes = seq<Byte>

  datatype Error = Incorrect | NegativeNumber | OddLength | InvalidSignature

  const PAD: Byte := 61

  // ----- base64url -----

  /** The URL-safe alphabet of section 5 of RFC 4648. */
  function Digit(i: int): Byte
    requires 0 <= i < 64
  {
    if i < 26 then (65 + i) as Byte
    else if i < 52 then (97 + (i - 26)) as Byte
    else if i < 62 then (48 + (i - 52)) as Byte
    else if i == 62 then 45 else 95
  }

  /** The decoder's table after `-_` became `+/`: both alphabets are read. */
  function ValueOf(c: Byte): Option<int> {
    if 65 <= c <= 90 then Some(c as int - 65)
    else if 97 <= c <= 122 then Some(c as int - 97 + 26)
    else if 48 <= c <= 57 then Some(c as int - 48 + 52)
    else if c == 45 || c == 43 then Some(62)
    else if c == 95 || c == 47 then Some(63)
    else None
  }

  /** Three bytes as four characters. */
  function Group(b0: Byte, b1: Byte, b2: Byte): Bytes {
    [Digit(b0 as int / 4), Digit(b0 as int % 4 * 16 + b1 as int / 16),
     Digit(b1 as int % 16 * 4 + b2 as int / 64), Digit(b2 as int % 64)]
  }

  /** `base64url_encode`: the standard encoding with its padding removed. */
  function Encode(b: Bytes): Bytes {
    if b == [] then []
    else if |b| == 1 then
      [Digit(b[0] as int / 4), Digit(b[0] as int % 4 * 16)]
    else if |b| == 2 then
      [Digit(b[0] as int / 4), Digit(b[0] as int % 4 * 16 + b[1] as int / 16), Digit(b[1] as int % 16 * 4)]
    else Group(b[0], b[1], b[2]) + Encode(b[3..])
  }

  /** The decoder between two characters: its place in the group of four, the bits left over, and the pads seen. */
  datatype Place = Place(quad: nat, left: nat, pads: nat)

  predicate ValidPlace(p: Place) {
    p.quad < 4 && (p.quad == 0 ==> p.left == 0) && (p.quad == 1 ==> p.left < 64) && (p.quad == 2 ==> p.left < 16)
    && (p.quad == 3 ==> p.left < 4)
  }

  /** The place after a character of value `v`. */
  function NextPlace(p: Place, v: int): Place
    requires ValidPlace(p) && 0 <= v < 64
  {
    if p.quad == 0 then Place(1, v, 0)
    else if p.quad == 1 then Place(2, v % 16, 0)
    else if p.quad == 2 then Place(3, v % 4, 0)
    else Place(0, 0, 0)
  }

  /** The byte that the bits left over and a character of value `v` complete. */
  function ByteOf(p: Place, v: int): Byte
    requires ValidPlace(p) && p.quad > 0 && 0 <= v < 64
  {
    if p.quad == 1 then (p.left * 4 + v / 16) as Byte
    else if p.quad == 2 then (p.left * 16 + v / 4) as Byte
    else (p.left * 64 + v) as Byte
  }

  /** The decoder's loop: enough padding ends the input, other characters outside the alphabet are skipped. */
  function DecodeFrom(s: Bytes, p: Place): Result<Bytes, Error>
    requires ValidPlace(p)
    decreases |s|
  {
    if s == [] then (if p.quad == 0 then Ok([]) else Err(Incorrect))
    else if s[0] == PAD then
      if p.quad >= 2 && p.quad + p.pads + 1 >= 4 then Ok([])
      else DecodeFrom(s[1..], if p.quad >= 2 then p.(pads := p.pads + 1) else p)
    else if ValueOf(s[0]).None? then DecodeFrom(s[1..], p)
    else
      var v := ValueOf(s[0]).value;
      assert 0 <= v < 64;
      var rest := DecodeFrom(s[1..], NextPlace(p, v));
      if p.quad == 0 then rest else Emit(ByteOf(p, v), rest)
  }

  function Emit(b: Byte, rest: Result<Bytes, Error>): Result<Bytes, Error> {
    if rest.Err? then rest else Ok([b] + rest.value)
  }

  function Pads(n: nat): Bytes {
    seq(n, _ => PAD)
  }

  /** `base64url_decode`: padding is put back first. */
  function Decode(s: Bytes): Result<Bytes, Error> {
    DecodeFrom(if |s| % 4 > 0 then s + Pads(4 - |s| % 4) else s, Place(0, 0, 0))
  }

  lemma {:induction false} EncodeShape(b: Bytes)
    ensures |Encode(b)| == |b| / 3 * 4 + (if |b| % 3 == 0 then 0 else |b| % 3 + 1)
    ensures forall i :: 0 <= i < |Encode(b)| ==> Encode(b)[i] != 46 && Encode(b)[i] != PAD
  {
    if |b| >= 3 {
      EncodeShape(b[3..]);
      assert |b[3..]| / 3 == |b| / 3 - 1 && |b[3..]| % 3 == |b| % 3;
    }
  }

  /** The decoder on one more character of the alphabet. */
  lemma DecodeDigit(i: int, s: Bytes, p: Place)
    requires 0 <= i < 64 && ValidPlace(p)
    ensures DecodeFrom([Digit(i)] + s, p) ==
            if p.quad == 0 then DecodeFrom(s, NextPlace(p, i)) else Emit(ByteOf(p, i), DecodeFrom(s, NextPlace(p, i)))
  {
    assert ValueOf(Digit(i)) == Some(i);
    assert ([Digit(i)] + s)[1..] == s;
  }

  /** The bits that two bytes leave and take in a group come together again. */
  lemma GroupBytes(b0: Byte, b1: Byte, b2: Byte)
    ensures var v1, v2 := b0 as int % 4 * 16 + b1 as int / 16, b1 as int % 16 * 4 + b2 as int / 64;
            && 0 <= v1 < 64 && 0 <= v2 < 64
            && ByteOf(Place(1, b0 as int / 4, 0), v1) == b0
            && ByteOf(Place(2, v1 % 16, 0), v2) == b1
            && ByteOf(Place(3, v2 % 4, 0), b2 as int % 64) == b2
  {
  }

  /** Four characters, one after the other. */
  lemma FourDecode(v0: int, v1: int, v2: int, v3: int, s: Bytes)
    requires 0 <= v0 < 64 && 0 <= v1 < 64 && 0 <= v2 < 64 && 0 <= v3 < 64
    ensures DecodeFrom([Digit(v0), Digit(v1), Digit(v2), Digit(v3)] + s, Place(0, 0, 0)) ==
            Emit(ByteOf(Place(1, v0, 0), v1), Emit(ByteOf(Place(2, v1 % 16, 0), v2),
                 Emit(ByteOf(Place(3, v2 % 4, 0), v3), DecodeFrom(s, Place(0, 0, 0)))))
  {
    assert [Digit(v0), Digit(v1), Digit(v2), Digit(v3)] + s
           == [Digit(v0)] + ([Digit(v1)] + ([Digit(v2)] + ([Digit(v3)] + s)));
    DecodeDigit(v0, [Digit(v1)] + ([Digit(v2)] + ([Digit(v3)] + s)), Place(0, 0, 0));
    DecodeDigit(v1, [Digit(v2)] + ([Digit(v3)] + s), Place(1, v0, 0));
    DecodeDigit(v2, [Digit(v3)] + s, Place(2, v1 % 16, 0));
    DecodeDigit(v3, s, Place(3, v2 % 4, 0));
  }

  /** One full group of four characters gives back its three bytes. */
  lemma GroupDecodes(b0: Byte, b1: Byte, b2: Byte, s: Bytes)
    ensures DecodeFrom(Group(b0, b1, b2) + s, Place(0, 0, 0))
            == Emit(b0, Emit(b1, Emit(b2, DecodeFrom(s, Place(0, 0, 0)))))
  {
    GroupBytes(b0, b1, b2);
    FourDecode(b0 as int / 4, b0 as int % 4 * 16 + b1 as int / 16, b1 as int % 16 * 4 + b2 as int / 64,
               b2 as int % 64, s);
  }

  lemma PaddingEnds(left: nat)
    ensures left < 4 ==> DecodeFrom([PAD], Place(3, left, 0)) == Ok([])
    ensures left < 16 ==> DecodeFrom([PAD, PAD], Place(2, left, 0)) == Ok([])
  {
    if left < 16 {
      assert [PAD, PAD][1..] == [PAD];
      assert DecodeFrom([PAD], Place(2, left, 1)) == Ok([]);
    }
  }

  lemma EmitEnds(b0: Byte, b1: Byte)
    ensures Emit(b0, Ok([])) == Ok([b0]) && Emit(b0, Emit(b1, Ok([]))) == Ok([b0, b1])
  {
    var none: Bytes := [];
    assert [b0] + none == [b0] && [b0] + ([b1] + none) == [b0, b1];
  }

  lemma TwoLeftDecode(b0: Byte, b1: Byte)
    ensures DecodeFrom(Encode([b0, b1]) + Pads(1), Place(0, 0, 0)) == Ok([b0, b1])
  {
    var v0, v1, v2 := b0 as int / 4, b0 as int % 4 * 16 + b1 as int / 16, b1 as int % 16 * 4;
    assert Encode([b0, b1]) + Pads(1) == [Digit(v0)] + ([Digit(v1)] + ([Digit(v2)] + [PAD]));
    DecodeDigit(v0, [Digit(v1)] + ([Digit(v2)] + [PAD]), Place(0, 0, 0));
    DecodeDigit(v1, [Digit(v2)] + [PAD], Place(1, v0, 0));
    DecodeDigit(v2, [PAD], Place(2, v1 % 16, 0));
    PaddingEnds(v2 % 4);
    EmitEnds(b0, b1);
    assert v0 * 4 + v1 / 16 == b0 as int && v1 % 16 * 16 + v2 / 4 == b1 as int;
  }

  lemma OneLeftDecodes(b0: Byte)
    ensures DecodeFrom(Encode([b0]) + Pads(2), Place(0, 0, 0)) == Ok([b0])
  {
    var v0, v1 := b0 as int / 4, b0 as int % 4 * 16;
    assert Encode([b0]) + Pads(2) == [Digit(v0)] + ([Digit(v1)] + [PAD, PAD]);
    DecodeDigit(v0, [Digit(v1)] + [PAD, PAD], Place(0, 0, 0));
    DecodeDigit(v1, [PAD, PAD], Place(1, v0, 0));
    PaddingEnds(v1 % 16);
    EmitEnds(b0, b0);
    assert v0 * 4 + v1 / 16 == b0 as int;
  }

  /** The padding that `base64url_decode` puts back. */
  function Missing(n: nat): nat {
    if n % 4 == 0 then 0 else 4 - n % 4
  }

  lemma {:induction false} PaddedDecodes(b: Bytes)
    ensures DecodeFrom(Encode(b) + Pads(Missing(|Encode(b)|)), Place(0, 0, 0)) == Ok(b)
  {
    if b == [] {
      assert Encode(b) + Pads(0) == [];
    } else if |b| == 1 {
      OneLeftDecodes(b[0]);
      assert b == [b[0]];
    } else if |b| == 2 {
      TwoLeftDecode(b[0], b[1]);
      assert b == [b[0], b[1]];
    } else {
      PaddedDecodes(b[3..]);
      PaddedGroup(b);
    }
  }

  lemma PaddedGroup(b: Bytes)
    requires |b| >= 3
    requires DecodeFrom(Encode(b[3..]) + Pads(Missing(|Encode(b[3..])|)), Place(0, 0, 0)) == Ok(b[3..])
    ensures DecodeFrom(Encode(b) + Pads(Missing(|Encode(b)|)), Place(0, 0, 0)) == Ok(b)
  {
    var rest := Encode(b[3..]);
    var pads := Pads(Missing(|rest|));
    assert (4 + |rest|) % 4 == |rest| % 4;
    Associative(Group(b[0], b[1], b[2]), rest, pads);
    GroupDecodes(b[0], b[1], b[2], rest + pads);
    EmitThree(b);
  }

  lemma EmitThree(b: Bytes)
    requires |b| >= 3
    ensures Emit(b[0], Emit(b[1], Emit(b[2], Ok(b[3..])))) == Ok(b)
  {
    assert [b[0]] + ([b[1]] + ([b[2]] + b[3..])) == b;
  }

  /** Base64url round trip, for all byte strings. */
  lemma {:induction false} Base64RoundTrip(b: Bytes)
    ensures Decode(Encode(b)) == Ok(b)
  {
    PaddedDecodes(b);
    if |Encode(b)| % 4 == 0 { assert Encode(b) + Pads(0) == Encode(b); }
  }

  // ----- the encoding itself -----

  /**
   Table 2 of RFC 4648: the capitals, the small letters, the figures, the hyphen and the underscore, in that order.
   */
  ghost function Alphabet(i: int): int
    requires 0 <= i < 64
  {
    if i < 26 then 'A' as int + i
    else if i < 52 then 'a' as int + (i - 26)
    else if i < 62 then '0' as int + (i - 52)
    else if i == 62 then '-' as int else '_' as int
  }

  /** The digits that a byte string is written with. */
  function Digits(b: Bytes): (ds: seq<int>)
    ensures forall i :: 0 <= i < |ds| ==> 0 <= ds[i] < 64
  {
    if b == [] then []
    else if |b| == 1 then [b[0] as int / 4, b[0] as int % 4 * 16]
    else if |b| == 2 then
      [b[0] as int / 4, b[0] as int % 4 * 16 + b[1] as int / 16, b[1] as int % 16 * 4]
    else
      [b[0] as int / 4, b[0] as int % 4 * 16 + b[1] as int / 16, b[1] as int % 16 * 4 + b[2] as int / 64,
       b[2] as int % 64] + Digits(b[3..])
  }

  lemma GroupInAlphabet(b0: Byte, b1: Byte, b2: Byte)
    ensures var ds := [b0 as int / 4, b0 as int % 4 * 16 + b1 as int / 16, b1 as int % 16 * 4 + b2 as int / 64,
                       b2 as int % 64];
            forall i :: 0 <= i < 4 ==> 0 <= ds[i] < 64 && Group(b0, b1, b2)[i] as int == Alphabet(ds[i])
  {
  }

  /** Every character of an encoding is the letter, figure, hyphen or underscore of the alphabet at its digit. */
  lemma {:induction false} EncodedInAlphabet(b: Bytes)
    ensures |Encode(b)| == |Digits(b)|
    ensures forall i :: 0 <= i < |Encode(b)| ==> Encode(b)[i] as int == Alphabet(Digits(b)[i])
  {
    if |b| >= 3 {
      GroupInAlphabet(b[0], b[1], b[2]);
      EncodedInAlphabet(b[3..]);
    }
  }

  /** From every group on, the digits are those of the bytes from there on. */
  lemma {:induction false} DigitsFrom(b: Bytes, g: nat)
    requires 3 * g <= |b|
    ensures 4 * g <= |Digits(b)| && Digits(b)[4 * g..] == Digits(b[3 * g..])
  {
    if g > 0 {
      DigitsFrom(b[3..], g - 1);
      var k, rest := 4 * (g - 1), Digits(b[3..]);
      assert b[3..][3 * (g - 1)..] == b[3 * g..];
      assert |Digits(b)| == 4 + |rest| && 4 * g == 4 + k;
      assert Digits(b)[4 + k..] == rest[k..];
    }
  }

  /**
   What base64 is: the four digits of a group are its three bytes, as one number; where only two bytes or one are left,
   the digits are those bytes with two or four zero bits behind them.
   */
  lemma DigitsAreBytes(b: Bytes)
    requires b != []
    ensures var d := Digits(b);
            && |d| >= (if |b| >= 3 then 4 else |b| + 1)
            && (|b| >= 3 ==> ((d[0] * 64 + d[1]) * 64 + d[2]) * 64 + d[3]
                             == (b[0] as int * 256 + b[1] as int) * 256 + b[2] as int)
            && (|b| == 2 ==> |d| == 3 && (d[0] * 64 + d[1]) * 64 + d[2] == (b[0] as int * 256 + b[1] as int) * 4)
            && (|b| == 1 ==> |d| == 2 && d[0] * 64 + d[1] == b[0] as int * 16)
  {
    if |b| >= 3 { GroupArithmetic(b[0] as int, b[1] as int, b[2] as int); }
  }

  lemma GroupArithmetic(a: int, b: int, c: int)
    ensures ((a / 4 * 64 + (a % 4 * 16 + b / 16)) * 64 + (b % 16 * 4 + c / 64)) * 64 + c % 64 == (a * 256 + b) * 256 + c
  {
  }

  // ----- big-endian numbers -----

  /** `int.from_bytes(data, "big")`. */
  function FromBytes(b: Bytes): nat {
    if b == [] then 0 else FromBytes(b[..|b| - 1]) * 256 + b[|b| - 1] as int
  }

  function Pow256(k: nat): (p: nat)
    ensures p > 0
  {
    if k == 0 then 1 else 256 * Pow256(k - 1)
  }

  /** `n.to_bytes(k, "big")`, for a number that fits. */
  function ToBytes(n: nat, k: nat): (b: Bytes)
    requires n < Pow256(k)
    ensures |b| == k
    decreases k
  {
    if k == 0 then [] else ToBytes(n / 256, k - 1) + [(n % 256) as Byte]
  }

  lemma NextPlaceOf(x: int, p: int, f: int, last: int)
    ensures (x * p + f) * 256 + last == x * (256 * p) + (f * 256 + last)
  {
  }

  /** The bytes in front weigh more: the byte order is big-endian. */
  lemma {:induction false} BigEndian(a: Bytes, b: Bytes)
    ensures FromBytes(a + b) == FromBytes(a) * Pow256(|b|) + FromBytes(b)
  {
    if b == [] {
      assert a + b == a;
    } else {
      var n := |b| - 1;
      BigEndian(a, b[..n]);
      assert (a + b)[..|a| + n] == a + b[..n] && (a + b)[|a| + n] == b[n];
      NextPlaceOf(FromBytes(a), Pow256(n), FromBytes(b[..n]), b[n] as int);
    }
  }

  function ByteLength(n: nat): nat {
    if n == 0 then 0 else 1 + ByteLength(n / 256)
  }

  lemma {:induction false} LengthIsLeast(n: nat)
    ensures n < Pow256(ByteLength(n)) && (n > 0 ==> n >= Pow256(ByteLength(n) - 1))
  {
    if n != 0 { LengthIsLeast(n / 256); }
  }

  method BytesFromInt(val: nat) returns (b: Bytes)
    ensures FromBytes(b) == val
    ensures |b| == ByteLength(val)
    ensures b != [] ==> b[0] != 0
  {
    var remaining, byteLength := val, 0;
    while remaining != 0
      invariant byteLength + ByteLength(remaining) == ByteLength(val)
      decreases remaining
    {
      remaining := remaining / 256;
      byteLength := byteLength + 1;
    }
    LengthIsLeast(val);
    b := ToBytes(val, byteLength);
    FromToBytes(val, byteLength);
    if val > 0 { LeadingByte(val, byteLength); }
  }

  lemma {:induction false} FromToBytes(n: nat, k: nat)
    requires n < Pow256(k)
    ensures FromBytes(ToBytes(n, k)) == n
    decreases k
  {
    if k > 0 {
      FromToBytes(n / 256, k - 1);
      var b := ToBytes(n, k);
      assert b[..k - 1] == ToBytes(n / 256, k - 1);
    }
  }

  lemma {:induction false} LeadingByte(n: nat, k: nat)
    requires k > 0 && Pow256(k - 1) <= n < Pow256(k)
    ensures ToBytes(n, k)[0] != 0
    decreases k
  {
    if k > 1 {
      LeadingByte(n / 256, k - 1);
      assert ToBytes(n, k)[0] == ToBytes(n / 256, k - 1)[0];
    }
  }

  /** The octets that represent a number: as few as possible, and one zero octet for zero. */
  function UintOctets(n: nat): Bytes {
    LengthIsLeast(n);
    if n == 0 then [0] else ToBytes(n, ByteLength(n))
  }

  function ToBase64Uint(val: int): Result<Bytes, Error> {
    if val < 0 then Err(NegativeNumber) else Ok(Encode(UintOctets(val)))
  }

  function FromBase64Uint(s: Bytes): Result<nat, Error> {
    var d := Decode(s);
    if d.Err? then Err(d.error) else Ok(FromBytes(d.value))
  }

  lemma {:induction false} FromBytesBound(b: Bytes)
    ensures FromBytes(b) < Pow256(|b|)
  {
    if b != [] { FromBytesBound(b[..|b| - 1]); }
  }

  /** Round trip for every non-negative number, and no shorter octet string represents it (section 2 of RFC 7518). */
  lemma UintRoundTrip(n: nat, b: Bytes)
    ensures ToBase64Uint(n).Ok? && FromBase64Uint(ToBase64Uint(n).value) == Ok(n)
    ensures var d := Decode(ToBase64Uint(n).value);
            && d.Ok? && d.value != [] && FromBytes(d.value) == n
            && (b != [] && FromBytes(b) == n ==> |d.value| <= |b|)
    ensures forall v: int :: v < 0 ==> ToBase64Uint(v) == Err(NegativeNumber)
  {
    Base64RoundTrip(UintOctets(n));
    LengthIsLeast(n);
    if n == 0 {
      var zero: Bytes := [0];
      assert zero[..0] == [] && FromBytes(zero) == 0;
    } else {
      FromToBytes(n, ByteLength(n));
      if b != [] && FromBytes(b) == n && |b| < ByteLength(n) {
        FromBytesBound(b);
        Pow256Monotone(|b|, ByteLength(n) - 1);
      }
    }
  }

  lemma {:induction false} Pow256Monotone(j: nat, k: nat)
    requires j <= k
    ensures Pow256(j) <= Pow256(k)
    decreases k
  {
    if j < k { Pow256Monotone(j, k - 1); }
  }

  // ----- raw signatures -----

  /** The number of hexadecimal digits of a number; zero has one. */
  function HexLength(n: nat): nat {
    if n < 16 then 1 else 1 + HexLength(n / 16)
  }

  /** `"%0*x"` and `a2b_hex`: padded to `2 * k` digits, and rejected when the number of digits is odd. */
  function NumberToBytes(n: nat, k: nat): Result<Bytes, Error> {
    var digits := if HexLength(n) < 2 * k then 2 * k else HexLength(n);
    if digits % 2 == 1 then Err(OddLength)
    else
      HexFits(n, digits);
      Ok(ToBytes(n, digits / 2))
  }

  function Pow16(k: nat): (p: nat)
    ensures p > 0
  {
    if k == 0 then 1 else 16 * Pow16(k - 1)
  }

  lemma {:induction false} Pow16IsPow256(k: nat)
    ensures Pow16(2 * k) == Pow256(k)
  {
    if k > 0 {
      Pow16IsPow256(k - 1);
      assert Pow16(2 * k) == 16 * Pow16(2 * k - 1) == 16 * (16 * Pow16(2 * k - 2));
    }
  }

  lemma {:induction false} HexLengthIs(n: nat, d: nat)
    ensures HexLength(n) <= d <==> d > 0 && n < Pow16(d)
    decreases n, d
  {
    if d > 0 {
      if n < 16 {
        assert Pow16(d) == 16 * Pow16(d - 1);
      } else {
        HexLengthIs(n / 16, d - 1);
        assert Pow16(d) == 16 * Pow16(d - 1);
        if d == 1 { assert Pow16(1) == 16 * Pow16(0); }
      }
    }
  }

  lemma HexFits(n: nat, digits: nat)
    requires HexLength(n) <= digits && digits % 2 == 0
    ensures n < Pow256(digits / 2)
  {
    HexLengthIs(n, digits);
    Pow16IsPow256(digits / 2);
  }

  /** `der_to_raw_signature` on the two numbers of the DER form. */
  function RawSignature(r: nat, s: nat, k: nat): Result<Bytes, Error> {
    var a, b := NumberToBytes(r, k), NumberToBytes(s, k);
    if a.Err? then a else if b.Err? then b else Ok(a.value + b.value)
  }

  /** `raw_to_der_signature`, up to the DER form. */
  function ParseRaw(raw: Bytes, k: nat): Result<(int, int), Error> {
    if |raw| != 2 * k then Err(InvalidSignature) else Ok((FromBytes(raw[..k]), FromBytes(raw[k..])))
  }

  lemma NumberWidth(n: nat, k: nat)
    ensures n < Pow256(k) && k > 0 ==> NumberToBytes(n, k).Ok? && |NumberToBytes(n, k).value| == k
    ensures NumberToBytes(n, k).Ok? ==> |NumberToBytes(n, k).value| >= k && FromBytes(NumberToBytes(n, k).value) == n
    ensures NumberToBytes(n, k).Ok? && n >= Pow256(k) ==> |NumberToBytes(n, k).value| > k
  {
    HexLengthIs(n, 2 * k);
    Pow16IsPow256(k);
    var digits := if HexLength(n) < 2 * k then 2 * k else HexLength(n);
    if digits % 2 == 0 {
      HexFits(n, digits);
      FromToBytes(n, digits / 2);
    }
  }

  /** A raw signature of a curve gives back exactly the pair it was made from iff both numbers fit its size. */
  lemma RawSignatureRoundTripIff(r: nat, s: nat, k: nat)
    requires k > 0
    ensures var raw := RawSignature(r, s, k);
            raw.Ok? && ParseRaw(raw.value, k) == Ok((r, s)) <==> r < Pow256(k) && s < Pow256(k)
  {
    NumberWidth(r, k);
    NumberWidth(s, k);
    var raw := RawSignature(r, s, k);
    if raw.Ok? && |raw.value| == 2 * k {
      assert raw.value[..k] == NumberToBytes(r, k).value && raw.value[k..] == NumberToBytes(s, k).value;
    }
  }
}
