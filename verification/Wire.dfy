/**
 Octet streams as the AMQP codec sees them: a reader is the bytes still to come,
 `io.ReadFull` distinguishes "nothing left" (EOF) from "not enough left"
 (UnexpectedEOF), and integers travel in network byte order.

 Every read yields what remains as well, also when it fails; strings carry their length in
 front, cut to the width of the length field as the code cuts it.
 */
module Wire {
  import opened Sequences

  type byte = x: int | 0 <= x < 256
  type bytes = seq<byte>

  datatype Err = EOF | UnexpectedEOF | SyntaxError | FrameError | UnknownMethod | Panic

  /** The outcome of a read.  A failing read still leaves the reader somewhere,
      and readArray goes on from there. */
  datatype Parsed<+T> = Got(value: T, rest: bytes) | Bad(err: Err, rest: bytes) {
    predicate IsFailure() { Bad? }
    function PropagateFailure<U>(): Parsed<U> requires Bad? { Bad(err, rest) }
    function Extract(): (T, bytes) requires Got? { (value, rest) }
  }

  /** io.ReadFull into a buffer of n octets. */
  function ReadFull(s: bytes, n: nat): (r: Parsed<bytes>)
    ensures |r.rest| <= |s|
    ensures r.Got? ==> |r.value| == n && r.value + r.rest == s
    ensures r.Bad? ==> |s| < n && r.rest == []
  {
    if n == 0 then Got([], s)
    else if s == [] then Bad(EOF, [])
    else if |s| < n then Bad(UnexpectedEOF, [])
    else Got(s[..n], s[n..])
  }

  lemma ReadFullAppend(a: bytes, tail: bytes)
    ensures ReadFull(a + tail, |a|) == Got(a, tail)
  {
    assert (a + tail)[..|a|] == a && (a + tail)[|a|..] == tail;
  }

  // ----- Fixed-width integers -----

  function Pow256(n: nat): (p: nat)
    ensures p >= 1
  {
    if n == 0 then 1 else 256 * Pow256(n - 1)
  }

  lemma Widths()
    ensures Pow256(1) == 0x100
    ensures Pow256(2) == 0x1_0000
    ensures Pow256(4) == 0x1_0000_0000
    ensures Pow256(8) == 0x1_0000_0000_0000_0000
  {
    assert Pow256(3) == 0x100_0000;
    assert Pow256(5) == 0x100_0000_0000;
    assert Pow256(7) == 0x100_0000_0000_0000;
  }

  /** The n low-order octets of x, most significant first. */
  function BigEndian(n: nat, x: nat): (s: bytes)
    ensures |s| == n
  {
    if n == 0 then [] else BigEndian(n - 1, x / 256) + [x % 256]
  }

  function FromBigEndian(s: bytes): (x: nat)
    ensures x < Pow256(|s|)
  {
    if s == [] then 0 else 256 * FromBigEndian(s[..|s| - 1]) + s[|s| - 1]
  }

  lemma {:induction false} BigEndianRoundTrip(n: nat, x: nat)
    requires x < Pow256(n)
    ensures FromBigEndian(BigEndian(n, x)) == x
  {
    if n > 0 {
      assert BigEndian(n, x)[..n - 1] == BigEndian(n - 1, x / 256);
      BigEndianRoundTrip(n - 1, x / 256);
    }
  }

  function ReadUint(s: bytes, n: nat): (r: Parsed<nat>)
    ensures |r.rest| <= |s|
    ensures r.Got? ==> |r.rest| == |s| - n && r.value < Pow256(n)
    ensures r.Bad? ==> |s| < n && r.rest == []
  {
    var (b, rest) :- ReadFull(s, n);
    Got(FromBigEndian(b), rest)
  }

  lemma ReadUintAppend(n: nat, x: nat, tail: bytes)
    requires x < Pow256(n)
    ensures ReadUint(BigEndian(n, x) + tail, n) == Got(x, tail)
  {
    ReadFullAppend(BigEndian(n, x), tail);
    BigEndianRoundTrip(n, x);
  }

  // ----- Two's complement -----

  predicate IsSigned(n: nat, x: int) { 0 - Pow256(n) <= 2 * x < Pow256(n) }

  function ToUnsigned(n: nat, x: int): (u: nat)
    requires IsSigned(n, x)
    ensures u < Pow256(n)
  {
    if x < 0 then x + Pow256(n) else x
  }

  function ToSigned(n: nat, u: nat): (x: int)
    requires u < Pow256(n)
    ensures IsSigned(n, x)
  {
    if 2 * u < Pow256(n) then u else u - Pow256(n)
  }

  // ----- Strings -----

  /** The conversion uint8(len(b)). */
  function Uint8(n: nat): (u: nat)
    ensures u < 256 && (n < 256 ==> u == n) && u <= n
  {
    if n < 256 then n else n % 256
  }

  /** writeShortstr keeps the length in a uint8, so longer strings are cut to
      their length modulo 256. */
  function Shortstr(s: bytes): (e: bytes)
    ensures |e| == 1 + Uint8(|s|)
  {
    [Uint8(|s|)] + s[..Uint8(|s|)]
  }

  function ReadShortstr(s: bytes): (r: Parsed<bytes>)
    ensures |r.rest| <= |s|
    ensures r.Got? ==> |r.value| <= 255 && |s| - |r.rest| == 1 + |r.value|
  {
    var (len, s1) :- ReadUint(s, 1);
    Widths();
    ReadFull(s1, len)
  }

  /** A short string comes back unchanged exactly when it has at most 255 octets;
      longer ones come back cut. */
  lemma ShortstrRoundTrip(s: bytes, tail: bytes)
    ensures ReadShortstr(Shortstr(s) + tail) == Got(s[..Uint8(|s|)], tail)
    ensures ReadShortstr(Shortstr(s) + tail) == Got(s, tail) <==> |s| <= 255
  {
    Widths();
    var n := Uint8(|s|);
    assert BigEndian(1, n) == [n];
    assert Shortstr(s) + tail == BigEndian(1, n) + (s[..n] + tail);
    ReadUintAppend(1, n, s[..n] + tail);
    ReadFullAppend(s[..n], tail);
    assert |s| <= 255 ==> s[..n] == s;
    assert |s[..n]| == n;
  }

  /** What octets stand for, the most significant first. */
  lemma NumberOctets(a: byte, b: byte, c: byte, d: byte)
    ensures FromBigEndian([a]) == a
    ensures FromBigEndian([a, b]) == 0x100 * a + b
    ensures FromBigEndian([a, b, c, d]) == 0x100_0000 * a + 0x1_0000 * b + 0x100 * c + d
  {
    assert [a, b][..1] == [a] && [a, b, c][..2] == [a, b] && [a, b, c, d][..3] == [a, b, c];
  }

  /** And a number is written as the octets that stand for it. */
  lemma {:induction false} NumberWritten(s: bytes)
    ensures BigEndian(|s|, FromBigEndian(s)) == s
  {
    if s != [] {
      var n := |s| - 1;
      NumberWritten(s[..n]);
      LastOctet(FromBigEndian(s[..n]), s[n]);
    }
  }

  lemma LastOctet(x: nat, u: byte)
    ensures (256 * x + u) / 256 == x && (256 * x + u) % 256 == u
  {}

  /** Eight octets: two groups of four. */
  lemma {:induction false} NumberOfTwo(s: bytes, t: bytes)
    ensures FromBigEndian(s + t) == FromBigEndian(s) * Pow256(|t|) + FromBigEndian(t)
  {
    if t == [] {
      Empty(s);
    } else {
      var n := |t| - 1;
      NumberOfTwo(s, t[..n]);
      assert (s + t)[..|s + t| - 1] == s + t[..n];
      Scaled(FromBigEndian(s), Pow256(n), FromBigEndian(t[..n]), t[n]);
      assert Pow256(|t|) == 256 * Pow256(n);
    }
  }

  lemma Scaled(x: nat, p: nat, y: nat, u: nat)
    ensures 256 * (x * p + y) + u == x * (256 * p) + (256 * y + u)
  {
    assert 256 * (x * p) == x * (256 * p);
  }

  /** A string within its length field: its length in one octet or in four, then itself. */
  lemma StringOctets(s: bytes, a: byte, b: byte, c: byte, d: byte)
    ensures |s| <= 255 ==> Shortstr(s) == [|s|] + s
    ensures |s| == 0x100_0000 * a + 0x1_0000 * b + 0x100 * c + d ==> Longstr(s) == [a, b, c, d] + s
  {
    assert s[..|s|] == s;
    NumberOctets(a, b, c, d);
    NumberWritten([a, b, c, d]);
  }

  const TWO32: nat := 0x1_0000_0000
  const TWO31: nat := 0x8000_0000

  /** The conversion uint32(len(b)). */
  function Uint32(n: nat): (u: nat)
    ensures u < TWO32 && (n < TWO32 ==> u == n) && u <= n
  {
    if n < TWO32 then n else n % TWO32
  }

  /** writeLongstr keeps the length in a uint32. */
  function Longstr(s: bytes): (e: bytes)
    ensures |e| == 4 + Uint32(|s|)
  {
    BigEndian(4, Uint32(|s|)) + s[..Uint32(|s|)]
  }

  function ReadLongstr(s: bytes): (r: Parsed<bytes>)
    ensures |r.rest| <= |s|
    ensures r.Got? ==> |r.value| < TWO32 && |s| - |r.rest| == 4 + |r.value|
  {
    var (len, s1) :- ReadUint(s, 4);
    Widths();
    ReadFull(s1, len)
  }

  lemma LongstrRoundTrip(s: bytes, tail: bytes)
    ensures ReadLongstr(Longstr(s) + tail) == Got(s[..Uint32(|s|)], tail)
    ensures ReadLongstr(Longstr(s) + tail) == Got(s, tail) <==> |s| < TWO32
  {
    Widths();
    var n := Uint32(|s|);
    assert Longstr(s) + tail == BigEndian(4, n) + (s[..n] + tail);
    ReadUintAppend(4, n, s[..n] + tail);
    ReadFullAppend(s[..n], tail);
    assert |s| < TWO32 ==> s[..n] == s;
    assert |s[..n]| == n;
  }
}
