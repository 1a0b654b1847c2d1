/**
 The two byte orders of the binary codec, over octets that are written in place.

 LittleEndian and BigEndian (from Wire) say what an order is.  The getters and putters are
 written as the code has them, octet by octet with shifts and unions, and are proved to
 get and put just that.  Shifts and unions are defined on natural numbers bit by bit; an
 octet is a number below 256, and the conversion to one keeps the number modulo 256.
 */
module ByteOrder {
  import opened Wire

  datatype Order = Little | Big

  /** The n low-order octets of x, least significant first. */
  function LittleEndian(n: nat, x: nat): (s: bytes)
    ensures |s| == n
  {
    if n == 0 then [] else [x % 256] + LittleEndian(n - 1, x / 256)
  }

  function FromLittleEndian(s: bytes): (x: nat)
    ensures x < Pow256(|s|)
  {
    if s == [] then 0 else s[0] + 256 * FromLittleEndian(s[1..])
  }

  function Put(o: Order, n: nat, x: nat): (s: bytes)
    ensures |s| == n
  {
    if o.Little? then LittleEndian(n, x) else BigEndian(n, x)
  }

  function Get(o: Order, s: bytes): (x: nat)
    ensures x < Pow256(|s|)
  {
    if o.Little? then FromLittleEndian(s) else FromBigEndian(s)
  }

  lemma {:induction false} LittleRoundTrip(n: nat, x: nat)
    requires x < Pow256(n)
    ensures FromLittleEndian(LittleEndian(n, x)) == x
  {
    if n > 0 {
      assert LittleEndian(n, x)[1..] == LittleEndian(n - 1, x / 256);
      LittleRoundTrip(n - 1, x / 256);
    }
  }

  lemma PutGet(o: Order, n: nat, x: nat)
    requires x < Pow256(n)
    ensures Get(o, Put(o, n, x)) == x
  {
    LittleRoundTrip(n, x);
    BigEndianRoundTrip(n, x);
  }

  lemma {:induction false} GetPut(o: Order, s: bytes)
    ensures Put(o, |s|, Get(o, s)) == s
    decreases |s|
  {
    if s != [] {
      var n := |s|;
      if o.Little? {
        GetPut(o, s[1..]);
        assert Get(o, s) % 256 == s[0] && Get(o, s) / 256 == Get(o, s[1..]);
      } else {
        GetPut(o, s[..n - 1]);
        assert Get(o, s) % 256 == s[n - 1] && Get(o, s) / 256 == Get(o, s[..n - 1]);
        assert s == s[..n - 1] + [s[n - 1]];
      }
    }
  }

  /** One order is the other read backwards. */
  lemma {:induction false} OrdersMirror(n: nat, x: nat, i: nat)
    requires i < n
    ensures LittleEndian(n, x)[i] == BigEndian(n, x)[n - 1 - i]
  {
    if i > 0 {
      OrdersMirror(n - 1, x / 256, i - 1);
    }
  }

  // ----- Bits -----

  /** x | y, bit by bit. */
  function BitOr(x: nat, y: nat): nat
    decreases x + y
  {
    if x == 0 && y == 0 then 0
    else 2 * BitOr(x / 2, y / 2) + if x % 2 == 1 || y % 2 == 1 then 1 else 0
  }

  /** y << n */
  function Shl(y: nat, n: nat): nat { if n == 0 then y else 2 * Shl(y, n - 1) }

  /** x >> n */
  function Shr(x: nat, n: nat): nat { if n == 0 then x else Shr(x / 2, n - 1) }

  lemma {:induction false} ZeroOr(y: nat)
    ensures BitOr(0, y) == y
    decreases y
  {
    if y > 0 {
      ZeroOr(y / 2);
    }
  }

  lemma {:induction false} BitOrIsSum(x: nat, y: nat, n: nat)
    requires x < Shl(1, n)
    ensures BitOr(x, Shl(y, n)) == x + Shl(y, n)
    decreases n
  {
    if n == 0 {
      ZeroOr(y);
    } else {
      BitOrIsSum(x / 2, y, n - 1);
      assert Shl(y, n) / 2 == Shl(y, n - 1) && Shl(y, n) % 2 == 0;
    }
  }

  lemma {:induction false} ShlIsTimes(y: nat, k: nat)
    ensures Shl(y, 8 * k) == y * Pow256(k)
    decreases k
  {
    if k > 0 {
      ShlIsTimes(y, k - 1);
      ShlByte(y, 8 * (k - 1));
      assert y * Pow256(k) == 256 * (y * Pow256(k - 1)) by { Scaled(y, k); }
    }
  }

  lemma ShlByte(y: nat, n: nat)
    ensures Shl(y, n + 8) == 256 * Shl(y, n)
  {
    assert Shl(y, n + 4) == 2 * Shl(y, n + 3) && Shl(y, n + 3) == 2 * Shl(y, n + 2);
    assert Shl(y, n + 2) == 2 * Shl(y, n + 1) && Shl(y, n + 1) == 2 * Shl(y, n);
    assert Shl(y, n + 8) == 2 * Shl(y, n + 7) && Shl(y, n + 7) == 2 * Shl(y, n + 6);
    assert Shl(y, n + 6) == 2 * Shl(y, n + 5) && Shl(y, n + 5) == 2 * Shl(y, n + 4);
  }

  lemma {:induction false} ShrIsQuotient(x: nat, k: nat)
    ensures Shr(x, 8 * k) == x / Pow256(k)
    decreases k
  {
    if k > 0 {
      ShrByte(x, 8 * (k - 1));
      ShrIsQuotient(x / 256, k - 1);
      DivDiv(x, Pow256(k - 1));
    }
  }

  lemma ShrByte(x: nat, n: nat)
    ensures Shr(x, n + 8) == Shr(x / 256, n)
  {
    var x2, x4, x6 := x / 4, x / 16, x / 64;
    assert Shr(x, n + 8) == Shr(x / 2, n + 7) == Shr(x2, n + 6);
    assert Shr(x2, n + 6) == Shr(x2 / 2, n + 5) == Shr(x4, n + 4);
    assert Shr(x4, n + 4) == Shr(x4 / 2, n + 3) == Shr(x6, n + 2);
    assert Shr(x6, n + 2) == Shr(x6 / 2, n + 1) == Shr(x / 256, n);
  }

  // ----- The getters and putters -----

  /** byte(v >> 8k) */
  function Octet(v: nat, k: nat): byte { Shr(v, 8 * k) % 256 }

  lemma DivDiv(x: nat, b: nat)
    requires b > 0
    ensures x / 256 / b == x / (256 * b)
  {
    var q := x / (256 * b);
    var r := x % (256 * b);
    assert x == 256 * (b * q) + r;
    assert x / 256 == b * q + r / 256;
    assert 0 <= r / 256 < b;
    QuotientIs(x / 256, b, q, r / 256);
  }

  lemma QuotientIs(y: nat, b: nat, q: nat, r: nat)
    requires b > 0 && y == b * q + r && r < b
    ensures y / b == q
  {
    var p := y / b;
    assert y == b * p + y % b;
    Multiples(b, p, q);
    Multiples(b, q, p);
  }

  lemma Multiples(b: nat, p: int, q: int)
    ensures p < q ==> b * p + b <= b * q
  {
    if p < q {
      Monotone(b, p + 1, q);
    }
  }

  lemma Monotone(b: nat, p: int, q: int)
    requires p <= q
    ensures b * p <= b * q
  {}

  lemma {:induction false} OctetsAt(n: nat, x: nat, i: nat)
    requires i < n
    ensures LittleEndian(n, x)[i] == Octet(x, i) && BigEndian(n, x)[n - 1 - i] == Octet(x, i)
  {
    OrdersMirror(n, x, i);
    if i > 0 {
      OctetsAt(n - 1, x / 256, i - 1);
      ShrByte(x, 8 * (i - 1));
    }
  }

  lemma AllOctets(n: nat, x: nat)
    ensures forall i :: 0 <= i < n ==> LittleEndian(n, x)[i] == Octet(x, i)
    ensures forall i :: 0 <= i < n ==> BigEndian(n, x)[i] == Octet(x, n - 1 - i)
  {
    forall i | 0 <= i < n
      ensures LittleEndian(n, x)[i] == Octet(x, i) && BigEndian(n, x)[i] == Octet(x, n - 1 - i)
    {
      OctetsAt(n, x, i);
      OctetsAt(n, x, n - 1 - i);
    }
  }

  /** What a buffer holds once a piece was written over it at an offset. */
  predicate Written(before: bytes, at: nat, piece: bytes, after: bytes) {
    at + |piece| <= |before| && after == before[..at] + piece + before[at + |piece|..]
  }

  lemma WrittenTwice(a: bytes, at: nat, p: bytes, b: bytes, q: bytes, c: bytes)
    requires Written(a, at, p, b) && Written(b, at + |p|, q, c)
    ensures Written(a, at, p + q, c)
  {
    assert b[..at + |p|] == a[..at] + p;
    assert b[at + |p| + |q|..] == a[at + |p| + |q|..];
  }

  lemma WrittenAt(before: bytes, at: nat, piece: bytes, after: bytes)
    requires at + |piece| <= |before| == |after|
    requires forall i :: 0 <= i < |piece| ==> after[at + i] == piece[i]
    requires forall i :: 0 <= i < |before| && !(at <= i < at + |piece|) ==> after[i] == before[i]
    ensures Written(before, at, piece, after)
  {
    forall i | at <= i < at + |piece| ensures after[i] == piece[i - at] { assert after[at + (i - at)] == piece[i - at]; }
  }

  method PutUint16(o: Order, b: array<byte>, at: nat, v: nat)
    requires at + 2 <= b.Length
    modifies b
    ensures Written(old(b[..]), at, Put(o, 2, v), b[..])
  {
    AllOctets(2, v);
    match o
    case Little => b[at], b[at + 1] := Octet(v, 0), Octet(v, 1);
    case Big => b[at], b[at + 1] := Octet(v, 1), Octet(v, 0);
  }

  method PutUint32(o: Order, b: array<byte>, at: nat, v: nat)
    requires at + 4 <= b.Length
    modifies b
    ensures Written(old(b[..]), at, Put(o, 4, v), b[..])
  {
    AllOctets(4, v);
    match o
    case Little =>
      b[at], b[at + 1], b[at + 2], b[at + 3] := Octet(v, 0), Octet(v, 1), Octet(v, 2), Octet(v, 3);
    case Big =>
      b[at], b[at + 1], b[at + 2], b[at + 3] := Octet(v, 3), Octet(v, 2), Octet(v, 1), Octet(v, 0);
  }

  method PutUint64(o: Order, b: array<byte>, at: nat, v: nat)
    requires at + 8 <= b.Length
    modifies b
    ensures Written(old(b[..]), at, Put(o, 8, v), b[..])
  {
    AllOctets(8, v);
    match o
    case Little =>
      b[at], b[at + 1], b[at + 2], b[at + 3] := Octet(v, 0), Octet(v, 1), Octet(v, 2), Octet(v, 3);
      b[at + 4], b[at + 5], b[at + 6], b[at + 7] := Octet(v, 4), Octet(v, 5), Octet(v, 6), Octet(v, 7);
    case Big =>
      b[at], b[at + 1], b[at + 2], b[at + 3] := Octet(v, 7), Octet(v, 6), Octet(v, 5), Octet(v, 4);
      b[at + 4], b[at + 5], b[at + 6], b[at + 7] := Octet(v, 3), Octet(v, 2), Octet(v, 1), Octet(v, 0);
    WrittenAt(old(b[..]), at, Put(o, 8, v), b[..]);
  }

  /** x | y << 8k */
  function Or(x: nat, y: nat, k: nat): nat { BitOr(x, Shl(y, 8 * k)) }

  /** Without bits in common the union is the sum. */
  lemma OrIsSum(x: nat, y: nat, k: nat)
    requires x < Pow256(k)
    ensures Or(x, y, k) == x + y * Pow256(k)
  {
    ShlIsTimes(1, k);
    ShlIsTimes(y, k);
    BitOrIsSum(x, y, 8 * k);
  }

  /** x | b[i] << 8i, where x is what the octets before i make. */
  function JoinLittle(x: nat, b: bytes, i: nat): (r: nat)
    requires i < |b| && x == FromLittleEndian(b[..i])
    ensures r == FromLittleEndian(b[..i + 1])
  {
    LittleSum(b, i);
    Or(x, b[i], i)
  }

  /** x | b[i] << 8(n - 1 - i), where x is what the octets from i + 1 to n make. */
  function JoinBig(x: nat, b: bytes, i: nat, n: nat): (r: nat)
    requires i < n <= |b| && x == FromBigEndian(b[i + 1..n])
    ensures r == FromBigEndian(b[i..n])
  {
    BigSum(b, i, n);
    Or(x, b[i], n - 1 - i)
  }

  lemma OneOctet(b: bytes, i: nat)
    requires i < |b|
    ensures FromLittleEndian(b[i..i + 1]) == b[i] && FromBigEndian(b[i..i + 1]) == b[i]
  {}

  function Uint16(o: Order, b: bytes): (x: nat)
    requires |b| >= 2
    ensures x == Get(o, b[..2])
  {
    match o
    case Little => OneOctet(b, 0); JoinLittle(b[0], b, 1)
    case Big => OneOctet(b, 1); JoinBig(b[1], b, 0, 2)
  }

  function Uint32(o: Order, b: bytes): (x: nat)
    requires |b| >= 4
    ensures x == Get(o, b[..4])
  {
    match o
    case Little =>
      OneOctet(b, 0);
      JoinLittle(JoinLittle(JoinLittle(b[0], b, 1), b, 2), b, 3)
    case Big =>
      OneOctet(b, 3);
      JoinBig(JoinBig(JoinBig(b[3], b, 2, 4), b, 1, 4), b, 0, 4)
  }

  function Uint64(o: Order, b: bytes): (x: nat)
    requires |b| >= 8
    ensures x == Get(o, b[..8])
  {
    match o
    case Little =>
      OneOctet(b, 0);
      var low := JoinLittle(JoinLittle(JoinLittle(b[0], b, 1), b, 2), b, 3);
      JoinLittle(JoinLittle(JoinLittle(JoinLittle(low, b, 4), b, 5), b, 6), b, 7)
    case Big =>
      OneOctet(b, 7);
      var low := JoinBig(JoinBig(JoinBig(b[7], b, 6, 8), b, 5, 8), b, 4, 8);
      JoinBig(JoinBig(JoinBig(JoinBig(low, b, 3, 8), b, 2, 8), b, 1, 8), b, 0, 8)
  }

  lemma LittleSum(b: bytes, i: nat)
    requires i < |b|
    ensures FromLittleEndian(b[..i + 1]) == Or(FromLittleEndian(b[..i]), b[i], i)
  {
    assert b[..i + 1][..i] == b[..i];
    LittleLast(b[..i + 1]);
    OrIsSum(FromLittleEndian(b[..i]), b[i], i);
  }

  lemma {:induction false} LittleLast(s: bytes)
    requires s != []
    ensures var n := |s| - 1; FromLittleEndian(s) == FromLittleEndian(s[..n]) + s[n] * Pow256(n)
  {
    var n := |s| - 1;
    if n > 0 {
      LittleLast(s[1..]);
      assert s[1..][..n - 1] == s[..n][1..];
      Scaled(s[n], n);
    }
  }

  lemma Scaled(d: nat, n: nat)
    requires n > 0
    ensures 256 * (d * Pow256(n - 1)) == d * Pow256(n)
  {}

  lemma BigSum(b: bytes, i: nat, n: nat)
    requires i < n <= |b|
    ensures FromBigEndian(b[i..n]) == Or(FromBigEndian(b[i + 1..n]), b[i], n - 1 - i)
  {
    assert b[i..n][1..] == b[i + 1..n];
    BigFirst(b[i..n]);
    OrIsSum(FromBigEndian(b[i + 1..n]), b[i], n - 1 - i);
  }

  lemma {:induction false} BigFirst(s: bytes)
    requires s != []
    ensures FromBigEndian(s) == FromBigEndian(s[1..]) + s[0] * Pow256(|s| - 1)
    decreases |s|
  {
    var n := |s| - 1;
    if n > 0 {
      BigFirst(s[..n]);
      assert s[..n][1..] == s[1..][..n - 1];
      assert s[1..][n - 1] == s[n];
      Scaled(s[0], n);
    }
  }
}
