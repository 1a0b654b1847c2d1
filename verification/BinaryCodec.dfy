/**
 The type-directed binary codec: fixed-size values are laid out field after field without
 padding; blank fields are zeros, skipped when reading.  Floats are their bit patterns.
 */
module BinaryCodec {
  import opened Sequences
  import opened Wire
  import opened ByteOrder

  datatype Kind =
    | Int8 | Int16 | Int32 | Int64 | Uint8 | Uint16 | Uint32 | Uint64
    | Float32 | Float64 | Complex64 | Complex128

  /** Blank is a field of a struct that is named _; Other is every type the codec does not
      accept: int, bool, string, map, and so on. */
  datatype Type =
    | Scalar(kind: Kind) | Array(len: nat, elem: Type) | Struct(fields: seq<Type>) | Blank(field: Type) | Other

  datatype Value = Num(n: int) | Pair(re: nat, im: nat) | Parts(vs: seq<Value>)

  function Width(k: Kind): nat {
    match k
    case Int8 => 1
    case Uint8 => 1
    case Int16 => 2
    case Uint16 => 2
    case Int32 => 4
    case Uint32 => 4
    case Int64 => 8
    case Uint64 => 8
    case Float32 => 4
    case Float64 => 8
    case Complex64 => 8
    case Complex128 => 16
  }

  predicate IsComplex(k: Kind) { k.Complex64? || k.Complex128? }

  predicate IsInt(k: Kind) { k in {Int8, Int16, Int32, Int64} }

  predicate IsUint(k: Kind) { k in {Uint8, Uint16, Uint32, Uint64} }

  predicate HasKind(k: Kind, v: Value) {
    if IsComplex(k) then v.Pair? && v.re < Pow256(Width(k) / 2) && v.im < Pow256(Width(k) / 2)
    else v.Num? && if IsInt(k) then IsSigned(Width(k), v.n) else 0 <= v.n < Pow256(Width(k))
  }

  predicate HasType(t: Type, v: Value)
    decreases t, 0, 0
  {
    match t
    case Scalar(k) => HasKind(k, v)
    case Array(n, e) => v.Parts? && |v.vs| == n && AllHaveType(e, v.vs)
    case Struct(fs) => v.Parts? && HaveTypes(fs, v.vs)
    case Blank(f) => HasType(f, v)
    case Other => false
  }

  predicate AllHaveType(e: Type, vs: seq<Value>)
    decreases e, 1, |vs|
  {
    vs == [] || (HasType(e, vs[0]) && AllHaveType(e, vs[1..]))
  }

  predicate HaveTypes(fs: seq<Type>, vs: seq<Value>)
    decreases fs, 0, 0
  {
    |vs| == |fs| && (fs == [] || (HasType(fs[0], vs[0]) && HaveTypes(fs[1..], vs[1..])))
  }

  // ----- Sizes -----

  /** sizeof: -1 for a type that is not acceptable. */
  function SizeOf(t: Type): (n: int)
    ensures n >= -1
    decreases t, 0
  {
    match t
    case Scalar(k) => Width(k)
    case Array(n, e) => if SizeOf(e) >= 0 then Times(SizeOf(e), n) else -1
    case Struct(fs) => SizeOfSlots(fs)
    case Blank(f) => SizeOf(f)
    case Other => -1
  }

  function SizeOfSlots(fs: seq<Type>): (n: int)
    ensures n >= -1
    decreases fs, 0
  {
    if fs == [] then 0
    else if SizeOf(fs[0]) < 0 || SizeOfSlots(fs[1..]) < 0 then -1
    else SizeOf(fs[0]) + SizeOfSlots(fs[1..])
  }

  function Times(size: nat, n: nat): nat {
    if n == 0 then 0 else size + Times(size, n - 1)
  }

  lemma {:induction false} TimesIsProduct(size: nat, n: nat)
    ensures Times(size, n) == size * n
  {
    if n > 0 {
      TimesIsProduct(size, n - 1);
    }
  }

  method Sizeof(t: Type) returns (n: int)
    ensures n == SizeOf(t)
    decreases t
  {
    match t {
      case Array(len, e) =>
        var s := Sizeof(e);
        if s >= 0 {
          TimesIsProduct(s, len);
          return s * len;
        }
      case Struct(fs) =>
        var sum := 0;
        assert fs[0..] == fs;
        for i := 0 to |fs|
          invariant sum >= 0
          invariant SizeOfSlots(fs) == if SizeOfSlots(fs[i..]) < 0 then -1 else sum + SizeOfSlots(fs[i..])
        {
          assert fs[i..][1..] == fs[i + 1..];
          var s := Sizeof(fs[i]);
          if s < 0 {
            return -1;
          }
          sum := sum + s;
        }
        return sum;
      case Blank(f) =>
        n := Sizeof(f);
        return;
      case Scalar(k) =>
        return Width(k);
      case Other =>
    }
    return -1;
  }

  /** Acceptable types are those with no unacceptable type anywhere inside. */
  predicate Acceptable(t: Type)
    decreases t, 0
  {
    match t
    case Scalar(_) => true
    case Array(_, e) => Acceptable(e)
    case Struct(fs) => AllAcceptable(fs)
    case Blank(f) => Acceptable(f)
    case Other => false
  }

  predicate AllAcceptable(fs: seq<Type>)
    decreases fs, 0
  {
    fs == [] || (Acceptable(fs[0]) && AllAcceptable(fs[1..]))
  }

  lemma {:induction false} SizedIffAcceptable(t: Type)
    ensures SizeOf(t) >= 0 <==> Acceptable(t)
    decreases t, 0
  {
    match t
    case Scalar(_) =>
    case Array(_, e) => SizedIffAcceptable(e);
    case Struct(fs) => SlotsSizedIffAcceptable(fs);
    case Blank(f) => SizedIffAcceptable(f);
    case Other =>
  }

  lemma {:induction false} SlotsSizedIffAcceptable(fs: seq<Type>)
    ensures SizeOfSlots(fs) >= 0 <==> AllAcceptable(fs)
    decreases fs, 0
  {
    if fs != [] {
      SizedIffAcceptable(fs[0]);
      SlotsSizedIffAcceptable(fs[1..]);
    }
  }

  // ----- Layout -----

  function Zeros(n: nat): (s: bytes)
    ensures |s| == n
  {
    seq(n, i => 0)
  }

  /** The unsigned conversion of an integer, and the bits of a float. */
  function Bits(k: Kind, v: Value): (u: nat)
    requires HasKind(k, v) && !IsComplex(k)
    ensures u < Pow256(Width(k))
  {
    if IsInt(k) then ToUnsigned(Width(k), v.n) else v.n
  }

  function FromBits(k: Kind, u: nat): (v: Value)
    requires !IsComplex(k) && u < Pow256(Width(k))
    ensures HasKind(k, v) && Bits(k, v) == u
  {
    Num(if IsInt(k) then ToSigned(Width(k), u) else u)
  }

  function EncodeScalar(o: Order, k: Kind, v: Value): (s: bytes)
    requires HasKind(k, v)
    ensures |s| == Width(k)
  {
    if IsComplex(k) then Put(o, Width(k) / 2, v.re) + Put(o, Width(k) / 2, v.im)
    else Put(o, Width(k), Bits(k, v))
  }

  /** It fills exactly the size of its type. */
  function Encode(o: Order, t: Type, v: Value): (s: bytes)
    requires HasType(t, v) && SizeOf(t) >= 0
    ensures |s| == SizeOf(t)
    decreases t, 0, 0
  {
    match t
    case Scalar(k) => EncodeScalar(o, k, v)
    case Array(n, e) => EncodeAll(o, e, v.vs)
    case Struct(fs) => EncodeSlots(o, fs, v.vs)
    case Blank(f) => Zeros(SizeOf(f))
  }

  function EncodeAll(o: Order, e: Type, vs: seq<Value>): (s: bytes)
    requires AllHaveType(e, vs) && SizeOf(e) >= 0
    ensures |s| == Times(SizeOf(e), |vs|)
    decreases e, 1, |vs|
  {
    if vs == [] then [] else Encode(o, e, vs[0]) + EncodeAll(o, e, vs[1..])
  }

  function EncodeSlots(o: Order, fs: seq<Type>, vs: seq<Value>): (s: bytes)
    requires HaveTypes(fs, vs) && SizeOfSlots(fs) >= 0
    ensures |s| == SizeOfSlots(fs)
    decreases fs, 0, 0
  {
    if fs == [] then []
    else Encode(o, fs[0], vs[0]) + EncodeSlots(o, fs[1..], vs[1..])
  }

  function DecodeScalar(o: Order, k: Kind, s: bytes): (v: Value)
    requires |s| == Width(k)
    ensures HasKind(k, v)
  {
    if IsComplex(k) then Pair(Get(o, s[..Width(k) / 2]), Get(o, s[Width(k) / 2..]))
    else FromBits(k, Get(o, s))
  }

  /** Decoding goes into a variable that already has a value; what is skipped stays. */
  function Decode(o: Order, t: Type, into: Value, s: bytes): (v: Value)
    requires HasType(t, into) && |s| == SizeOf(t)
    ensures HasType(t, v)
    decreases t, 0, 0
  {
    match t
    case Scalar(k) => DecodeScalar(o, k, s)
    case Array(n, e) => Parts(DecodeAll(o, e, into.vs, s))
    case Struct(fs) => Parts(DecodeSlots(o, fs, into.vs, s))
    case Blank(_) => into
  }

  function DecodeAll(o: Order, e: Type, into: seq<Value>, s: bytes): (vs: seq<Value>)
    requires AllHaveType(e, into) && SizeOf(e) >= 0 && |s| == Times(SizeOf(e), |into|)
    ensures |vs| == |into| && AllHaveType(e, vs)
    decreases e, 1, |into|
  {
    if into == [] then []
    else [Decode(o, e, into[0], s[..SizeOf(e)])] + DecodeAll(o, e, into[1..], s[SizeOf(e)..])
  }

  function DecodeSlots(o: Order, fs: seq<Type>, into: seq<Value>, s: bytes): (vs: seq<Value>)
    requires HaveTypes(fs, into) && |s| == SizeOfSlots(fs)
    ensures HaveTypes(fs, vs)
    decreases fs, 0, 0
  {
    if fs == [] then []
    else
      var n := SizeOf(fs[0]);
      [Decode(o, fs[0], into[0], s[..n])] + DecodeSlots(o, fs[1..], into[1..], s[n..])
  }

  // ----- The octets -----

  /** A blank field is so many zeros. */
  lemma BlankOctets(o: Order, f: Type, v: Value)
    requires HasType(f, v) && SizeOf(f) >= 0
    ensures forall i :: 0 <= i < |Encode(o, Blank(f), v)| ==> Encode(o, Blank(f), v)[i] == 0
  {
    assert Encode(o, Blank(f), v) == Zeros(SizeOf(f));
  }

  lemma ScalarSizes()
    ensures SizeOf(Scalar(Int8)) == SizeOf(Scalar(Uint8)) == 1
    ensures SizeOf(Scalar(Int16)) == SizeOf(Scalar(Uint16)) == 2
    ensures SizeOf(Scalar(Int32)) == SizeOf(Scalar(Uint32)) == SizeOf(Scalar(Float32)) == 4
    ensures SizeOf(Scalar(Int64)) == SizeOf(Scalar(Uint64)) == SizeOf(Scalar(Float64)) == SizeOf(Scalar(Complex64)) == 8
    ensures SizeOf(Scalar(Complex128)) == 16
  {}

  /** Fields and elements follow one another without padding. */
  lemma NoPadding(o: Order, fs: seq<Type>, e: Type, vs: seq<Value>)
    ensures fs != [] && HaveTypes(fs, vs) && SizeOfSlots(fs) >= 0 ==>
      Encode(o, Struct(fs), Parts(vs)) == Encode(o, fs[0], vs[0]) + Encode(o, Struct(fs[1..]), Parts(vs[1..]))
    ensures vs != [] && AllHaveType(e, vs) && SizeOf(e) >= 0 ==>
      Encode(o, Array(|vs|, e), Parts(vs)) == Encode(o, e, vs[0]) + Encode(o, Array(|vs| - 1, e), Parts(vs[1..]))
  {}

  /** Two octets in either order, an integer below zero as what is larger by a power of two,
      and a complex number as its real and its imaginary part. */
  lemma ScalarOctets(n: int, re: nat, im: nat)
    requires -0x8000 <= n < 0x8000 && re < 0x1_0000_0000 && im < 0x1_0000_0000
    ensures var u := if n < 0 then n + 0x1_0000 else n;
            Pow256(2) == 0x1_0000 &&
            Encode(Little, Scalar(Int16), Num(n)) == [u % 256, u / 256] &&
            Encode(Big, Scalar(Int16), Num(n)) == [u / 256, u % 256]
    ensures Pow256(4) == 0x1_0000_0000 &&
            forall o :: Encode(o, Scalar(Complex64), Pair(re, im)) ==
                        Encode(o, Scalar(Uint32), Num(re)) + Encode(o, Scalar(Uint32), Num(im))
  {
    Widths();
    var u := if n < 0 then n + 0x1_0000 else n;
    assert LittleEndian(1, u / 256) == [u / 256 % 256] + LittleEndian(0, u / 256 / 256);
    assert BigEndian(1, u / 256) == BigEndian(0, u / 256 / 256) + [u / 256 % 256];
  }

  // ----- Round trips -----

  /** The value with its blank fields taken from another. */
  function Restored(t: Type, v: Value, into: Value): (r: Value)
    requires HasType(t, v) && HasType(t, into)
    ensures HasType(t, r)
    decreases t, 0, 0
  {
    match t
    case Scalar(_) => v
    case Array(_, e) => Parts(RestoredAll(e, v.vs, into.vs))
    case Struct(fs) => Parts(RestoredSlots(fs, v.vs, into.vs))
    case Blank(_) => into
  }

  function RestoredAll(e: Type, vs: seq<Value>, into: seq<Value>): (rs: seq<Value>)
    requires AllHaveType(e, vs) && AllHaveType(e, into) && |vs| == |into|
    ensures |rs| == |vs| && AllHaveType(e, rs)
    decreases e, 1, |vs|
  {
    if vs == [] then [] else [Restored(e, vs[0], into[0])] + RestoredAll(e, vs[1..], into[1..])
  }

  function RestoredSlots(fs: seq<Type>, vs: seq<Value>, into: seq<Value>): (rs: seq<Value>)
    requires HaveTypes(fs, vs) && HaveTypes(fs, into)
    ensures HaveTypes(fs, rs)
    decreases fs, 0, 0
  {
    if fs == [] then []
    else [Restored(fs[0], vs[0], into[0])] + RestoredSlots(fs[1..], vs[1..], into[1..])
  }

  lemma ScalarRoundTrip(o: Order, k: Kind, v: Value)
    requires HasKind(k, v)
    ensures DecodeScalar(o, k, EncodeScalar(o, k, v)) == v
  {
    if IsComplex(k) {
      PutGet(o, Width(k) / 2, v.re);
      PutGet(o, Width(k) / 2, v.im);
      assert EncodeScalar(o, k, v)[..Width(k) / 2] == Put(o, Width(k) / 2, v.re);
      assert EncodeScalar(o, k, v)[Width(k) / 2..] == Put(o, Width(k) / 2, v.im);
    } else {
      PutGet(o, Width(k), Bits(k, v));
    }
  }

  /** Decoding what was encoded restores every value of every type, in either order; only
      blank fields keep what was there before. */
  lemma {:induction false} RoundTrip(o: Order, t: Type, v: Value, into: Value)
    requires HasType(t, v) && HasType(t, into) && SizeOf(t) >= 0
    ensures Decode(o, t, into, Encode(o, t, v)) == Restored(t, v, into)
    decreases t, 0, 0
  {
    match t
    case Scalar(k) => ScalarRoundTrip(o, k, v);
    case Array(_, e) => RoundTripAll(o, e, v.vs, into.vs);
    case Struct(fs) => RoundTripSlots(o, fs, v.vs, into.vs);
    case Blank(_) =>
  }

  lemma {:induction false} RoundTripAll(o: Order, e: Type, vs: seq<Value>, into: seq<Value>)
    requires AllHaveType(e, vs) && AllHaveType(e, into) && |vs| == |into| && SizeOf(e) >= 0
    ensures DecodeAll(o, e, into, EncodeAll(o, e, vs)) == RestoredAll(e, vs, into)
    decreases e, 1, |vs|
  {
    if vs != [] {
      var head, tail := Encode(o, e, vs[0]), EncodeAll(o, e, vs[1..]);
      assert (head + tail)[..SizeOf(e)] == head && (head + tail)[SizeOf(e)..] == tail;
      RoundTrip(o, e, vs[0], into[0]);
      RoundTripAll(o, e, vs[1..], into[1..]);
    }
  }

  lemma {:induction false} RoundTripSlots(o: Order, fs: seq<Type>, vs: seq<Value>, into: seq<Value>)
    requires HaveTypes(fs, vs) && HaveTypes(fs, into) && SizeOfSlots(fs) >= 0
    ensures DecodeSlots(o, fs, into, EncodeSlots(o, fs, vs)) == RestoredSlots(fs, vs, into)
    decreases fs, 0, 0
  {
    if fs != [] {
      var n := SizeOf(fs[0]);
      var head, tail := Encode(o, fs[0], vs[0]), EncodeSlots(o, fs[1..], vs[1..]);
      assert (head + tail)[..n] == head && (head + tail)[n..] == tail;
      RoundTrip(o, fs[0], vs[0], into[0]);
      RoundTripSlots(o, fs[1..], vs[1..], into[1..]);
    }
  }

  predicate NoBlanks(t: Type)
    decreases t, 0
  {
    match t
    case Array(_, e) => NoBlanks(e)
    case Struct(fs) => NoBlankSlots(fs)
    case Blank(_) => false
    case _ => true
  }

  predicate NoBlankSlots(fs: seq<Type>)
    decreases fs, 0
  {
    fs == [] || (NoBlanks(fs[0]) && NoBlankSlots(fs[1..]))
  }

  /** A value of a type without blank fields comes back whole. */
  lemma {:induction false} RestoredWhole(t: Type, v: Value, into: Value)
    requires HasType(t, v) && HasType(t, into) && NoBlanks(t)
    ensures Restored(t, v, into) == v
    decreases t, 0, 0
  {
    match t
    case Scalar(_) =>
    case Array(_, e) => RestoredWholeAll(e, v.vs, into.vs);
    case Struct(fs) => RestoredWholeSlots(fs, v.vs, into.vs);
  }

  lemma {:induction false} RestoredWholeAll(e: Type, vs: seq<Value>, into: seq<Value>)
    requires AllHaveType(e, vs) && AllHaveType(e, into) && |vs| == |into| && NoBlanks(e)
    ensures RestoredAll(e, vs, into) == vs
    decreases e, 1, |vs|
  {
    if vs != [] {
      RestoredWhole(e, vs[0], into[0]);
      RestoredWholeAll(e, vs[1..], into[1..]);
    }
  }

  lemma {:induction false} RestoredWholeSlots(fs: seq<Type>, vs: seq<Value>, into: seq<Value>)
    requires HaveTypes(fs, vs) && HaveTypes(fs, into) && NoBlankSlots(fs)
    ensures RestoredSlots(fs, vs, into) == vs
    decreases fs, 0, 0
  {
    if fs != [] {
      RestoredWhole(fs[0], vs[0], into[0]);
      RestoredWholeSlots(fs[1..], vs[1..], into[1..]);
    }
  }

  /** And every string of octets of the right length is the encoding of what it decodes
      to, so that without blank fields encoding and decoding are inverse to each other. */
  lemma {:induction false} DecodeEncode(o: Order, t: Type, into: Value, s: bytes)
    requires HasType(t, into) && |s| == SizeOf(t) && NoBlanks(t)
    ensures Encode(o, t, Decode(o, t, into, s)) == s
    decreases t, 0, 0
  {
    match t
    case Scalar(k) =>
      if IsComplex(k) {
        GetPut(o, s[..Width(k) / 2]);
        GetPut(o, s[Width(k) / 2..]);
        assert s[..Width(k) / 2] + s[Width(k) / 2..] == s;
      } else {
        GetPut(o, s);
      }
    case Array(_, e) => DecodeEncodeAll(o, e, into.vs, s);
    case Struct(fs) => DecodeEncodeSlots(o, fs, into.vs, s);
  }

  lemma {:induction false} DecodeEncodeAll(o: Order, e: Type, into: seq<Value>, s: bytes)
    requires AllHaveType(e, into) && SizeOf(e) >= 0 && |s| == Times(SizeOf(e), |into|) && NoBlanks(e)
    ensures EncodeAll(o, e, DecodeAll(o, e, into, s)) == s
    decreases e, 1, |into|
  {
    if into != [] {
      var n := SizeOf(e);
      DecodeEncode(o, e, into[0], s[..n]);
      DecodeEncodeAll(o, e, into[1..], s[n..]);
      AllApart(o, e, into, s);
      Rejoin(s, n);
    }
  }

  lemma {:induction false} DecodeEncodeSlots(o: Order, fs: seq<Type>, into: seq<Value>, s: bytes)
    requires HaveTypes(fs, into) && |s| == SizeOfSlots(fs) && NoBlankSlots(fs)
    ensures EncodeSlots(o, fs, DecodeSlots(o, fs, into, s)) == s
    decreases fs, 0, 0
  {
    if fs != [] {
      var n := SizeOf(fs[0]);
      DecodeEncode(o, fs[0], into[0], s[..n]);
      DecodeEncodeSlots(o, fs[1..], into[1..], s[n..]);
      SlotsApart(o, fs, into, s);
      Rejoin(s, n);
    }
  }

  /** The first element and the others are decoded, and would be encoded, apart. */
  lemma AllApart(o: Order, e: Type, into: seq<Value>, s: bytes)
    requires into != [] && AllHaveType(e, into) && SizeOf(e) >= 0 && |s| == Times(SizeOf(e), |into|)
    ensures var n, vs := SizeOf(e), DecodeAll(o, e, into, s);
            EncodeAll(o, e, vs) ==
            Encode(o, e, Decode(o, e, into[0], s[..n])) + EncodeAll(o, e, DecodeAll(o, e, into[1..], s[n..]))
  {
    var n := SizeOf(e);
    assert DecodeAll(o, e, into, s)[1..] == DecodeAll(o, e, into[1..], s[n..]);
  }

  /** The same for slots. */
  lemma SlotsApart(o: Order, fs: seq<Type>, into: seq<Value>, s: bytes)
    requires fs != [] && HaveTypes(fs, into) && |s| == SizeOfSlots(fs)
    ensures var n, vs := SizeOf(fs[0]), DecodeSlots(o, fs, into, s);
            EncodeSlots(o, fs, vs) ==
            Encode(o, fs[0], Decode(o, fs[0], into[0], s[..n])) +
            EncodeSlots(o, fs[1..], DecodeSlots(o, fs[1..], into[1..], s[n..]))
  {
    var n := SizeOf(fs[0]);
    assert DecodeSlots(o, fs, into, s)[1..] == DecodeSlots(o, fs[1..], into[1..], s[n..]);
  }

  // ----- Blank fields carry nothing -----

  lemma {:induction false} EncodeRestored(o: Order, t: Type, v: Value, into: Value)
    requires HasType(t, v) && HasType(t, into) && SizeOf(t) >= 0
    ensures Encode(o, t, Restored(t, v, into)) == Encode(o, t, v)
    decreases t, 0, 0
  {
    match t
    case Scalar(_) =>
    case Array(_, e) => EncodeRestoredAll(o, e, v.vs, into.vs);
    case Struct(fs) => EncodeRestoredSlots(o, fs, v.vs, into.vs);
    case Blank(_) =>
  }

  lemma {:induction false} EncodeRestoredAll(o: Order, e: Type, vs: seq<Value>, into: seq<Value>)
    requires AllHaveType(e, vs) && AllHaveType(e, into) && |vs| == |into| && SizeOf(e) >= 0
    ensures EncodeAll(o, e, RestoredAll(e, vs, into)) == EncodeAll(o, e, vs)
    decreases e, 1, |vs|
  {
    if vs != [] {
      assert RestoredAll(e, vs, into)[1..] == RestoredAll(e, vs[1..], into[1..]);
      EncodeRestored(o, e, vs[0], into[0]);
      EncodeRestoredAll(o, e, vs[1..], into[1..]);
    }
  }

  lemma {:induction false} EncodeRestoredSlots(o: Order, fs: seq<Type>, vs: seq<Value>, into: seq<Value>)
    requires HaveTypes(fs, vs) && HaveTypes(fs, into) && SizeOfSlots(fs) >= 0
    ensures EncodeSlots(o, fs, RestoredSlots(fs, vs, into)) == EncodeSlots(o, fs, vs)
    decreases fs, 0, 0
  {
    if fs != [] {
      assert RestoredSlots(fs, vs, into)[1..] == RestoredSlots(fs[1..], vs[1..], into[1..]);
      EncodeRestored(o, fs[0], vs[0], into[0]);
      EncodeRestoredSlots(o, fs[1..], vs[1..], into[1..]);
    }
  }

  /** Two values have the same encoding if and only if they differ in blank fields only. */
  lemma SameEncodingIff(o: Order, t: Type, v: Value, w: Value)
    requires HasType(t, v) && HasType(t, w) && SizeOf(t) >= 0
    ensures Encode(o, t, v) == Encode(o, t, w) <==> Restored(t, v, w) == w
  {
    RoundTrip(o, t, v, w);
    RoundTrip(o, t, w, w);
    EncodeRestored(o, t, v, w);
    RestoredItself(t, w);
  }

  lemma {:induction false} RestoredItself(t: Type, v: Value)
    requires HasType(t, v)
    ensures Restored(t, v, v) == v
    decreases t, 0, 0
  {
    match t
    case Scalar(_) =>
    case Array(_, e) => RestoredItselfAll(e, v.vs);
    case Struct(fs) => RestoredItselfSlots(fs, v.vs);
    case Blank(_) =>
  }

  lemma {:induction false} RestoredItselfAll(e: Type, vs: seq<Value>)
    requires AllHaveType(e, vs)
    ensures RestoredAll(e, vs, vs) == vs
    decreases e, 1, |vs|
  {
    if vs != [] {
      RestoredItself(e, vs[0]);
      RestoredItselfAll(e, vs[1..]);
    }
  }

  lemma {:induction false} RestoredItselfSlots(fs: seq<Type>, vs: seq<Value>)
    requires HaveTypes(fs, vs)
    ensures RestoredSlots(fs, vs, vs) == vs
    decreases fs, 0, 0
  {
    if fs != [] {
      RestoredItself(fs[0], vs[0]);
      RestoredItselfSlots(fs[1..], vs[1..]);
    }
  }
}
