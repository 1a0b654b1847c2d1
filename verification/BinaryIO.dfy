/**
 The encoder and the decoder at work on a buffer, and Read and Write with their fast
 paths for integers and slices of integers.

 The buffer is an array that is filled from left to right, and each method is proved to
 put the octets there that the functions of `BinaryCodec` define, and to leave the rest.
 */
module BinaryIO {
  import opened Options
  import opened Sequences
  import opened Wire
  import opened ByteOrder
  import opened BinaryCodec

  /** The getter and the putter for a width; a single octet has no order. */
  function Uint(o: Order, w: nat, b: bytes): (x: nat)
    requires w in {1, 2, 4, 8} && w <= |b|
    ensures x == Get(o, b[..w]) && x < Pow256(w)
  {
    if w == 1 then
      OneOctet(b, 0);
      b[0]
    else if w == 2 then ByteOrder.Uint16(o, b)
    else if w == 4 then ByteOrder.Uint32(o, b)
    else ByteOrder.Uint64(o, b)
  }

  method PutUintAt(o: Order, b: array<byte>, at: nat, w: nat, x: nat)
    requires w in {1, 2, 4, 8} && at + w <= b.Length && x < Pow256(w)
    modifies b
    ensures Written(old(b[..]), at, Put(o, w, x), b[..])
  {
    if w == 1 {
      Widths();
      AllOctets(1, x);
      b[at] := x;
    } else if w == 2 {
      PutUint16(o, b, at, x);
    } else if w == 4 {
      PutUint32(o, b, at, x);
    } else {
      PutUint64(o, b, at, x);
    }
  }

  class Encoder {
    const order: Order
    const buf: array<byte>
    var off: nat

    constructor (order: Order, buf: array<byte>)
      ensures this.order == order && this.buf == buf && off == 0
    {
      this.order, this.buf, off := order, buf, 0;
    }

    /** encoder.uint8, uint16, uint32 and uint64 */
    method PutUint(w: nat, x: nat)
      requires w in {1, 2, 4, 8} && off + w <= buf.Length && x < Pow256(w)
      modifies this`off, buf
      ensures off == old(off) + w && Written(old(buf[..]), old(off), Put(order, w, x), buf[..])
    {
      PutUintAt(order, buf, off, w, x);
      off := off + w;
    }

    method PutScalar(k: Kind, v: Value)
      requires HasKind(k, v) && off + Width(k) <= buf.Length
      modifies this`off, buf
      ensures off == old(off) + Width(k) && Written(old(buf[..]), old(off), EncodeScalar(order, k, v), buf[..])
    {
      if IsComplex(k) {
        var w := Width(k) / 2;
        PutUint(w, v.re);
        ghost var between := buf[..];
        PutUint(w, v.im);
        WrittenTwice(old(buf[..]), old(off), Put(order, w, v.re), between, Put(order, w, v.im), buf[..]);
      } else {
        PutUint(Width(k), Bits(k, v));
      }
    }

    /** encoder.skip */
    method SkipZero(n: nat)
      requires off + n <= buf.Length
      modifies this`off, buf
      ensures off == old(off) + n && Written(old(buf[..]), old(off), Zeros(n), buf[..])
    {
      for i := 0 to n
        invariant off == old(off)
        invariant forall j :: 0 <= j < buf.Length ==> buf[j] == if off <= j < off + i then 0 else old(buf[j])
      {
        buf[off + i] := 0;
      }
      off := off + n;
    }

    /** encoder.value */
    method PutValue(t: Type, v: Value)
      requires HasType(t, v) && SizeOf(t) >= 0 && off + SizeOf(t) <= buf.Length
      modifies this`off, buf
      ensures off == old(off) + SizeOf(t) && Written(old(buf[..]), old(off), Encode(order, t, v), buf[..])
      decreases t, 0
    {
      match t
      case Scalar(k) => PutScalar(k, v);
      case Blank(f) =>
        var n := Sizeof(f);
        SkipZero(n);
      case Array(_, e) => PutAll(e, v.vs);
      case Struct(fs) => PutSlots(fs, v.vs);
    }

    method PutSlots(fs: seq<Type>, vs: seq<Value>)
      requires HaveTypes(fs, vs) && SizeOfSlots(fs) >= 0 && off + SizeOfSlots(fs) <= buf.Length
      modifies this`off, buf
      ensures off == old(off) + SizeOfSlots(fs)
      ensures Written(old(buf[..]), old(off), EncodeSlots(order, fs, vs), buf[..])
      decreases fs, 0
    {
      ghost var w := Filling(order, fs, vs, buf[..], off);
      FillingBegins(w);
      for i := 0 to |fs|
        invariant Filled(w, i, off, buf[..])
      {
        ghost var at, before := off, buf[..];
        FillingReady(w, i, off, buf[..]);
        PutValue(fs[i], vs[i]);
        FillingNext(w, i, at, before, off, buf[..]);
      }
      FillingEnds(w, off, buf[..]);
    }

    /** The elements of an array or of a slice. */
    method PutAll(e: Type, vs: seq<Value>)
      requires AllHaveType(e, vs) && SizeOf(e) >= 0 && off + Times(SizeOf(e), |vs|) <= buf.Length
      modifies this`off, buf
      ensures off == old(off) + Times(SizeOf(e), |vs|)
      ensures Written(old(buf[..]), old(off), EncodeAll(order, e, vs), buf[..])
      decreases e, 1
    {
      ghost var w := Writing(order, e, vs, buf[..], off);
      WritingBegins(w);
      for i := 0 to |vs|
        invariant Underway(w, i, off, buf[..])
      {
        ghost var at, before := off, buf[..];
        WritingReady(w, i, off, buf[..]);
        PutValue(e, vs[i]);
        WritingNext(w, i, at, before, off, buf[..]);
      }
      WritingEnds(w, off, buf[..]);
    }
  }

  class Decoder {
    const order: Order
    var buf: bytes

    constructor (order: Order, buf: bytes)
      ensures this.order == order && this.buf == buf
    {
      this.order, this.buf := order, buf;
    }

    /** decoder.uint8, uint16, uint32 and uint64 */
    method GetUint(w: nat) returns (x: nat)
      requires w in {1, 2, 4, 8} && w <= |buf|
      modifies this
      ensures buf == old(buf)[w..] && x == Get(order, old(buf)[..w]) && x < Pow256(w)
    {
      x := Uint(order, w, buf);
      buf := buf[w..];
    }

    method GetScalar(k: Kind) returns (v: Value)
      requires Width(k) <= |buf|
      modifies this
      ensures buf == old(buf)[Width(k)..] && v == DecodeScalar(order, k, old(buf)[..Width(k)])
    {
      if IsComplex(k) {
        var w := Width(k) / 2;
        ghost var s := buf[..w + w];
        assert s[..w] == buf[..w] && s[w..] == buf[w..][..w];
        var re := GetUint(w);
        var im := GetUint(w);
        v := Pair(re, im);
      } else {
        var u := GetUint(Width(k));
        v := FromBits(k, u);
      }
    }

    /** decoder.value; decoder.skip leaves the variable as it was. */
    method GetValue(t: Type, into: Value) returns (v: Value)
      requires HasType(t, into) && 0 <= SizeOf(t) <= |buf|
      modifies this
      ensures buf == old(buf)[SizeOf(t)..] && v == Decode(order, t, into, old(buf)[..SizeOf(t)])
      decreases t, 0
    {
      match t
      case Scalar(k) => v := GetScalar(k);
      case Blank(f) =>
        var n := Sizeof(f);
        buf := buf[n..];
        v := into;
      case Array(_, e) =>
        var vs := GetAll(e, into.vs);
        v := Parts(vs);
      case Struct(fs) =>
        var vs := GetSlots(fs, into.vs);
        v := Parts(vs);
    }

    method GetSlots(fs: seq<Type>, into: seq<Value>) returns (vs: seq<Value>)
      requires HaveTypes(fs, into) && 0 <= SizeOfSlots(fs) <= |buf|
      modifies this
      ensures buf == old(buf)[SizeOfSlots(fs)..]
      ensures vs == DecodeSlots(order, fs, into, old(buf)[..SizeOfSlots(fs)])
      decreases fs, 0
    {
      ghost var w := Window(order, buf[..SizeOfSlots(fs)], buf[SizeOfSlots(fs)..]);
      ghost var left := w.s;
      vs := [];
      SlotsBegin(w, fs, into);
      for i := 0 to |fs|
        invariant buf == left + w.tail && SlotsLeft(w, fs, into, i, left, vs)
      {
        SlotsReady(w, fs, into, i, left, vs);
        Cut(left, w.tail, SizeOf(fs[i]));
        var x := GetValue(fs[i], into[i]);
        SlotsNext(w, fs, into, i, left, vs, x);
        left := left[SizeOf(fs[i])..];
        vs := vs + [x];
      }
      SlotsEnd(w, fs, into, left, vs);
    }

    method GetAll(e: Type, into: seq<Value>) returns (vs: seq<Value>)
      requires AllHaveType(e, into) && SizeOf(e) >= 0 && Times(SizeOf(e), |into|) <= |buf|
      modifies this
      ensures buf == old(buf)[Times(SizeOf(e), |into|)..]
      ensures vs == DecodeAll(order, e, into, old(buf)[..Times(SizeOf(e), |into|)])
      decreases e, 1
    {
      ghost var n := Times(SizeOf(e), |into|);
      ghost var w := Window(order, buf[..n], buf[n..]);
      ghost var left := w.s;
      vs := [];
      AllBegin(w, e, into);
      for i := 0 to |into|
        invariant buf == left + w.tail && AllLeft(w, e, into, i, left, vs)
      {
        AllReady(w, e, into, i, left, vs);
        Cut(left, w.tail, SizeOf(e));
        var x := GetValue(e, into[i]);
        AllNext(w, e, into, i, left, vs, x);
        left := left[SizeOf(e)..];
        vs := vs + [x];
      }
      AllEnd(w, e, into, left, vs);
    }
  }

  // ----- An encoding under way -----

  /** What PutAll is to write, into which octets and from where. */
  datatype Writing = Writing(order: Order, elem: Type, vs: seq<Value>, start: bytes, at: nat)

  ghost predicate IsWriting(w: Writing) {
    SizeOf(w.elem) >= 0 && AllHaveType(w.elem, w.vs) && w.at + Times(SizeOf(w.elem), |w.vs|) <= |w.start|
  }

  /** The elements before i are written. */
  ghost predicate Underway(w: Writing, i: nat, off: nat, b: bytes) {
    && IsWriting(w) && i <= |w.vs| && AllHaveType(w.elem, w.vs[i..]) && w.at <= off <= |b|
    && Written(w.start, w.at, b[w.at..off], b)
    && b[w.at..off] + EncodeAll(w.order, w.elem, w.vs[i..]) == EncodeAll(w.order, w.elem, w.vs)
  }

  lemma WritingBegins(w: Writing)
    requires IsWriting(w)
    ensures Underway(w, 0, w.at, w.start)
  {
    assert w.vs[0..] == w.vs && w.start[w.at..w.at] == [];
    Empty(EncodeAll(w.order, w.elem, w.vs));
  }

  lemma WritingReady(w: Writing, i: nat, off: nat, b: bytes)
    requires Underway(w, i, off, b) && i < |w.vs|
    ensures HasType(w.elem, w.vs[i]) && SizeOf(w.elem) >= 0 && off + SizeOf(w.elem) <= |b|
  {
    assert off - w.at + |EncodeAll(w.order, w.elem, w.vs[i..])| == Times(SizeOf(w.elem), |w.vs|);
  }

  lemma WritingNext(w: Writing, i: nat, off: nat, b: bytes, off': nat, b': bytes)
    requires Underway(w, i, off, b) && i < |w.vs| && HasType(w.elem, w.vs[i])
    requires off' == off + SizeOf(w.elem) && Written(b, off, Encode(w.order, w.elem, w.vs[i]), b')
    ensures Underway(w, i + 1, off', b')
  {
    var done, piece := b[w.at..off], Encode(w.order, w.elem, w.vs[i]);
    WrittenTwice(w.start, w.at, done, b, piece, b');
    assert b'[w.at..off'] == done + piece;
    assert w.vs[i..][1..] == w.vs[i + 1..];
    Assoc(done, piece, EncodeAll(w.order, w.elem, w.vs[i + 1..]));
  }

  lemma WritingEnds(w: Writing, off: nat, b: bytes)
    requires Underway(w, |w.vs|, off, b)
    ensures off == w.at + Times(SizeOf(w.elem), |w.vs|)
    ensures Written(w.start, w.at, EncodeAll(w.order, w.elem, w.vs), b)
  {
    Empty(b[w.at..off]);
  }

  /** The same for PutSlots. */
  datatype Filling = Filling(order: Order, slots: seq<Type>, vs: seq<Value>, start: bytes, at: nat)

  ghost predicate IsFilling(w: Filling) {
    HaveTypes(w.slots, w.vs) && SizeOfSlots(w.slots) >= 0 && w.at + SizeOfSlots(w.slots) <= |w.start|
  }

  ghost predicate Filled(w: Filling, i: nat, off: nat, b: bytes) {
    && IsFilling(w) && i <= |w.slots| == |w.vs| && HaveTypes(w.slots[i..], w.vs[i..]) && SizeOfSlots(w.slots[i..]) >= 0
    && w.at <= off <= |b| && Written(w.start, w.at, b[w.at..off], b)
    && b[w.at..off] + EncodeSlots(w.order, w.slots[i..], w.vs[i..]) == EncodeSlots(w.order, w.slots, w.vs)
  }

  lemma FillingBegins(w: Filling)
    requires IsFilling(w)
    ensures Filled(w, 0, w.at, w.start)
  {
    assert w.slots[0..] == w.slots && w.vs[0..] == w.vs && w.start[w.at..w.at] == [];
    Empty(EncodeSlots(w.order, w.slots, w.vs));
  }

  lemma FillingReady(w: Filling, i: nat, off: nat, b: bytes)
    requires Filled(w, i, off, b) && i < |w.slots|
    ensures HasType(w.slots[i], w.vs[i]) && SizeOf(w.slots[i]) >= 0 && off + SizeOf(w.slots[i]) <= |b|
  {
    assert off - w.at + |EncodeSlots(w.order, w.slots[i..], w.vs[i..])| == SizeOfSlots(w.slots);
  }

  lemma FillingNext(w: Filling, i: nat, off: nat, b: bytes, off': nat, b': bytes)
    requires Filled(w, i, off, b) && i < |w.slots| && HasType(w.slots[i], w.vs[i]) && SizeOf(w.slots[i]) >= 0
    requires off' == off + SizeOf(w.slots[i]) && Written(b, off, Encode(w.order, w.slots[i], w.vs[i]), b')
    ensures Filled(w, i + 1, off', b')
  {
    var done, piece := b[w.at..off], Encode(w.order, w.slots[i], w.vs[i]);
    WrittenTwice(w.start, w.at, done, b, piece, b');
    assert b'[w.at..off'] == done + piece;
    assert w.slots[i..][1..] == w.slots[i + 1..] && w.vs[i..][1..] == w.vs[i + 1..];
    Assoc(done, piece, EncodeSlots(w.order, w.slots[i + 1..], w.vs[i + 1..]));
  }

  lemma FillingEnds(w: Filling, off: nat, b: bytes)
    requires Filled(w, |w.slots|, off, b)
    ensures off == w.at + SizeOfSlots(w.slots) && Written(w.start, w.at, EncodeSlots(w.order, w.slots, w.vs), b)
  {
    Empty(b[w.at..off]);
  }

  // ----- A decoding under way -----

  /** The octets that a decoding is about, and what follows them. */
  datatype Window = Window(order: Order, s: bytes, tail: bytes)

  /** The elements before i are decoded, and those left are in the octets left. */
  ghost predicate AllLeft(w: Window, e: Type, into: seq<Value>, i: nat, left: bytes, vs: seq<Value>) {
    && i <= |into| && SizeOf(e) >= 0 && AllHaveType(e, into) && AllHaveType(e, into[i..])
    && |w.s| == Times(SizeOf(e), |into|) && |left| == Times(SizeOf(e), |into[i..]|)
    && vs + DecodeAll(w.order, e, into[i..], left) == DecodeAll(w.order, e, into, w.s)
  }

  lemma AllBegin(w: Window, e: Type, into: seq<Value>)
    requires SizeOf(e) >= 0 && AllHaveType(e, into) && |w.s| == Times(SizeOf(e), |into|)
    ensures AllLeft(w, e, into, 0, w.s, [])
  {
    assert into[0..] == into;
    Empty(DecodeAll(w.order, e, into, w.s));
  }

  lemma AllReady(w: Window, e: Type, into: seq<Value>, i: nat, left: bytes, vs: seq<Value>)
    requires AllLeft(w, e, into, i, left, vs) && i < |into|
    ensures HasType(e, into[i]) && SizeOf(e) <= |left|
    ensures |left| == SizeOf(e) + Times(SizeOf(e), |into[i + 1..]|)
  {
    assert into[i..][1..] == into[i + 1..];
  }

  lemma AllNext(w: Window, e: Type, into: seq<Value>, i: nat, left: bytes, vs: seq<Value>, x: Value)
    requires AllLeft(w, e, into, i, left, vs) && i < |into| && HasType(e, into[i])
    requires SizeOf(e) <= |left| && x == Decode(w.order, e, into[i], left[..SizeOf(e)])
    ensures AllLeft(w, e, into, i + 1, left[SizeOf(e)..], vs + [x])
  {
    AllReady(w, e, into, i, left, vs);
    assert into[i..][1..] == into[i + 1..];
    Assoc(vs, [x], DecodeAll(w.order, e, into[i + 1..], left[SizeOf(e)..]));
  }

  lemma AllEnd(w: Window, e: Type, into: seq<Value>, left: bytes, vs: seq<Value>)
    requires AllLeft(w, e, into, |into|, left, vs)
    ensures left == [] && vs == DecodeAll(w.order, e, into, w.s)
  {
    Empty(vs);
  }

  ghost predicate SlotsLeft(w: Window, fs: seq<Type>, into: seq<Value>, i: nat, left: bytes, vs: seq<Value>) {
    && i <= |fs| == |into| && HaveTypes(fs, into) && HaveTypes(fs[i..], into[i..])
    && |w.s| == SizeOfSlots(fs) && |left| == SizeOfSlots(fs[i..])
    && vs + DecodeSlots(w.order, fs[i..], into[i..], left) == DecodeSlots(w.order, fs, into, w.s)
  }

  lemma SlotsBegin(w: Window, fs: seq<Type>, into: seq<Value>)
    requires HaveTypes(fs, into) && |w.s| == SizeOfSlots(fs)
    ensures SlotsLeft(w, fs, into, 0, w.s, [])
  {
    assert fs[0..] == fs && into[0..] == into;
    Empty(DecodeSlots(w.order, fs, into, w.s));
  }

  lemma SlotsReady(w: Window, fs: seq<Type>, into: seq<Value>, i: nat, left: bytes, vs: seq<Value>)
    requires SlotsLeft(w, fs, into, i, left, vs) && i < |fs|
    ensures HasType(fs[i], into[i]) && 0 <= SizeOf(fs[i]) <= |left|
    ensures |left| == SizeOf(fs[i]) + SizeOfSlots(fs[i + 1..]) && SizeOfSlots(fs[i + 1..]) >= 0
  {
    assert fs[i..][1..] == fs[i + 1..];
  }

  lemma SlotsNext(w: Window, fs: seq<Type>, into: seq<Value>, i: nat, left: bytes, vs: seq<Value>, x: Value)
    requires SlotsLeft(w, fs, into, i, left, vs) && i < |fs|
    requires HasType(fs[i], into[i]) && 0 <= SizeOf(fs[i]) <= |left|
    requires x == Decode(w.order, fs[i], into[i], left[..SizeOf(fs[i])])
    ensures SlotsLeft(w, fs, into, i + 1, left[SizeOf(fs[i])..], vs + [x])
  {
    SlotsReady(w, fs, into, i, left, vs);
    assert fs[i..][1..] == fs[i + 1..] && into[i..][1..] == into[i + 1..];
    Assoc(vs, [x], DecodeSlots(w.order, fs[i + 1..], into[i + 1..], left[SizeOf(fs[i])..]));
  }

  lemma SlotsEnd(w: Window, fs: seq<Type>, into: seq<Value>, left: bytes, vs: seq<Value>)
    requires SlotsLeft(w, fs, into, |fs|, left, vs)
    ensures left == [] && vs == DecodeSlots(w.order, fs, into, w.s)
  {
    Empty(vs);
  }

  lemma Cut(a: bytes, b: bytes, n: nat)
    requires n <= |a|
    ensures (a + b)[..n] == a[..n] && (a + b)[n..] == a[n..] + b
  {}

  // ----- Read and Write -----

  /** What is written, or read into: a value, a slice, or a pointer to either; `named` if
      its type, or that of the elements, is a declared one and not a predeclared integer
      type or a slice of such. */
  datatype Data =
    | One(typ: Type, value: Value, pointer: bool, named: bool)
    | Slice(elem: Type, values: seq<Value>, pointer: bool, named: bool)

  predicate IsData(d: Data) {
    match d
    case One(t, v, _, _) => HasType(t, v)
    case Slice(e, vs, _, _) => AllHaveType(e, vs)
  }

  function DataSize(d: Data): int {
    match d
    case One(t, _, _, _) => SizeOf(t)
    case Slice(e, vs, _, _) => if SizeOf(e) >= 0 then Times(SizeOf(e), |vs|) else -1
  }

  function EncodeData(o: Order, d: Data): (s: bytes)
    requires IsData(d) && DataSize(d) >= 0
    ensures |s| == DataSize(d)
  {
    match d
    case One(t, v, _, _) => Encode(o, t, v)
    case Slice(e, vs, _, _) => EncodeAll(o, e, vs)
  }

  function DecodeData(o: Order, d: Data, s: bytes): (r: Data)
    requires IsData(d) && DataSize(d) == |s|
    ensures IsData(r)
  {
    match d
    case One(t, v, p, n) => One(t, Decode(o, t, v, s), p, n)
    case Slice(e, vs, p, n) => Slice(e, DecodeAll(o, e, vs, s), p, n)
  }

  predicate IsInteger(k: Kind) { IsInt(k) || IsUint(k) }

  /** intDataSize: zero where the fast path does not apply.  Unsigned integers take it
      behind a pointer or in a slice only, slices only without a pointer; the type switch
      matches no declared type. */
  function FastSize(d: Data): nat {
    match d
    case One(Scalar(k), _, pointer, named) =>
      if !named && (IsInt(k) || (IsUint(k) && pointer)) then Width(k) else 0
    case Slice(Scalar(k), vs, pointer, named) =>
      if !named && IsInteger(k) && !pointer then Width(k) * |vs| else 0
    case _ => 0
  }

  lemma FastSizeIsSize(d: Data)
    ensures FastSize(d) != 0 ==> FastSize(d) == DataSize(d)
  {
    if d.Slice? && d.elem.Scalar? {
      TimesIsProduct(Width(d.elem.kind), |d.values|);
    }
  }

  method DataSizeOf(d: Data) returns (n: int)
    ensures n == DataSize(d)
  {
    match d
    case One(t, _, _, _) => n := Sizeof(t);
    case Slice(e, vs, _, _) =>
      n := Sizeof(e);
      if n >= 0 {
        TimesIsProduct(n, |vs|);
        n := n * |vs|;
      }
  }

  // ----- The loops of the fast paths -----

  predicate AllFit(w: nat, xs: seq<nat>) { forall i :: 0 <= i < |xs| ==> xs[i] < Pow256(w) }

  function Puts(o: Order, w: nat, xs: seq<nat>): (s: bytes)
    ensures |s| == Times(w, |xs|)
  {
    if xs == [] then [] else Put(o, w, xs[0]) + Puts(o, w, xs[1..])
  }

  function Gets(o: Order, w: nat, n: nat, s: bytes): (xs: seq<nat>)
    requires |s| == Times(w, n)
    ensures |xs| == n && AllFit(w, xs)
    decreases n
  {
    if n == 0 then [] else [Get(o, s[..w])] + Gets(o, w, n - 1, s[w..])
  }

  function AllBits(k: Kind, vs: seq<Value>): (xs: seq<nat>)
    requires IsInteger(k) && AllHaveType(Scalar(k), vs)
    ensures |xs| == |vs| && AllFit(Width(k), xs)
  {
    if vs == [] then []
    else
      assert HasType(Scalar(k), vs[0]);
      [Bits(k, vs[0])] + AllBits(k, vs[1..])
  }

  function FromAllBits(k: Kind, xs: seq<nat>): (vs: seq<Value>)
    requires IsInteger(k) && AllFit(Width(k), xs)
  {
    if xs == [] then [] else [FromBits(k, xs[0])] + FromAllBits(k, xs[1..])
  }

  /** The integers of a slice, converted and put one after the other, are what the
      reflective encoder makes of it. */
  lemma {:induction false} FastEncoding(o: Order, k: Kind, vs: seq<Value>)
    requires IsInteger(k) && AllHaveType(Scalar(k), vs)
    ensures EncodeAll(o, Scalar(k), vs) == Puts(o, Width(k), AllBits(k, vs))
  {
    if vs != [] {
      FastEncoding(o, k, vs[1..]);
      assert HasType(Scalar(k), vs[0]);
      assert AllBits(k, vs)[1..] == AllBits(k, vs[1..]);
    }
  }

  lemma {:induction false} FastDecoding(o: Order, k: Kind, into: seq<Value>, s: bytes)
    requires IsInteger(k) && AllHaveType(Scalar(k), into) && |s| == Times(Width(k), |into|)
    ensures DecodeAll(o, Scalar(k), into, s) == FromAllBits(k, Gets(o, Width(k), |into|, s))
    decreases |into|
  {
    if into != [] {
      var w := Width(k);
      FastDecoding(o, k, into[1..], s[w..]);
      assert Gets(o, w, |into|, s)[1..] == Gets(o, w, |into| - 1, s[w..]);
    }
  }

  /** The integers before i have been put into a buffer just long enough. */
  ghost predicate PartPut(o: Order, w: nat, xs: seq<nat>, i: nat, done: bytes, b: bytes) {
    && i <= |xs| && |done| == w * i && |b| == w * |xs| && done <= b
    && done + Puts(o, w, xs[i..]) == Puts(o, w, xs)
  }

  lemma PartBegins(o: Order, w: nat, xs: seq<nat>, b: bytes)
    requires |b| == w * |xs|
    ensures PartPut(o, w, xs, 0, [], b)
  {
    assert xs[0..] == xs;
    Empty(Puts(o, w, xs));
  }

  lemma PartNext(o: Order, w: nat, xs: seq<nat>, i: nat, done: bytes, b: bytes, b': bytes)
    requires PartPut(o, w, xs, i, done, b) && i < |xs| && Written(b, w * i, Put(o, w, xs[i]), b')
    ensures PartPut(o, w, xs, i + 1, done + Put(o, w, xs[i]), b')
  {
    NextOffset(w, i, |xs|);
    assert xs[i..][1..] == xs[i + 1..];
    Assoc(done, Put(o, w, xs[i]), Puts(o, w, xs[i + 1..]));
    assert b[..w * i] == done;
  }

  lemma PartEnds(o: Order, w: nat, xs: seq<nat>, done: bytes, b: bytes)
    requires PartPut(o, w, xs, |xs|, done, b)
    ensures b == Puts(o, w, xs)
  {
    Empty(done);
  }

  /** The integers in what comes before left have been got. */
  ghost predicate PartGot(o: Order, w: nat, n: nat, b: bytes, i: nat, left: bytes, xs: seq<nat>) {
    && i <= n && |b| == w * n == Times(w, n) && w * i <= |b|
    && left == b[w * i..] && |left| == Times(w, n - i)
    && xs + Gets(o, w, n - i, left) == Gets(o, w, n, b)
  }

  lemma GetBegins(o: Order, w: nat, n: nat, b: bytes)
    requires |b| == Times(w, n)
    ensures PartGot(o, w, n, b, 0, b, [])
  {
    TimesIsProduct(w, n);
    Empty(Gets(o, w, n, b));
  }

  lemma GetReady(o: Order, w: nat, n: nat, b: bytes, i: nat, left: bytes, xs: seq<nat>)
    requires PartGot(o, w, n, b, i, left, xs) && i < n
    ensures 0 <= w * i <= |b| && left == b[w * i..] && w <= |left|
  {
    NextPiece(b, w, i, n);
  }

  lemma GetNext(o: Order, w: nat, n: nat, b: bytes, i: nat, left: bytes, xs: seq<nat>, x: nat)
    requires PartGot(o, w, n, b, i, left, xs) && i < n && w <= |left| && x == Get(o, left[..w])
    ensures PartGot(o, w, n, b, i + 1, left[w..], xs + [x])
  {
    NextPiece(b, w, i, n);
    Assoc(xs, [Get(o, left[..w])], Gets(o, w, n - i - 1, left[w..]));
  }

  method PutSlice(o: Order, w: nat, xs: seq<nat>) returns (s: bytes)
    requires w in {1, 2, 4, 8} && AllFit(w, xs)
    ensures s == Puts(o, w, xs)
  {
    var bs := new byte[w * |xs|](_ => 0);
    ghost var done: bytes := [];
    PartBegins(o, w, xs, bs[..]);
    for i := 0 to |xs|
      invariant PartPut(o, w, xs, i, done, bs[..])
    {
      NextOffset(w, i, |xs|);
      ghost var before := bs[..];
      PutUintAt(o, bs, w * i, w, xs[i]);
      PartNext(o, w, xs, i, done, before, bs[..]);
      done := done + Put(o, w, xs[i]);
    }
    PartEnds(o, w, xs, done, bs[..]);
    s := bs[..];
  }

  method GetSlice(o: Order, w: nat, n: nat, b: bytes) returns (xs: seq<nat>)
    requires w in {1, 2, 4, 8} && |b| == Times(w, n)
    ensures xs == Gets(o, w, n, b)
  {
    xs := [];
    ghost var left := b;
    GetBegins(o, w, n, b);
    for i := 0 to n
      invariant PartGot(o, w, n, b, i, left, xs)
    {
      GetReady(o, w, n, b, i, left, xs);
      var x := Uint(o, w, b[w * i..]);
      GetNext(o, w, n, b, i, left, xs, x);
      xs := xs + [x];
      left := left[w..];
    }
    Empty(xs);
  }

  lemma NextOffset(w: nat, i: nat, n: nat)
    requires i < n
    ensures w * (i + 1) == w * i + w <= w * n
  {
    Monotone(w, i + 1, n);
  }

  lemma NextPiece(b: bytes, w: nat, i: nat, n: nat)
    requires i < n && |b| == w * n
    ensures w * i + w <= |b| && w * (i + 1) <= |b| && b[w * i..][w..] == b[w * (i + 1)..]
  {
    NextOffset(w, i, n);
  }

  /** binary.Write: fast path or not, the encoding of the data is written; an
      unacceptable type is an error and writes nothing. */
  method Write(o: Order, d: Data) returns (r: Option<bytes>)
    requires IsData(d)
    ensures r == if DataSize(d) < 0 then None else Some(EncodeData(o, d))
  {
    FastSizeIsSize(d);
    if FastSize(d) != 0 {
      match d {
        case One(Scalar(k), v, _, _) =>
          var b := new byte[8](_ => 0);
          PutUintAt(o, b, 0, Width(k), Bits(k, v));
          assert b[..][..Width(k)] == Put(o, Width(k), Bits(k, v));
          return Some(b[..Width(k)]);
        case Slice(Scalar(k), vs, _, _) =>
          FastEncoding(o, k, vs);
          var s := PutSlice(o, Width(k), AllBits(k, vs));
          return Some(s);
      }
    }
    var size := DataSizeOf(d);
    if size < 0 {
      return None;
    }
    var buf := new byte[size](_ => 0);
    var e := new Encoder(o, buf);
    ghost var start := buf[..];
    match d {
      case One(t, v, _, _) => e.PutValue(t, v);
      case Slice(t, vs, _, _) => e.PutAll(t, vs);
    }
    assert start[size..] == [];
    Empty(EncodeData(o, d));
    return Some(buf[..]);
  }

  /** Done with the new value; too short an input; or a type that cannot be read into. */
  datatype ReadResult = Done(data: Data) | Short(err: Err) | Invalid

  /** How many octets binary.Read asks for, or -1 if it refuses. */
  function ReadSize(d: Data): int {
    if FastSize(d) != 0 then FastSize(d) else if d.One? && !d.pointer then -1 else DataSize(d)
  }

  /** What is read and what remains.  A signed integer passed without a pointer goes down
      the fast path, which reads it and stores it nowhere. */
  function ReadData(o: Order, d: Data, s: bytes): (ReadResult, bytes)
    requires IsData(d)
  {
    FastSizeIsSize(d);
    if ReadSize(d) < 0 then (Invalid, s)
    else
      match ReadFull(s, ReadSize(d))
      case Bad(e, rest) => (Short(e), rest)
      case Got(b, rest) => (Done(if d.One? && !d.pointer then d else DecodeData(o, d, b)), rest)
  }

  /** binary.Read from the octets still to come. */
  method Read(o: Order, d: Data, s: bytes) returns (r: ReadResult, rest: bytes)
    requires IsData(d)
    ensures (r, rest) == ReadData(o, d, s)
  {
    FastSizeIsSize(d);
    var n := FastSize(d);
    if n != 0 {
      match ReadFull(s, n) {
        case Bad(e, left) => return Short(e), left;
        case Got(b, left) =>
          rest := left;
          match d {
            case One(Scalar(k), _, pointer, _) =>
              assert b[..Width(k)] == b;
              r := Done(if pointer then One(Scalar(k), FromBits(k, Uint(o, Width(k), b)), true, false) else d);
            case Slice(Scalar(k), into, _, _) =>
              FastDecoding(o, k, into, b);
              var xs := GetSlice(o, Width(k), |into|, b);
              r := Done(Slice(Scalar(k), FromAllBits(k, xs), false, false));
          }
          return;
      }
    }
    var size := -1;
    if d.Slice? || d.pointer {
      size := DataSizeOf(d);
    }
    if size < 0 {
      return Invalid, s;
    }
    match ReadFull(s, size) {
      case Bad(e, left) => return Short(e), left;
      case Got(b, left) =>
        rest := left;
        assert b[..size] == b;
        var dec := new Decoder(o, b);
        match d {
          case One(t, into, _, named) =>
            var v := dec.GetValue(t, into);
            r := Done(One(t, v, true, named));
          case Slice(t, into, pointer, named) =>
            var vs := dec.GetAll(t, into);
            r := Done(Slice(t, vs, pointer, named));
        }
    }
  }

  /** What is passed without a pointer, and is no slice, is read and dropped if it is of a
      predeclared signed integer type, and refused otherwise. */
  lemma PlainReadIff(o: Order, t: Type, v: Value, named: bool, s: bytes)
    requires HasType(t, v)
    ensures var d, signed := One(t, v, false, named), t.Scalar? && IsInt(t.kind) && !named;
            && (ReadData(o, d, s) == (Invalid, s) <==> !signed)
            && (signed && Width(t.kind) <= |s| ==> ReadData(o, d, s) == (Done(d), s[Width(t.kind)..]))
            && (signed && Width(t.kind) > |s| ==> ReadData(o, d, s).0.Short? && ReadData(o, d, s).1 == [])
  {
    FastSizeIsSize(One(t, v, false, named));
  }

  /** What can be read into is read if there are octets enough, exactly as many as its size,
      and otherwise nothing is left and the error says whether there were any. */
  lemma ReadTakes(o: Order, d: Data, s: bytes)
    requires IsData(d) && DataSize(d) >= 0 && (d.pointer || d.Slice?)
    ensures |s| >= DataSize(d) ==> ReadData(o, d, s).0.Done? && ReadData(o, d, s).1 == s[DataSize(d)..]
    ensures |s| < DataSize(d) ==> ReadData(o, d, s) == (Short(if s == [] then EOF else UnexpectedEOF), [])
  {
    FastSizeIsSize(d);
    if DataSize(d) == 0 {
      assert s[0..] == s;
    }
  }

  /** The same type, and for a slice the same length. */
  predicate SameShape(d: Data, into: Data) {
    match d
    case One(t, _, _, _) => into.One? && into.typ == t && into.pointer
    case Slice(t, vs, _, _) => into.Slice? && into.elem == t && |into.values| == |vs|
  }

  function RestoredData(d: Data, into: Data): Data
    requires IsData(d) && IsData(into) && SameShape(d, into)
  {
    match d
    case One(t, v, _, _) => One(t, Restored(t, v, into.value), true, into.named)
    case Slice(t, vs, _, _) => Slice(t, RestoredAll(t, vs, into.values), into.pointer, into.named)
  }

  /** Reading what was written restores the data, by whichever paths, in either order, and
      leaves what follows in the input alone. */
  lemma ReadAfterWrite(o: Order, d: Data, into: Data, tail: bytes)
    requires IsData(d) && IsData(into) && SameShape(d, into) && DataSize(d) >= 0
    ensures ReadData(o, into, EncodeData(o, d) + tail) == (Done(RestoredData(d, into)), tail)
  {
    FastSizeIsSize(into);
    ReadFullAppend(EncodeData(o, d), tail);
    match d
    case One(t, v, _, _) => RoundTrip(o, t, v, into.value);
    case Slice(t, vs, _, _) => RoundTripAll(o, t, vs, into.values);
  }
}
