/**
 Field values, arrays and tables: what writeField and writeTable put on the wire, and what
 readField, readTable and readArray make of any octets at all.
 */
module Fields {
  import opened Sequences
  import opened Wire

  type int16 = x: int | -0x8000 <= x < 0x8000
  type int32 = x: int | -0x8000_0000 <= x < 0x8000_0000
  type int64 = x: int | -0x8000_0000_0000_0000 <= x < 0x8000_0000_0000_0000
  type uint32 = x: int | 0 <= x < 0x1_0000_0000
  type uint64 = x: int | 0 <= x < 0x1_0000_0000_0000_0000

  /** The field types without parts.  Floats are carried as bit patterns. */
  datatype Scalar =
    | Bool(b: bool)
    | Octet(u: byte)
    | Int16(i16: int16)
    | Int32(i32: int32)
    | Int64(i64: int64)
    | Float32(bits32: uint32)
    | Float64(bits64: uint64)
    | Decimal(scale: byte, value: int32)
    | Str(s: bytes)
    | Time(sec: int64)
    | Blob(data: bytes)
    | Nil

  /** A value of type interface{}; `Unsupported` is any Go value of another type. */
  datatype Field =
    | Leaf(v: Scalar)
    | Arr(elems: seq<Field>)
    | Tab(entries: map<bytes, Field>)
    | Unsupported

  /** A Go map is visited in an arbitrary order each time it is ranged over, so what is
      written is not a function of the table.  A Walk is one such visit: the same value with
      every table laid out as the list of entries in the order they came up. */
  datatype Walk =
    | WLeaf(v: Scalar)
    | WArr(elems: seq<Walk>)
    | WTab(entries: seq<Entry>)
    | WUnsupported

  datatype Entry = Entry(key: bytes, val: Walk)

  // ----- Which walks visit which value -----

  ghost predicate Visits(w: Walk, f: Field)
    decreases w, 1
  {
    match w
    case WLeaf(v) => f == Leaf(v)
    case WArr(ws) => f.Arr? && VisitsAll(ws, f.elems)
    case WTab(es) => f.Tab? && VisitsTable(es, f.entries)
    case WUnsupported => f == Unsupported
  }

  ghost predicate VisitsAll(ws: seq<Walk>, fs: seq<Field>)
    decreases ws, 0
  {
    if ws == [] then fs == []
    else fs != [] && Visits(ws[0], fs[0]) && VisitsAll(ws[1..], fs[1..])
  }

  /** Each entry is visited once, and then none is left. */
  ghost predicate VisitsTable(es: seq<Entry>, m: map<bytes, Field>)
    decreases es, 0
  {
    if es == [] then m == map[]
    else es[0].key in m && Visits(es[0].val, m[es[0].key]) && VisitsTable(es[1..], m - {es[0].key})
  }

  // ----- Validation (types.go) -----

  predicate Valid(f: Field) {
    match f
    case Leaf(_) => true
    case Arr(fs) => forall i :: 0 <= i < |fs| ==> Valid(fs[i])
    case Tab(m) => forall k :: k in m ==> Valid(m[k])
    case Unsupported => false
  }

  /** Nothing of another type is met on the way. */
  predicate AllSupported(w: Walk)
    decreases w
  {
    match w
    case WLeaf(_) => true
    case WArr(ws) => forall i :: 0 <= i < |ws| ==> AllSupported(ws[i])
    case WTab(es) => forall i :: 0 <= i < |es| ==> AllSupported(es[i].val)
    case WUnsupported => false
  }

  /** Accepted is exactly what contains nothing of another type. */
  lemma {:induction false} ValidIff(w: Walk, f: Field)
    requires Visits(w, f)
    ensures Valid(f) <==> AllSupported(w)
    decreases w, 1
  {
    match w
    case WLeaf(_) =>
    case WArr(ws) => AllValidIff(ws, f.elems);
    case WTab(es) => TableValidIff(es, f.entries);
    case WUnsupported =>
  }

  lemma {:induction false} AllValidIff(ws: seq<Walk>, fs: seq<Field>)
    requires VisitsAll(ws, fs)
    ensures (forall i :: 0 <= i < |fs| ==> Valid(fs[i])) <==> (forall i :: 0 <= i < |ws| ==> AllSupported(ws[i]))
    decreases ws, 0
  {
    if ws != [] {
      ValidIff(ws[0], fs[0]);
      AllValidIff(ws[1..], fs[1..]);
      assert forall i :: 0 < i < |ws| ==> ws[i] == ws[1..][i - 1];
      assert forall i :: 0 < i < |fs| ==> fs[i] == fs[1..][i - 1];
    }
  }

  lemma {:induction false} TableValidIff(es: seq<Entry>, m: map<bytes, Field>)
    requires VisitsTable(es, m)
    ensures (forall k :: k in m ==> Valid(m[k])) <==> (forall i :: 0 <= i < |es| ==> AllSupported(es[i].val))
    decreases es, 0
  {
    if es != [] {
      var rest := m - {es[0].key};
      ValidIff(es[0].val, m[es[0].key]);
      TableValidIff(es[1..], rest);
      assert forall i :: 0 < i < |es| ==> es[i] == es[1..][i - 1];
      assert forall k :: k in m <==> k == es[0].key || k in rest;
    }
  }

  // ----- Writing -----

  function TypeLetter(v: Scalar): (c: byte)
    ensures c != 'A' as int && c != 'F' as int
  {
    match v
    case Bool(_) => 't' as int
    case Octet(_) => 'b' as int
    case Int16(_) => 's' as int
    case Int32(_) => 'I' as int
    case Int64(_) => 'l' as int
    case Float32(_) => 'f' as int
    case Float64(_) => 'd' as int
    case Decimal(_, _) => 'D' as int
    case Str(_) => 'S' as int
    case Time(_) => 'T' as int
    case Blob(_) => 'x' as int
    case Nil => 'V' as int
  }

  /** What follows the type letter. */
  function ScalarBody(v: Scalar): (s: bytes) {
    Widths();
    match v
    case Bool(b) => [if b then 1 else 0]
    case Octet(u) => [u]
    case Int16(i) => BigEndian(2, ToUnsigned(2, i))
    case Int32(i) => BigEndian(4, ToUnsigned(4, i))
    case Int64(i) => BigEndian(8, ToUnsigned(8, i))
    case Float32(b) => BigEndian(4, b)
    case Float64(b) => BigEndian(8, b)
    case Decimal(scale, i) => [scale] + BigEndian(4, ToUnsigned(4, i))
    case Str(s) => BigEndian(4, Uint32(|s|)) + s
    case Time(sec) => BigEndian(8, ToUnsigned(8, sec))
    case Blob(d) => BigEndian(4, Uint32(|d|)) + d
    case Nil => []
  }

  function EncodeScalar(v: Scalar): (s: bytes) { [TypeLetter(v)] + ScalarBody(v) }

  function Encode(w: Walk): (s: bytes)
    decreases w, 1
  {
    match w
    case WLeaf(v) => EncodeScalar(v)
    case WArr(ws) =>
      var payload := EncodeAll(ws);
      ['A' as int] + BigEndian(4, Uint32(|payload|)) + payload
    case WTab(es) => ['F' as int] + EncodeTable(es)
    case WUnsupported => []
  }

  function EncodeAll(ws: seq<Walk>): (s: bytes)
    decreases ws, 0
  {
    if ws == [] then [] else Encode(ws[0]) + EncodeAll(ws[1..])
  }

  function EncodeEntries(es: seq<Entry>): (s: bytes)
    decreases es, 0
  {
    if es == [] then [] else Shortstr(es[0].key) + Encode(es[0].val) + EncodeEntries(es[1..])
  }

  function EncodeTable(es: seq<Entry>): (s: bytes)
    decreases es, 1
  {
    Longstr(EncodeEntries(es))
  }

  /** An integer below zero is written as the number that is larger by a power of two. */
  function Unsigned(x: int, modulus: nat): nat
    requires x + modulus >= 0
  {
    if x < 0 then x + modulus else x
  }

  /** The octets of each kind of field: its letter in ASCII, then the value. */
  lemma NumberFieldOctets(v: Scalar)
    ensures v.Int16? ==> Encode(WLeaf(v)) == [115] + BigEndian(2, Unsigned(v.i16, 0x1_0000))
    ensures v.Int32? ==> Encode(WLeaf(v)) == [73] + BigEndian(4, Unsigned(v.i32, 0x1_0000_0000))
    ensures v.Int64? ==> Encode(WLeaf(v)) == [108] + BigEndian(8, Unsigned(v.i64, 0x1_0000_0000_0000_0000))
    ensures v.Float32? ==> Encode(WLeaf(v)) == [102] + BigEndian(4, v.bits32)
    ensures v.Float64? ==> Encode(WLeaf(v)) == [100] + BigEndian(8, v.bits64)
    ensures v.Time? ==> Encode(WLeaf(v)) == [84] + BigEndian(8, Unsigned(v.sec, 0x1_0000_0000_0000_0000))
  {
    Widths();
  }

  lemma OtherFieldOctets(v: Scalar)
    ensures v.Bool? ==> Encode(WLeaf(v)) == [116] + [if v.b then 1 else 0]
    ensures v.Octet? ==> Encode(WLeaf(v)) == [98] + [v.u]
    ensures v.Decimal? ==> Encode(WLeaf(v)) == [68] + ([v.scale] + BigEndian(4, Unsigned(v.value, 0x1_0000_0000)))
    ensures v.Str? && |v.s| < 0x1_0000_0000 ==> Encode(WLeaf(v)) == [83] + (BigEndian(4, |v.s|) + v.s)
    ensures v.Blob? && |v.data| < 0x1_0000_0000 ==> Encode(WLeaf(v)) == [120] + (BigEndian(4, |v.data|) + v.data)
    ensures v.Nil? ==> Encode(WLeaf(v)) == [86]
  {
    Widths();
  }

  /** Arrays and tables: letter, length, contents; an entry is its key and its value. */
  lemma NestedOctets(ws: seq<Walk>, es: seq<Entry>)
    ensures |EncodeAll(ws)| < 0x1_0000_0000 ==>
      Encode(WArr(ws)) == [65] + BigEndian(4, |EncodeAll(ws)|) + EncodeAll(ws)
    ensures |EncodeEntries(es)| < 0x1_0000_0000 ==>
      Encode(WTab(es)) == [70] + (BigEndian(4, |EncodeEntries(es)|) + EncodeEntries(es))
    ensures ws != [] ==> EncodeAll(ws) == Encode(ws[0]) + EncodeAll(ws[1..])
    ensures es != [] && |es[0].key| <= 255 ==>
      EncodeEntries(es) == [|es[0].key|] + es[0].key + Encode(es[0].val) + EncodeEntries(es[1..])
    ensures EncodeAll([]) == [] && EncodeEntries([]) == []
  {
    var all := EncodeEntries(es);
    assert all[..|all|] == all;
    if es != [] {
      StringOctets(es[0].key, 0, 0, 0, 0);
    }
  }

  // ----- Reading -----

  function ReadSigned(s: bytes, n: nat): (r: Parsed<int>)
    ensures |r.rest| <= |s|
    ensures r.Got? ==> |s| - |r.rest| == n && IsSigned(n, r.value)
  {
    var (u, rest) :- ReadUint(s, n);
    Got(ToSigned(n, u), rest)
  }

  /** The part of readField after the type octet, for the scalar types. */
  function ReadScalar(typ: byte, s: bytes): (r: Parsed<Scalar>)
    ensures |r.rest| <= |s|
  {
    Widths();
    if typ == 't' as int then
      var (u, rest) :- ReadUint(s, 1); Got(Bool(u != 0), rest)
    else if typ == 'b' as int then
      var (u, rest) :- ReadUint(s, 1); Got(Octet(u), rest)
    else if typ == 's' as int then
      var (i, rest) :- ReadSigned(s, 2); Got(Int16(i), rest)
    else if typ == 'I' as int then
      var (i, rest) :- ReadSigned(s, 4); Got(Int32(i), rest)
    else if typ == 'l' as int then
      var (i, rest) :- ReadSigned(s, 8); Got(Int64(i), rest)
    else if typ == 'f' as int then
      var (u, rest) :- ReadUint(s, 4); Got(Float32(u), rest)
    else if typ == 'd' as int then
      var (u, rest) :- ReadUint(s, 8); Got(Float64(u), rest)
    else if typ == 'D' as int then
      var (scale, s1) :- ReadUint(s, 1);
      var (i, rest) :- ReadSigned(s1, 4);
      Got(Decimal(scale, i), rest)
    else if typ == 'S' as int then
      var (str, rest) :- ReadLongstr(s); Got(Str(str), rest)
    else if typ == 'T' as int then
      var (i, rest) :- ReadSigned(s, 8); Got(Time(i), rest)
    else if typ == 'x' as int then
      var (len, s1) :- ReadSigned(s, 4);
      if len < 0 then Bad(Panic, s1)  // make([]byte, len) with a negative length
      else var (d, rest) :- ReadFull(s1, len); Got(Blob(d), rest)
    else if typ == 'V' as int then Got(Nil, s)
    else Bad(SyntaxError, s)
  }

  function Min(a: nat, b: nat): nat { if a < b then a else b }

  /** readField.  Every outcome leaves no more octets than before and every success
      strictly fewer, which is why the decoders below end on any input. */
  function ReadField(s: bytes): (r: Parsed<Field>)
    ensures |r.rest| <= |s|
    ensures r.Got? ==> |r.rest| < |s|
    decreases |s|, 0
  {
    var (typ, s1) :- ReadUint(s, 1);
    Widths();
    if typ == 'A' as int then
      var (fs, rest) :- ReadArray(s1); Got(Arr(fs), rest)
    else if typ == 'F' as int then
      var (m, rest) :- ReadTable(s1); Got(Tab(m), rest)
    else
      var (v, rest) :- ReadScalar(typ, s1); Got(Leaf(v), rest)
  }

  /** readArray reads through a LimitedReader, that is, from the first `size` octets
      of what is left (or all of it, when fewer are left). */
  function ReadArray(s: bytes): (r: Parsed<seq<Field>>)
    ensures |r.rest| <= |s|
    decreases |s|, 2
  {
    var (size, s1) :- ReadUint(s, 4);
    var n := Min(size, |s1|);
    match ReadElems(s1[..n])
    case Got(fs, left) => Got(fs, left + s1[n..])
    case Bad(e, left) => Bad(e, left + s1[n..])
  }

  /** The loop of readArray: any EOF, wherever it comes from, ends the array. */
  function ReadElems(s: bytes): (r: Parsed<seq<Field>>)
    ensures |r.rest| <= |s|
    decreases |s|, 1
  {
    match ReadField(s)
    case Bad(e, left) => if e == EOF then Got([], left) else Bad(e, left)
    case Got(f, left) =>
      var (fs, rest) :- ReadElems(left);
      Got([f] + fs, rest)
  }

  function ReadTable(s: bytes): (r: Parsed<map<bytes, Field>>)
    ensures |r.rest| <= |s|
    decreases |s|, 2
  {
    var (str, rest) :- ReadLongstr(s);
    match ReadEntries(str)
    case Got(m, _) => Got(m, rest)
    case Bad(e, _) => Bad(e, rest)
  }

  /** The loop of readTable; a key met again overwrites the earlier entry. */
  function ReadEntries(s: bytes): (r: Parsed<map<bytes, Field>>)
    ensures |r.rest| <= |s|
    decreases |s|, 1
  {
    if s == [] then Got(map[], [])
    else
      var (key, s1) :- ReadShortstr(s);
      var (f, s2) :- ReadField(s1);
      var (m, rest) :- ReadEntries(s2);
      Got(map[key := f] + m, rest)
  }

  /** No other letter is known, and nothing after it is read. */
  lemma UnknownLetter(typ: byte, s: bytes)
    requires typ !in [116, 98, 115, 73, 108, 102, 100, 68, 83, 84, 120, 86, 65, 70]
    ensures ReadField([typ] + s) == Bad(SyntaxError, s)
  {
    var all := [typ] + s;
    Widths();
    assert all[..1] == [typ] && all[1..] == s && FromBigEndian([typ]) == typ;
  }

  // ----- Round trip -----

  /** The sizes that fit their length fields, all the way down. */
  predicate Fits(w: Walk)
    decreases w, 1
  {
    match w
    case WLeaf(Str(s)) => |s| < TWO32
    case WLeaf(Blob(d)) => |d| < TWO31
    case WLeaf(_) => true
    case WArr(ws) => FitsAll(ws) && |EncodeAll(ws)| < TWO32
    case WTab(es) => FitsTable(es)
    case WUnsupported => false
  }

  predicate FitsAll(ws: seq<Walk>)
    decreases ws, 0
  {
    ws == [] || (Fits(ws[0]) && FitsAll(ws[1..]))
  }

  predicate FitsTable(es: seq<Entry>)
    decreases es, 2
  {
    EntriesFit(es) && |EncodeEntries(es)| < TWO32
  }

  predicate EntriesFit(es: seq<Entry>)
    decreases es, 0
  {
    es == [] || (|es[0].key| <= 255 && Fits(es[0].val) && EntriesFit(es[1..]))
  }

  lemma IntegerBody(v: Scalar, tail: bytes)
    requires v.Int16? || v.Int32? || v.Int64? || v.Time? || v.Float32? || v.Float64?
    ensures ReadScalar(TypeLetter(v), ScalarBody(v) + tail) == Got(v, tail)
  {
    Widths();
    match v
    case Int16(i) => ReadUintAppend(2, ToUnsigned(2, i), tail);
    case Int32(i) => ReadUintAppend(4, ToUnsigned(4, i), tail);
    case Int64(i) => ReadUintAppend(8, ToUnsigned(8, i), tail);
    case Time(i) => ReadUintAppend(8, ToUnsigned(8, i), tail);
    case Float32(b) => ReadUintAppend(4, b, tail);
    case Float64(b) => ReadUintAppend(8, b, tail);
  }

  lemma OtherBody(v: Scalar, tail: bytes)
    requires v.Bool? || v.Octet? || v.Decimal? || v.Nil?
    ensures ReadScalar(TypeLetter(v), ScalarBody(v) + tail) == Got(v, tail)
  {
    Widths();
    if v.Decimal? {
      var u := ToUnsigned(4, v.value);
      ReadTypeLetter(v.scale, BigEndian(4, u), tail);
      ReadUintAppend(4, u, tail);
    } else if v.Nil? {
      assert ScalarBody(v) + tail == tail;
    } else {
      var u: byte := if v.Octet? then v.u else if v.b then 1 else 0;
      assert ScalarBody(v) + tail == [u] + [] + tail && [] + tail == tail;
      ReadTypeLetter(u, [], tail);
    }
  }

  lemma StringBody(v: Scalar, tail: bytes)
    requires v.Str? || v.Blob?
    requires Fits(WLeaf(v))
    ensures ReadScalar(TypeLetter(v), ScalarBody(v) + tail) == Got(v, tail)
  {
    Widths();
    if v.Str? {
      assert ScalarBody(v) == Longstr(v.s);
      LongstrRoundTrip(v.s, tail);
    } else {
      var d := v.data;
      assert ScalarBody(v) + tail == BigEndian(4, |d|) + (d + tail);
      ReadUintAppend(4, |d|, d + tail);
      ReadFullAppend(d, tail);
    }
  }

  lemma ScalarRoundTrip(v: Scalar, tail: bytes)
    requires Fits(WLeaf(v))
    ensures ReadField(EncodeScalar(v) + tail) == Got(Leaf(v), tail)
  {
    if v.Str? || v.Blob? {
      StringBody(v, tail);
    } else if v.Bool? || v.Octet? || v.Decimal? || v.Nil? {
      OtherBody(v, tail);
    } else {
      IntegerBody(v, tail);
    }
    ReadTypeLetter(TypeLetter(v), ScalarBody(v), tail);
  }

  lemma ReadTypeLetter(c: byte, body: bytes, tail: bytes)
    ensures ReadUint([c] + body + tail, 1) == Got(c, body + tail)
  {
    Widths();
    assert [c] + body + tail == BigEndian(1, c) + (body + tail);
    ReadUintAppend(1, c, body + tail);
  }

  /** Whatever order the tables were visited in, what was written reads back as the
      value, takes exactly the octets written and leaves what follows. */
  lemma {:induction false} RoundTrip(w: Walk, f: Field, tail: bytes)
    requires Visits(w, f) && Fits(w)
    ensures ReadField(Encode(w) + tail) == Got(f, tail)
    decreases w, 3
  {
    match w
    case WLeaf(v) => ScalarRoundTrip(v, tail);
    case WArr(ws) => ArrayRoundTrip(ws, f.elems, tail);
    case WTab(es) =>
      TableRoundTrip(es, f.entries, tail);
      ReadTypeLetter('F' as int, EncodeTable(es), tail);
  }

  lemma {:induction false} ArrayRoundTrip(ws: seq<Walk>, fs: seq<Field>, tail: bytes)
    requires VisitsAll(ws, fs) && FitsAll(ws) && |EncodeAll(ws)| < TWO32
    ensures ReadField(Encode(WArr(ws)) + tail) == Got(Arr(fs), tail)
    decreases ws, 2
  {
    var payload := EncodeAll(ws);
    var body := BigEndian(4, |payload|) + payload;
    RoundTripAll(ws, fs);
    ReadArrayAppend(payload, fs, tail);
    assert Encode(WArr(ws)) == ['A' as int] + body;
    ReadTypeLetter('A' as int, body, tail);
  }

  lemma ReadArrayAppend(payload: bytes, fs: seq<Field>, tail: bytes)
    requires |payload| < TWO32 && ReadElems(payload) == Got(fs, [])
    ensures ReadArray(BigEndian(4, |payload|) + payload + tail) == Got(fs, tail)
  {
    var n := |payload|;
    Widths();
    assert BigEndian(4, n) + payload + tail == BigEndian(4, n) + (payload + tail);
    ReadUintAppend(4, n, payload + tail);
    assert (payload + tail)[..n] == payload && (payload + tail)[n..] == tail;
    assert [] + tail == tail;
  }

  lemma {:induction false} RoundTripAll(ws: seq<Walk>, fs: seq<Field>)
    requires VisitsAll(ws, fs) && FitsAll(ws)
    ensures ReadElems(EncodeAll(ws)) == Got(fs, [])
    decreases ws, 0
  {
    if ws != [] {
      RoundTrip(ws[0], fs[0], EncodeAll(ws[1..]));
      RoundTripAll(ws[1..], fs[1..]);
      assert [fs[0]] + fs[1..] == fs;
    }
  }

  lemma {:induction false} TableRoundTrip(es: seq<Entry>, m: map<bytes, Field>, tail: bytes)
    requires VisitsTable(es, m) && FitsTable(es)
    ensures ReadTable(EncodeTable(es) + tail) == Got(m, tail)
    decreases es, 2
  {
    LongstrRoundTrip(EncodeEntries(es), tail);
    RoundTripEntries(es, m);
  }

  lemma {:induction false} RoundTripEntries(es: seq<Entry>, m: map<bytes, Field>)
    requires VisitsTable(es, m) && EntriesFit(es)
    ensures ReadEntries(EncodeEntries(es)) == Got(m, [])
    decreases es, 0
  {
    if es != [] {
      var key, w, more := es[0].key, es[0].val, EncodeEntries(es[1..]);
      RoundTripEntries(es[1..], m - {key});
      RoundTrip(w, m[key], more);
      EncodeEntriesCons(es);
      ShortstrRoundTrip(key, Encode(w) + more);
      ReadEntriesCons(EncodeEntries(es), key, Encode(w) + more, m[key], more, m - {key});
      WithKey(m, key);
    }
  }

  lemma EncodeEntriesCons(es: seq<Entry>)
    requires es != []
    ensures EncodeEntries(es) == Shortstr(es[0].key) + (Encode(es[0].val) + EncodeEntries(es[1..]))
  {
    Assoc(Shortstr(es[0].key), Encode(es[0].val), EncodeEntries(es[1..]));
  }

  lemma ReadEntriesCons(s0: bytes, key: bytes, s1: bytes, f: Field, s2: bytes, m: map<bytes, Field>)
    requires ReadShortstr(s0) == Got(key, s1) && ReadField(s1) == Got(f, s2)
    requires ReadEntries(s2) == Got(m, [])
    ensures ReadEntries(s0) == Got(map[key := f] + m, [])
  {}

  lemma WithKey(m: map<bytes, Field>, key: bytes)
    requires key in m
    ensures map[key := m[key]] + (m - {key}) == m
  {}
}
