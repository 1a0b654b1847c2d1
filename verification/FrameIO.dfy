/**
 Frames as they are written and read: payload buffers filled field by field, bits and
 flags collected one at a time, a reader consumed in place.  Writing a table can fail,
 which leaves a frame unwritten; reading can fail at every field.

 Each method is proved to do what `Methods`, `Properties` and `Frames` say.
 */
module FrameIO {
  import opened Options
  import opened Sequences
  import opened Wire
  import opened Fields
  import opened FieldIO
  import opened Methods
  import opened Flags
  import opened Properties
  import opened Frames

  // ----- Methods -----

  /** The Go type of a method's field. */
  predicate Typed(k: Kind, a: Arg) {
    match k
    case Num(w) => a.N? && a.n < Pow256(w)
    case ShortStr => a.S?
    case LongStr => a.S?
    case FieldTable => a.T?
    case Bits(n) => a.B? && |a.bits| == n <= 8
  }

  predicate AllTyped(ks: seq<Kind>, args: seq<Arg>) {
    |ks| == |args| && forall i :: 0 <= i < |ks| ==> Typed(ks[i], args[i])
  }

  method PackBits(bits: seq<bool>) returns (b: bv8)
    requires |bits| <= 8
    ensures b == Pack(bits)
  {
    b := 0;
    for i := 0 to |bits|
      invariant b == Pack(bits[..i])
    {
      assert bits[..i + 1][..i] == bits[..i];
      if bits[i] {
        b := b | Mask(i);
      }
    }
    assert bits[..|bits|] == bits;
  }

  method UnpackBits(b: bv8, n: nat) returns (bits: seq<bool>)
    requires n <= 8
    ensures bits == Unpack(b, n)
  {
    bits := [];
    for i := 0 to n
      invariant bits == Unpack(b, i)
    {
      bits := bits + [b & Mask(i) > 0];
    }
  }

  method WriteArg(w: Buffer, k: Kind, a: Arg) returns (ok: bool, ghost s: bytes)
    requires Typed(k, a)
    modifies w
    ensures ok <==> (a.T? ==> Valid(Tab(a.m)))
    ensures ok ==> ArgBytes(k, a, s) && w.data == old(w.data) + s
  {
    ok := true;
    match k
    case Num(width) => s := BigEndian(width, a.n); w.Write(BigEndian(width, a.n));
    case ShortStr => s := Shortstr(a.s); w.Write(Shortstr(a.s));
    case LongStr => s := Longstr(a.s); w.Write(Longstr(a.s));
    case FieldTable =>
      ghost var es;
      ok, es := w.Table(a.m);
      s := EncodeTable(es);
    case Bits(_) =>
      var b := PackBits(a.bits);
      s := [b as int];
      w.Write([b as int]);
  }

  lemma ArgsBytesCons(ks: seq<Kind>, args: seq<Arg>, t: bytes, s: bytes)
    requires ks != [] && args != [] && ArgBytes(ks[0], args[0], t) && ArgsBytes(ks[1..], args[1..], s)
    ensures ArgsBytes(ks, args, t + s)
  {
    assert (t + s)[..|t|] == t && (t + s)[|t|..] == s;
  }

  lemma {:induction false} ArgsBytesAppend(ks: seq<Kind>, args: seq<Arg>, s: bytes, k: Kind, a: Arg, t: bytes)
    requires ArgsBytes(ks, args, s) && ArgBytes(k, a, t)
    ensures ArgsBytes(ks + [k], args + [a], s + t)
  {
    Empty(t);
    if ks == [] {
      ArgsBytesCons([k], [a], t, []);
      Empty([k]);
      Empty([a]);
    } else {
      var first, more := ArgsBytesSplit(ks, args, s);
      ArgsBytesAppend(ks[1..], args[1..], more, k, a, t);
      assert (ks + [k])[1..] == ks[1..] + [k] && (args + [a])[1..] == args[1..] + [a];
      ArgsBytesCons(ks + [k], args + [a], first, more + t);
      Assoc(first, more, t);
    }
  }

  /** A method's write: its fields in schema order, until one cannot be written. */
  method WriteArgs(w: Buffer, ks: seq<Kind>, args: seq<Arg>) returns (ok: bool, ghost s: bytes)
    requires AllTyped(ks, args)
    modifies w
    ensures ok ==> ArgsBytes(ks, args, s) && w.data == old(w.data) + s
    ensures ok <==> Writable(args)
  {
    s, ok := [], true;
    Empty(w.data);
    for i := 0 to |ks|
      invariant ok && ArgsBytes(ks[..i], args[..i], s) && w.data == old(w.data) + s
      invariant forall j :: 0 <= j < i && args[j].T? ==> Valid(Tab(args[j].m))
    {
      ghost var t;
      ok, t := WriteArg(w, ks[i], args[i]);
      if !ok { return; }
      ArgsBytesAppend(ks[..i], args[..i], s, ks[i], args[i], t);
      assert ks[..i] + [ks[i]] == ks[..i + 1] && args[..i] + [args[i]] == args[..i + 1];
      Assoc(old(w.data), s, t);
      s := s + t;
    }
    assert ks[..|ks|] == ks && args[..|args|] == args;
  }

  /** Every table among the arguments can be written. */
  predicate Writable(args: seq<Arg>) {
    forall i :: 0 <= i < |args| && args[i].T? ==> Valid(Tab(args[i].m))
  }

  lemma IdThenArgs(cls: bytes, id: bytes, s: bytes)
    requires |cls| == 2 && |id| == 2
    ensures ([] + cls + id + s)[..4] == cls + id && ([] + cls + id + s)[4..] == s
  {}

  /** methodFrame.write, up to the payload. */
  method MethodPayload(m: Method) returns (ok: bool, payload: bytes)
    requires Schema(m.cls, m.id).Some? && AllTyped(Schema(m.cls, m.id).value, m.args)
    ensures ok <==> Writable(m.args)
    ensures ok ==> MethodBytes(m, payload)
  {
    var buf := new Buffer();
    buf.Write(BigEndian(2, m.cls));
    buf.Write(BigEndian(2, m.id));
    ghost var s;
    ok, s := WriteArgs(buf, Schema(m.cls, m.id).value, m.args);
    payload := buf.data;
    IdThenArgs(BigEndian(2, m.cls), BigEndian(2, m.id), s);
  }

  method ReadArgInto(r: Reader, k: Kind) returns (a: Outcome<Arg>)
    modifies r
    ensures a == OutcomeOf(ReadArg(k, old(r.rest))) && r.rest == ReadArg(k, old(r.rest)).rest
  {
    match k
    case Num(width) =>
      var n := r.Uint(width);
      a := if n.Ok? then Ok(N(n.value)) else Failed(n.err);
    case ShortStr =>
      var s := r.Shortstr();
      a := if s.Ok? then Ok(S(s.value)) else Failed(s.err);
    case LongStr =>
      var s := r.Longstr();
      a := if s.Ok? then Ok(S(s.value)) else Failed(s.err);
    case FieldTable =>
      var m := r.Table();
      a := if m.Ok? then Ok(T(m.value)) else Failed(m.err);
    case Bits(n) => a := ReadBitsInto(r, n);
  }

  method ReadBitsInto(r: Reader, n: nat) returns (a: Outcome<Arg>)
    modifies r
    ensures a == OutcomeOf(ReadArg(Bits(n), old(r.rest))) && r.rest == ReadArg(Bits(n), old(r.rest)).rest
  {
    Widths();
    var b := r.Uint(1);
    if b.Failed? { return Failed(b.err); }
    var bits := UnpackBits(b.value as bv8, if n <= 8 then n else 8);
    a := Ok(B(bits));
  }

  /** What a read that already has `args` makes of the remaining fields. */
  ghost function WithArgs(args: seq<Arg>, p: Parsed<seq<Arg>>): Parsed<seq<Arg>> {
    match p
    case Got(more, rest) => Got(args + more, rest)
    case Bad(e, rest) => Bad(e, rest)
  }

  lemma WithArgsStep(args: seq<Arg>, ks: seq<Kind>, s: bytes)
    requires ks != []
    ensures var p := ReadArg(ks[0], s);
            WithArgs(args, ReadArgs(ks, s)) ==
            if p.Got? then WithArgs(args + [p.value], ReadArgs(ks[1..], p.rest)) else Bad(p.err, p.rest)
  {
    var p := ReadArg(ks[0], s);
    if p.Got? && ReadArgs(ks[1..], p.rest).Got? {
      Assoc(args, [p.value], ReadArgs(ks[1..], p.rest).value);
    }
  }

  /** A method's read. */
  method ReadArgsInto(r: Reader, ks: seq<Kind>) returns (a: Outcome<seq<Arg>>)
    modifies r
    ensures a == OutcomeOf(ReadArgs(ks, old(r.rest))) && r.rest == ReadArgs(ks, old(r.rest)).rest
  {
    var args: seq<Arg> := [];
    ghost var all := ReadArgs(ks, r.rest);
    assert ks[0..] == ks && WithArgs([], all) == all by { if all.Got? { Empty(all.value); } }
    for i := 0 to |ks|
      invariant all == WithArgs(args, ReadArgs(ks[i..], r.rest))
    {
      WithArgsStep(args, ks[i..], r.rest);
      assert ks[i..][1..] == ks[i + 1..];
      var x := ReadArgInto(r, ks[i]);
      if x.Failed? { return Failed(x.err); }
      args := args + [x.value];
    }
    Empty(args);
    a := Ok(args);
  }

  /** parseMethodFrame */
  method ReadMethodInto(r: Reader) returns (m: Outcome<Method>)
    modifies r
    ensures m == OutcomeOf(ReadMethod(old(r.rest))) && r.rest == ReadMethod(old(r.rest)).rest
  {
    var cls := r.Uint(2);
    if cls.Failed? { return Failed(cls.err); }
    var id := r.Uint(2);
    if id.Failed? { return Failed(id.err); }
    var schema := Schema(cls.value, id.value);
    if schema.None? { return Failed(UnknownMethod); }
    var args := ReadArgsInto(r, schema.value);
    m := if args.Ok? then Ok(Method(cls.value, id.value, args.value)) else Failed(args.err);
  }

  // ----- Content headers: writing -----

  /** One test of the first pass. */
  method TestProperty(mask0: bv16, present: bool, f: Flag, ghost on: set<Flag>) returns (mask: bv16)
    requires mask0 == MaskUpTo(on, Index(f)) && (present <==> f in on)
    ensures mask == MaskUpTo(on, Index(f) + 1)
  {
    FlagIndex(f, Index(f));
    mask := mask0;
    if present {
      mask := mask | Bit(f);
    }
  }

  // A few tests at a time.

  method TestContent(p: Properties, mask0: bv16) returns (mask: bv16)
    requires mask0 == MaskUpTo(PresentFlags(p), 0)
    ensures mask == MaskUpTo(PresentFlags(p), 3)
  {
    ghost var on := PresentFlags(p);
    mask := mask0;
    mask := TestProperty(mask, p.contentType != [], ContentType, on);
    mask := TestProperty(mask, p.contentEncoding != [], ContentEncoding, on);
    mask := TestProperty(mask, p.headers != map[], Headers, on);
  }

  method TestDelivery(p: Properties, mask0: bv16) returns (mask: bv16)
    requires mask0 == MaskUpTo(PresentFlags(p), 3)
    ensures mask == MaskUpTo(PresentFlags(p), 5)
  {
    ghost var on := PresentFlags(p);
    mask := mask0;
    mask := TestProperty(mask, p.deliveryMode > 0, DeliveryMode, on);
    mask := TestProperty(mask, p.priority > 0, Priority, on);
  }

  method TestReply(p: Properties, mask0: bv16) returns (mask: bv16)
    requires mask0 == MaskUpTo(PresentFlags(p), 5)
    ensures mask == MaskUpTo(PresentFlags(p), 7)
  {
    ghost var on := PresentFlags(p);
    mask := mask0;
    mask := TestProperty(mask, p.correlationId != [], CorrelationId, on);
    mask := TestProperty(mask, p.replyTo != [], ReplyTo, on);
  }

  method TestMessage(p: Properties, mask0: bv16) returns (mask: bv16)
    requires mask0 == MaskUpTo(PresentFlags(p), 7)
    ensures mask == MaskUpTo(PresentFlags(p), 9)
  {
    ghost var on := PresentFlags(p);
    mask := mask0;
    mask := TestProperty(mask, p.expiration != [], Expiration, on);
    mask := TestProperty(mask, p.messageId != [], MessageId, on);
  }

  method TestType(p: Properties, mask0: bv16) returns (mask: bv16)
    requires mask0 == MaskUpTo(PresentFlags(p), 9)
    ensures mask == MaskUpTo(PresentFlags(p), 11)
  {
    ghost var on := PresentFlags(p);
    mask := mask0;
    mask := TestProperty(mask, p.timestamp.Some?, Timestamp, on);
    mask := TestProperty(mask, p.msgType != [], Type, on);
  }

  method TestApp(p: Properties, mask0: bv16) returns (mask: bv16)
    requires mask0 == MaskUpTo(PresentFlags(p), 11)
    ensures mask == MaskUpTo(PresentFlags(p), 13)
  {
    ghost var on := PresentFlags(p);
    mask := mask0;
    mask := TestProperty(mask, p.userId != [], UserId, on);
    mask := TestProperty(mask, p.appId != [], AppId, on);
  }

  /** The first pass of headerFrame.write. */
  method BuildMask(p: Properties) returns (mask: bv16)
    ensures mask == MaskOf(PresentFlags(p))
  {
    mask := TestContent(p, 0);
    mask := TestDelivery(p, mask);
    mask := TestReply(p, mask);
    mask := TestMessage(p, mask);
    mask := TestType(p, mask);
    mask := TestApp(p, mask);
    assert FLAGS[13] == Reserved1 && Reserved1 !in PresentFlags(p);
  }

  /** What the second pass has put out after the first n flags. */
  function Written(p: Properties, tb: bytes, n: nat): bytes
    requires n <= 14
    decreases n, |tb|
  {
    if n == 0 then []
    else Written(p, tb, n - 1) + if Present(p, FLAGS[n - 1]) then EncodeValue(Get(p, FLAGS[n - 1]), tb) else []
  }

  lemma {:induction false} WrittenAll(p: Properties, tb: bytes, n: nat)
    requires n <= 14
    ensures Written(p, tb, n) + EncodeFrom(p, tb, n) == EncodeFrom(p, tb, 0)
  {
    if n == 0 {
      Empty(EncodeFrom(p, tb, 0));
    } else {
      WrittenAll(p, tb, n - 1);
      var f := FLAGS[n - 1];
      if Present(p, f) {
        Assoc(Written(p, tb, n - 1), EncodeValue(Get(p, f), tb), EncodeFrom(p, tb, n));
      } else {
        Empty(Written(p, tb, n - 1));
      }
    }
  }

  lemma WrittenStep(p: Properties, tb: bytes, f: Flag)
    ensures Written(p, tb, Index(f) + 1) ==
            Written(p, tb, Index(f)) + if Present(p, f) then EncodeValue(Get(p, f), tb) else []
  {
    FlagIndex(f, Index(f));
  }

  /** One test of the second pass. */
  method PutValue(w: Buffer, flags: set<Flag>, f: Flag, e: bytes, p: Properties, ghost tb: bytes, ghost start: bytes, ghost i: nat)
    requires flags == PresentFlags(p) && (Present(p, f) ==> EncodeValue(Get(p, f), tb) == e)
    requires i == Index(f) && w.data == start + Written(p, tb, i)
    modifies w
    ensures w.data == start + Written(p, tb, i + 1)
  {
    WrittenStep(p, tb, f);
    if f in flags {
      Assoc(start, Written(p, tb, i), e);
      w.Write(e);
    } else {
      Empty(Written(p, tb, i));
    }
  }

  function TimestampBytes(t: Option<int64>): bytes {
    Widths();
    match t case None => [] case Some(sec) => BigEndian(8, ToUnsigned(8, sec))
  }

  lemma WrittenBeforeHeaders(p: Properties, tb: bytes, tb': bytes)
    ensures Written(p, tb, 2) == Written(p, tb', 2)
  {
    assert Written(p, tb, 1) == Written(p, tb', 1);
  }

  /** The test of the second pass for the headers table. */
  method PutHeaders(w: Buffer, flags: set<Flag>, p: Properties, ghost start: bytes) returns (ok: bool, ghost tb: bytes)
    requires flags == PresentFlags(p) && w.data == start + Written(p, [], 2)
    modifies w
    ensures ok <==> Valid(Tab(p.headers))
    ensures ok ==> HeadersBytes(p, tb) && w.data == start + Written(p, tb, 3)
  {
    ok, tb := true, [];
    if Headers in flags {
      ghost var es;
      ok, es := w.Table(p.headers);
      tb := EncodeTable(es);
      WrittenBeforeHeaders(p, [], tb);
      Assoc(start, Written(p, tb, 2), tb);
    } else {
      Empty(Written(p, tb, 2));
    }
  }

  method PutContent(w: Buffer, flags: set<Flag>, p: Properties, ghost start: bytes)
    requires flags == PresentFlags(p) && w.data == start
    modifies w
    ensures w.data == start + Written(p, [], 2)
  {
    Empty(start);
    PutValue(w, flags, ContentType, Shortstr(p.contentType), p, [], start, 0);
    PutValue(w, flags, ContentEncoding, Shortstr(p.contentEncoding), p, [], start, 1);
  }

  method PutDelivery(w: Buffer, flags: set<Flag>, p: Properties, ghost tb: bytes, ghost start: bytes)
    requires flags == PresentFlags(p) && w.data == start + Written(p, tb, 3)
    modifies w
    ensures w.data == start + Written(p, tb, 7)
  {
    PutValue(w, flags, DeliveryMode, BigEndian(1, p.deliveryMode), p, tb, start, 3);
    PutValue(w, flags, Priority, BigEndian(1, p.priority), p, tb, start, 4);
    PutValue(w, flags, CorrelationId, Shortstr(p.correlationId), p, tb, start, 5);
    PutValue(w, flags, ReplyTo, Shortstr(p.replyTo), p, tb, start, 6);
  }

  method PutMessage(w: Buffer, flags: set<Flag>, p: Properties, ghost tb: bytes, ghost start: bytes)
    requires flags == PresentFlags(p) && w.data == start + Written(p, tb, 7)
    modifies w
    ensures w.data == start + Written(p, tb, 10)
  {
    PutValue(w, flags, Expiration, Shortstr(p.expiration), p, tb, start, 7);
    PutValue(w, flags, MessageId, Shortstr(p.messageId), p, tb, start, 8);
    PutValue(w, flags, Timestamp, TimestampBytes(p.timestamp), p, tb, start, 9);
  }

  method PutApp(w: Buffer, flags: set<Flag>, p: Properties, ghost tb: bytes, ghost start: bytes)
    requires flags == PresentFlags(p) && w.data == start + Written(p, tb, 10)
    modifies w
    ensures w.data == start + Written(p, tb, 13)
  {
    PutValue(w, flags, Type, Shortstr(p.msgType), p, tb, start, 10);
    PutValue(w, flags, UserId, Shortstr(p.userId), p, tb, start, 11);
    PutValue(w, flags, AppId, Shortstr(p.appId), p, tb, start, 12);
  }

  /** The first pass, and the mask it writes. */
  method WriteMask(w: Buffer, p: Properties) returns (flags: set<Flag>)
    modifies w
    ensures flags == PresentFlags(p) && w.data == old(w.data) + BigEndian(2, MaskOf(PresentFlags(p)) as int)
  {
    var mask := BuildMask(p);
    w.Write(BigEndian(2, mask as int));
    MaskTells(PresentFlags(p));
    flags := FlagsIn(mask);
  }

  /** The second pass. */
  method WriteValues(w: Buffer, flags: set<Flag>, p: Properties) returns (ok: bool, ghost tb: bytes)
    requires flags == PresentFlags(p)
    modifies w
    ensures ok <==> Valid(Tab(p.headers))
    ensures ok ==> HeadersBytes(p, tb) && w.data == old(w.data) + Written(p, tb, 13)
  {
    ghost var start := w.data;
    PutContent(w, flags, p, start);
    ok, tb := PutHeaders(w, flags, p, start);
    if !ok { return; }
    PutDelivery(w, flags, p, tb, start);
    PutMessage(w, flags, p, tb, start);
    PutApp(w, flags, p, tb, start);
  }

  /** The two passes of headerFrame.write. */
  method WriteProperties(w: Buffer, p: Properties) returns (ok: bool, ghost s: bytes)
    modifies w
    ensures ok <==> Valid(Tab(p.headers))
    ensures ok ==> PropertiesBytes(p, s) && w.data == old(w.data) + s
  {
    ghost var tb;
    var flags := WriteMask(w, p);
    ok, tb := WriteValues(w, flags, p);
    s := EncodeProperties(p, tb);
    WrittenTotal(p, tb, old(w.data));
  }

  lemma WrittenTotal(p: Properties, tb: bytes, was: bytes)
    ensures var mask := BigEndian(2, MaskOf(PresentFlags(p)) as int);
            was + mask + Written(p, tb, 13) == was + EncodeProperties(p, tb)
  {
    var mask := BigEndian(2, MaskOf(PresentFlags(p)) as int);
    WrittenAll(p, tb, 13);
    Empty(Written(p, tb, 13));
    assert EncodeFrom(p, tb, 13) == EncodeFrom(p, tb, 14) == [];
    Assoc(was, mask, EncodeFrom(p, tb, 0));
  }

  // ----- Content headers: reading -----

  /** One test of parseHeaderFrame: the value of the flag, if it is announced. */
  method GetProperty(r: Reader, flags: set<Flag>, f: Flag, p: Properties) returns (q: Outcome<Properties>)
    modifies r
    ensures var all := ReadFrom(flags, p, old(r.rest), Index(f));
            if q.Ok? then all == ReadFrom(flags, q.value, r.rest, Index(f) + 1) else all == Bad(q.err, r.rest)
  {
    FlagIndex(f, Index(f));
    Widths();
    if f !in flags { return Ok(p); }
    if f.Headers? {
      var m := r.Table();
      q := if m.Ok? then Ok(p.(headers := m.value)) else Failed(m.err);
    } else if f.DeliveryMode? {
      var u := r.Uint(1);
      q := if u.Ok? then Ok(p.(deliveryMode := u.value)) else Failed(u.err);
    } else if f.Priority? {
      var u := r.Uint(1);
      q := if u.Ok? then Ok(p.(priority := u.value)) else Failed(u.err);
    } else if f.Timestamp? {
      var t := r.Signed(8);
      q := if t.Ok? then Ok(p.(timestamp := Some(t.value))) else Failed(t.err);
    } else {
      var s := r.Shortstr();
      q := if s.Ok? then Ok(Set(p, f, Text(s.value))) else Failed(s.err);
    }
  }

  // The tests of parseHeaderFrame, a few at a time.

  method ReadContentTests(r: Reader, flags: set<Flag>, p: Properties) returns (q: Outcome<Properties>)
    modifies r
    ensures var all := ReadFrom(flags, p, old(r.rest), 0);
            if q.Ok? then all == ReadFrom(flags, q.value, r.rest, 3) else all == Bad(q.err, r.rest)
  {
    ghost var all := ReadFrom(flags, p, r.rest, 0);
    q := GetProperty(r, flags, ContentType, p);
    if q.Failed? { return; }
    assert all == ReadFrom(flags, q.value, r.rest, 1);
    q := GetProperty(r, flags, ContentEncoding, q.value);
    if q.Failed? { return; }
    assert all == ReadFrom(flags, q.value, r.rest, 2);
    q := GetProperty(r, flags, Headers, q.value);
  }

  method ReadDeliveryTests(r: Reader, flags: set<Flag>, p: Properties) returns (q: Outcome<Properties>)
    modifies r
    ensures var all := ReadFrom(flags, p, old(r.rest), 3);
            if q.Ok? then all == ReadFrom(flags, q.value, r.rest, 5) else all == Bad(q.err, r.rest)
  {
    ghost var all := ReadFrom(flags, p, r.rest, 3);
    q := GetProperty(r, flags, DeliveryMode, p);
    if q.Failed? { return; }
    assert all == ReadFrom(flags, q.value, r.rest, 4);
    q := GetProperty(r, flags, Priority, q.value);
  }

  method ReadReplyTests(r: Reader, flags: set<Flag>, p: Properties) returns (q: Outcome<Properties>)
    modifies r
    ensures var all := ReadFrom(flags, p, old(r.rest), 5);
            if q.Ok? then all == ReadFrom(flags, q.value, r.rest, 7) else all == Bad(q.err, r.rest)
  {
    ghost var all := ReadFrom(flags, p, r.rest, 5);
    q := GetProperty(r, flags, CorrelationId, p);
    if q.Failed? { return; }
    assert all == ReadFrom(flags, q.value, r.rest, 6);
    q := GetProperty(r, flags, ReplyTo, q.value);
  }

  method ReadMessageTests(r: Reader, flags: set<Flag>, p: Properties) returns (q: Outcome<Properties>)
    modifies r
    ensures var all := ReadFrom(flags, p, old(r.rest), 7);
            if q.Ok? then all == ReadFrom(flags, q.value, r.rest, 9) else all == Bad(q.err, r.rest)
  {
    ghost var all := ReadFrom(flags, p, r.rest, 7);
    q := GetProperty(r, flags, Expiration, p);
    if q.Failed? { return; }
    assert all == ReadFrom(flags, q.value, r.rest, 8);
    q := GetProperty(r, flags, MessageId, q.value);
  }

  method ReadTypeTests(r: Reader, flags: set<Flag>, p: Properties) returns (q: Outcome<Properties>)
    modifies r
    ensures var all := ReadFrom(flags, p, old(r.rest), 9);
            if q.Ok? then all == ReadFrom(flags, q.value, r.rest, 11) else all == Bad(q.err, r.rest)
  {
    ghost var all := ReadFrom(flags, p, r.rest, 9);
    q := GetProperty(r, flags, Timestamp, p);
    if q.Failed? { return; }
    assert all == ReadFrom(flags, q.value, r.rest, 10);
    q := GetProperty(r, flags, Type, q.value);
  }

  method ReadAppTests(r: Reader, flags: set<Flag>, p: Properties) returns (q: Outcome<Properties>)
    modifies r
    ensures var all := ReadFrom(flags, p, old(r.rest), 11);
            if q.Ok? then all == ReadFrom(flags, q.value, r.rest, 13) else all == Bad(q.err, r.rest)
  {
    ghost var all := ReadFrom(flags, p, r.rest, 11);
    q := GetProperty(r, flags, UserId, p);
    if q.Failed? { return; }
    assert all == ReadFrom(flags, q.value, r.rest, 12);
    q := GetProperty(r, flags, AppId, q.value);
  }

  method ReadLastTest(r: Reader, flags: set<Flag>, p: Properties) returns (q: Outcome<Properties>)
    modifies r
    ensures var all := ReadFrom(flags, p, old(r.rest), 13);
            if q.Ok? then all == Got(q.value, r.rest) else all == Bad(q.err, r.rest)
  {
    q := GetProperty(r, flags, Reserved1, p);
  }

  /** The property part of parseHeaderFrame. */
  method ReadPropertiesInto(r: Reader) returns (p: Outcome<Properties>)
    modifies r
    ensures p == OutcomeOf(ReadProperties(old(r.rest))) && r.rest == ReadProperties(old(r.rest)).rest
  {
    Widths();
    var mask := r.Uint(2);
    if mask.Failed? { return Failed(mask.err); }
    p := ReadTests(r, FlagsIn(mask.value as bv16));
  }

  method ReadTests(r: Reader, flags: set<Flag>) returns (p: Outcome<Properties>)
    modifies r
    ensures var all := ReadFrom(flags, NO_PROPERTIES, old(r.rest), 0);
            if p.Ok? then all == Got(p.value, r.rest) else all == Bad(p.err, r.rest)
  {
    p := ReadContentTests(r, flags, NO_PROPERTIES);
    if p.Failed? { return; }
    p := ReadDeliveryTests(r, flags, p.value);
    if p.Failed? { return; }
    p := ReadReplyTests(r, flags, p.value);
    if p.Failed? { return; }
    p := ReadMessageTests(r, flags, p.value);
    if p.Failed? { return; }
    p := ReadTypeTests(r, flags, p.value);
    if p.Failed? { return; }
    p := ReadAppTests(r, flags, p.value);
    if p.Failed? { return; }
    p := ReadLastTest(r, flags, p.value);
  }

  // ----- Frames -----

  /** WriteFrame: one frame appended to the connection, or an error and nothing of it. */
  method WriteFrame(w: Buffer, f: Frame) returns (ok: bool, ghost s: bytes)
    requires f.MethodFrame? ==> Schema(f.m.cls, f.m.id).Some? && AllTyped(Schema(f.m.cls, f.m.id).value, f.m.args)
    modifies w
    ensures ok <==> (f.MethodFrame? ==> Writable(f.m.args)) && (f.HeaderFrame? ==> Valid(Tab(f.props.headers)))
    ensures ok ==> FrameBytes(f, s) && w.data == old(w.data) + s
    ensures !ok ==> w.data == old(w.data)
  {
    var payload := [];
    ok := true;
    match f {
      case HeartbeatFrame(_) =>
      case BodyFrame(_, body) => payload := body;
      case MethodFrame(_, m) => ok, payload := MethodPayload(m);
      case HeaderFrame(_, cls, weight, size, props) =>
        var buf := new Buffer();
        buf.Write(HeaderStart(cls, weight, size));
        ghost var t;
        ok, t := WriteProperties(buf, props);
        payload := buf.data;
        assert ok ==> payload[12..] == t && payload[..12] == HeaderStart(cls, weight, size);
    }
    s := Wrap(TypeOf(f), f.ch, payload);
    if ok {
      assert PayloadBytes(f, payload);
      w.Write(Wrap(TypeOf(f), f.ch, payload));
    }
  }

  method ReadHeaderInto(r: Reader, ch: nat) returns (f: Outcome<Frame>)
    modifies r
    ensures f == OutcomeOf(ReadHeaderPayload(ch, old(r.rest))) && r.rest == ReadHeaderPayload(ch, old(r.rest)).rest
  {
    var cls := r.Uint(2);
    if cls.Failed? { return Failed(cls.err); }
    var weight := r.Uint(2);
    if weight.Failed? { return Failed(weight.err); }
    var size := r.Uint(8);
    if size.Failed? { return Failed(size.err); }
    var p := ReadPropertiesInto(r);
    f := if p.Ok? then Ok(HeaderFrame(ch, cls.value, weight.value, size.value, p.value)) else Failed(p.err);
  }

  /** ReadFrame */
  method ReadFrameInto(r: Reader) returns (f: Outcome<Frame>)
    modifies r
    ensures f == OutcomeOf(ReadFrame(old(r.rest))) && r.rest == ReadFrame(old(r.rest)).rest
  {
    var scratch := r.Full(7);
    if scratch.Failed? { return Failed(scratch.err); }
    var typ := scratch.value[0];
    var ch := FromBigEndian(scratch.value[1..3]);
    var size := FromBigEndian(scratch.value[3..7]);
    if typ == FRAME_METHOD {
      var m := ReadMethodInto(r);
      f := if m.Ok? then Ok(MethodFrame(ch, m.value)) else Failed(m.err);
    } else if typ == FRAME_HEADER {
      f := ReadHeaderInto(r, ch);
    } else if typ == FRAME_BODY {
      var body := r.Full(size);
      f := if body.Ok? then Ok(BodyFrame(ch, body.value)) else Failed(body.err);
    } else if typ == FRAME_HEARTBEAT {
      f := if size > 0 then Failed(Panic) else Ok(HeartbeatFrame(ch));
    } else {
      f := Failed(FrameError);
    }
    if f.Failed? { return; }
    var end := r.Full(1);
    if end.Failed? { return Failed(end.err); }
    if end.value[0] != FRAME_END { return Failed(FrameError); }
  }
}
