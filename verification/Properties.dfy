/**
 The property list of a content header: a mask of sixteen flags followed by the
 properties whose flag is set, most significant flag first.
 */
module Properties {
  import opened Options
  import opened Sequences
  import opened Wire
  import opened Fields
  import opened FieldLimits
  import opened Methods
  import opened Flags

  /** `timestamp` is None for the zero time.Time; nil and empty headers are one. */
  datatype Properties = Properties(
    contentType: bytes,
    contentEncoding: bytes,
    headers: map<bytes, Field>,
    deliveryMode: byte,
    priority: byte,
    correlationId: bytes,
    replyTo: bytes,
    expiration: bytes,
    messageId: bytes,
    timestamp: Option<int64>,
    msgType: bytes,
    userId: bytes,
    appId: bytes,
    reserved1: bytes)

  const NO_PROPERTIES := Properties([], [], map[], 0, 0, [], [], [], [], None, [], [], [], [])

  /** The tests of headerFrame.write; there is none for reserved1. */
  predicate Present(p: Properties, f: Flag) {
    match f
    case ContentType => p.contentType != []
    case ContentEncoding => p.contentEncoding != []
    case Headers => p.headers != map[]
    case DeliveryMode => p.deliveryMode > 0
    case Priority => p.priority > 0
    case CorrelationId => p.correlationId != []
    case ReplyTo => p.replyTo != []
    case Expiration => p.expiration != []
    case MessageId => p.messageId != []
    case Timestamp => p.timestamp.Some?
    case Type => p.msgType != []
    case UserId => p.userId != []
    case AppId => p.appId != []
    case Reserved1 => false
  }

  function PresentFlags(p: Properties): set<Flag> { set f: Flag | Present(p, f) }

  datatype Value = Text(s: bytes) | Small(u: byte) | Instant(sec: int64) | Table(m: map<bytes, Field>)

  function Get(p: Properties, f: Flag): Value
    requires f.Timestamp? ==> p.timestamp.Some?
  {
    match f
    case ContentType => Text(p.contentType)
    case ContentEncoding => Text(p.contentEncoding)
    case Headers => Table(p.headers)
    case DeliveryMode => Small(p.deliveryMode)
    case Priority => Small(p.priority)
    case CorrelationId => Text(p.correlationId)
    case ReplyTo => Text(p.replyTo)
    case Expiration => Text(p.expiration)
    case MessageId => Text(p.messageId)
    case Timestamp => Instant(p.timestamp.value)
    case Type => Text(p.msgType)
    case UserId => Text(p.userId)
    case AppId => Text(p.appId)
    case Reserved1 => Text(p.reserved1)
  }

  predicate TypedFor(f: Flag, v: Value) {
    match f
    case Headers => v.Table?
    case DeliveryMode => v.Small?
    case Priority => v.Small?
    case Timestamp => v.Instant?
    case _ => v.Text?
  }

  function Set(p: Properties, f: Flag, v: Value): Properties
    requires TypedFor(f, v)
  {
    match f
    case ContentType => p.(contentType := v.s)
    case ContentEncoding => p.(contentEncoding := v.s)
    case Headers => p.(headers := v.m)
    case DeliveryMode => p.(deliveryMode := v.u)
    case Priority => p.(priority := v.u)
    case CorrelationId => p.(correlationId := v.s)
    case ReplyTo => p.(replyTo := v.s)
    case Expiration => p.(expiration := v.s)
    case MessageId => p.(messageId := v.s)
    case Timestamp => p.(timestamp := Some(v.sec))
    case Type => p.(msgType := v.s)
    case UserId => p.(userId := v.s)
    case AppId => p.(appId := v.s)
    case Reserved1 => p.(reserved1 := v.s)
  }

  // ----- Writing -----

  /** `tb` is what writing the headers table put out. */
  function EncodeValue(v: Value, tb: bytes): bytes {
    Widths();
    match v
    case Text(s) => Shortstr(s)
    case Small(u) => BigEndian(1, u)
    case Instant(t) => BigEndian(8, ToUnsigned(8, t))
    case Table(_) => tb
  }

  /** The second pass from the i-th flag on. */
  function EncodeFrom(p: Properties, tb: bytes, i: nat): bytes
    requires i <= 14
    decreases 14 - i, |tb|
  {
    if i == 14 then []
    else if Present(p, FLAGS[i]) then EncodeValue(Get(p, FLAGS[i]), tb) + EncodeFrom(p, tb, i + 1)
    else EncodeFrom(p, tb, i + 1)
  }

  function EncodeProperties(p: Properties, tb: bytes): bytes {
    BigEndian(2, MaskOf(PresentFlags(p)) as int) + EncodeFrom(p, tb, 0)
  }

  /** tb can come of writing the headers of p, if they are written at all. */
  ghost predicate HeadersBytes(p: Properties, tb: bytes) {
    p.headers != map[] ==> TableBytes(p.headers, tb)
  }

  ghost predicate PropertiesBytes(p: Properties, s: bytes) {
    exists tb :: HeadersBytes(p, tb) && s == EncodeProperties(p, tb)
  }

  // ----- The octets -----

  function TextOctets(s: bytes): bytes { if s == [] then [] else Shortstr(s) }

  function SmallOctets(u: byte): bytes { if u == 0 then [] else [u] }

  function HeadersOctets(p: Properties, tb: bytes): bytes { if p.headers == map[] then [] else tb }

  function TimeOctets(t: Option<int64>): bytes {
    match t
    case None => []
    case Some(sec) => BigEndian(8, if sec < 0 then sec + 0x1_0000_0000_0000_0000 else sec)
  }

  /** The mask: one bit for each property that is there, and nothing else. */
  lemma MaskOctets(p: Properties)
    ensures var mask := MaskOf(PresentFlags(p));
            && (mask & 0x8000 != 0 <==> p.contentType != [])
            && (mask & 0x4000 != 0 <==> p.contentEncoding != [])
            && (mask & 0x2000 != 0 <==> p.headers != map[])
            && (mask & 0x1000 != 0 <==> p.deliveryMode > 0)
            && (mask & 0x0800 != 0 <==> p.priority > 0)
            && (mask & 0x0400 != 0 <==> p.correlationId != [])
            && (mask & 0x0200 != 0 <==> p.replyTo != [])
            && (mask & 0x0100 != 0 <==> p.expiration != [])
            && (mask & 0x0080 != 0 <==> p.messageId != [])
            && (mask & 0x0040 != 0 <==> p.timestamp.Some?)
            && (mask & 0x0020 != 0 <==> p.msgType != [])
            && (mask & 0x0010 != 0 <==> p.userId != [])
            && (mask & 0x0008 != 0 <==> p.appId != [])
            && mask & 0x0007 == 0
  {
    MaskTells(PresentFlags(p));
    MaskBit(p, ContentType);
    MaskBit(p, ContentEncoding);
    MaskBit(p, Headers);
    MaskBit(p, DeliveryMode);
    MaskBit(p, Priority);
    MaskBit(p, CorrelationId);
    MaskBit(p, ReplyTo);
    MaskBit(p, Expiration);
    MaskBit(p, MessageId);
    MaskBit(p, Timestamp);
    MaskBit(p, Type);
    MaskBit(p, UserId);
    MaskBit(p, AppId);
    MaskBit(p, Reserved1);
    MaskLow(PresentFlags(p), 14);
    LowBits(MaskOf(PresentFlags(p)));
  }

  lemma MaskBit(p: Properties, f: Flag)
    ensures MaskOf(PresentFlags(p)) & Bit(f) != 0 <==> Present(p, f)
  {
    MaskTells(PresentFlags(p));
    assert HasProperty(MaskOf(PresentFlags(p)), f) <==> f in PresentFlags(p);
  }

  lemma {:induction false} MaskLow(present: set<Flag>, n: nat)
    requires n <= 14
    ensures MaskUpTo(present, n) & 0x0003 == 0
  {
    if n > 0 {
      MaskLow(present, n - 1);
      FlagIndex(FLAGS[n - 1], n - 1);
      OrLow(MaskUpTo(present, n - 1), Bit(FLAGS[n - 1]));
    }
  }

  lemma OrLow(a: bv16, b: bv16)
    requires a & 0x0003 == 0 && b & 0x0003 == 0
    ensures (a | b) & 0x0003 == 0
  {}

  lemma LowBits(a: bv16)
    requires a & 0x0003 == 0 && a & 0x0004 == 0
    ensures a & 0x0007 == 0
  {}

  /** And then the values of the properties that are there, in this order. */
  lemma ValueOctets(p: Properties, tb: bytes)
    ensures EncodeProperties(p, tb) ==
            BigEndian(2, MaskOf(PresentFlags(p)) as int) +
            TextOctets(p.contentType) + TextOctets(p.contentEncoding) + HeadersOctets(p, tb) +
            SmallOctets(p.deliveryMode) + SmallOctets(p.priority) + TextOctets(p.correlationId) +
            TextOctets(p.replyTo) + TextOctets(p.expiration) +
            TextOctets(p.messageId) + TimeOctets(p.timestamp) + TextOctets(p.msgType) +
            TextOctets(p.userId) + TextOctets(p.appId)
  {
    var h := BigEndian(2, MaskOf(PresentFlags(p)) as int);
    FirstValues(p, tb, h);
    MiddleValues(p, tb, h + TextOctets(p.contentType) + TextOctets(p.contentEncoding) + HeadersOctets(p, tb) +
                        SmallOctets(p.deliveryMode));
    LastValues(p, tb, h + TextOctets(p.contentType) + TextOctets(p.contentEncoding) + HeadersOctets(p, tb) +
                      SmallOctets(p.deliveryMode) + SmallOctets(p.priority) + TextOctets(p.correlationId) +
                      TextOctets(p.replyTo) + TextOctets(p.expiration));
  }

  lemma FirstValues(p: Properties, tb: bytes, h: bytes)
    ensures h + EncodeFrom(p, tb, 0) ==
            h + TextOctets(p.contentType) + TextOctets(p.contentEncoding) + HeadersOctets(p, tb) +
            SmallOctets(p.deliveryMode) + EncodeFrom(p, tb, 4)
  {
    TextStep(p, tb, h, ContentType, p.contentType);
    var h1 := h + TextOctets(p.contentType);
    TextStep(p, tb, h1, ContentEncoding, p.contentEncoding);
    var h2 := h1 + TextOctets(p.contentEncoding);
    ValueStep(p, tb, h2, Headers);
    var h3 := h2 + HeadersOctets(p, tb);
    ValueStep(p, tb, h3, DeliveryMode);
    One(p.deliveryMode);
    var h4 := h3 + SmallOctets(p.deliveryMode);
  }

  lemma MiddleValues(p: Properties, tb: bytes, h: bytes)
    ensures h + EncodeFrom(p, tb, 4) ==
            h + SmallOctets(p.priority) + TextOctets(p.correlationId) + TextOctets(p.replyTo) +
            TextOctets(p.expiration) + EncodeFrom(p, tb, 8)
  {
    ValueStep(p, tb, h, Priority);
    One(p.priority);
    var h5 := h + SmallOctets(p.priority);
    TextStep(p, tb, h5, CorrelationId, p.correlationId);
    var h6 := h5 + TextOctets(p.correlationId);
    TextStep(p, tb, h6, ReplyTo, p.replyTo);
    var h7 := h6 + TextOctets(p.replyTo);
    TextStep(p, tb, h7, Expiration, p.expiration);
    var h8 := h7 + TextOctets(p.expiration);
  }

  lemma LastValues(p: Properties, tb: bytes, h: bytes)
    ensures h + EncodeFrom(p, tb, 8) ==
            h + TextOctets(p.messageId) + TimeOctets(p.timestamp) + TextOctets(p.msgType) + TextOctets(p.userId) +
            TextOctets(p.appId)
  {
    TextStep(p, tb, h, MessageId, p.messageId);
    TimeStep(p, tb, h + TextOctets(p.messageId));
    UserValues(p, tb, h + TextOctets(p.messageId) + TimeOctets(p.timestamp));
  }

  lemma UserValues(p: Properties, tb: bytes, h: bytes)
    ensures h + EncodeFrom(p, tb, 10) == h + TextOctets(p.msgType) + TextOctets(p.userId) + TextOctets(p.appId)
  {
    TextStep(p, tb, h, Type, p.msgType);
    var h1 := h + TextOctets(p.msgType);
    TextStep(p, tb, h1, UserId, p.userId);
    var h2 := h1 + TextOctets(p.userId);
    TextStep(p, tb, h2, AppId, p.appId);
    NoneLeft(p, tb, h2 + TextOctets(p.appId));
  }

  lemma TimeStep(p: Properties, tb: bytes, h: bytes)
    ensures h + EncodeFrom(p, tb, 9) == h + TimeOctets(p.timestamp) + EncodeFrom(p, tb, 10)
  {
    ValueStep(p, tb, h, Timestamp);
    Widths();
  }

  lemma NoneLeft(p: Properties, tb: bytes, h: bytes)
    ensures h + EncodeFrom(p, tb, 13) == h
  {
    ValueStep(p, tb, h, Reserved1);
    Empty(h);
  }

  lemma One(u: byte)
    ensures BigEndian(1, u) == [u]
  {
    assert BigEndian(0, u / 256) == [];
  }

  lemma TextStep(p: Properties, tb: bytes, h: bytes, f: Flag, s: bytes)
    requires !f.Timestamp? && Get(p, f) == Text(s) && (Present(p, f) <==> s != [])
    ensures h + EncodeFrom(p, tb, Index(f)) == h + TextOctets(s) + EncodeFrom(p, tb, Index(f) + 1)
  {
    ValueStep(p, tb, h, f);
  }

  /** One property more. */
  lemma ValueStep(p: Properties, tb: bytes, h: bytes, f: Flag)
    ensures var i := Index(f);
            h + EncodeFrom(p, tb, i) ==
            h + (if Present(p, f) then EncodeValue(Get(p, f), tb) else []) + EncodeFrom(p, tb, i + 1)
  {
    var i := Index(f);
    FlagIndex(f, i);
    if Present(p, f) {
      Assoc(h, EncodeValue(Get(p, f), tb), EncodeFrom(p, tb, i + 1));
    } else {
      Empty(h);
    }
  }

  // ----- Reading -----

  function ReadValue(f: Flag, s: bytes): (r: Parsed<Value>)
    ensures |r.rest| <= |s|
    ensures r.Got? ==> TypedFor(f, r.value)
  {
    Widths();
    match f
    case Headers => var (m, s) :- ReadTable(s); Got(Table(m), s)
    case DeliveryMode => var (u, s) :- ReadUint(s, 1); Got(Small(u), s)
    case Priority => var (u, s) :- ReadUint(s, 1); Got(Small(u), s)
    case Timestamp => var (t, s) :- ReadSigned(s, 8); Got(Instant(t), s)
    case _ => var (str, s) :- ReadShortstr(s); Got(Text(str), s)
  }

  /** The tests of parseHeaderFrame from the i-th flag on, with p read so far. */
  function ReadFrom(flags: set<Flag>, p: Properties, s: bytes, i: nat): (r: Parsed<Properties>)
    requires i <= 14
    ensures |r.rest| <= |s|
    decreases 14 - i, |s|
  {
    if i == 14 then Got(p, s)
    else if FLAGS[i] in flags then
      var (v, s) :- ReadValue(FLAGS[i], s);
      ReadFrom(flags, Set(p, FLAGS[i], v), s, i + 1)
    else ReadFrom(flags, p, s, i + 1)
  }

  function ReadFlags(s: bytes): (r: Parsed<set<Flag>>)
    ensures |r.rest| <= |s|
  {
    Widths();
    var (mask, s) :- ReadUint(s, 2);
    Got(FlagsIn(mask as bv16), s)
  }

  /** The property part of parseHeaderFrame. */
  function ReadProperties(s: bytes): (r: Parsed<Properties>)
    ensures |r.rest| <= |s|
  {
    var (flags, s) :- ReadFlags(s);
    ReadFrom(flags, NO_PROPERTIES, s, 0)
  }

  // ----- Round trip -----

  ghost predicate ValueFits(v: Value) {
    match v
    case Text(s) => |s| <= 255
    case Table(m) => TableFits(m)
    case _ => true
  }

  ghost predicate WrittenFit(p: Properties) {
    forall f: Flag | Present(p, f) :: ValueFits(Get(p, f))
  }

  ghost predicate PropertiesFit(p: Properties) { WrittenFit(p) && p.reserved1 == [] }

  /** p with everything from the i-th flag on still at its default. */
  function UpTo(p: Properties, i: nat): Properties {
    Properties(
      if i > 0 then p.contentType else [],
      if i > 1 then p.contentEncoding else [],
      if i > 2 then p.headers else map[],
      if i > 3 then p.deliveryMode else 0,
      if i > 4 then p.priority else 0,
      if i > 5 then p.correlationId else [],
      if i > 6 then p.replyTo else [],
      if i > 7 then p.expiration else [],
      if i > 8 then p.messageId else [],
      if i > 9 then p.timestamp else None,
      if i > 10 then p.msgType else [],
      if i > 11 then p.userId else [],
      if i > 12 then p.appId else [],
      [])
  }

  lemma UpToStep(p: Properties, i: nat)
    requires i < 14
    ensures UpTo(p, i + 1) == if Present(p, FLAGS[i]) then Set(UpTo(p, i), FLAGS[i], Get(p, FLAGS[i])) else UpTo(p, i)
  {
    FlagIndex(FLAGS[i], i);
    match FLAGS[i] {
      case ContentType => case ContentEncoding => case Headers => case DeliveryMode => case Priority =>
      case CorrelationId => case ReplyTo => case Expiration => case MessageId => case Timestamp =>
      case Type => case UserId => case AppId => case Reserved1 =>
    }
  }

  lemma ValueBack(p: Properties, f: Flag, tb: bytes, tail: bytes)
    requires Present(p, f) && ValueFits(Get(p, f)) && HeadersBytes(p, tb)
    ensures ReadValue(f, EncodeValue(Get(p, f), tb) + tail) == Got(Get(p, f), tail)
  {
    Widths();
    match Get(p, f)
    case Text(s) => ShortstrRoundTrip(s, tail);
    case Small(u) => ReadUintAppend(1, u, tail);
    case Instant(t) => ReadUintAppend(8, ToUnsigned(8, t), tail);
    case Table(m) => TableReadBack(m, tb, tail);
  }

  lemma {:induction false} ReadFromBack(p: Properties, tb: bytes, tail: bytes, i: nat)
    requires i <= 14 && WrittenFit(p) && HeadersBytes(p, tb)
    ensures ReadFrom(PresentFlags(p), UpTo(p, i), EncodeFrom(p, tb, i) + tail, i) == Got(UpTo(p, 14), tail)
    decreases 14 - i
  {
    if i == 14 {
      assert [] + tail == tail;
    } else {
      var f, more := FLAGS[i], EncodeFrom(p, tb, i + 1);
      UpToStep(p, i);
      ReadFromBack(p, tb, tail, i + 1);
      if Present(p, f) {
        var e := EncodeValue(Get(p, f), tb);
        assert e + more + tail == e + (more + tail);
        ValueBack(p, f, tb, more + tail);
      }
    }
  }

  lemma ReadFlagsBack(present: set<Flag>, tail: bytes)
    ensures ReadFlags(BigEndian(2, MaskOf(present) as int) + tail) == Got(present, tail)
  {
    Widths();
    ReadUintAppend(2, MaskOf(present) as int, tail);
    assert (MaskOf(present) as int) as bv16 == MaskOf(present);
    MaskTells(present);
  }

  /** Whatever subset of the properties is set, each comes back in its own place, the
      others as their defaults, and exactly the octets written are taken. */
  lemma PropertiesRoundTrip(p: Properties, s: bytes, tail: bytes)
    requires WrittenFit(p) && PropertiesBytes(p, s)
    ensures ReadProperties(s + tail) == Got(p.(reserved1 := []), tail)
  {
    var tb :| HeadersBytes(p, tb) && s == EncodeProperties(p, tb);
    var mask, body := BigEndian(2, MaskOf(PresentFlags(p)) as int), EncodeFrom(p, tb, 0);
    assert s + tail == mask + (body + tail);
    ReadFlagsBack(PresentFlags(p), body + tail);
    ReadFromBack(p, tb, tail, 0);
  }

  // ----- Nothing else comes back -----

  lemma ReadValueFits(f: Flag, s: bytes)
    requires ReadValue(f, s).Got?
    ensures ValueFits(ReadValue(f, s).value)
  {
    if f.Headers? {
      var es := ReadTableFits(s);
    }
  }

  lemma SetFits(p: Properties, f: Flag, v: Value)
    requires WrittenFit(p) && TypedFor(f, v) && ValueFits(v)
    ensures WrittenFit(Set(p, f, v))
  {
    var q := Set(p, f, v);
    forall g: Flag | Present(q, g) ensures ValueFits(Get(q, g)) {
      if g != f {
        assert Present(p, g) && Get(q, g) == Get(p, g);
      }
    }
  }

  lemma {:induction false} ReadFromFits(flags: set<Flag>, p: Properties, s: bytes, i: nat)
    requires i <= 14 && WrittenFit(p) && ReadFrom(flags, p, s, i).Got?
    ensures WrittenFit(ReadFrom(flags, p, s, i).value)
    decreases 14 - i
  {
    if i < 14 {
      if FLAGS[i] in flags {
        var v, s1 := ReadValue(FLAGS[i], s).value, ReadValue(FLAGS[i], s).rest;
        ReadValueFits(FLAGS[i], s);
        SetFits(p, FLAGS[i], v);
        ReadFromFits(flags, Set(p, FLAGS[i], v), s1, i + 1);
      } else {
        ReadFromFits(flags, p, s, i + 1);
      }
    }
  }

  /** Properties survive being written and read if and only if they fit: no string over
      255 octets, a headers table that fits, and reserved1 (which is never written) empty. */
  lemma PropertiesRoundTripIffFit(p: Properties, s: bytes, tail: bytes)
    requires PropertiesBytes(p, s)
    ensures ReadProperties(s + tail) == Got(p, tail) <==> PropertiesFit(p)
  {
    if WrittenFit(p) {
      PropertiesRoundTrip(p, s, tail);
    } else if ReadProperties(s + tail) == Got(p, tail) {
      var (flags, s1) := (ReadFlags(s + tail).value, ReadFlags(s + tail).rest);
      ReadFromFits(flags, NO_PROPERTIES, s1, 0);
    }
  }
}
