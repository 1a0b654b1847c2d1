/**
 Frames: seven octets of type, channel and size, a payload, and the frame-end octet.
 ReadFrame pays no attention to the size of method and header frames; their own
 structure has to end exactly at the frame-end octet.
 */
module Frames {
  import opened Sequences
  import opened Wire
  import opened Methods
  import opened Properties

  datatype Frame =
    | MethodFrame(ch: nat, m: Method)
    | HeaderFrame(ch: nat, cls: nat, weight: nat, size: nat, props: Properties)
    | BodyFrame(ch: nat, body: bytes)
    | HeartbeatFrame(ch: nat)

  const FRAME_METHOD: byte := 1
  const FRAME_HEADER: byte := 2
  const FRAME_BODY: byte := 3
  const FRAME_HEARTBEAT: byte := 8
  const FRAME_END: byte := 206
  /** What a frame adds to its payload. */
  const FRAME_HEADER_SIZE: nat := 8

  function TypeOf(f: Frame): byte {
    match f
    case MethodFrame(_, _) => FRAME_METHOD
    case HeaderFrame(_, _, _, _, _) => FRAME_HEADER
    case BodyFrame(_, _) => FRAME_BODY
    case HeartbeatFrame(_) => FRAME_HEARTBEAT
  }

  // ----- Writing -----

  function HeaderStart(cls: nat, weight: nat, size: nat): (s: bytes)
    ensures |s| == 12
  {
    BigEndian(2, cls) + BigEndian(2, weight) + BigEndian(8, size)
  }

  ghost predicate PayloadBytes(f: Frame, s: bytes) {
    match f
    case MethodFrame(_, m) => MethodBytes(m, s)
    case HeaderFrame(_, cls, weight, size, props) =>
      |s| >= 12 && s[..12] == HeaderStart(cls, weight, size) && PropertiesBytes(props, s[12..])
    case BodyFrame(_, body) => s == body
    case HeartbeatFrame(_) => s == []
  }

  /** writeFrame */
  function Wrap(typ: byte, ch: nat, payload: bytes): (s: bytes)
    ensures |s| == |payload| + FRAME_HEADER_SIZE
  {
    [typ] + BigEndian(2, ch) + BigEndian(4, Uint32(|payload|)) + payload + [FRAME_END]
  }

  ghost predicate FrameBytes(f: Frame, s: bytes) {
    exists payload :: PayloadBytes(f, payload) && s == Wrap(TypeOf(f), f.ch, payload)
  }

  ghost predicate FramesBytes(fs: seq<Frame>, s: bytes)
    decreases fs, 1
  {
    if fs == [] then s == []
    else exists n :: FrameEndsAt(fs, s, n)
  }

  ghost predicate FrameEndsAt(fs: seq<Frame>, s: bytes, n: int)
    requires fs != []
    decreases fs, 0
  {
    0 <= n <= |s| && FrameBytes(fs[0], s[..n]) && FramesBytes(fs[1..], s[n..])
  }

  ghost predicate FrameFits(f: Frame) {
    && f.ch < 0x1_0000
    && match f
       case MethodFrame(_, m) => MethodFits(m)
       case HeaderFrame(_, cls, weight, size, props) =>
         cls < 0x1_0000 && weight < 0x1_0000 && size < 0x1_0000_0000_0000_0000 && PropertiesFit(props)
       case BodyFrame(_, body) => |body| < TWO32
       case HeartbeatFrame(_) => true
  }

  /** The octets of a frame: 1 for a method, 2 for a header, 3 for a body and 8 for a
      heartbeat; its channel, the size of its payload, that, and 206. */
  lemma FrameOctets(f: Frame, s: bytes) returns (payload: bytes)
    requires FrameBytes(f, s)
    ensures PayloadBytes(f, payload) && s != []
    ensures s[0] == if f.MethodFrame? then 1 else if f.HeaderFrame? then 2 else if f.BodyFrame? then 3 else 8
    ensures |payload| < 0x1_0000_0000 ==>
      s == [s[0]] + BigEndian(2, f.ch) + BigEndian(4, |payload|) + payload + [206]
  {
    payload :| PayloadBytes(f, payload) && s == Wrap(TypeOf(f), f.ch, payload);
  }

  /** A header's payload: class, weight, body size, and the properties. */
  lemma HeaderOctets(f: Frame, payload: bytes)
    requires f.HeaderFrame? && PayloadBytes(f, payload)
    ensures |payload| >= 12 && PropertiesBytes(f.props, payload[12..])
    ensures payload[..12] == BigEndian(2, f.cls) + BigEndian(2, f.weight) + BigEndian(8, f.size)
  {}

  // ----- Reading -----

  function ReadHeaderPayload(ch: nat, s: bytes): (r: Parsed<Frame>)
    ensures |r.rest| <= |s|
  {
    var (cls, s) :- ReadUint(s, 2);
    var (weight, s) :- ReadUint(s, 2);
    var (size, s) :- ReadUint(s, 8);
    var (props, s) :- ReadProperties(s);
    Got(HeaderFrame(ch, cls, weight, size, props), s)
  }

  function ReadPayload(typ: byte, ch: nat, size: nat, s: bytes): (r: Parsed<Frame>)
    ensures |r.rest| <= |s|
  {
    if typ == FRAME_METHOD then
      var (m, s) :- ReadMethod(s);
      Got(MethodFrame(ch, m), s)
    else if typ == FRAME_HEADER then ReadHeaderPayload(ch, s)
    else if typ == FRAME_BODY then
      var (body, s) :- ReadFull(s, size);
      Got(BodyFrame(ch, body), s)
    else if typ == FRAME_HEARTBEAT then
      if size > 0 then Bad(Panic, s) else Got(HeartbeatFrame(ch), s)
    else Bad(FrameError, s)
  }

  function ReadFrame(s: bytes): (r: Parsed<Frame>)
    ensures r.Got? ==> |r.rest| + FRAME_HEADER_SIZE <= |s|
  {
    var (scratch, s) :- ReadFull(s, 7);
    var (f, s) :- ReadPayload(scratch[0], FromBigEndian(scratch[1..3]), FromBigEndian(scratch[3..7]), s);
    var (end, s) :- ReadFull(s, 1);
    if end[0] != FRAME_END then Bad(FrameError, s) else Got(f, s)
  }

  /** The loop of Connection.reader: frames until an error, and the error. */
  function ReadFrames(s: bytes): (r: (seq<Frame>, Err))
    decreases |s|
  {
    match ReadFrame(s)
    case Bad(e, _) => ([], e)
    case Got(f, rest) =>
      var (fs, e) := ReadFrames(rest);
      ([f] + fs, e)
  }

  function StartOf(typ: byte, ch: nat, size: nat): bytes { [typ] + BigEndian(2, ch) + BigEndian(4, size) }

  lemma StartRead(typ: byte, ch: nat, size: nat, more: bytes)
    requires ch < 0x1_0000 && size < 0x1_0000_0000
    ensures var start := ReadFull(StartOf(typ, ch, size) + more, 7);
            && start == Got(StartOf(typ, ch, size), more)
            && start.value[0] == typ && FromBigEndian(start.value[1..3]) == ch && FromBigEndian(start.value[3..7]) == size
  {
    Widths();
    var start := StartOf(typ, ch, size);
    ReadFullAppend(start, more);
    assert start[1..3] == BigEndian(2, ch) && start[3..7] == BigEndian(4, size);
    BigEndianRoundTrip(2, ch);
    BigEndianRoundTrip(4, size);
  }

  /** A frame of another type is an error. */
  lemma OtherTypesRefused(s: bytes)
    requires |s| >= 7 && s[0] != 1 && s[0] != 2 && s[0] != 3 && s[0] != 8
    ensures ReadFrame(s) == Bad(FrameError, s[7..])
  {}

  /** And so is one that does not end in 206. */
  lemma BodyFrameRead(ch: nat, body: bytes, end: byte, tail: bytes)
    requires ch < 0x1_0000 && |body| < 0x1_0000_0000
    ensures ReadFrame([3] + BigEndian(2, ch) + BigEndian(4, |body|) + (body + ([end] + tail))) ==
            if end == 206 then Got(BodyFrame(ch, body), tail) else Bad(FrameError, tail)
  {
    StartRead(3, ch, |body|, body + ([end] + tail));
    ReadFullAppend(body, [end] + tail);
    ReadFullAppend([end], tail);
  }

  /** A heartbeat with a payload panics, whatever comes next. */
  lemma HeartbeatRead(ch: nat, size: nat, tail: bytes)
    requires ch < 0x1_0000 && size < 0x1_0000_0000
    ensures ReadFrame([8] + BigEndian(2, ch) + BigEndian(4, size) + ([206] + tail)) ==
            if size == 0 then Got(HeartbeatFrame(ch), tail) else Bad(Panic, [206] + tail)
  {
    StartRead(8, ch, size, [206] + tail);
    ReadFullAppend([206], tail);
  }

  // ----- Round trip -----

  lemma HeaderRoundTrip(f: Frame, s: bytes, tail: bytes)
    requires f.HeaderFrame? && FrameFits(f) && PayloadBytes(f, s)
    ensures ReadHeaderPayload(f.ch, s + tail) == Got(f, tail)
  {
    Widths();
    var s2 := s[12..] + tail;
    var s1 := BigEndian(8, f.size) + s2;
    var s0 := BigEndian(2, f.weight) + s1;
    assert s + tail == BigEndian(2, f.cls) + s0;
    ReadUintAppend(2, f.cls, s0);
    ReadUintAppend(2, f.weight, s1);
    ReadUintAppend(8, f.size, s2);
    PropertiesRoundTrip(f.props, s[12..], tail);
  }

  lemma PayloadRoundTrip(f: Frame, s: bytes, tail: bytes)
    requires FrameFits(f) && PayloadBytes(f, s)
    ensures ReadPayload(TypeOf(f), f.ch, Uint32(|s|), s + tail) == Got(f, tail)
  {
    match f
    case MethodFrame(_, m) => MethodRoundTrip(m, s, tail);
    case HeaderFrame(_, _, _, _, _) => HeaderRoundTrip(f, s, tail);
    case BodyFrame(_, _) => ReadFullAppend(s, tail);
    case HeartbeatFrame(_) => assert s + tail == tail;
  }

  lemma WrapStart(typ: byte, ch: nat, payload: bytes, tail: bytes)
    requires ch < 0x1_0000
    ensures var start := ReadFull(Wrap(typ, ch, payload) + tail, 7);
            && start.Got? && start.rest == payload + ([FRAME_END] + tail)
            && start.value[0] == typ && FromBigEndian(start.value[1..3]) == ch
            && FromBigEndian(start.value[3..7]) == Uint32(|payload|)
  {
    var more := [FRAME_END] + tail;
    assert Wrap(typ, ch, payload) + tail == StartOf(typ, ch, Uint32(|payload|)) + (payload + more);
    StartRead(typ, ch, Uint32(|payload|), payload + more);
  }

  lemma FrameRoundTrip(f: Frame, s: bytes, tail: bytes)
    requires FrameFits(f) && FrameBytes(f, s)
    ensures ReadFrame(s + tail) == Got(f, tail)
  {
    var payload :| PayloadBytes(f, payload) && s == Wrap(TypeOf(f), f.ch, payload);
    WrapStart(TypeOf(f), f.ch, payload, tail);
    PayloadRoundTrip(f, payload, [FRAME_END] + tail);
    ReadFullAppend([FRAME_END], tail);
  }

  lemma FramesBytesSplit(fs: seq<Frame>, s: bytes) returns (first: bytes, more: bytes)
    requires fs != [] && FramesBytes(fs, s)
    ensures first + more == s && FrameBytes(fs[0], first) && FramesBytes(fs[1..], more)
  {
    var n :| FrameEndsAt(fs, s, n);
    first, more := s[..n], s[n..];
  }

  /** Any concatenation of written frames is read back as the same frames, and the
      stream ends at a frame boundary. */
  lemma {:induction false} FramesRoundTrip(fs: seq<Frame>, s: bytes)
    requires FramesBytes(fs, s) && forall i :: 0 <= i < |fs| ==> FrameFits(fs[i])
    ensures ReadFrames(s) == (fs, EOF)
  {
    if fs != [] {
      var first, more := FramesBytesSplit(fs, s);
      FrameRoundTrip(fs[0], first, more);
      FramesRoundTrip(fs[1..], more);
      assert [fs[0]] + fs[1..] == fs;
    }
  }
}
