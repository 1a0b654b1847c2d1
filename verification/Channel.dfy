/**
 A channel's two ends: sendOpen cuts a message into frames, and the state machine
 recvMethod / recvHeader / recvContent puts messages together again.
 */
module Channel {
  import opened Options
  import opened Sequences
  import opened Wire
  import opened Methods
  import opened Properties
  import opened Frames

  datatype Content = Content(props: Properties, body: bytes)

  datatype Message = Message(meth: Method, content: Option<Content>)

  /** Exactly the methods with getContent carry content. */
  predicate WellFormed(msg: Message) { CarriesContent(msg.meth) <==> msg.content.Some? }

  // ----- Sending -----

  function Chunks(ch: nat, body: bytes, size: int): (fs: seq<Frame>)
    requires size > 0 || body == []
    decreases |body|
  {
    if body == [] then []
    else if |body| <= size then [BodyFrame(ch, body)]
    else [BodyFrame(ch, body[..size])] + Chunks(ch, body[size..], size)
  }

  function HeaderOf(ch: nat, msg: Message): Frame
    requires msg.content.Some?
  {
    HeaderFrame(ch, msg.meth.cls, 0, |msg.content.value.body|, msg.content.value.props)
  }

  predicate HasBody(msg: Message) { msg.content.Some? && msg.content.value.body != [] }

  /** What sendOpen puts on the wire for one message; a frame carries at most
      frameSize - 8 octets of the body. */
  function FramesOf(ch: nat, msg: Message, frameSize: int): seq<Frame>
    requires frameSize > FRAME_HEADER_SIZE || !HasBody(msg)
  {
    match msg.content
    case None => [MethodFrame(ch, msg.meth)]
    case Some(c) =>
      [MethodFrame(ch, msg.meth), HeaderOf(ch, msg)]
      + Chunks(ch, c.body, frameSize - FRAME_HEADER_SIZE)
  }

  function FramesOfAll(ch: nat, msgs: seq<Message>, frameSize: nat): seq<Frame>
    requires frameSize > FRAME_HEADER_SIZE
  {
    if msgs == [] then [] else FramesOf(ch, msgs[0], frameSize) + FramesOfAll(ch, msgs[1..], frameSize)
  }

  lemma {:induction false} ChunksAreBodies(ch: nat, body: bytes, size: nat)
    requires size > 0
    ensures forall f :: f in Chunks(ch, body, size) ==> f.BodyFrame? && f.ch == ch && 0 < |f.body| <= size
    decreases |body|
  {
    if |body| > size {
      ChunksAreBodies(ch, body[size..], size);
    }
  }

  /** On the wire a body frame sent by sendOpen is never longer than the negotiated size. */
  lemma BodyFramesWithinFrameSize(ch: nat, msg: Message, frameSize: nat, f: Frame, s: bytes)
    requires frameSize > FRAME_HEADER_SIZE
    requires f in FramesOf(ch, msg, frameSize) && f.BodyFrame? && FrameBytes(f, s)
    ensures |s| <= frameSize
  {
    if msg.content.Some? {
      ChunksAreBodies(ch, msg.content.value.body, frameSize - FRAME_HEADER_SIZE);
    }
  }

  /** The frames of a message: its method; if it has content, a header with the class of
      the method, no weight, the length of the body and the properties; and then bodies that
      are full, the last one excepted, and together are the body. */
  lemma FramesAre(ch: nat, msg: Message, frameSize: nat)
    requires frameSize > 8
    ensures var fs := FramesOf(ch, msg, frameSize);
            && fs != [] && fs[0] == MethodFrame(ch, msg.meth)
            && match msg.content
               case None => |fs| == 1
               case Some(c) =>
                 && |fs| >= 2 && fs[1] == HeaderFrame(ch, msg.meth.cls, 0, |c.body|, c.props)
                 && (forall i :: 2 <= i < |fs| ==> fs[i].BodyFrame? && fs[i].ch == ch)
                 && (forall i :: 2 <= i < |fs| - 1 ==> |fs[i].body| == frameSize - 8)
                 && (|fs| > 2 ==> 0 < |fs[|fs| - 1].body| <= frameSize - 8)
                 && Joined(fs[2..]) == c.body
  {
    match msg.content
    case None =>
    case Some(c) =>
      ChunksAre(ch, c.body, frameSize - 8);
      var fs, chunks := FramesOf(ch, msg, frameSize), Chunks(ch, c.body, frameSize - 8);
      assert fs[2..] == chunks;
      assert forall i :: 2 <= i < |fs| ==> fs[i] == chunks[i - 2];
  }

  function Joined(fs: seq<Frame>): bytes {
    if fs == [] then [] else (if fs[0].BodyFrame? then fs[0].body else []) + Joined(fs[1..])
  }

  /** Bodies on this channel, full ones and then one that is not empty. */
  predicate Full(fs: seq<Frame>, ch: nat, size: nat) {
    && (forall i :: 0 <= i < |fs| ==> fs[i].BodyFrame? && fs[i].ch == ch)
    && (forall i :: 0 <= i < |fs| - 1 ==> |fs[i].body| == size)
    && (fs != [] ==> 0 < |fs[|fs| - 1].body| <= size)
  }

  lemma OneChunkMore(first: Frame, more: seq<Frame>, size: nat)
    requires first.BodyFrame? && |first.body| == size && Full(more, first.ch, size) && more != []
    ensures Full([first] + more, first.ch, size) && Joined([first] + more) == first.body + Joined(more)
  {
    assert ([first] + more)[1..] == more;
  }

  lemma {:induction false} ChunksAre(ch: nat, body: bytes, size: nat)
    requires size > 0
    ensures var fs := Chunks(ch, body, size);
            Full(fs, ch, size) && Joined(fs) == body && (body != [] ==> fs != [])
    decreases |body|
  {
    if |body| > size {
      var first, more := BodyFrame(ch, body[..size]), Chunks(ch, body[size..], size);
      ChunksAre(ch, body[size..], size);
      OneChunkMore(first, more, size);
      Rejoin(body, size);
    } else if body != [] {
      assert [BodyFrame(ch, body)][1..] == [];
      Empty(body);
    }
  }

  // ----- When a message can be sent at all -----

  /** Whether the loop of sendOpen is through after at most k turns, from positions i and j
      in a body of this length.  A slice that would end before it begins panics, which
      ends it too. */
  predicate LoopEnds(i: int, j: int, size: int, length: nat, k: nat)
    decreases k
  {
    i >= length || (k > 0 && var end := if j > length then length else j;
                             end < i || LoopEnds(end, end + size, size, length, k - 1))
  }

  ghost predicate SendEnds(size: int, length: nat) { exists k: nat :: LoopEnds(0, size, size, length, k) }

  /** It ends unless the negotiated frame size leaves exactly no room for a body there is;
      with less room than none it panics. */
  lemma SendEndsIff(size: int, length: nat)
    ensures SendEnds(size, length) <==> size != 0 || length == 0
  {
    if size > 0 {
      LoopGetsThrough(0, size, length);
      assert LoopEnds(0, size, size, length, length);
    } else if size < 0 || length == 0 {
      assert LoopEnds(0, size, size, length, length + 1);
    } else if SendEnds(size, length) {
      var k: nat :| LoopEnds(0, size, size, length, k);
      LoopStands(length, k);
    }
  }

  lemma {:induction false} LoopGetsThrough(i: nat, size: int, length: nat)
    requires size > 0 && i <= length
    ensures LoopEnds(i, i + size, size, length, length - i)
    decreases length - i
  {
    if i < length {
      var end := if i + size > length then length else i + size;
      LoopGetsThrough(end, size, length);
      MoreTurns(end, end + size, size, length, length - end, length - i - 1);
    }
  }

  lemma {:induction false} MoreTurns(i: int, j: int, size: int, length: nat, k: nat, k': nat)
    requires LoopEnds(i, j, size, length, k) && k <= k'
    ensures LoopEnds(i, j, size, length, k')
    decreases k
  {
    var end := if j > length then length else j;
    if i < length && end >= i {
      MoreTurns(end, end + size, size, length, k - 1, k' - 1);
    }
  }

  lemma {:induction false} LoopStands(length: nat, k: nat)
    requires length > 0
    ensures !LoopEnds(0, 0, 0, length, k)
    decreases k
  {
    if k > 0 {
      LoopStands(length, k - 1);
    }
  }

  datatype Sending = Sent | Failed | Panicked

  /** The connection a channel writes to: the frames that went out, and how many did not. */
  class Sender {
    var sent: seq<Frame>
    var failures: nat
    const id: nat
    const frameSize: int

    constructor (id: nat, frameSize: int)
      ensures sent == [] && failures == 0 && this.id == id && this.frameSize == frameSize
    {
      sent, failures, this.id, this.frameSize := [], 0, id, frameSize;
    }

    /** Connection.send; the write can fail. */
    method Send(f: Frame) returns (ok: bool)
      modifies this
      ensures sent == if ok then old(sent) + [f] else old(sent)
      ensures failures == old(failures) + if ok then 0 else 1
    {
      ok := *;
      if ok {
        sent := sent + [f];
      } else {
        failures := failures + 1;
      }
    }

    /** sendOpen: all the frames of the message in order, or an initial part of them if and
        only if sending a frame failed, which ends it at once.  When frames have no room for a body, it panics after the
        header; when they have exactly none, it would not end. */
    method SendOpen(msg: Message) returns (r: Sending)
      requires frameSize != FRAME_HEADER_SIZE || !HasBody(msg)
      modifies this
      ensures frameSize > FRAME_HEADER_SIZE || !HasBody(msg) ==>
                && !r.Panicked?
                && (r.Sent? ==> sent == old(sent) + FramesOf(id, msg, frameSize))
                && (r.Failed? ==> old(sent) <= sent && sent < old(sent) + FramesOf(id, msg, frameSize))
      ensures frameSize < FRAME_HEADER_SIZE && HasBody(msg) ==>
                && !r.Sent?
                && (r.Panicked? ==> sent == old(sent) + [MethodFrame(id, msg.meth)] + [HeaderOf(id, msg)])
                && (r.Failed? ==> sent == old(sent) || sent == old(sent) + [MethodFrame(id, msg.meth)])
      ensures failures == old(failures) + if r.Failed? then 1 else 0
    {
      match msg.content
      case None =>
        var ok := Send(MethodFrame(id, msg.meth));
        r := if ok then Sent else Failed;
      case Some(c) =>
        var ok := Send(MethodFrame(id, msg.meth));
        if !ok { return Failed; }
        ok := Send(HeaderOf(id, msg));
        if !ok { return Failed; }
        r := SendBody(c.body, frameSize - FRAME_HEADER_SIZE);
        if frameSize > FRAME_HEADER_SIZE || !HasBody(msg) {
          TwoThen(old(sent), MethodFrame(id, msg.meth), HeaderOf(id, msg),
                  Chunks(id, c.body, frameSize - FRAME_HEADER_SIZE));
        }
    }

    /** The loop of sendOpen. */
    method SendBody(body: bytes, size: int) returns (r: Sending)
      requires size != 0 || body == []
      modifies this
      ensures r.Panicked? <==> size < 0 && body != []
      ensures r.Panicked? ==> sent == old(sent)
      ensures r.Sent? ==> sent == old(sent) + Chunks(id, body, size)
      ensures r.Failed? ==> old(sent) <= sent && sent < old(sent) + Chunks(id, body, size)
      ensures failures == old(failures) + if r.Failed? then 1 else 0
    {
      var i, j := 0, size;
      if size < 0 && body != [] {
        return Panicked;  // body[0:size]
      }
      ghost var all := old(sent) + Chunks(id, body, size);
      assert body[0..] == body;
      while i < |body|
        invariant 0 <= i <= |body| && (j == i + size || i == |body|)
        invariant old(sent) <= sent && sent + Chunks(id, body[i..], size) == all && failures == old(failures)
        decreases |body| - i
      {
        if j > |body| {
          j := |body|;
        }
        NextChunk(id, body, i, size);
        ghost var was, more := sent, Chunks(id, body[j..], size);
        assert was + ([BodyFrame(id, body[i..j])] + more) == was + [BodyFrame(id, body[i..j])] + more;
        var ok := Send(BodyFrame(id, body[i..j]));
        if !ok { return Failed; }
        i, j := j, j + size;
      }
      assert sent + [] == sent;
      r := Sent;
    }
  }

  lemma NextChunk(ch: nat, body: bytes, i: nat, size: nat)
    requires i < |body| && size > 0
    ensures var j := if i + size > |body| then |body| else i + size;
            Chunks(ch, body[i..], size) == [BodyFrame(ch, body[i..j])] + Chunks(ch, body[j..], size)
  {
    var rest := body[i..];
    if |rest| > size {
      assert rest[..size] == body[i..i + size] && rest[size..] == body[i + size..];
    } else {
      assert rest == body[i..|body|];
    }
  }

  // ----- Receiving -----

  /** The receiving state: which function `recv` is, and the fields it goes on from.
      `Crashed` is the panic on a frame that is neither method, header nor body. */
  datatype Recv =
    | RecvMethod
    | RecvHeader(message: Method)
    | RecvContent(message: Method, size: nat, props: Properties, body: bytes)
    | Crashed

  /** One frame: the next state, and the message handed to dispatch, if any. */
  function Step(st: Recv, f: Frame): (Recv, Option<Message>) {
    if st.Crashed? || f.HeartbeatFrame? then (Crashed, None)
    else if f.MethodFrame? then
      if CarriesContent(f.m) then (RecvHeader(f.m), None) else (RecvMethod, Some(Message(f.m, None)))
    else
      match st
      case RecvMethod => (RecvMethod, None)
      case RecvHeader(m) =>
        if f.BodyFrame? then (RecvMethod, None)
        else if f.size == 0 then (RecvMethod, Some(Message(m, Some(Content(f.props, [])))))
        else (RecvContent(m, f.size, f.props, []), None)
      case RecvContent(m, size, props, body) =>
        if f.HeaderFrame? then (RecvMethod, None)
        else if |body + f.body| >= size then (RecvMethod, Some(Message(m, Some(Content(props, body + f.body)))))
        else (RecvContent(m, size, props, body + f.body), None)
  }

  function ToSeq<T>(o: Option<T>): seq<T> {
    match o case None => [] case Some(x) => [x]
  }

  function StateAfter(fs: seq<Frame>): Recv {
    if fs == [] then RecvMethod else Step(StateAfter(fs[..|fs| - 1]), fs[|fs| - 1]).0
  }

  /** What the last frame makes the channel dispatch. */
  function LastOutput(fs: seq<Frame>): Option<Message>
    requires fs != []
  {
    Step(StateAfter(fs[..|fs| - 1]), fs[|fs| - 1]).1
  }

  function Outputs(fs: seq<Frame>): seq<Message> {
    if fs == [] then [] else Outputs(fs[..|fs| - 1]) + ToSeq(LastOutput(fs))
  }

  /** The fields of Channel that only recv touches, changed frame by frame. */
  class Receiver {
    var recv: Recv
    var dispatched: seq<Message>
    ghost var seen: seq<Frame>

    ghost predicate Valid()
      reads this
    {
      recv == StateAfter(seen) && dispatched == Outputs(seen)
    }

    constructor ()
      ensures Valid() && seen == [] && dispatched == []
    {
      recv, dispatched, seen := RecvMethod, [], [];
    }

    method Dispatch(msg: Message)
      modifies this`dispatched
      ensures dispatched == old(dispatched) + [msg]
    {
      dispatched := dispatched + [msg];
    }

    method OnMethod(f: Frame)
      requires !f.HeartbeatFrame? && (f.MethodFrame? || recv == RecvMethod) && recv != Crashed
      modifies this`recv, this`dispatched
      ensures recv == Step(old(recv), f).0
      ensures dispatched == old(dispatched) + ToSeq(Step(old(recv), f).1)
    {
      if f.MethodFrame? && CarriesContent(f.m) {
        recv := RecvHeader(f.m);
      } else if f.MethodFrame? {
        Dispatch(Message(f.m, None));
        recv := RecvMethod;
      } else {
        recv := RecvMethod;
      }
    }

    /** channel.recv(channel, f) */
    method Frame(f: Frame)
      requires Valid()
      modifies this
      ensures Valid() && seen == old(seen) + [f]
    {
      seen := seen + [f];
      assert seen[..|seen| - 1] == old(seen);
      if recv.Crashed? || f.HeartbeatFrame? {
        recv := Crashed;
      } else if recv.RecvMethod? || f.MethodFrame? {
        OnMethod(f);
      } else if recv.RecvHeader? {
        if f.HeaderFrame? && f.size == 0 {
          Dispatch(Message(recv.message, Some(Content(f.props, []))));
          recv := RecvMethod;
        } else if f.HeaderFrame? {
          recv := RecvContent(recv.message, f.size, f.props, []);
        } else {
          recv := RecvMethod;
        }
      } else if f.HeaderFrame? {
        recv := RecvMethod;
      } else {
        recv := recv.(body := recv.body + f.body);
        if |recv.body| >= recv.size {
          Dispatch(Message(recv.message, Some(Content(recv.props, recv.body))));
          recv := RecvMethod;
        }
      }
    }
  }

  // ----- What is dispatched, for any sequence of frames -----

  function Bodies(fs: seq<Frame>): bytes {
    if fs == [] || !fs[|fs| - 1].BodyFrame? then []
    else Bodies(fs[..|fs| - 1]) + fs[|fs| - 1].body
  }

  /** From index k on there are a content method, its header announcing a nonempty
      body, and then only body frames. */
  predicate ContentFrom(fs: seq<Frame>, k: nat) {
    && k + 2 <= |fs|
    && fs[k].MethodFrame? && CarriesContent(fs[k].m)
    && fs[k + 1].HeaderFrame?
    && forall i :: k + 2 <= i < |fs| ==> fs[i].BodyFrame?
  }

  /** The last frames, from k on, are a content method, its header, and body frames
      whose total first reaches the announced size with the very last of them. */
  predicate Completes(fs: seq<Frame>, k: nat, msg: Message) {
    && ContentFrom(fs, k)
    && var size, bodies := fs[k + 1].size, fs[k + 2..];
       && (if size == 0 then bodies == []
           else bodies != [] && |Bodies(bodies[..|bodies| - 1])| < size <= |Bodies(bodies)|)
       && msg == Message(fs[k].m, Some(Content(fs[k + 1].props, Bodies(bodies))))
  }

  /** As yet fewer octets than announced have come. */
  predicate Collecting(fs: seq<Frame>, k: nat) {
    ContentFrom(fs, k) && |Bodies(fs[k + 2..])| < fs[k + 1].size
  }

  predicate NoHeartbeats(fs: seq<Frame>) {
    forall i :: 0 <= i < |fs| ==> !fs[i].HeartbeatFrame?
  }

  lemma {:induction false} CollectingState(fs: seq<Frame>, k: nat)
    requires NoHeartbeats(fs) && Collecting(fs, k)
    ensures StateAfter(fs) == RecvContent(fs[k].m, fs[k + 1].size, fs[k + 1].props, Bodies(fs[k + 2..]))
  {
    var n := |fs| - 1;
    NoCrash(fs[..n]);
    if n == k + 1 {
      assert fs[..n][..k] == fs[..k];
      NoCrash(fs[..k]);
      assert StateAfter(fs[..n]) == RecvHeader(fs[k].m);
    } else {
      assert fs[k + 2..][..n - k - 2] == fs[..n][k + 2..];
      CollectingState(fs[..n], k);
    }
  }

  lemma {:induction false} NoCrash(fs: seq<Frame>)
    requires NoHeartbeats(fs)
    ensures !StateAfter(fs).Crashed?
  {
    if fs != [] {
      NoCrash(fs[..|fs| - 1]);
    }
  }

  /** Conversely, every state but RecvMethod comes of such frames. */
  lemma {:induction false} StateOrigin(fs: seq<Frame>) returns (k: nat)
    requires NoHeartbeats(fs) && StateAfter(fs) != RecvMethod
    ensures StateAfter(fs).RecvHeader? ==>
      k + 1 == |fs| && fs[k].MethodFrame? && CarriesContent(fs[k].m) && StateAfter(fs).message == fs[k].m
    ensures !StateAfter(fs).RecvHeader? ==> Collecting(fs, k)
  {
    NoCrash(fs);
    var n := |fs| - 1;
    var before := fs[..n];
    NoCrash(before);
    if fs[n].MethodFrame? {
      k := n;
    } else {
      k := StateOrigin(before);
      if StateAfter(before).RecvContent? {
        CollectingState(before, k);
        assert fs[k + 2..][..n - k - 2] == before[k + 2..];
      } else {
        assert fs[k + 2..] == [];
      }
    }
  }

  lemma ContentDispatched(fs: seq<Frame>, msg: Message) returns (k: nat)
    requires fs != [] && NoHeartbeats(fs) && LastOutput(fs) == Some(msg) && msg.content.Some?
    ensures Completes(fs, k, msg)
  {
    var n := |fs| - 1;
    var before := fs[..n];
    k := StateOrigin(before);
    if StateAfter(before).RecvContent? {
      BodyCompletes(fs, k, msg);
    } else {
      assert fs[k + 2..] == [];
    }
  }

  lemma BodyCompletes(fs: seq<Frame>, k: nat, msg: Message)
    requires fs != [] && NoHeartbeats(fs) && Collecting(fs[..|fs| - 1], k)
    requires LastOutput(fs) == Some(msg) && msg.content.Some?
    ensures Completes(fs, k, msg)
  {
    var n := |fs| - 1;
    var before := fs[..n];
    CollectingState(before, k);
    assert fs[k + 2..][..n - k - 2] == before[k + 2..];
  }

  lemma CompletedIsDispatched(fs: seq<Frame>, k: nat, msg: Message)
    requires NoHeartbeats(fs) && Completes(fs, k, msg)
    ensures LastOutput(fs) == Some(msg)
  {
    var n := |fs| - 1;
    var before := fs[..n];
    if fs[k + 1].size == 0 {
      assert before[..k] == fs[..k];
      NoCrash(fs[..k]);
      assert StateAfter(before) == RecvHeader(fs[k].m);
    } else {
      assert fs[k + 2..][..n - k - 2] == before[k + 2..];
      CollectingState(before, k);
    }
  }

  /** A content message is dispatched at a frame exactly when the latest frames are a
      content method, its header and bodies that reach the announced size just then;
      its body is their concatenation. */
  lemma ContentDispatchedIff(fs: seq<Frame>, msg: Message)
    requires fs != [] && NoHeartbeats(fs) && msg.content.Some?
    ensures LastOutput(fs) == Some(msg) <==> exists k: nat :: Completes(fs, k, msg)
  {
    if LastOutput(fs) == Some(msg) {
      var k := ContentDispatched(fs, msg);
    }
    if k: nat :| Completes(fs, k, msg) {
      CompletedIsDispatched(fs, k, msg);
    }
  }

  /** Any other method is dispatched as soon as it comes, and interrupts content. */
  lemma PlainDispatchedIff(fs: seq<Frame>, m: Method)
    requires fs != [] && NoHeartbeats(fs)
    ensures LastOutput(fs) == Some(Message(m, None)) <==>
            fs[|fs| - 1].MethodFrame? && fs[|fs| - 1].m == m &&
            !(m.cls == 60 && (m.id == 40 || m.id == 50 || m.id == 60 || m.id == 71))
  {
    NoCrash(fs[..|fs| - 1]);
  }

  /** A heartbeat on a channel crashes its reader, and nothing else does; from then on
      nothing is dispatched. */
  lemma {:induction false} CrashedIff(fs: seq<Frame>)
    ensures StateAfter(fs).Crashed? <==> exists i :: 0 <= i < |fs| && fs[i].HeartbeatFrame?
    ensures fs != [] && StateAfter(fs).Crashed? ==> LastOutput(fs) == None
  {
    if fs != [] {
      var n := |fs| - 1;
      CrashedIff(fs[..n]);
      assert forall i :: 0 <= i < n ==> fs[..n][i] == fs[i];
      if StateAfter(fs[..n]).Crashed? {
        var i :| 0 <= i < n && fs[..n][i].HeartbeatFrame?;
        assert fs[i].HeartbeatFrame?;
      }
    }
  }

  // ----- The receiver undoes the sender -----

  lemma {:induction false} OutputsConcat(a: seq<Frame>, b: seq<Frame>)
    ensures Outputs(a) <= Outputs(a + b)
  {
    if b == [] {
      assert a + b == a;
    } else {
      var c := b[..|b| - 1];
      assert (a + b)[..|a + b| - 1] == a + c;
      OutputsConcat(a, c);
    }
  }

  lemma AppendFrame(fs: seq<Frame>, f: Frame)
    ensures var (st, out) := Step(StateAfter(fs), f);
            && (fs + [f])[..|fs|] == fs
            && StateAfter(fs + [f]) == st
            && LastOutput(fs + [f]) == out
            && Outputs(fs + [f]) == Outputs(fs) + ToSeq(out)
  {
    assert (fs + [f])[..|fs|] == fs;
  }

  /** From st on, these frames dispatch msg with the last of them, nothing before, and
      leave the machine ready for the next method. */
  predicate Emits(st: Recv, fs: seq<Frame>, msg: Message)
    decreases |fs|
  {
    && fs != []
    && var (st', out) := Step(st, fs[0]);
       if |fs| == 1 then st' == RecvMethod && out == Some(msg)
       else out == None && Emits(st', fs[1..], msg)
  }

  lemma {:induction false} ChunksEmit(st: Recv, ch: nat, body: bytes, size: nat)
    requires size > 0 && body != [] && st.RecvContent? && |st.body| + |body| == st.size
    ensures Emits(st, Chunks(ch, body, size), Message(st.message, Some(Content(st.props, st.body + body))))
    decreases |body|
  {
    if |body| > size {
      var st' := st.(body := st.body + body[..size]);
      ChunksEmit(st', ch, body[size..], size);
      assert st'.body + body[size..] == st.body + body;
      assert Chunks(ch, body, size)[1..] == Chunks(ch, body[size..], size);
    }
  }

  lemma MessageEmits(st: Recv, ch: nat, msg: Message, frameSize: nat)
    requires frameSize > FRAME_HEADER_SIZE && WellFormed(msg) && !st.Crashed?
    ensures Emits(st, FramesOf(ch, msg, frameSize), msg)
  {
    if msg.content.Some? {
      var c, size := msg.content.value, frameSize - FRAME_HEADER_SIZE;
      var frames, chunks := FramesOf(ch, msg, frameSize), Chunks(ch, c.body, size);
      assert frames[1..][1..] == chunks;
      if c.body != [] {
        assert [] + c.body == c.body;
        ChunksEmit(RecvContent(msg.meth, |c.body|, c.props, []), ch, c.body, size);
      }
    }
  }

  lemma {:induction false} EmitsOutputs(fs: seq<Frame>, more: seq<Frame>, msg: Message)
    requires Emits(StateAfter(fs), more, msg)
    ensures StateAfter(fs + more) == RecvMethod
    ensures Outputs(fs + more) == Outputs(fs) + [msg]
    decreases |more|
  {
    AppendFrame(fs, more[0]);
    MoveFirst(fs, more);
    if |more| == 1 {
      Empty(fs + [more[0]]);
    } else {
      Empty(Outputs(fs));
      EmitsOutputs(fs + [more[0]], more[1..], msg);
    }
  }

  lemma {:induction false} EmitsNothingBefore(fs: seq<Frame>, init: seq<Frame>, last: Frame, msg: Message)
    requires Emits(StateAfter(fs), init + [last], msg)
    ensures Outputs(fs + init) == Outputs(fs)
    decreases |init|
  {
    if init == [] {
      Empty(fs);
    } else {
      assert (init + [last])[1..] == init[1..] + [last];
      AppendFrame(fs, init[0]);
      Empty(Outputs(fs));
      EmitsNothingBefore(fs + [init[0]], init[1..], last, msg);
      MoveFirst(fs, init);
    }
  }

  lemma MessageHasNoHeartbeats(ch: nat, msg: Message, frameSize: nat)
    requires frameSize > FRAME_HEADER_SIZE
    ensures NoHeartbeats(FramesOf(ch, msg, frameSize))
  {
    if msg.content.Some? {
      ChunksAreBodies(ch, msg.content.value.body, frameSize - FRAME_HEADER_SIZE);
      var chunks := Chunks(ch, msg.content.value.body, frameSize - FRAME_HEADER_SIZE);
      forall i | 0 <= i < |chunks| ensures !chunks[i].HeartbeatFrame? { assert chunks[i] in chunks; }
    }
  }

  /** The frames of one message make the channel dispatch that message, at the last of
      them and not before, whatever came earlier. */
  lemma MessageDispatched(fs: seq<Frame>, ch: nat, msg: Message, frameSize: nat)
    requires frameSize > FRAME_HEADER_SIZE && WellFormed(msg) && NoHeartbeats(fs)
    ensures var frames := FramesOf(ch, msg, frameSize);
            && StateAfter(fs + frames) == RecvMethod
            && Outputs(fs + frames) == Outputs(fs) + [msg]
            && Outputs(fs + frames[..|frames| - 1]) == Outputs(fs)
  {
    NoCrash(fs);
    MessageEmits(StateAfter(fs), ch, msg, frameSize);
    EmitsOutputs(fs, FramesOf(ch, msg, frameSize), msg);
    EmitsAtLast(fs, FramesOf(ch, msg, frameSize), msg);
  }

  lemma EmitsAtLast(fs: seq<Frame>, frames: seq<Frame>, msg: Message)
    requires frames != [] && Emits(StateAfter(fs), frames, msg)
    ensures Outputs(fs + frames[..|frames| - 1]) == Outputs(fs)
  {
    var n := |frames| - 1;
    LastApart(frames);
    EmitsNothingBefore(fs, frames[..n], frames[n], msg);
  }

  lemma LastApart(frames: seq<Frame>)
    requires frames != []
    ensures frames[..|frames| - 1] + [frames[|frames| - 1]] == frames
  {}

  /** Everything sent on a channel is dispatched there, once, in order and intact. */
  lemma {:induction false} AllDispatched(fs: seq<Frame>, ch: nat, msgs: seq<Message>, frameSize: nat)
    requires frameSize > FRAME_HEADER_SIZE && NoHeartbeats(fs)
    requires forall i :: 0 <= i < |msgs| ==> WellFormed(msgs[i])
    ensures NoHeartbeats(fs + FramesOfAll(ch, msgs, frameSize))
    ensures Outputs(fs + FramesOfAll(ch, msgs, frameSize)) == Outputs(fs) + msgs
    decreases |msgs|
  {
    if msgs == [] {
      Empty(fs);
      Empty(Outputs(fs));
    } else {
      var first, rest := FramesOf(ch, msgs[0], frameSize), FramesOfAll(ch, msgs[1..], frameSize);
      MessageDispatched(fs, ch, msgs[0], frameSize);
      MessageHasNoHeartbeats(ch, msgs[0], frameSize);
      AllDispatched(fs + first, ch, msgs[1..], frameSize);
      Assoc(fs, first, rest);
      MoveFirst(Outputs(fs), msgs);
    }
  }
}
