/**
 The connection's side of reading: frames off the wire, handed to the channel they belong
 to.  The channel registry is the map of open channels.
 */
module Connection {
  import opened Options
  import opened Sequences
  import opened Wire
  import opened Methods
  import opened Properties
  import opened Frames
  import opened Channel

  /** What the connection sends of its own accord when something is closed. */
  datatype Reply = ChannelCloseOk(ch: nat) | ConnectionCloseOk | ConnectionClose(code: nat)

  const CHANNEL_ERROR: nat := 504
  const UNEXPECTED_FRAME: nat := 505

  /** `log` is what was handed to dispatch, with the channel; `down` says that the
      reader has stopped: the connection was closed, or a frame made it panic. */
  datatype Conn = Conn(open: map<nat, Recv>, down: bool, log: seq<(nat, Message)>, replies: seq<Reply>)

  predicate IsChannelClose(m: Method) { m.cls == 20 && m.id == 40 }

  predicate IsChannelCloseOk(m: Method) { m.cls == 20 && m.id == 41 }

  predicate IsConnectionClose(m: Method) { m.cls == 10 && m.id == 50 }

  function CloseWith(c: Conn, code: nat): Conn { c.(down := true, replies := c.replies + [ConnectionClose(code)]) }

  /** dispatch0 */
  function Dispatch0(c: Conn, f: Frame): Conn {
    match f
    case HeartbeatFrame(_) => c
    case MethodFrame(_, m) =>
      if IsConnectionClose(m) then c.(down := true, replies := c.replies + [ConnectionCloseOk])
      else c.(log := c.log + [(0, Message(m, None))])
    case _ => CloseWith(c, UNEXPECTED_FRAME)
  }

  /** dispatchN and dispatchClosed */
  function DispatchN(c: Conn, f: Frame): Conn {
    if f.ch in c.open then
      var (st, out) := Step(c.open[f.ch], f);
      if st.Crashed? then c.(down := true)
      else
        var log := if out.Some? then c.log + [(f.ch, out.value)] else c.log;
        if out.Some? && IsChannelClose(out.value.meth) then
          c.(open := c.open - {f.ch}, log := log, replies := c.replies + [ChannelCloseOk(f.ch)])
        else c.(open := c.open[f.ch := st], log := log)
    else if f.MethodFrame? && IsChannelClose(f.m) then c.(replies := c.replies + [ChannelCloseOk(f.ch)])
    else if f.MethodFrame? && !IsChannelCloseOk(f.m) then CloseWith(c, CHANNEL_ERROR)
    else c
  }

  function Demux(c: Conn, f: Frame): Conn {
    if c.down then c else if f.ch == 0 then Dispatch0(c, f) else DispatchN(c, f)
  }

  function DemuxAll(c: Conn, fs: seq<Frame>): Conn {
    if fs == [] then c else Demux(DemuxAll(c, fs[..|fs| - 1]), fs[|fs| - 1])
  }

  /** What the reader does after a frame: it goes on to the next, waits in closeWith, or
      the frame has made it panic. */
  datatype Next = GoesOn | Waits | Panics

  function AfterFrame(c: Conn, f: Frame): (r: Next)
    ensures r != GoesOn ==> !c.down && Demux(c, f).down
  {
    if c.down || (f.HeartbeatFrame? && f.ch == 0) then GoesOn
    else if f.ch == 0 then if f.MethodFrame? then GoesOn else Waits
    else if f.ch in c.open then if Step(c.open[f.ch], f).0.Crashed? then Panics else GoesOn
    else if f.MethodFrame? && !IsChannelClose(f.m) && !IsChannelCloseOk(f.m) then Waits
    else GoesOn
  }

  /** The reader waits exactly where the connection asks to be closed. */
  lemma WaitsIff(c: Conn, f: Frame)
    ensures AfterFrame(c, f) == Waits <==>
            !c.down && (Demux(c, f) == CloseWith(c, CHANNEL_ERROR) || Demux(c, f) == CloseWith(c, UNEXPECTED_FRAME))
  {
    var n, c' := |c.replies|, Demux(c, f);
    assert c'.replies == c.replies || (|c'.replies| == n + 1 && c'.replies == c.replies + [c'.replies[n]]);
    assert forall code :: |CloseWith(c, code).replies| == n + 1 && CloseWith(c, code).replies[n] == ConnectionClose(code);
  }

  /** What the reader does after frame k of a stream. */
  function NextAt(c: Conn, fs: seq<Frame>, k: nat): Next
    requires k < |fs|
  {
    AfterFrame(DemuxAll(c, fs[..k]), fs[k])
  }

  predicate GoesThrough(c: Conn, fs: seq<Frame>) { forall k: nat :: k < |fs| ==> NextAt(c, fs, k) == GoesOn }

  /** Frames that come when the connection is down change nothing. */
  lemma {:induction false} StaysDown(c: Conn, fs: seq<Frame>, k: nat)
    requires k <= |fs| && DemuxAll(c, fs[..k]).down
    ensures DemuxAll(c, fs) == DemuxAll(c, fs[..k])
  {
    if k < |fs| {
      assert fs[..|fs| - 1][..k] == fs[..k];
      StaysDown(c, fs[..|fs| - 1], k);
    } else {
      assert fs[..k] == fs;
    }
  }

  function Start(chs: set<nat>): Conn { Conn(map ch | ch in chs :: RecvMethod, false, [], []) }

  // ----- The negotiated limits -----

  /** Zero stands for no limit. */
  predicate Allows(limit: int, n: nat) { limit == 0 || n <= limit }

  /** pick: the frame size and the number of channels both ends agree to. */
  function Pick(client: int, server: int): (r: int)
    ensures client >= 0 && server >= 0 ==>
      r >= 0 && forall n: nat :: Allows(r, n) <==> Allows(client, n) && Allows(server, n)
  {
    if client == 0 || server == 0 then if client > server then client else server
    else if client > server then server else client
  }

  // ----- One channel's part of a stream, and of the log -----

  function Project(fs: seq<Frame>, ch: nat): seq<Frame> {
    if fs == [] then []
    else
      var n := |fs| - 1;
      Project(fs[..n], ch) + if fs[n].ch == ch then [fs[n]] else []
  }

  function LogOf(log: seq<(nat, Message)>, ch: nat): seq<Message> {
    if log == [] then []
    else
      var n := |log| - 1;
      LogOf(log[..n], ch) + if log[n].0 == ch then [log[n].1] else []
  }

  lemma LogOfAppend(log: seq<(nat, Message)>, e: (nat, Message), ch: nat)
    ensures LogOf(log + [e], ch) == LogOf(log, ch) + if e.0 == ch then [e.1] else []
  {
    assert (log + [e])[..|log|] == log;
  }

  lemma {:induction false} ProjectPrefix(fs: seq<Frame>, i: nat, ch: nat)
    requires i <= |fs|
    ensures Project(fs[..i], ch) <= Project(fs, ch)
    decreases |fs|
  {
    if i < |fs| {
      ProjectPrefix(fs[..|fs| - 1], i, ch);
      assert fs[..|fs| - 1][..i] == fs[..i];
    } else {
      assert fs[..i] == fs;
    }
  }

  lemma {:induction false} ProjectMembers(fs: seq<Frame>, ch: nat, f: Frame)
    requires f in fs && f.ch == ch
    ensures f in Project(fs, ch)
  {
    var n := |fs| - 1;
    if fs[n] != f {
      assert f in fs[..n];
      ProjectMembers(fs[..n], ch, f);
    }
  }

  // ----- While no frame comes on a closed channel -----

  predicate HasClose(msgs: seq<Message>) {
    exists i :: 0 <= i < |msgs| && IsChannelClose(msgs[i].meth)
  }

  predicate CloseIsLast(msgs: seq<Message>) {
    forall i :: 0 <= i < |msgs| - 1 ==> !IsChannelClose(msgs[i].meth)
  }

  predicate KnownFrames(chs: set<nat>, fs: seq<Frame>) {
    forall i :: 0 <= i < |fs| ==>
      if fs[i].ch == 0 then fs[i].HeartbeatFrame? else fs[i].ch in chs && !fs[i].HeartbeatFrame?
  }

  /** Frame i is not preceded by a close on its own channel. */
  predicate QuietAfterClose(fs: seq<Frame>) {
    forall i :: 0 <= i < |fs| && fs[i].ch != 0 ==> !HasClose(Outputs(Project(fs[..i], fs[i].ch)))
  }

  /** The channel's own view of the stream is what the connection keeps of it. */
  ghost predicate Tracks(c: Conn, fs: seq<Frame>, ch: nat) {
    && LogOf(c.log, ch) == Outputs(Project(fs, ch))
    && (!HasClose(Outputs(Project(fs, ch))) ==> ch in c.open && c.open[ch] == StateAfter(Project(fs, ch)))
  }

  lemma {:induction false} ProjectNoHeartbeats(chs: set<nat>, fs: seq<Frame>, ch: nat)
    requires KnownFrames(chs, fs) && ch != 0
    ensures NoHeartbeats(Project(fs, ch))
  {
    if fs != [] {
      ProjectNoHeartbeats(chs, fs[..|fs| - 1], ch);
    }
  }

  lemma ProjectAppend(fs: seq<Frame>, f: Frame, ch: nat)
    ensures Project(fs + [f], ch) == Project(fs, ch) + if f.ch == ch then [f] else []
  {
    assert (fs + [f])[..|fs|] == fs;
  }

  lemma LogAfterDemux(c: Conn, f: Frame, ch: nat)
    requires f.ch in c.open && f.ch != 0 && !c.down && !Step(c.open[f.ch], f).0.Crashed?
    ensures !Demux(c, f).down
    ensures LogOf(Demux(c, f).log, ch) == LogOf(c.log, ch) + if f.ch == ch then ToSeq(Step(c.open[ch], f).1) else []
  {
    DemuxLogs(c, f);
    LogExtended(c.log, f.ch, Step(c.open[f.ch], f).1, ch);
  }

  function Extended(log: seq<(nat, Message)>, ch: nat, out: Option<Message>): seq<(nat, Message)> {
    if out.Some? then log + [(ch, out.value)] else log
  }

  lemma LogExtended(log: seq<(nat, Message)>, from: nat, out: Option<Message>, ch: nat)
    ensures LogOf(Extended(log, from, out), ch) == LogOf(log, ch) + if from == ch then ToSeq(out) else []
  {
    Empty(LogOf(log, ch));
    if out.Some? {
      LogOfAppend(log, (from, out.value), ch);
    }
  }

  lemma DemuxLogs(c: Conn, f: Frame)
    requires f.ch in c.open && f.ch != 0 && !c.down && !Step(c.open[f.ch], f).0.Crashed?
    ensures !Demux(c, f).down && Demux(c, f).log == Extended(c.log, f.ch, Step(c.open[f.ch], f).1)
  {}

  /** A frame on another channel leaves this one as it is. */
  lemma DemuxTracksOther(c: Conn, fs: seq<Frame>, f: Frame, ch: nat)
    requires !c.down && f.ch != 0 && f.ch != ch && f.ch in c.open && !Step(c.open[f.ch], f).0.Crashed?
    requires Tracks(c, fs, ch)
    ensures !Demux(c, f).down && Tracks(Demux(c, f), fs + [f], ch)
  {
    LogAfterDemux(c, f, ch);
    ProjectAppend(fs, f, ch);
    Empty(Project(fs, ch));
    Empty(LogOf(c.log, ch));
  }

  /** A frame on this channel. */
  lemma DemuxTracksOwn(c: Conn, fs: seq<Frame>, f: Frame)
    requires !c.down && f.ch != 0 && !f.HeartbeatFrame?
    requires Tracks(c, fs, f.ch) && !HasClose(Outputs(Project(fs, f.ch))) && NoHeartbeats(Project(fs, f.ch))
    ensures !Step(c.open[f.ch], f).0.Crashed?
    ensures !Demux(c, f).down && Tracks(Demux(c, f), fs + [f], f.ch)
  {
    var p := Project(fs, f.ch);
    var (st, out) := Step(c.open[f.ch], f);
    NoCrash(p);
    AppendFrame(p, f);
    ProjectAppend(fs, f, f.ch);
    LogAfterDemux(c, f, f.ch);
    if out.Some? && IsChannelClose(out.value.meth) {
      assert Outputs(p + [f])[|Outputs(p)|] == out.value;
      assert HasClose(Outputs(p + [f]));
    }
  }

  /** The same of each frame after those before it. */
  ghost predicate Orderly(chs: set<nat>, fs: seq<Frame>) {
    fs == [] ||
    var before, f := fs[..|fs| - 1], fs[|fs| - 1];
    Orderly(chs, before) && KnownFrames(chs, before) && InOrder(chs, before, f)
  }

  lemma {:induction false} QuietIsOrderly(chs: set<nat>, fs: seq<Frame>)
    requires KnownFrames(chs, fs) && QuietAfterClose(fs)
    ensures Orderly(chs, fs)
  {
    if fs != [] {
      var n := |fs| - 1;
      forall i | 0 <= i < n && fs[..n][i].ch != 0 ensures !HasClose(Outputs(Project(fs[..n][..i], fs[..n][i].ch))) {
        assert fs[..n][..i] == fs[..i];
      }
      QuietIsOrderly(chs, fs[..n]);
    }
  }

  ghost predicate AllTrack(chs: set<nat>, c: Conn, fs: seq<Frame>) {
    !c.down && forall ch :: ch in chs ==> Tracks(c, fs, ch)
  }

  lemma DemuxAllTracks(chs: set<nat>, fs: seq<Frame>, ch: nat)
    requires 0 !in chs && ch in chs && KnownFrames(chs, fs) && QuietAfterClose(fs)
    ensures !DemuxAll(Start(chs), fs).down && Tracks(DemuxAll(Start(chs), fs), fs, ch)
  {
    QuietIsOrderly(chs, fs);
    OrderlyTracks(chs, fs);
  }

  lemma {:induction false} OrderlyTracks(chs: set<nat>, fs: seq<Frame>)
    requires 0 !in chs && Orderly(chs, fs)
    ensures AllTrack(chs, DemuxAll(Start(chs), fs), fs)
  {
    if fs != [] {
      var before, f := fs[..|fs| - 1], fs[|fs| - 1];
      LastApart(fs);
      OrderlyTracks(chs, before);
      AllTrackNext(chs, DemuxAll(Start(chs), before), before, f, fs);
    }
  }

  /** What frame f must be after those. */
  ghost predicate InOrder(chs: set<nat>, before: seq<Frame>, f: Frame) {
    if f.ch == 0 then f.HeartbeatFrame?
    else f.ch in chs && !f.HeartbeatFrame? && !HasClose(Outputs(Project(before, f.ch)))
  }

  lemma AllTrackNext(chs: set<nat>, c: Conn, before: seq<Frame>, f: Frame, fs: seq<Frame>)
    requires 0 !in chs && KnownFrames(chs, before) && InOrder(chs, before, f) && AllTrack(chs, c, before)
    requires fs == before + [f]
    ensures AllTrack(chs, Demux(c, f), fs)
  {
    if f.ch == 0 {
      assert Demux(c, f) == c;
    } else {
      TracksNext(chs, c, before, f, f.ch);
    }
    forall ch | ch in chs ensures Tracks(Demux(c, f), fs, ch) {
      TracksNext(chs, c, before, f, ch);
    }
  }

  lemma TracksNext(chs: set<nat>, c: Conn, before: seq<Frame>, f: Frame, ch: nat)
    requires !c.down && Tracks(c, before, ch) && ch != 0 && KnownFrames(chs, before)
    requires if f.ch == 0 then f.HeartbeatFrame? else !f.HeartbeatFrame?
    requires f.ch != 0 ==> Tracks(c, before, f.ch) && !HasClose(Outputs(Project(before, f.ch)))
    ensures !Demux(c, f).down && Tracks(Demux(c, f), before + [f], ch)
  {
    if f.ch == 0 {
      ProjectAppend(before, f, ch);
      Empty(Project(before, ch));
    } else {
      ProjectNoHeartbeats(chs, before, f.ch);
      DemuxTracksOwn(c, before, f);
      if f.ch != ch {
        DemuxTracksOther(c, before, f, ch);
      }
    }
  }

  // ----- Any stream at all -----

  /** The frames up to the one that takes the connection down. */
  function Live(chs: set<nat>, fs: seq<Frame>): seq<Frame> {
    if fs == [] then []
    else
      var n := |fs| - 1;
      if DemuxAll(Start(chs), fs[..n]).down then Live(chs, fs[..n]) else fs
  }

  /** What is dispatched up to the first close, that one included. */
  function UntilClose(msgs: seq<Message>): seq<Message> {
    if msgs == [] then []
    else
      var n := |msgs| - 1;
      if HasClose(msgs[..n]) then UntilClose(msgs[..n]) else msgs
  }

  /** A channel and its own frames so far. */
  ghost predicate Follows(c: Conn, p: seq<Frame>, ch: nat) {
    var out := Outputs(p);
    && LogOf(c.log, ch) == UntilClose(out)
    && (HasClose(out) ==> ch !in c.open)
    && (!HasClose(out) && !c.down ==> ch in c.open && c.open[ch] == StateAfter(p))
  }

  /** For every stream of frames, on channels open, closed or never known, with anything on
      channel 0: each channel dispatches exactly what its own frames make its own machine
      dispatch, until it has dispatched a channel.close or the connection goes down. */
  lemma {:induction false} EveryStream(chs: set<nat>, fs: seq<Frame>, ch: nat)
    requires ch != 0 && ch in chs
    ensures var c := DemuxAll(Start(chs), fs);
            LogOf(c.log, ch) == UntilClose(Outputs(Project(Live(chs, fs), ch)))
    ensures Follows(DemuxAll(Start(chs), fs), Project(Live(chs, fs), ch), ch)
  {
    if fs != [] {
      var n := |fs| - 1;
      var c := DemuxAll(Start(chs), fs[..n]);
      EveryStream(chs, fs[..n], ch);
      if !c.down {
        LiveSoFar(chs, fs[..n]);
        var p := Project(fs[..n], ch);
        if fs[n].ch == ch {
          FollowsOwn(c, p, fs[n]);
        } else {
          Empty(p);
          FollowsOther(c, p, fs[n], ch);
        }
      }
    }
  }

  lemma LiveSoFar(chs: set<nat>, fs: seq<Frame>)
    requires !DemuxAll(Start(chs), fs).down
    ensures Live(chs, fs) == fs
  {}

  lemma FollowsOther(c: Conn, p: seq<Frame>, f: Frame, ch: nat)
    requires ch != 0 && f.ch != ch && !c.down && Follows(c, p, ch)
    ensures Follows(Demux(c, f), p, ch)
  {
    OtherLogKept(c, f, ch);
    OtherOpenKept(c, f, ch);
  }

  lemma OtherLogKept(c: Conn, f: Frame, ch: nat)
    requires ch != 0 && f.ch != ch
    ensures LogOf(Demux(c, f).log, ch) == LogOf(c.log, ch)
  {
    if Demux(c, f).log != c.log {
      var e := LoggedBy(c, f);
      LogOfAppend(c.log, e, ch);
      Empty(LogOf(c.log, ch));
    }
  }

  lemma OtherOpenKept(c: Conn, f: Frame, ch: nat)
    requires ch != 0 && f.ch != ch
    ensures ch in Demux(c, f).open <==> ch in c.open
    ensures ch in c.open ==> Demux(c, f).open[ch] == c.open[ch]
    ensures c.down ==> Demux(c, f).down
  {}

  lemma FollowsOwn(c: Conn, p: seq<Frame>, f: Frame)
    requires f.ch != 0 && !c.down && Follows(c, p, f.ch)
    ensures Follows(Demux(c, f), p + [f], f.ch)
  {
    var out, more := Outputs(p), ToSeq(Step(StateAfter(p), f).1);
    AppendFrame(p, f);
    MoreDispatched(out, more);
    if HasClose(out) {
      ClosedKept(c, f);
    } else {
      OpenStep(c, f);
      if Demux(c, f).down { Empty(out); }
    }
  }

  lemma ClosedKept(c: Conn, f: Frame)
    requires f.ch != 0 && f.ch !in c.open
    ensures Demux(c, f).log == c.log && Demux(c, f).open == c.open
  {}

  /** A frame on an open channel. */
  lemma OpenStep(c: Conn, f: Frame)
    requires f.ch != 0 && !c.down && f.ch in c.open
    ensures var (st, out) := Step(c.open[f.ch], f);
            var c' := Demux(c, f);
            && LogOf(c'.log, f.ch) == LogOf(c.log, f.ch) + ToSeq(out)
            && (st.Crashed? ==> out.None?) && c'.down == st.Crashed?
            && (HasClose(ToSeq(out)) ==> f.ch !in c'.open)
            && (!HasClose(ToSeq(out)) && !c'.down ==> f.ch in c'.open && c'.open[f.ch] == st)
  {
    Empty(LogOf(c.log, f.ch));
    if !Step(c.open[f.ch], f).0.Crashed? {
      LogAfterDemux(c, f, f.ch);
    }
    var out := ToSeq(Step(c.open[f.ch], f).1);
    assert HasClose(out) <==> out != [] && IsChannelClose(out[0].meth);
  }

  lemma MoreDispatched(out: seq<Message>, more: seq<Message>)
    requires |more| <= 1
    ensures HasClose(out + more) <==> HasClose(out) || HasClose(more)
    ensures UntilClose(out + more) == if HasClose(out) then UntilClose(out) else out + more
    ensures !HasClose(out) ==> UntilClose(out) == out
  {
    Empty(out);
    if more != [] {
      assert (out + more)[..|out|] == out;
    }
    if HasClose(out) {
      var i :| 0 <= i < |out| && IsChannelClose(out[i].meth);
      assert IsChannelClose((out + more)[i].meth);
    }
    if HasClose(more) {
      assert IsChannelClose((out + more)[|out|].meth);
    }
    if !HasClose(out) && out != [] {
      assert !HasClose(out[..|out| - 1]);
    }
  }

  // ----- A closed channel stays closed -----

  ghost predicate ClosedForGood(c: Conn, ch: nat) {
    var msgs := LogOf(c.log, ch);
    CloseIsLast(msgs) && (ch in c.open ==> !HasClose(msgs))
  }

  lemma {:induction false} NothingAfterClose(chs: set<nat>, fs: seq<Frame>, ch: nat)
    requires ch != 0
    ensures ClosedForGood(DemuxAll(Start(chs), fs), ch)
  {
    if fs != [] {
      var n := |fs| - 1;
      NothingAfterClose(chs, fs[..n], ch);
      StaysClosed(DemuxAll(Start(chs), fs[..n]), fs[n], ch);
    }
  }

  lemma StaysClosed(c: Conn, f: Frame, ch: nat)
    requires ch != 0 && ClosedForGood(c, ch)
    ensures ClosedForGood(Demux(c, f), ch)
  {
    var c' := Demux(c, f);
    if c'.log != c.log {
      var e := LoggedBy(c, f);
      LogOfAppend(c.log, e, ch);
      Empty(LogOf(c.log, ch));
    }
  }

  /** What a frame adds to the log: on a channel only while that is open, and a close takes
      it out. */
  lemma LoggedBy(c: Conn, f: Frame) returns (e: (nat, Message))
    requires Demux(c, f).log != c.log
    ensures Demux(c, f).log == c.log + [e] && e.0 == f.ch
    ensures f.ch != 0 ==> f.ch in c.open && (IsChannelClose(e.1.meth) <==> f.ch !in Demux(c, f).open)
    ensures forall ch :: ch != f.ch ==> (ch in c.open <==> ch in Demux(c, f).open)
  {
    e := Demux(c, f).log[|c.log|];
  }

  // ----- Every close is answered -----

  function ClosesIn(fs: seq<Frame>, ch: nat): nat {
    if fs == [] then 0
    else
      var n := |fs| - 1;
      ClosesIn(fs[..n], ch) + if fs[n].ch == ch && fs[n].MethodFrame? && IsChannelClose(fs[n].m) then 1 else 0
  }

  function AnswersIn(rs: seq<Reply>, ch: nat): nat {
    if rs == [] then 0
    else
      var n := |rs| - 1;
      AnswersIn(rs[..n], ch) + if rs[n] == ChannelCloseOk(ch) then 1 else 0
  }

  lemma AnswersAppend(rs: seq<Reply>, r: Reply, ch: nat)
    ensures AnswersIn(rs + [r], ch) == AnswersIn(rs, ch) + if r == ChannelCloseOk(ch) then 1 else 0
  {
    assert (rs + [r])[..|rs|] == rs;
  }

  /** A channel only collects content for methods that carry it. */
  predicate Collects(st: Recv) { st.RecvHeader? || st.RecvContent? ==> CarriesContent(st.message) }

  ghost predicate AllCollect(c: Conn) { forall ch :: ch in c.open ==> Collects(c.open[ch]) }

  lemma StepCollects(st: Recv, f: Frame)
    requires Collects(st)
    ensures Collects(Step(st, f).0)
    ensures Step(st, f).1.Some? && IsChannelClose(Step(st, f).1.value.meth) ==> f.MethodFrame? && IsChannelClose(f.m)
    ensures f.MethodFrame? && IsChannelClose(f.m) && !Step(st, f).0.Crashed? ==> Step(st, f).1 == Some(Message(f.m, None))
  {}

  /** While the connection is up, every channel.close has been answered by one close-ok on
      its channel, whatever state the channel was in, even if it was closed already; and no
      close-ok was sent for anything else. */
  lemma {:induction false} ClosesAnswered(chs: set<nat>, fs: seq<Frame>, ch: nat)
    requires ch != 0
    ensures var c := DemuxAll(Start(chs), fs);
            && AnswersIn(c.replies, ch) <= ClosesIn(fs, ch)
            && (!c.down ==> AnswersIn(c.replies, ch) == ClosesIn(fs, ch))
            && AllCollect(c)
  {
    if fs != [] {
      var n := |fs| - 1;
      ClosesAnswered(chs, fs[..n], ch);
      DemuxAnswers(DemuxAll(Start(chs), fs[..n]), fs[n], ch);
    }
  }

  lemma DemuxAnswers(c: Conn, f: Frame, ch: nat)
    requires ch != 0 && AllCollect(c)
    ensures var closes, c' := f.ch == ch && f.MethodFrame? && IsChannelClose(f.m), Demux(c, f);
            && (c.down ==> c' == c)
            && (!c'.down ==> AnswersIn(c'.replies, ch) == AnswersIn(c.replies, ch) + if closes then 1 else 0)
            && (c'.down ==> AnswersIn(c'.replies, ch) == AnswersIn(c.replies, ch))
            && AllCollect(c')
  {
    DemuxCollects(c, f);
    var r := ReplyTo(c, f);
    if r.Some? {
      AnswersAppend(c.replies, r.value, ch);
    }
  }

  lemma DemuxCollects(c: Conn, f: Frame)
    requires AllCollect(c)
    ensures AllCollect(Demux(c, f))
  {
    if f.ch in c.open {
      StepCollects(c.open[f.ch], f);
    }
  }

  /** A frame is answered by one reply at most, and by a close-ok on its channel if and only
      if it is a channel.close there, as long as the connection is up. */
  lemma ReplyTo(c: Conn, f: Frame) returns (r: Option<Reply>)
    requires AllCollect(c)
    ensures Demux(c, f).replies == if r.Some? then c.replies + [r.value] else c.replies
    ensures r.Some? && r.value.ChannelCloseOk? ==> r.value.ch == f.ch
    ensures r.Some? && r.value.ChannelCloseOk? <==>
            !c.down && !Demux(c, f).down && f.ch != 0 && f.MethodFrame? && IsChannelClose(f.m)
  {
    if c.down { return None; }
    if f.ch != 0 && f.ch in c.open {
      StepCollects(c.open[f.ch], f);
      var (st, out) := Step(c.open[f.ch], f);
      return if !st.Crashed? && out.Some? && IsChannelClose(out.value.meth) then Some(ChannelCloseOk(f.ch)) else None;
    }
    var c' := Demux(c, f);
    r := if c'.replies == c.replies then None else Some(c'.replies[|c.replies|]);
  }

  // ----- What the connection says at last -----

  /** The close-ok to a connection.close, or the request to close: 505 for content on channel
      0, 504 for a method other than close and close-ok on a channel that is not open. */
  function LastWord(c: Conn, f: Frame): Option<Reply> {
    if c.down then None
    else if f.ch == 0 then
      if f.MethodFrame? then if f.m.cls == 10 && f.m.id == 50 then Some(ConnectionCloseOk) else None
      else if f.HeartbeatFrame? then None
      else Some(ConnectionClose(505))
    else if f.ch !in c.open && f.MethodFrame? && !(f.m.cls == 20 && (f.m.id == 40 || f.m.id == 41)) then
      Some(ConnectionClose(504))
    else None
  }

  lemma LastWordSaid(c: Conn, f: Frame)
    ensures LastWord(c, f).Some? ==> Demux(c, f).down && Demux(c, f).replies == c.replies + [LastWord(c, f).value]
    ensures LastWord(c, f).None? ==>
      Demux(c, f).replies == c.replies || (!c.down && Demux(c, f).replies == c.replies + [ChannelCloseOk(f.ch)])
    ensures c.down ==> Demux(c, f).down
  {}

  predicate OnlyCloseOks(rs: seq<Reply>) { forall i :: 0 <= i < |rs| ==> rs[i].ChannelCloseOk? }

  /** Some frame of the stream makes the connection say this at last. */
  ghost predicate Says(chs: set<nat>, fs: seq<Frame>, r: Reply) { exists k :: SaysAt(chs, fs, k, r) }

  ghost predicate SaysAt(chs: set<nat>, fs: seq<Frame>, k: nat, r: Reply) {
    k < |fs| && LastWord(DemuxAll(Start(chs), fs[..k]), fs[k]) == Some(r)
  }

  lemma SaysSoFar(chs: set<nat>, fs: seq<Frame>, r: Reply)
    requires fs != []
    ensures Says(chs, fs, r) <==> Says(chs, fs[..|fs| - 1], r) || SaysAt(chs, fs, |fs| - 1, r)
  {
    var n := |fs| - 1;
    forall k: nat | k < n ensures SaysAt(chs, fs, k, r) <==> SaysAt(chs, fs[..n], k, r) {
      assert fs[..n][..k] == fs[..k];
    }
    if Says(chs, fs[..n], r) {
      var k :| SaysAt(chs, fs[..n], k, r);
      assert SaysAt(chs, fs, k, r);
    }
    if Says(chs, fs, r) {
      var k :| SaysAt(chs, fs, k, r);
      assert k == n || SaysAt(chs, fs[..n], k, r);
    }
  }

  /** For every stream: what is neither lost nor made up; and it is the last reply, with
      the connection down. */
  lemma {:induction false} LastWordIff(chs: set<nat>, fs: seq<Frame>, r: Reply)
    requires !r.ChannelCloseOk?
    ensures var c := DemuxAll(Start(chs), fs);
            && (r in c.replies <==> Says(chs, fs, r))
            && (!c.down ==> OnlyCloseOks(c.replies))
            && (OnlyCloseOks(c.replies) || (c.down && OnlyCloseOks(c.replies[..|c.replies| - 1])))
  {
    if fs == [] {
      assert !Says(chs, fs, r);
    } else {
      var n := |fs| - 1;
      var c := DemuxAll(Start(chs), fs[..n]);
      LastWordIff(chs, fs[..n], r);
      SaysSoFar(chs, fs, r);
      LastWordSaid(c, fs[n]);
      var c' := Demux(c, fs[n]);
      if |c'.replies| == |c.replies| + 1 {
        assert c'.replies[..|c.replies|] == c.replies;
        assert r in c'.replies <==> r in c.replies || r == c'.replies[|c.replies|];
      }
    }
  }

  /** A connection.close comes on channel 0 while the connection is up. */
  ghost predicate ClosedAt(chs: set<nat>, fs: seq<Frame>, k: nat) {
    && k < |fs| && !DemuxAll(Start(chs), fs[..k]).down
    && fs[k].ch == 0 && fs[k].MethodFrame? && fs[k].m.cls == 10 && fs[k].m.id == 50
  }

  /** For every stream: connection.close-ok is sent if and only if a connection.close has come
      while the connection was up; then once, as the last reply, and the connection is down. */
  lemma CloseOkIff(chs: set<nat>, fs: seq<Frame>)
    ensures var c := DemuxAll(Start(chs), fs);
            && (ConnectionCloseOk in c.replies <==> exists k :: ClosedAt(chs, fs, k))
            && (ConnectionCloseOk in c.replies ==>
                c.down && forall i :: 0 <= i < |c.replies| ==> (c.replies[i] == ConnectionCloseOk <==> i == |c.replies| - 1))
  {
    LastWordIff(chs, fs, ConnectionCloseOk);
    forall k ensures SaysAt(chs, fs, k, ConnectionCloseOk) <==> ClosedAt(chs, fs, k) {}
    if Says(chs, fs, ConnectionCloseOk) {
      var k :| SaysAt(chs, fs, k, ConnectionCloseOk);
      assert ClosedAt(chs, fs, k);
    }
    if k :| ClosedAt(chs, fs, k) {
      assert SaysAt(chs, fs, k, ConnectionCloseOk);
    }
    if ConnectionCloseOk in DemuxAll(Start(chs), fs).replies {
      LastAlone(DemuxAll(Start(chs), fs).replies);
    }
  }

  lemma LastAlone(rs: seq<Reply>)
    requires ConnectionCloseOk in rs && OnlyCloseOks(rs[..|rs| - 1])
    ensures forall i :: 0 <= i < |rs| ==> (rs[i] == ConnectionCloseOk <==> i == |rs| - 1)
  {
    forall i | 0 <= i < |rs| - 1 ensures rs[i] != ConnectionCloseOk {
      assert rs[..|rs| - 1][i].ChannelCloseOk?;
    }
  }

  // ----- Channel 0 -----

  /** The methods on channel 0 other than connection.close, while the connection is up. */
  function HandedOver(chs: set<nat>, fs: seq<Frame>): seq<Message> {
    if fs == [] then []
    else
      var n, f := |fs| - 1, fs[|fs| - 1];
      HandedOver(chs, fs[..n]) +
      if !DemuxAll(Start(chs), fs[..n]).down && f.ch == 0 && f.MethodFrame? && !(f.m.cls == 10 && f.m.id == 50) then
        [Message(f.m, None)]
      else []
  }

  /** These and no others are handed to the calls that wait for them, in order. */
  lemma {:induction false} HandedOverInOrder(chs: set<nat>, fs: seq<Frame>)
    ensures LogOf(DemuxAll(Start(chs), fs).log, 0) == HandedOver(chs, fs)
  {
    if fs != [] {
      var n := |fs| - 1;
      var c := DemuxAll(Start(chs), fs[..n]);
      HandedOverInOrder(chs, fs[..n]);
      Empty(LogOf(c.log, 0));
      if Demux(c, fs[n]).log != c.log {
        var e := LoggedBy(c, fs[n]);
        LogOfAppend(c.log, e, 0);
      }
    }
  }

  // ----- Which channels are open -----

  /** For every stream: a channel is open if and only if it was from the start and has
      dispatched no channel.close. */
  lemma {:induction false} OpenIff(chs: set<nat>, fs: seq<Frame>, ch: nat)
    requires ch != 0
    ensures var c := DemuxAll(Start(chs), fs);
            ch in c.open <==>
            ch in chs && forall i :: 0 <= i < |LogOf(c.log, ch)| ==>
              !(LogOf(c.log, ch)[i].meth.cls == 20 && LogOf(c.log, ch)[i].meth.id == 40)
  {
    if fs != [] {
      var n := |fs| - 1;
      var c := DemuxAll(Start(chs), fs[..n]);
      OpenIff(chs, fs[..n], ch);
      OpenAfter(c, fs[n], ch);
    }
  }

  lemma OpenAfter(c: Conn, f: Frame, ch: nat)
    requires ch != 0
    ensures var c' := Demux(c, f);
            var was, now := LogOf(c.log, ch), LogOf(c'.log, ch);
            || (now == was && (ch in c'.open <==> ch in c.open))
            || (|now| == |was| + 1 && now[..|was|] == was && ch in c.open &&
                (ch in c'.open <==> !(now[|was|].meth.cls == 20 && now[|was|].meth.id == 40)))
  {
    var c' := Demux(c, f);
    Empty(LogOf(c.log, ch));
    if c'.log != c.log {
      var e := LoggedBy(c, f);
      LogOfAppend(c.log, e, ch);
    }
  }

  // ----- From sender to dispatch, through the wire -----

  ghost predicate MessageFits(msg: Message) {
    && WellFormed(msg) && MethodFits(msg.meth)
    && match msg.content
       case None => true
       case Some(c) => PropertiesFit(c.props) && |c.body| < 0x1_0000_0000_0000_0000
  }

  /** The frames on the wire: every channel's own in their order, interleaved in any
      way, and heartbeats of the connection in between. */
  ghost predicate Interleaves(stream: seq<Frame>, msgs: map<nat, seq<Message>>, frameSize: nat)
    requires frameSize > FRAME_HEADER_SIZE
  {
    && (forall f :: f in stream ==> f.ch in msgs || f == HeartbeatFrame(0))
    && forall ch :: ch in msgs ==> Project(stream, ch) == FramesOfAll(ch, msgs[ch], frameSize)
  }

  lemma SentFrameFits(ch: nat, msg: Message, frameSize: nat, f: Frame)
    requires FRAME_HEADER_SIZE < frameSize < TWO32 && ch < 0x1_0000
    requires MessageFits(msg) && f in FramesOf(ch, msg, frameSize)
    ensures FrameFits(f) && f.ch == ch && !f.HeartbeatFrame?
  {
    if msg.content.Some? {
      ChunksAreBodies(ch, msg.content.value.body, frameSize - FRAME_HEADER_SIZE);
      if f.HeaderFrame? {
        SchemaIds(msg.meth);
      }
    }
  }

  /** The class of a known method is within its field. */
  lemma SchemaIds(m: Method)
    requires MethodFits(m)
    ensures m.cls < 0x1_0000 && m.id < 0x1_0000
  {
    IdsFit(m.cls, m.id);
    Widths();
  }

  lemma FramesOfFit(ch: nat, msg: Message, frameSize: nat, f: Frame)
    requires FRAME_HEADER_SIZE < frameSize < TWO32 && ch < 0x1_0000
    requires MessageFits(msg) && f in FramesOf(ch, msg, frameSize)
    ensures FrameFits(f) && f.ch == ch && !f.HeartbeatFrame?
    ensures forall s :: f.BodyFrame? && FrameBytes(f, s) ==> |s| <= frameSize
  {
    SentFrameFits(ch, msg, frameSize, f);
    forall s | f.BodyFrame? && FrameBytes(f, s) ensures |s| <= frameSize {
      BodyFramesWithinFrameSize(ch, msg, frameSize, f, s);
    }
  }

  lemma {:induction false} FramesOfAllFit(ch: nat, msgs: seq<Message>, frameSize: nat, f: Frame)
    requires FRAME_HEADER_SIZE < frameSize < TWO32 && ch < 0x1_0000
    requires forall i :: 0 <= i < |msgs| ==> MessageFits(msgs[i])
    requires f in FramesOfAll(ch, msgs, frameSize)
    ensures FrameFits(f) && f.ch == ch && !f.HeartbeatFrame?
    ensures forall s :: f.BodyFrame? && FrameBytes(f, s) ==> |s| <= frameSize
    decreases |msgs|
  {
    if f in FramesOf(ch, msgs[0], frameSize) {
      FramesOfFit(ch, msgs[0], frameSize, f);
    } else {
      FramesOfAllFit(ch, msgs[1..], frameSize, f);
    }
  }

  lemma {:induction false} FramesOfAllLast(ch: nat, msgs: seq<Message>, last: Message, frameSize: nat)
    requires frameSize > FRAME_HEADER_SIZE
    ensures FramesOfAll(ch, msgs + [last], frameSize) == FramesOfAll(ch, msgs, frameSize) + FramesOf(ch, last, frameSize)
    decreases |msgs|
  {
    if msgs == [] {
      Empty(FramesOf(ch, last, frameSize));
      assert ([] + [last])[1..] == [];
    } else {
      assert (msgs + [last])[1..] == msgs[1..] + [last];
      FramesOfAllLast(ch, msgs[1..], last, frameSize);
      Assoc(FramesOf(ch, msgs[0], frameSize), FramesOfAll(ch, msgs[1..], frameSize), FramesOf(ch, last, frameSize));
    }
  }

  lemma OutputsBeforeLast(ch: nat, init: seq<Message>, last: Message, frameSize: nat)
    requires frameSize > FRAME_HEADER_SIZE && WellFormed(last)
    requires forall i :: 0 <= i < |init| ==> WellFormed(init[i])
    ensures var frames := FramesOf(ch, last, frameSize);
            Outputs(FramesOfAll(ch, init, frameSize) + frames[..|frames| - 1]) == init
  {
    var before := FramesOfAll(ch, init, frameSize);
    AllDispatched([], ch, init, frameSize);
    Empty(before);
    Empty(init);
    MessageDispatched(before, ch, last, frameSize);
  }

  lemma PrefixOfInit<T>(p: seq<T>, a: seq<T>, b: seq<T>)
    requires p < a + b && b != []
    ensures p <= a + b[..|b| - 1]
  {}

  /** Before the last frame of a channel has come, its last message is not out. */
  lemma LastMessageIsLast(ch: nat, msgs: seq<Message>, frameSize: nat, p: seq<Frame>)
    requires frameSize > FRAME_HEADER_SIZE
    requires forall i :: 0 <= i < |msgs| ==> WellFormed(msgs[i])
    requires p < FramesOfAll(ch, msgs, frameSize)
    ensures msgs != [] && Outputs(p) <= msgs[..|msgs| - 1]
  {
    var n := |msgs| - 1;
    var init, last := msgs[..n], msgs[n];
    assert init + [last] == msgs;
    var before, frames := FramesOfAll(ch, init, frameSize), FramesOf(ch, last, frameSize);
    FramesOfAllLast(ch, init, last, frameSize);
    OutputsBeforeLast(ch, init, last, frameSize);
    PrefixOfInit(p, before, frames);
    OutputsPrefix(p, before + frames[..|frames| - 1]);
  }

  lemma OutputsPrefix(p: seq<Frame>, q: seq<Frame>)
    requires p <= q
    ensures Outputs(p) <= Outputs(q)
  {
    OutputsConcat(p, q[|p|..]);
    assert p + q[|p|..] == q;
  }

  lemma QuietBecauseCloseIsLast(stream: seq<Frame>, msgs: map<nat, seq<Message>>, frameSize: nat)
    requires frameSize > FRAME_HEADER_SIZE && 0 !in msgs && Interleaves(stream, msgs, frameSize)
    requires forall ch :: ch in msgs ==> CloseIsLast(msgs[ch]) && forall i :: 0 <= i < |msgs[ch]| ==> WellFormed(msgs[ch][i])
    ensures QuietAfterClose(stream)
  {
    forall i | 0 <= i < |stream| && stream[i].ch != 0
      ensures !HasClose(Outputs(Project(stream[..i], stream[i].ch)))
    {
      assert stream[i] in stream;
      QuietBefore(stream, msgs, frameSize, i);
    }
  }

  lemma QuietBefore(stream: seq<Frame>, msgs: map<nat, seq<Message>>, frameSize: nat, i: nat)
    requires frameSize > FRAME_HEADER_SIZE && 0 !in msgs && Interleaves(stream, msgs, frameSize)
    requires i < |stream| && stream[i].ch in msgs && CloseIsLast(msgs[stream[i].ch])
    requires forall j :: 0 <= j < |msgs[stream[i].ch]| ==> WellFormed(msgs[stream[i].ch][j])
    ensures !HasClose(Outputs(Project(stream[..i], stream[i].ch)))
  {
    var ch := stream[i].ch;
    var p := Project(stream[..i], ch);
    assert stream[..i + 1][..i] == stream[..i];
    assert Project(stream[..i + 1], ch) == p + [stream[i]];
    ProjectPrefix(stream, i + 1, ch);
    LastMessageIsLast(ch, msgs[ch], frameSize, p);
  }

  lemma StreamFits(stream: seq<Frame>, msgs: map<nat, seq<Message>>, frameSize: nat, f: Frame)
    requires FRAME_HEADER_SIZE < frameSize < TWO32 && Interleaves(stream, msgs, frameSize) && f in stream
    requires forall ch :: ch in msgs ==> 0 < ch < 0x1_0000 && forall i :: 0 <= i < |msgs[ch]| ==> MessageFits(msgs[ch][i])
    ensures FrameFits(f)
    ensures f.ch == 0 ==> f.HeartbeatFrame?
    ensures f.ch != 0 ==> f.ch in msgs && !f.HeartbeatFrame?
    ensures forall s :: f.BodyFrame? && FrameBytes(f, s) ==> |s| <= frameSize
  {
    if f.ch in msgs {
      ProjectMembers(stream, f.ch, f);
      FramesOfAllFit(f.ch, msgs[f.ch], frameSize, f);
    }
  }

  /** Messages sent on any number of channels, cut into frames, the frames of the
      channels interleaved in any order, written as octets, read back, told apart and put
      together: every channel dispatches exactly what was sent on it, in order and with
      identical contents, if and only if no channel sends anything after a channel.close.
      And no body frame on the wire is longer than the negotiated frame size. */
  lemma EndToEnd(stream: seq<Frame>, s: bytes, msgs: map<nat, seq<Message>>, frameSize: nat)
    requires FRAME_HEADER_SIZE < frameSize < TWO32
    requires forall ch :: ch in msgs ==> 0 < ch < 0x1_0000 && forall i :: 0 <= i < |msgs[ch]| ==> MessageFits(msgs[ch][i])
    requires Interleaves(stream, msgs, frameSize) && FramesBytes(stream, s)
    ensures var c := DemuxAll(Start(msgs.Keys), ReadFrames(s).0);
            (forall ch :: ch in msgs ==> LogOf(c.log, ch) == msgs[ch]) <==>
            (forall ch :: ch in msgs ==> CloseIsLast(msgs[ch]))
    ensures forall f, b :: f in stream && f.BodyFrame? && FrameBytes(f, b) ==> |b| <= frameSize
  {
    forall f | f in stream
      ensures FrameFits(f) && (f.ch == 0 ==> f.HeartbeatFrame?) && (f.ch != 0 ==> f.ch in msgs && !f.HeartbeatFrame?)
      ensures forall b :: f.BodyFrame? && FrameBytes(f, b) ==> |b| <= frameSize
    {
      StreamFits(stream, msgs, frameSize, f);
    }
    FramesRoundTrip(stream, s);
    var c := DemuxAll(Start(msgs.Keys), stream);
    if forall ch :: ch in msgs ==> CloseIsLast(msgs[ch]) {
      QuietBecauseCloseIsLast(stream, msgs, frameSize);
      forall ch | ch in msgs ensures LogOf(c.log, ch) == msgs[ch] {
        DemuxAllTracks(msgs.Keys, stream, ch);
        AllDispatched([], ch, msgs[ch], frameSize);
        Empty(FramesOfAll(ch, msgs[ch], frameSize));
        Empty(msgs[ch]);
      }
    }
    if forall ch :: ch in msgs ==> LogOf(c.log, ch) == msgs[ch] {
      forall ch | ch in msgs ensures CloseIsLast(msgs[ch]) {
        NothingAfterClose(msgs.Keys, stream, ch);
      }
    }
  }
}
