/**
 The connection's reader goroutine: read a frame, hand it to its channel, and again,
 until a read fails.
 */
module ConnectionIO {
  import opened Options
  import opened Wire
  import opened FieldIO
  import opened Frames
  import opened FrameIO
  import opened Channel
  import opened Connection

  /** How the reader ends: at a failing read, waiting for the answer to its own request to
      close, which only a reader could hand on, or in a panic. */
  datatype Ended = Stopped(err: Err) | Waiting | Broken

  /** The frames still to be read, and one fewer. */
  lemma FirstFrame(s: bytes)
    requires ReadFrame(s).Got?
    ensures ReadFrames(s).0 != [] && ReadFrames(s).0[0] == ReadFrame(s).value
    ensures ReadFrames(ReadFrame(s).rest) == (ReadFrames(s).0[1..], ReadFrames(s).1)
  {
    var left := ReadFrames(ReadFrame(s).rest);
    assert ([ReadFrame(s).value] + left.0)[1..] == left.0;
  }

  /** After some frames, none of which made the reader end. */
  ghost predicate ReadSoFar(c: Conn, all: (seq<Frame>, Err), read: nat, now: Conn, left: (seq<Frame>, Err)) {
    && read <= |all.0| && left == (all.0[read..], all.1)
    && now == DemuxAll(c, all.0[..read])
    && forall k: nat :: k < read ==> NextAt(c, all.0, k) == GoesOn
  }

  lemma ReadNext(c: Conn, all: (seq<Frame>, Err), read: nat, now: Conn, left: (seq<Frame>, Err))
    requires ReadSoFar(c, all, read, now, left) && left.0 != []
    ensures read < |all.0| && left.0[0] == all.0[read] && AfterFrame(now, left.0[0]) == NextAt(c, all.0, read)
    ensures left.0[1..] == all.0[read + 1..] && Demux(now, left.0[0]) == DemuxAll(c, all.0[..read + 1])
    ensures NextAt(c, all.0, read) == GoesOn ==>
      ReadSoFar(c, all, read + 1, Demux(now, left.0[0]), (left.0[1..], left.1))
    ensures NextAt(c, all.0, read) != GoesOn ==>
      !GoesThrough(c, all.0) && Demux(now, left.0[0]) == DemuxAll(c, all.0)
  {
    assert all.0[..read + 1][..read] == all.0[..read];
    if NextAt(c, all.0, read) != GoesOn {
      StaysDown(c, all.0, read + 1);
    }
  }

  /** How a run of the reader that has handed on `read` frames ends. */
  ghost predicate EndsAs(c: Conn, all: (seq<Frame>, Err), end: Ended, read: nat, now: Conn, left: (seq<Frame>, Err)) {
    && read <= |all.0| && (end.Stopped? || left == (all.0[read..], all.1))
    && now == DemuxAll(c, all.0)
    && (end.Stopped? <==> GoesThrough(c, all.0))
    && match end
       case Stopped(err) => read == |all.0| && err == all.1
       case Waiting => read > 0 && NextAt(c, all.0, read - 1) == Waits
       case Broken => read > 0 && NextAt(c, all.0, read - 1) == Panics
  }

  lemma ReadStops(c: Conn, all: (seq<Frame>, Err), read: nat, now: Conn, s: bytes, left: (seq<Frame>, Err))
    requires ReadSoFar(c, all, read, now, ReadFrames(s)) && ReadFrame(s).Bad?
    ensures EndsAs(c, all, Stopped(ReadFrame(s).err), read, now, left)
  {
    assert all.0[..read] == all.0;
  }

  lemma ReadBreaks(c: Conn, all: (seq<Frame>, Err), read: nat, now: Conn, left: (seq<Frame>, Err))
    requires ReadSoFar(c, all, read, now, left) && left.0 != [] && AfterFrame(now, left.0[0]) != GoesOn
    ensures var end := if AfterFrame(now, left.0[0]) == Waits then Waiting else Broken;
            EndsAs(c, all, end, read + 1, Demux(now, left.0[0]), (left.0[1..], left.1))
  {
    ReadNext(c, all, read, now, left);
  }

  class Link {
    var channels: map<nat, Recv>
    var down: bool
    var log: seq<(nat, Message)>
    var replies: seq<Reply>

    function State(): Conn
      reads this
    {
      Conn(channels, down, log, replies)
    }

    /** A connection on which these channels have been opened. */
    constructor (chs: set<nat>)
      ensures State() == Start(chs)
    {
      channels := map ch | ch in chs :: RecvMethod;
      down, log, replies := false, [], [];
    }

    /** channelRegistry.remove, from the channel's shutdown */
    method Remove(ch: nat)
      modifies this`channels
      ensures channels == old(channels) - {ch}
    {
      channels := channels - {ch};
    }

    /** closeWith: the connection asks to be closed, and is shut down. */
    method CloseWith(code: nat)
      modifies this`replies, this`down
      ensures down && replies == old(replies) + [ConnectionClose(code)]
    {
      replies := replies + [ConnectionClose(code)];
      down := true;
    }

    method Demux(f: Frame) returns (next: Next)
      modifies this
      ensures State() == Connection.Demux(old(State()), f)
      ensures next == AfterFrame(old(State()), f)
    {
      next := GoesOn;
      if down { return; }
      if f.ch == 0 {
        if f.MethodFrame? && IsConnectionClose(f.m) {
          replies := replies + [ConnectionCloseOk];
          down := true;
        } else if f.MethodFrame? {
          log := log + [(0, Message(f.m, None))];
        } else if !f.HeartbeatFrame? {
          CloseWith(UNEXPECTED_FRAME);
          next := Waits;
        }
      } else if f.ch in channels {
        var (st, out) := Step(channels[f.ch], f);
        if st.Crashed? {
          down := true;
          return Panics;
        }
        channels := channels[f.ch := st];
        if out.Some? {
          log := log + [(f.ch, out.value)];
          if IsChannelClose(out.value.meth) {
            Remove(f.ch);
            replies := replies + [ChannelCloseOk(f.ch)];
            assert channels == old(channels) - {f.ch};
          }
        }
      } else if f.MethodFrame? && IsChannelClose(f.m) {
        replies := replies + [ChannelCloseOk(f.ch)];
      } else if f.MethodFrame? && !IsChannelCloseOk(f.m) {
        CloseWith(CHANNEL_ERROR);
        next := Waits;
      }
    }

    /** One round of the reader. */
    method ReadOne(r: Reader, ghost c: Conn, ghost all: (seq<Frame>, Err), ghost read: nat) returns (end: Option<Ended>)
      requires ReadSoFar(c, all, read, State(), ReadFrames(r.rest))
      modifies this, r
      ensures end == None ==>
        |r.rest| < |old(r.rest)| && ReadSoFar(c, all, read + 1, State(), ReadFrames(r.rest))
      ensures end.Some? ==>
        EndsAs(c, all, end.value, if end.value.Stopped? then read else read + 1, State(), ReadFrames(r.rest))
    {
      ghost var now, s := State(), r.rest;
      var f := ReadFrameInto(r);
      if f.Failed? {
        ReadStops(c, all, read, now, s, ReadFrames(r.rest));
        return Some(Stopped(f.err));
      }
      FirstFrame(s);
      var next := Demux(f.value);
      if next != GoesOn {
        ReadBreaks(c, all, read, now, ReadFrames(s));
        return Some(if next == Waits then Waiting else Broken);
      }
      ReadNext(c, all, read, now, ReadFrames(s));
      return None;
    }

    /** Connection.reader; `read` counts the frames it has handed on. */
    method Read(r: Reader) returns (end: Ended, ghost read: nat)
      modifies this, r
      ensures EndsAs(old(State()), ReadFrames(old(r.rest)), end, read, State(), ReadFrames(r.rest))
    {
      ghost var c, all := State(), ReadFrames(r.rest);
      read := 0;
      while true
        invariant ReadSoFar(c, all, read, State(), ReadFrames(r.rest))
        decreases |r.rest|
      {
        var ended := ReadOne(r, c, all, read);
        if ended.Some? {
          return ended.value, if ended.value.Stopped? then read else read + 1;
        }
        read := read + 1;
      }
    }
  }
}
