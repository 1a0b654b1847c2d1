/**
 The wall-clock timer: a loop that on every tick adds the time passed since the last
 tick, handles at most one queued command, and fires when the sum exceeds the timeout.
 */
module Stopwatch {
  import opened Options
  import opened Sequences

  datatype Command = Reset | Start | Stop | Resume | Unknown

  /** One turn of the loop: incrementTimer reads the clock twice, at `since` and at
      `again`; a command is handled at `handled`, where start and resume read it too. */
  datatype Tick = Tick(since: int, again: int, cmd: Option<Command>, handled: int)

  datatype Timer = Timer(elapsed: int, previous: int, timeout: int, tick: bool)

  function Increment(s: Timer, k: Tick): Timer {
    if s.tick then s.(elapsed := s.elapsed + (k.since - s.previous), previous := k.again) else s
  }

  function Handle(s: Timer, cmd: Option<Command>, now: int): Timer {
    match cmd
    case Some(Reset) => s.(tick := false, elapsed := 0)
    case Some(Start) => s.(tick := true, elapsed := 0, previous := now)
    case Some(Stop) => s.(tick := false)
    case Some(Resume) => s.(tick := true, previous := now)
    case _ => s
  }

  predicate Fires(s: Timer, k: Tick) {
    var s2 := Handle(Increment(s, k), k.cmd, k.handled);
    s2.elapsed > s2.timeout
  }

  function Step(s: Timer, k: Tick): Timer {
    var s2 := Handle(Increment(s, k), k.cmd, k.handled);
    if Fires(s, k) then s2.(tick := false, elapsed := s2.timeout) else s2
  }

  /** The clock never goes back. */
  predicate Monotone(now: int, ks: seq<Tick>)
    decreases |ks|
  {
    ks == [] || (now <= ks[0].since <= ks[0].again <= ks[0].handled && Monotone(ks[0].handled, ks[1..]))
  }

  function Run(s: Timer, ks: seq<Tick>): Timer
    decreases |ks|
  {
    if ks == [] then s else Run(Step(s, ks[0]), ks[1..])
  }

  /** Whether the i-th tick of a run fires. */
  predicate FiresAt(s: Timer, ks: seq<Tick>, i: nat)
    requires i < |ks|
    decreases |ks|
  {
    if i == 0 then Fires(s, ks[0]) else FiresAt(Step(s, ks[0]), ks[1..], i - 1)
  }

  /** The ticks that fire, counting from n. */
  function Firings(s: Timer, ks: seq<Tick>, n: nat): seq<nat>
    decreases |ks|
  {
    if ks == [] then []
    else (if Fires(s, ks[0]) then [n] else []) + Firings(Step(s, ks[0]), ks[1..], n + 1)
  }

  lemma {:induction false} FiringsFire(s: Timer, ks: seq<Tick>, n: nat, i: nat)
    ensures i in Firings(s, ks, n) <==> n <= i < n + |ks| && FiresAt(s, ks, i - n)
    decreases |ks|
  {
    if ks != [] {
      FiringsFire(Step(s, ks[0]), ks[1..], n + 1, i);
    }
  }

  predicate Rising(fs: seq<nat>, from: nat) {
    && (forall i :: 0 <= i < |fs| ==> from <= fs[i])
    && (forall i, j :: 0 <= i < j < |fs| ==> fs[i] < fs[j])
  }

  /** Each firing tick is listed once, in order. */
  lemma {:induction false} FiringsRise(s: Timer, ks: seq<Tick>, n: nat)
    ensures Rising(Firings(s, ks, n), n)
    decreases |ks|
  {
    if ks != [] {
      var more := Firings(Step(s, ks[0]), ks[1..], n + 1);
      FiringsRise(Step(s, ks[0]), ks[1..], n + 1);
      RisingFrom(more, n);
      Empty(more);
    }
  }

  lemma RisingFrom(more: seq<nat>, n: nat)
    requires Rising(more, n + 1)
    ensures Rising(more, n) && Rising([n] + more, n)
  {}

  // ----- The object -----

  class WallclockTimer {
    var elapsedTime: int
    var previousTime: int
    var timeoutTime: int
    var tick: bool

    function Abstract(): Timer
      reads this
    {
      Timer(elapsedTime, previousTime, timeoutTime, tick)
    }

    constructor (timeout: int, now: int)
      ensures Abstract() == Timer(0, now, timeout, false)
    {
      elapsedTime, previousTime, timeoutTime, tick := 0, now, timeout, false;
    }

    method IncrementTimer(k: Tick)
      modifies this
      ensures Abstract() == Increment(old(Abstract()), k)
    {
      if tick {
        elapsedTime := elapsedTime + (k.since - previousTime);
        previousTime := k.again;
      }
    }

    /** One tick; `fired` says whether something was sent on the done channel. */
    method Turn(k: Tick) returns (fired: bool)
      modifies this
      ensures Abstract() == Step(old(Abstract()), k) && fired == Fires(old(Abstract()), k)
    {
      IncrementTimer(k);
      match k.cmd {
        case Some(Reset) => tick, elapsedTime := false, 0;
        case Some(Start) => tick, elapsedTime, previousTime := true, 0, k.handled;
        case Some(Stop) => tick := false;
        case Some(Resume) => tick, previousTime := true, k.handled;
        case _ =>
      }
      fired := elapsedTime > timeoutTime;
      if fired {
        tick := false;
        elapsedTime := timeoutTime;
      }
    }

    /** The ticker loop. */
    method TimerTicker(ks: seq<Tick>) returns (fired: seq<nat>)
      modifies this
      ensures Abstract() == Run(old(Abstract()), ks)
      ensures fired == Firings(old(Abstract()), ks, 0)
    {
      fired := [];
      ghost var start := Abstract();
      assert ks[0..] == ks;
      Empty(Firings(start, ks, 0));
      for n := 0 to |ks|
        invariant Run(Abstract(), ks[n..]) == Run(start, ks)
        invariant fired + Firings(Abstract(), ks[n..], n) == Firings(start, ks, 0)
      {
        ghost var before := Abstract();
        assert ks[n..][1..] == ks[n + 1..];
        var fires := Turn(ks[n]);
        ghost var more := Firings(Abstract(), ks[n + 1..], n + 1);
        Assoc(fired, if fires then [n] else [], more);
        if fires {
          fired := fired + [n];
        } else {
          Empty(fired);
        }
      }
      Empty(fired);
    }
  }

  // ----- A stopwatch that loses nothing -----

  /** Running since a time, with what it had run before. */
  datatype Watch = Watch(running: bool, began: int, before: int)

  /** The running time at a moment since the last start or reset. */
  function RunningTime(w: Watch, now: int): int {
    w.before + if w.running then now - w.began else 0
  }

  function Pressed(w: Watch, cmd: Option<Command>, now: int): Watch {
    match cmd
    case Some(Reset) => Watch(false, now, 0)
    case Some(Start) => Watch(true, now, 0)
    case Some(Stop) => Watch(false, now, RunningTime(w, now))
    case Some(Resume) => Watch(true, now, RunningTime(w, now))
    case _ => w
  }

  /** Firing stops the watch as well. */
  function WatchStep(w: Watch, s: Timer, k: Tick): Watch {
    var w' := Pressed(w, k.cmd, k.handled);
    if Fires(s, k) then Pressed(w', Some(Stop), k.handled) else w'
  }

  function WatchRun(w: Watch, s: Timer, ks: seq<Tick>): Watch
    decreases |ks|
  {
    if ks == [] then w else WatchRun(WatchStep(w, s, ks[0]), Step(s, ks[0]), ks[1..])
  }

  /** What a tick leaves out of the sum: the time between the two readings; the time from
      the second until a stop, a resume or a firing; and the excess when it fires. */
  function Missed(s: Timer, k: Tick): int {
    (if s.tick then k.again - k.since else 0) +
    (if s.tick && (k.cmd in {Some(Stop), Some(Resume)} || Fires(s, k)) then k.handled - k.again else 0) +
    (if Fires(s, k) then Increment(s, k).elapsed - s.timeout else 0)
  }

  function MissedRun(missed: int, s: Timer, ks: seq<Tick>): int
    decreases |ks|
  {
    if ks == [] then missed
    else
      var m := if ks[0].cmd in {Some(Start), Some(Reset)} then 0 else missed + Missed(s, ks[0]);
      MissedRun(m, Step(s, ks[0]), ks[1..])
  }

  /** Every nanosecond of running time was either counted or missed. */
  ghost predicate Inv(s: Timer, w: Watch, missed: int, now: int) {
    && s.tick == w.running
    && 0 <= s.elapsed <= s.timeout
    && 0 <= missed
    && (s.tick ==> s.previous <= now)
    && s.elapsed + missed == (if s.tick then RunningTime(w, s.previous) else w.before)
  }

  lemma StepKeeps(s: Timer, w: Watch, missed: int, now: int, k: Tick)
    requires Inv(s, w, missed, now) && now <= k.since <= k.again <= k.handled
    ensures Inv(Step(s, k), WatchStep(w, s, k),
                if k.cmd in {Some(Start), Some(Reset)} then 0 else missed + Missed(s, k), k.handled)
    ensures Step(s, k).timeout == s.timeout
  {}

  /** Over every run of ticks and commands: elapsed is between 0 and the timeout at every
      tick boundary, and the running time since the last start or reset is exactly what
      was counted plus what was missed. */
  lemma {:induction false} RunKeeps(s: Timer, w: Watch, missed: int, now: int, ks: seq<Tick>)
    requires Inv(s, w, missed, now) && Monotone(now, ks)
    ensures Inv(Run(s, ks), WatchRun(w, s, ks), MissedRun(missed, s, ks), if ks == [] then now else ks[|ks| - 1].handled)
    ensures Run(s, ks).timeout == s.timeout
    decreases |ks|
  {
    if ks != [] {
      StepKeeps(s, w, missed, now, ks[0]);
      var m := if ks[0].cmd in {Some(Start), Some(Reset)} then 0 else missed + Missed(s, ks[0]);
      RunKeeps(Step(s, ks[0]), WatchStep(w, s, ks[0]), m, ks[0].handled, ks[1..]);
    }
  }

  /** When it fires, exactly: at a tick that finds it running, with no start or reset
      queued, once the running time less what was missed exceeds the timeout.  So it
      never fires early. */
  lemma FiresExactly(s: Timer, w: Watch, missed: int, now: int, k: Tick)
    requires Inv(s, w, missed, now) && now <= k.since <= k.again <= k.handled
    ensures Fires(s, k) <==>
      w.running && k.cmd !in {Some(Start), Some(Reset)} && RunningTime(w, k.since) - missed > s.timeout
    ensures Fires(s, k) ==> RunningTime(w, k.handled) >= RunningTime(w, k.since) > s.timeout
  {}

  /** The same of the whole life of a new timer, whatever the commands were. */
  lemma NeverEarly(timeout: int, now: int, ks: seq<Tick>, k: Tick)
    requires timeout >= 0 && Monotone(now, ks + [k])
    ensures var s0, w0 := Timer(0, now, timeout, false), Watch(false, now, 0);
            var s, w := Run(s0, ks), WatchRun(w0, s0, ks);
            && 0 <= s.elapsed <= timeout
            && (Fires(s, k) ==> RunningTime(w, k.since) > timeout)
            && (Fires(s, k) <==> w.running && k.cmd !in {Some(Start), Some(Reset)} &&
                                 RunningTime(w, k.since) - MissedRun(0, s0, ks) > timeout)
  {
    var s0, w0 := Timer(0, now, timeout, false), Watch(false, now, 0);
    MonotoneSplit(now, ks, k);
    RunKeeps(s0, w0, 0, now, ks);
    FiresExactly(Run(s0, ks), WatchRun(w0, s0, ks), MissedRun(0, s0, ks),
                 if ks == [] then now else ks[|ks| - 1].handled, k);
  }

  lemma {:induction false} MonotoneSplit(now: int, ks: seq<Tick>, k: Tick)
    requires Monotone(now, ks + [k])
    ensures Monotone(now, ks)
    ensures (if ks == [] then now else ks[|ks| - 1].handled) <= k.since <= k.again <= k.handled
    decreases |ks|
  {
    if ks != [] {
      assert (ks + [k])[1..] == ks[1..] + [k];
      MonotoneSplit(ks[0].handled, ks[1..], k);
    }
  }

  // ----- Firing again -----

  predicate Restarts(k: Tick) { k.cmd in {Some(Start), Some(Resume)} }

  /** A timer that is not running fires again only after a start or a resume. */
  lemma {:induction false} SilentUntilRestart(s: Timer, ks: seq<Tick>, j: nat)
    requires !s.tick && 0 <= s.elapsed <= s.timeout && j < |ks| && FiresAt(s, ks, j)
    ensures exists i :: 0 <= i < j && Restarts(ks[i])
    decreases |ks|
  {
    if j > 0 {
      if Restarts(ks[0]) {
      } else {
        SilentUntilRestart(Step(s, ks[0]), ks[1..], j - 1);
        var i :| 0 <= i < j - 1 && Restarts(ks[1..][i]);
        assert Restarts(ks[i + 1]);
      }
    }
  }

  /** Between two firings there is a tick that handled a start or a resume. */
  lemma {:induction false} RestartBetweenFirings(s: Timer, ks: seq<Tick>, i: nat, j: nat)
    requires s.timeout >= 0 && i < j < |ks| && FiresAt(s, ks, i) && FiresAt(s, ks, j)
    ensures exists n :: i < n < j && Restarts(ks[n])
    decreases |ks|
  {
    var s1 := Step(s, ks[0]);
    if i == 0 {
      SilentUntilRestart(s1, ks[1..], j - 1);
      var n :| 0 <= n < j - 1 && Restarts(ks[1..][n]);
      assert Restarts(ks[n + 1]);
    } else {
      RestartBetweenFirings(s1, ks[1..], i - 1, j - 1);
      var n :| i - 1 < n < j - 1 && Restarts(ks[1..][n]);
      assert Restarts(ks[n + 1]);
    }
  }
}
