/**
 The mock clock: moving it forward runs the timers that fall due, earliest first.
 Callbacks do not touch it.  Which of several timers due at once goes first is open.
 */
module MockClock {
  import opened Sequences

  datatype Kind = Once | Every(d: int)

  datatype ClockTimer = ClockTimer(id: nat, next: int, kind: Kind)
  {
    predicate Sound() { kind.Every? ==> kind.d > 0 }

    /** A due ticker with no period keeps the clock from ever getting to t. */
    predicate EndsBy(t: int) { Sound() || next > t }
  }

  /** A call of Tick: whose, and at what time. */
  datatype Firing = Firing(id: nat, time: int)

  // ----- What one timer does by time t -----

  function Fires(tm: ClockTimer, t: int): (ts: seq<int>)
    requires tm.EndsBy(t)
    decreases if tm.next <= t then t - tm.next + 1 else 0
  {
    if tm.next > t then []
    else
      match tm.kind
      case Once => [tm.next]
      case Every(d) => [tm.next] + Fires(tm.(next := tm.next + d), t)
  }

  /** The timer as it is left at time t; a one-shot timer that has fired is gone. */
  function Left(tm: ClockTimer, t: int): (r: seq<ClockTimer>)
    requires tm.EndsBy(t)
    ensures |r| <= 1 && (r != [] ==> r[0].id == tm.id && r[0].kind == tm.kind && r[0].next > t)
    decreases if tm.next <= t then t - tm.next + 1 else 0
  {
    if tm.next > t then [tm]
    else
      match tm.kind
      case Once => []
      case Every(d) => Left(tm.(next := tm.next + d), t)
  }

  predicate AllEnd(ts: seq<ClockTimer>, t: int) { forall i :: 0 <= i < |ts| ==> ts[i].EndsBy(t) }

  predicate DistinctIds(ts: seq<ClockTimer>) { forall i, j :: 0 <= i < j < |ts| ==> ts[i].id != ts[j].id }

  function LeftAll(ts: seq<ClockTimer>, t: int): seq<ClockTimer>
    requires AllEnd(ts, t)
  {
    if ts == [] then [] else Left(ts[0], t) + LeftAll(ts[1..], t)
  }

  /** The firings by time t of the timers with this id. */
  function FiresOf(ts: seq<ClockTimer>, id: nat, t: int): seq<int>
    requires AllEnd(ts, t)
  {
    if ts == [] then []
    else (if ts[0].id == id then Fires(ts[0], t) else []) + FiresOf(ts[1..], id, t)
  }

  function TimesOf(log: seq<Firing>, id: nat): seq<int> {
    if log == [] then []
    else
      var n := |log| - 1;
      TimesOf(log[..n], id) + if log[n].id == id then [log[n].time] else []
  }

  /** How many firings are still due: what the loops of Add and Set use up. */
  function TotalDue(ts: seq<ClockTimer>, t: int): nat
    requires AllEnd(ts, t)
  {
    if ts == [] then 0 else |Fires(ts[0], t)| + TotalDue(ts[1..], t)
  }

  /** The i-th timer has ticked. */
  function Ticked(ts: seq<ClockTimer>, i: nat): seq<ClockTimer>
    requires i < |ts|
  {
    match ts[i].kind
    case Once => ts[..i] + ts[i + 1..]
    case Every(d) => ts[i := ts[i].(next := ts[i].next + d)]
  }

  lemma TickedTail(ts: seq<ClockTimer>, i: nat)
    requires 0 < i < |ts|
    ensures Ticked(ts, i) != [] && Ticked(ts, i)[0] == ts[0] && Ticked(ts, i)[1..] == Ticked(ts[1..], i - 1)
  {
    match ts[i].kind
    case Once => assert (ts[..i] + ts[i + 1..])[1..] == ts[1..][..i - 1] + ts[1..][i..];
    case Every(d) =>
      var tm := ts[i].(next := ts[i].next + d);
      assert ts[i := tm][1..] == ts[1..][i - 1 := tm];
  }

  lemma TickedEnd(ts: seq<ClockTimer>, i: nat, t: int)
    requires i < |ts| && AllEnd(ts, t) && ts[i].next <= t
    ensures AllEnd(Ticked(ts, i), t)
  {}

  /** Where the j-th timer after a tick came from. */
  function Origin(ts: seq<ClockTimer>, i: nat, j: nat): nat
    requires i < |ts|
  {
    if ts[i].kind.Once? && j >= i then j + 1 else j
  }

  lemma TickedFrom(ts: seq<ClockTimer>, i: nat, j: nat)
    requires i < |ts| && ts[i].Sound() && j < |Ticked(ts, i)|
    ensures var k := Origin(ts, i, j);
            k < |ts| && Ticked(ts, i)[j].id == ts[k].id && ts[k].next <= Ticked(ts, i)[j].next
  {}

  lemma TickedDistinct(ts: seq<ClockTimer>, i: nat)
    requires i < |ts| && DistinctIds(ts) && ts[i].Sound()
    ensures DistinctIds(Ticked(ts, i))
  {
    forall j, k | 0 <= j < k < |Ticked(ts, i)| ensures Ticked(ts, i)[j].id != Ticked(ts, i)[k].id {
      TickedFrom(ts, i, j);
      TickedFrom(ts, i, k);
    }
  }

  /** A tick changes neither what is left in the end, nor what each timer fires in all. */
  lemma {:induction false} TickKeepsOutcome(ts: seq<ClockTimer>, i: nat, t: int)
    requires i < |ts| && AllEnd(ts, t) && ts[i].next <= t
    ensures AllEnd(Ticked(ts, i), t)
    ensures LeftAll(Ticked(ts, i), t) == LeftAll(ts, t)
    ensures TotalDue(Ticked(ts, i), t) == TotalDue(ts, t) - 1
  {
    TickedEnd(ts, i, t);
    if i == 0 {
      if ts[0].kind.Once? {
        assert Ticked(ts, 0) == ts[1..];
        Empty(LeftAll(ts[1..], t));
      } else {
        assert Ticked(ts, 0)[1..] == ts[1..];
      }
    } else {
      TickedTail(ts, i);
      TickKeepsOutcome(ts[1..], i - 1, t);
    }
  }

  lemma {:induction false} TickFires(ts: seq<ClockTimer>, i: nat, id: nat, t: int)
    requires i < |ts| && AllEnd(ts, t) && DistinctIds(ts) && ts[i].next <= t
    ensures AllEnd(Ticked(ts, i), t)
    ensures FiresOf(ts, id, t) == (if ts[i].id == id then [ts[i].next] else []) + FiresOf(Ticked(ts, i), id, t)
  {
    TickedEnd(ts, i, t);
    var rest := ts[1..];
    if i == 0 {
      Empty(FiresOf(Ticked(ts, i), id, t));
      if ts[0].kind.Once? {
        assert Ticked(ts, 0) == rest;
        Empty(FiresOf(rest, id, t));
      } else {
        assert Ticked(ts, 0)[1..] == rest;
        if ts[0].id == id { Assoc([ts[0].next], Fires(Ticked(ts, 0)[0], t), FiresOf(rest, id, t)); }
      }
    } else {
      TickedTail(ts, i);
      TickFires(rest, i - 1, id, t);
      var more := FiresOf(Ticked(rest, i - 1), id, t);
      if ts[0].id == id {
        Empty(more);
      } else {
        Empty(FiresOf(rest, id, t));
        Empty(more);
      }
    }
  }

  lemma {:induction false} NothingDue(ts: seq<ClockTimer>, t: int)
    requires forall i :: 0 <= i < |ts| ==> ts[i].next > t
    ensures AllEnd(ts, t) && LeftAll(ts, t) == ts
    ensures forall id :: FiresOf(ts, id, t) == []
  {
    if ts != [] {
      NothingDue(ts[1..], t);
      assert [ts[0]] + ts[1..] == ts;
      forall id ensures FiresOf(ts, id, t) == [] { assert FiresOf(ts[1..], id, t) == []; }
    }
  }

  // ----- A move of the clock under way -----

  predicate InOrder(log: seq<Firing>) { forall i, j :: 0 <= i < j < |log| ==> log[i].time <= log[j].time }

  predicate AllBy(fired: seq<Firing>, t: int) { forall i :: 0 <= i < |fired| ==> fired[i].time <= t }

  predicate Before(fired: seq<Firing>, ts: seq<ClockTimer>) {
    forall i, j :: 0 <= i < |fired| && 0 <= j < |ts| ==> fired[i].time <= ts[j].next
  }

  predicate Earliest(ts: seq<ClockTimer>, i: nat) {
    i < |ts| && forall j :: 0 <= j < |ts| ==> ts[i].next <= ts[j].next
  }

  /** Every timer's firings are those that happened and those still to come. */
  ghost predicate Accounted(start: seq<ClockTimer>, fired: seq<Firing>, ts: seq<ClockTimer>, t: int)
    requires AllEnd(start, t) && AllEnd(ts, t)
  {
    forall id :: FiresOf(start, id, t) == TimesOf(fired, id) + FiresOf(ts, id, t)
  }

  /** From these timers the clock has got as far as those, on its way to t. */
  ghost predicate Moving(start: seq<ClockTimer>, fired: seq<Firing>, ts: seq<ClockTimer>, t: int) {
    && AllEnd(start, t) && AllEnd(ts, t) && DistinctIds(ts)
    && InOrder(fired) && Before(fired, ts) && AllBy(fired, t)
    && LeftAll(ts, t) == LeftAll(start, t)
    && Accounted(start, fired, ts, t)
  }

  lemma MoveStarts(ts: seq<ClockTimer>, t: int)
    requires AllEnd(ts, t) && DistinctIds(ts)
    ensures Moving(ts, [], ts, t)
  {
    forall id ensures FiresOf(ts, id, t) == TimesOf([], id) + FiresOf(ts, id, t) {
      Empty(FiresOf(ts, id, t));
    }
  }

  lemma MoveTicks(start: seq<ClockTimer>, fired: seq<Firing>, ts: seq<ClockTimer>, i: nat, t: int)
    requires Moving(start, fired, ts, t) && Earliest(ts, i) && ts[i].next <= t
    ensures Moving(start, fired + [Firing(ts[i].id, ts[i].next)], Ticked(ts, i), t)
    ensures TotalDue(Ticked(ts, i), t) < TotalDue(ts, t)
  {
    TickKeepsOutcome(ts, i, t);
    AccountedTick(start, fired, ts, i, t);
    TickedDistinct(ts, i);
    TickInOrder(fired, ts, i, t);
  }

  lemma TickInOrder(fired: seq<Firing>, ts: seq<ClockTimer>, i: nat, t: int)
    requires InOrder(fired) && Before(fired, ts) && AllBy(fired, t)
    requires Earliest(ts, i) && ts[i].Sound() && ts[i].next <= t
    ensures var all := fired + [Firing(ts[i].id, ts[i].next)];
            InOrder(all) && Before(all, Ticked(ts, i)) && AllBy(all, t)
  {
    forall j | 0 <= j < |Ticked(ts, i)|
      ensures ts[i].next <= Ticked(ts, i)[j].next && forall a :: 0 <= a < |fired| ==> fired[a].time <= Ticked(ts, i)[j].next
    {
      TickedFrom(ts, i, j);
    }
  }

  lemma AccountedTick(start: seq<ClockTimer>, fired: seq<Firing>, ts: seq<ClockTimer>, i: nat, t: int)
    requires AllEnd(start, t) && AllEnd(ts, t) && DistinctIds(ts) && Accounted(start, fired, ts, t)
    requires i < |ts| && ts[i].next <= t
    ensures AllEnd(Ticked(ts, i), t) && Accounted(start, fired + [Firing(ts[i].id, ts[i].next)], Ticked(ts, i), t)
  {
    var f := Firing(ts[i].id, ts[i].next);
    TickedEnd(ts, i, t);
    forall id ensures FiresOf(start, id, t) == TimesOf(fired + [f], id) + FiresOf(Ticked(ts, i), id, t) {
      TickFires(ts, i, id, t);
      TimesOfConcat(fired, [f], id);
      Assoc(TimesOf(fired, id), TimesOf([f], id), FiresOf(Ticked(ts, i), id, t));
    }
  }

  lemma {:induction false} TimesOfConcat(a: seq<Firing>, b: seq<Firing>, id: nat)
    ensures TimesOf(a + b, id) == TimesOf(a, id) + TimesOf(b, id)
  {
    if b == [] {
      Empty(a);
      Empty(TimesOf(a, id));
    } else {
      var n := |b| - 1;
      assert (a + b)[..|a| + n] == a + b[..n];
      TimesOfConcat(a, b[..n], id);
      Assoc(TimesOf(a, id), TimesOf(b[..n], id), if b[n].id == id then [b[n].time] else []);
    }
  }

  lemma MoveEnds(start: seq<ClockTimer>, fired: seq<Firing>, ts: seq<ClockTimer>, t: int)
    requires Moving(start, fired, ts, t) && forall i :: 0 <= i < |ts| ==> ts[i].next > t
    ensures ts == LeftAll(start, t)
    ensures forall id :: TimesOf(fired, id) == FiresOf(start, id, t)
  {
    NothingDue(ts, t);
    forall id ensures TimesOf(fired, id) == FiresOf(start, id, t) {
      Empty(TimesOf(fired, id));
    }
  }

  // ----- When a move ends -----

  /** Rounds of runNextTimer on the way to t, by the timers they run. */
  predicate Rounds(ts: seq<ClockTimer>, t: int, ran: seq<nat>)
    decreases |ran|
  {
    ran == [] || (Earliest(ts, ran[0]) && ts[ran[0]].next <= t && Rounds(Ticked(ts, ran[0]), t, ran[1..]))
  }

  ghost predicate Ends(ts: seq<ClockTimer>, t: int) {
    exists most: nat :: RoundsAtMost(ts, t, most)
  }

  ghost predicate RoundsAtMost(ts: seq<ClockTimer>, t: int, most: nat) {
    forall ran :: Rounds(ts, t, ran) ==> |ran| <= most
  }

  /** The loops of Add and Set end, whatever the order of timers due at one time, if and
      only if no ticker without a positive period is due by then. */
  lemma MoveEndsIff(ts: seq<ClockTimer>, t: int)
    ensures Ends(ts, t) <==> AllEnd(ts, t)
  {
    if AllEnd(ts, t) {
      forall ran | Rounds(ts, t, ran) ensures |ran| <= TotalDue(ts, t) {
        RoundsUseFirings(ts, t, ran);
      }
      assert RoundsAtMost(ts, t, TotalDue(ts, t));
    } else {
      forall most: nat ensures !RoundsAtMost(ts, t, most) {
        var ran := EndlessRounds(ts, t, most + 1);
      }
    }
  }

  lemma {:induction false} RoundsUseFirings(ts: seq<ClockTimer>, t: int, ran: seq<nat>)
    requires AllEnd(ts, t) && Rounds(ts, t, ran)
    ensures |ran| <= TotalDue(ts, t)
    decreases |ran|
  {
    if ran != [] {
      TickKeepsOutcome(ts, ran[0], t);
      RoundsUseFirings(Ticked(ts, ran[0]), t, ran[1..]);
    }
  }

  lemma {:induction false} EarliestExists(ts: seq<ClockTimer>) returns (i: nat)
    requires ts != []
    ensures Earliest(ts, i)
  {
    i := 0;
    if |ts| > 1 {
      var k := EarliestExists(ts[1..]);
      i := if ts[0].next <= ts[k + 1].next then 0 else k + 1;
      assert forall j :: 1 <= j < |ts| ==> ts[1..][j - 1] == ts[j];
    }
  }

  /** A due ticker without a positive period stays one, whichever timer ticks. */
  lemma StaysDue(ts: seq<ClockTimer>, i: nat, t: int)
    requires i < |ts| && !AllEnd(ts, t)
    ensures !AllEnd(Ticked(ts, i), t)
  {
    var k :| 0 <= k < |ts| && !ts[k].EndsBy(t);
    var j := if ts[i].kind.Once? && k > i then k - 1 else k;
    assert !Ticked(ts, i)[j].EndsBy(t);
  }

  lemma {:induction false} EndlessRounds(ts: seq<ClockTimer>, t: int, n: nat) returns (ran: seq<nat>)
    requires !AllEnd(ts, t)
    ensures Rounds(ts, t, ran) && |ran| == n
    decreases n
  {
    ran := [];
    if n > 0 {
      var k :| 0 <= k < |ts| && !ts[k].EndsBy(t);
      var i := EarliestExists(ts);
      StaysDue(ts, i, t);
      var more := EndlessRounds(Ticked(ts, i), t, n - 1);
      ran := [i] + more;
      assert ran[1..] == more;
    }
  }

  // ----- One timer, over several moves -----

  /** What a timer has become after the clock was moved to these times. */
  function LeftOver(tm: seq<ClockTimer>, stages: seq<int>): (r: seq<ClockTimer>)
    requires EndsOver(tm, stages)
    ensures |r| <= |tm|
    decreases |stages|
  {
    if stages == [] || tm == [] then tm else LeftOver(Left(tm[0], stages[0]), stages[1..])
  }

  predicate EndsOver(tm: seq<ClockTimer>, stages: seq<int>)
    decreases |stages|
  {
    |tm| <= 1 && (stages == [] || tm == [] ||
                  (tm[0].EndsBy(stages[0]) && EndsOver(Left(tm[0], stages[0]), stages[1..])))
  }

  /** Its firings over all of them. */
  function FiresOver(tm: seq<ClockTimer>, stages: seq<int>): seq<int>
    requires EndsOver(tm, stages)
    decreases |stages|
  {
    if stages == [] || tm == [] then []
    else Fires(tm[0], stages[0]) + FiresOver(Left(tm[0], stages[0]), stages[1..])
  }

  function FiresBy(tm: seq<ClockTimer>, t: int): seq<int>
    requires |tm| <= 1 && AllEnd(tm, t)
  {
    if tm == [] then [] else Fires(tm[0], t)
  }

  function LeftBy(tm: seq<ClockTimer>, t: int): seq<ClockTimer>
    requires |tm| <= 1 && AllEnd(tm, t)
  {
    if tm == [] then [] else Left(tm[0], t)
  }

  lemma {:induction false} OneMoreStage(tm: seq<ClockTimer>, stages: seq<int>, t: int)
    requires EndsOver(tm, stages) && AllEnd(LeftOver(tm, stages), t)
    ensures EndsOver(tm, stages + [t])
    ensures FiresOver(tm, stages + [t]) == FiresOver(tm, stages) + FiresBy(LeftOver(tm, stages), t)
    ensures LeftOver(tm, stages + [t]) == LeftBy(LeftOver(tm, stages), t)
    decreases |stages|
  {
    if tm == [] {
    } else if stages == [] {
      assert ([] + [t])[1..] == [];
      Empty(Fires(tm[0], t));
    } else {
      var left := Left(tm[0], stages[0]);
      OneMoreStage(left, stages[1..], t);
      assert (stages + [t])[1..] == stages[1..] + [t];
      Assoc(Fires(tm[0], stages[0]), FiresOver(left, stages[1..]), FiresBy(LeftOver(left, stages[1..]), t));
    }
  }

  // ----- One timer among others -----

  /** The timer with this id, if it is there. */
  function Find(ts: seq<ClockTimer>, id: nat): (r: seq<ClockTimer>)
    ensures |r| <= 1 && forall t :: AllEnd(ts, t) ==> AllEnd(r, t)
  {
    if ts == [] then [] else if ts[0].id == id then [ts[0]] else Find(ts[1..], id)
  }

  lemma {:induction false} FindsIt(ts: seq<ClockTimer>, i: nat)
    requires i < |ts| && DistinctIds(ts)
    ensures Find(ts, ts[i].id) == [ts[i]]
  {
    if i > 0 {
      FindsIt(ts[1..], i - 1);
    }
  }

  lemma {:induction false} FindsNone(ts: seq<ClockTimer>, id: nat)
    requires forall i :: 0 <= i < |ts| ==> ts[i].id != id
    ensures Find(ts, id) == []
  {
    if ts != [] {
      FindsNone(ts[1..], id);
    }
  }

  lemma SameFound(ts: seq<ClockTimer>, ts': seq<ClockTimer>, id: nat)
    requires DistinctIds(ts) && DistinctIds(ts') && forall tm: ClockTimer :: tm.id == id ==> (tm in ts <==> tm in ts')
    ensures Find(ts, id) == Find(ts', id)
  {
    if i :| 0 <= i < |ts| && ts[i].id == id {
      assert ts[i] in ts';
      var j :| 0 <= j < |ts'| && ts'[j] == ts[i];
      FindsIt(ts, i);
      FindsIt(ts', j);
    } else {
      FindsNone(ts, id);
      forall j | 0 <= j < |ts'| ensures ts'[j].id != id { assert ts'[j] in ts'; }
      FindsNone(ts', id);
    }
  }

  /** What happens to a timer does not depend on the others. */
  lemma {:induction false} FiresOfFound(ts: seq<ClockTimer>, id: nat, t: int)
    requires AllEnd(ts, t) && DistinctIds(ts)
    ensures FiresOf(ts, id, t) == FiresBy(Find(ts, id), t)
  {
    if ts != [] {
      if ts[0].id == id {
        FindsNone(ts[1..], id);
        FiresOfFound(ts[1..], id, t);
        Empty(Fires(ts[0], t));
      } else {
        FiresOfFound(ts[1..], id, t);
        Empty(FiresOf(ts[1..], id, t));
      }
    }
  }

  lemma {:induction false} LeftAllIds(ts: seq<ClockTimer>, t: int, id: nat)
    requires AllEnd(ts, t) && forall i :: 0 <= i < |ts| ==> ts[i].id != id
    ensures forall i :: 0 <= i < |LeftAll(ts, t)| ==> LeftAll(ts, t)[i].id != id
  {
    if ts != [] {
      LeftAllIds(ts[1..], t, id);
    }
  }

  lemma {:induction false} FoundIsLeft(ts: seq<ClockTimer>, id: nat, t: int)
    requires AllEnd(ts, t) && DistinctIds(ts)
    ensures Find(LeftAll(ts, t), id) == LeftBy(Find(ts, id), t)
  {
    if ts != [] {
      var first, rest := Left(ts[0], t), LeftAll(ts[1..], t);
      FoundIsLeft(ts[1..], id, t);
      if ts[0].id == id && first == [] {
        Empty(rest);
        LeftAllIds(ts[1..], t, id);
        FindsNone(rest, id);
      } else if first == [] {
        Empty(rest);
      } else {
        assert (first + rest)[1..] == rest;
      }
    }
  }

  // ----- The clock -----

  /** What became of a timer: as it was made and when, the times the clock was moved to
      from then on, and whether it was stopped. */
  datatype Record = Record(tm: ClockTimer, created: int, stages: seq<int>, stopped: bool)

  function LastStage(r: Record): int { if r.stages == [] then r.created else r.stages[|r.stages| - 1] }

  function Moved(r: Record, t: int): Record { if r.stopped then r else r.(stages := r.stages + [t]) }

  /** A timer's part of the log, and what is left of it, are what it would do alone. */
  ghost predicate Recorded(r: Record, id: nat, log: seq<Firing>, ts: seq<ClockTimer>, now: int) {
    && r.tm.id == id && EndsOver([r.tm], r.stages)
    && (r.tm.kind.Every? ==> r.tm.next == r.created + r.tm.kind.d)
    && TimesOf(log, id) == FiresOver([r.tm], r.stages)
    && Find(ts, id) == (if r.stopped then [] else LeftOver([r.tm], r.stages))
    && (!r.stopped ==> now == LastStage(r))
  }

  lemma RecordedMove(r: Record, id: nat, log: seq<Firing>, fired: seq<Firing>, ts: seq<ClockTimer>, now: int, t: int)
    requires Recorded(r, id, log, ts, now) && AllEnd(ts, t) && DistinctIds(ts)
    requires TimesOf(fired, id) == FiresOf(ts, id, t)
    ensures Recorded(Moved(r, t), id, log + fired, LeftAll(ts, t), t)
  {
    FiresOfFound(ts, id, t);
    FoundIsLeft(ts, id, t);
    TimesOfConcat(log, fired, id);
    if r.stopped {
      Empty(TimesOf(log, id));
    } else {
      OneMoreStage([r.tm], r.stages, t);
    }
  }

  lemma {:induction false} NotInLog(log: seq<Firing>, id: nat)
    requires forall i :: 0 <= i < |log| ==> log[i].id != id
    ensures TimesOf(log, id) == []
  {
    if log != [] {
      NotInLog(log[..|log| - 1], id);
    }
  }

  lemma {:induction false} FindInLonger(ts: seq<ClockTimer>, tm: ClockTimer, id: nat)
    ensures tm.id != id ==> Find(ts + [tm], id) == Find(ts, id)
    ensures tm.id == id && (forall i :: 0 <= i < |ts| ==> ts[i].id != id) ==> Find(ts + [tm], id) == [tm]
  {
    if ts == [] {
      assert ([] + [tm])[1..] == [];
    } else {
      assert (ts + [tm])[1..] == ts[1..] + [tm];
      FindInLonger(ts[1..], tm, id);
    }
  }

  // ----- The log as a whole -----

  /** Everything logged is in time order and past, and what is to come is not. */
  ghost predicate Steady(log: seq<Firing>, ts: seq<ClockTimer>, now: int) {
    InOrder(log) && AllBy(log, now) && forall i :: 0 <= i < |ts| ==> ts[i].next >= now
  }

  lemma {:induction false} FiresFrom(tm: ClockTimer, t: int, x: int)
    requires tm.EndsBy(t) && x in Fires(tm, t)
    ensures x >= tm.next
    decreases if tm.next <= t then t - tm.next + 1 else 0
  {
    if tm.kind.Every? && x != tm.next {
      FiresFrom(tm.(next := tm.next + tm.kind.d), t, x);
    }
  }

  lemma {:induction false} FiresOfFrom(ts: seq<ClockTimer>, id: nat, t: int, now: int, x: int)
    requires AllEnd(ts, t) && (forall i :: 0 <= i < |ts| ==> ts[i].next >= now) && x in FiresOf(ts, id, t)
    ensures x >= now
  {
    if x in FiresOf(ts[1..], id, t) {
      FiresOfFrom(ts[1..], id, t, now, x);
    } else {
      FiresFrom(ts[0], t, x);
    }
  }

  lemma {:induction false} InTimes(log: seq<Firing>, i: nat)
    requires i < |log|
    ensures log[i].time in TimesOf(log, log[i].id)
    decreases |log|
  {
    if i < |log| - 1 {
      InTimes(log[..|log| - 1], i);
    }
  }

  /** A move forward adds what is later than all before it. */
  lemma SteadyMove(log: seq<Firing>, fired: seq<Firing>, ts: seq<ClockTimer>, now: int, t: int)
    requires Steady(log, ts, now) && AllEnd(ts, t) && now <= t
    requires InOrder(fired) && AllBy(fired, t) && forall id :: TimesOf(fired, id) == FiresOf(ts, id, t)
    ensures InOrder(log + fired) && AllBy(log + fired, t)
  {
    forall i | 0 <= i < |fired| ensures fired[i].time >= now {
      InTimes(fired, i);
      FiresOfFrom(ts, fired[i].id, t, now, fired[i].time);
    }
  }

  class Mock {
    var now: int
    var timers: seq<ClockTimer>
    var log: seq<Firing>
    var made: nat
    ghost var records: seq<Record>
    ghost var steady: bool  // so far the clock was only moved forward, and no delay was negative

    ghost predicate Valid()
      reads this
    {
      && DistinctIds(timers) && (forall i :: 0 <= i < |timers| ==> timers[i].id < made)
      && (forall i :: 0 <= i < |log| ==> log[i].id < made)
      && |records| == made
      && (forall id :: 0 <= id < made ==> Recorded(records[id], id, log, timers, now))
      && (steady ==> Steady(log, timers, now))
    }

    constructor ()
      ensures Valid() && now == 0 && timers == [] && log == [] && made == 0 && steady
    {
      now, timers, log, made, records, steady := 0, [], [], 0, [], true;
    }

    /** Timer, After, AfterFunc */
    method Timer(d: int) returns (id: nat)
      requires Valid()
      modifies this
      ensures Valid() && id == old(made) && made == id + 1 && now == old(now) && log == old(log)
      ensures timers == old(timers) + [ClockTimer(id, now + d, Once)]
      ensures records == old(records) + [Record(ClockTimer(id, now + d, Once), now, [], false)]
      ensures steady == (old(steady) && d >= 0)
    {
      id := made;
      Append(ClockTimer(id, now + d, Once));
    }

    /** Ticker, Tick */
    method Ticker(d: int) returns (id: nat)
      requires Valid()
      modifies this
      ensures Valid() && id == old(made) && made == id + 1 && now == old(now) && log == old(log)
      ensures timers == old(timers) + [ClockTimer(id, now + d, Every(d))]
      ensures records == old(records) + [Record(ClockTimer(id, now + d, Every(d)), now, [], false)]
      ensures steady == (old(steady) && d >= 0)
    {
      id := made;
      Append(ClockTimer(id, now + d, Every(d)));
    }

    /** m.timers = append(m.timers, tm) */
    method Append(tm: ClockTimer)
      requires Valid() && tm.id == made && (tm.kind.Every? ==> tm.next == now + tm.kind.d)
      modifies this
      ensures Valid() && made == old(made) + 1 && now == old(now) && log == old(log)
      ensures timers == old(timers) + [tm] && records == old(records) + [Record(tm, now, [], false)]
      ensures steady == (old(steady) && tm.next >= now)
    {
      ghost var next := records + [Record(tm, now, [], false)];
      forall id | 0 <= id <= made ensures Recorded(next[id], id, log, timers + [tm], now) {
        FindInLonger(timers, tm, id);
        if id == made { NotInLog(log, id); }
      }
      timers := timers + [tm];
      records := next;
      made := made + 1;
      steady := steady && tm.next >= now;
    }

    /** removeClockTimer: the timer is taken out, the others stay. */
    method Remove(id: nat)
      requires Valid() && id < made
      modifies this`timers, this`records
      ensures Valid()
      ensures forall tm :: tm in timers <==> tm in old(timers) && tm.id != id
      ensures records == old(records)[id := old(records)[id].(stopped := true)]
    {
      TakeOut(id);
      ghost var next := records[id := records[id].(stopped := true)];
      forall other | 0 <= other < made ensures Recorded(next[other], other, log, timers, now)
      {
        if other == id {
          forall i | 0 <= i < |timers| ensures timers[i].id != id { assert timers[i] in timers; }
          FindsNone(timers, id);
        } else {
          SameFound(old(timers), timers, other);
        }
      }
      forall i | 0 <= i < |timers| ensures timers[i] in old(timers) { assert timers[i] in timers; }
      records := next;
    }

    method TakeOut(id: nat)
      requires DistinctIds(timers) && forall i :: 0 <= i < |timers| ==> timers[i].id < made
      modifies this`timers
      ensures DistinctIds(timers) && forall i :: 0 <= i < |timers| ==> timers[i].id < made
      ensures forall tm :: tm in timers <==> tm in old(timers) && tm.id != id
    {
      for i := 0 to |timers|
        invariant timers == old(timers) && forall j :: 0 <= j < i ==> timers[j].id != id
      {
        if timers[i].id == id {
          timers := timers[..i] + timers[i + 1..];
          return;
        }
      }
    }

    /** The front of the timers in time order. */
    method First() returns (i: nat)
      requires timers != []
      ensures Earliest(timers, i)
    {
      i := 0;
      for k := 1 to |timers|
        invariant i < |timers| && forall j :: 0 <= j < k ==> timers[i].next <= timers[j].next
      {
        var tie := *;
        if timers[k].next < timers[i].next || (timers[k].next == timers[i].next && tie) {
          i := k;
        }
      }
    }

    /** runNextTimer */
    method RunNextTimer(max: int) returns (ran: bool, ghost i: nat)
      modifies this`now, this`timers, this`log
      ensures !ran ==> timers == old(timers) && log == old(log) && now == old(now)
      ensures !ran ==> forall j :: 0 <= j < |timers| ==> timers[j].next > max
      ensures ran ==> Earliest(old(timers), i) && old(timers)[i].next <= max && timers == Ticked(old(timers), i)
      ensures ran ==> log == old(log) + [Firing(old(timers)[i].id, now)] && now == old(timers)[i].next
    {
      i := 0;
      if timers == [] { return false, 0; }
      var k := First();
      i := k;
      var t := timers[k];
      if t.next > max { return false, k; }
      now := t.next;
      log := log + [Firing(t.id, now)];
      match t.kind {
        case Once => timers := timers[..k] + timers[k + 1..];
        case Every(d) => timers := timers[k := t.(next := now + d)];
      }
      ran := true;
    }

    /** The loop of Add and of Set.  It ends because each round uses up one of the firings
        due. */
    method RunTimers(t: int) returns (ghost fired: seq<Firing>)
      requires DistinctIds(timers) && AllEnd(timers, t)
      modifies this`now, this`timers, this`log
      ensures log == old(log) + fired && InOrder(fired) && AllBy(fired, t)
      ensures DistinctIds(timers) && timers == LeftAll(old(timers), t)
      ensures forall i :: 0 <= i < |timers| ==> timers[i].next > t
      ensures forall id :: TimesOf(fired, id) == FiresOf(old(timers), id, t)
    {
      fired := [];
      Empty(log);
      MoveStarts(timers, t);
      while true
        invariant log == old(log) + fired && Moving(old(timers), fired, timers, t)
        decreases TotalDue(timers, t)
      {
        ghost var was := timers;
        ghost var i;
        var ran;
        ran, i := RunNextTimer(t);
        if !ran { break; }
        MoveTicks(old(timers), fired, was, i, t);
        Assoc(old(log), fired, [Firing(was[i].id, was[i].next)]);
        fired := fired + [Firing(was[i].id, was[i].next)];
      }
      MoveEnds(old(timers), fired, timers, t);
    }

    /** Set */
    method Set(t: int) returns (ghost fired: seq<Firing>)
      requires Valid() && AllEnd(timers, t)
      modifies this
      ensures Valid() && now == t && made == old(made)
      ensures log == old(log) + fired && InOrder(fired) && AllBy(fired, t)
      ensures timers == LeftAll(old(timers), t) && forall i :: 0 <= i < |timers| ==> timers[i].next > t
      ensures forall id :: TimesOf(fired, id) == FiresOf(old(timers), id, t)
      ensures |records| == |old(records)| && forall id :: 0 <= id < made ==> records[id] == Moved(old(records)[id], t)
      ensures steady == (old(steady) && t >= old(now)) && (steady ==> InOrder(log))
    {
      fired := RunTimers(t);
      if steady && t >= old(now) { SteadyMove(old(log), fired, old(timers), old(now), t); }
      steady := steady && t >= old(now);
      now := t;
      forall id | 0 <= id < made
        ensures Recorded(Moved(records[id], t), id, log, timers, now)
      {
        RecordedMove(records[id], id, old(log), fired, old(timers), old(now), t);
      }
      IdsKept(old(timers), fired, made, t);
      ghost var was := records;
      records := seq(|was|, id requires 0 <= id < |was| => Moved(was[id], t));
    }

    /** Add */
    method Add(d: int) returns (ghost fired: seq<Firing>)
      requires Valid() && AllEnd(timers, now + d)
      modifies this
      ensures Valid() && now == old(now) + d && made == old(made)
      ensures log == old(log) + fired && InOrder(fired) && AllBy(fired, now)
      ensures timers == LeftAll(old(timers), now) && forall i :: 0 <= i < |timers| ==> timers[i].next > now
      ensures forall id :: TimesOf(fired, id) == FiresOf(old(timers), id, now)
      ensures |records| == |old(records)| && forall id :: 0 <= id < made ==> records[id] == Moved(old(records)[id], now)
      ensures steady == (old(steady) && d >= 0) && (steady ==> InOrder(log))
    {
      fired := Set(now + d);
    }
  }

  /** Nothing but the timers themselves fires or is left. */
  lemma IdsKept(ts: seq<ClockTimer>, fired: seq<Firing>, made: nat, t: int)
    requires AllEnd(ts, t) && forall i :: 0 <= i < |ts| ==> ts[i].id < made
    requires forall id :: TimesOf(fired, id) == FiresOf(ts, id, t)
    ensures forall i :: 0 <= i < |LeftAll(ts, t)| ==> LeftAll(ts, t)[i].id < made
    ensures forall i :: 0 <= i < |fired| ==> fired[i].id < made
  {
    forall i | 0 <= i < |LeftAll(ts, t)| ensures LeftAll(ts, t)[i].id < made {
      var id := LeftAll(ts, t)[i].id;
      if id >= made { LeftAllIds(ts, t, id); }
    }
    forall i | 0 <= i < |fired| ensures fired[i].id < made {
      var id := fired[i].id;
      if id >= made {
        NoFires(ts, id, t);
        InTimes(fired, i);
      }
    }
  }

  lemma {:induction false} NoFires(ts: seq<ClockTimer>, id: nat, t: int)
    requires AllEnd(ts, t) && forall i :: 0 <= i < |ts| ==> ts[i].id != id
    ensures FiresOf(ts, id, t) == []
  {
    if ts != [] {
      NoFires(ts[1..], id, t);
    }
  }

  // ----- How often a timer fires in all -----

  /** Moving the clock in several stages fires what moving it at once would. */
  lemma {:induction false} FiresInStages(tm: ClockTimer, t1: int, t2: int)
    requires tm.Sound() && t1 <= t2
    ensures Fires(tm, t2) == Fires(tm, t1) + FiresBy(Left(tm, t1), t2)
    decreases if tm.next <= t1 then t1 - tm.next + 1 else 0
  {
    if tm.next > t1 {
      Empty(Fires(tm, t2));
    } else if tm.kind.Every? {
      var tm' := tm.(next := tm.next + tm.kind.d);
      FiresInStages(tm', t1, t2);
      Assoc([tm.next], Fires(tm', t1), FiresBy(Left(tm', t1), t2));
    } else {
      Empty([tm.next]);
    }
  }

  /** The successive positions the clock is moved to. */
  predicate Forward(from: int, stages: seq<int>)
    decreases |stages|
  {
    stages == [] || (from <= stages[0] && Forward(stages[0], stages[1..]))
  }

  lemma {:induction false} FiresOverIsFires(tm: ClockTimer, from: int, stages: seq<int>)
    requires tm.Sound() && Forward(from, stages)
    ensures EndsOver([tm], stages)
    ensures FiresOver([tm], stages) == if stages == [] then [] else Fires(tm, stages[|stages| - 1])
    decreases |stages|
  {
    if stages != [] {
      var t1, rest := stages[0], stages[1..];
      var t := stages[|stages| - 1];
      ForwardLast(from, stages);
      FiresInStages(tm, t1, t);
      var left := Left(tm, t1);
      if left != [] {
        assert left == [left[0]];
        FiresOverIsFires(left[0], t1, rest);
        assert rest != [] ==> rest[|rest| - 1] == t;
      }
    }
  }

  lemma {:induction false} ForwardLast(from: int, stages: seq<int>)
    requires stages != [] && Forward(from, stages)
    ensures from <= stages[0] <= stages[|stages| - 1]
    decreases |stages|
  {
    if |stages| > 1 {
      ForwardLast(stages[0], stages[1..]);
    }
  }

  lemma {:induction false} TickerTimes(tm: ClockTimer, t: int, k: nat)
    requires tm.Sound() && tm.kind.Every? && k < |Fires(tm, t)|
    ensures Fires(tm, t)[k] == tm.next + k * tm.kind.d
    decreases k
  {
    if k > 0 {
      TickerTimes(tm.(next := tm.next + tm.kind.d), t, k - 1);
    }
  }

  lemma {:induction false} TickerCount(tm: ClockTimer, t: int)
    requires tm.Sound() && tm.kind.Every? && t >= tm.next - tm.kind.d
    ensures var n, x := |Fires(tm, t)|, t - (tm.next - tm.kind.d);
            n * tm.kind.d <= x < n * tm.kind.d + tm.kind.d
    decreases if tm.next <= t then t - tm.next + 1 else 0
  {
    if tm.next <= t {
      var tm' := tm.(next := tm.next + tm.kind.d);
      TickerCount(tm', t);
      assert |Fires(tm, t)| == |Fires(tm', t)| + 1;
    }
  }

  lemma {:induction false} AtLeast(k: nat, d: nat)
    requires k >= 1
    ensures k * d >= d
  {
    if k > 1 {
      AtLeast(k - 1, d);
      assert k * d == (k - 1) * d + d;
    }
  }

  lemma NextMultiple(a: int, b: int, d: nat)
    requires a < b
    ensures a * d + d <= b * d
  {
    AtLeast(b - a, d);
    assert b * d == a * d + (b - a) * d;
  }

  lemma QuotientUnique(x: int, d: nat, n: int)
    requires d > 0 && n * d <= x < n * d + d
    ensures x / d == n
  {
    var q := x / d;
    QuotientBounds(x, d);
    if q > n {
      NextMultiple(n, q, d);
    } else if q < n {
      NextMultiple(q, n, d);
    }
  }

  lemma QuotientBounds(x: int, d: nat)
    requires d > 0
    ensures (x / d) * d <= x < (x / d) * d + d
  {
    assert x == (x / d) * d + x % d;
  }

  /** A ticker made at time c with period d, by itself: floor((t - c) / d) firings. */
  lemma TickerFiresFloor(id: nat, c: int, d: int, stages: seq<int>)
    requires d > 0 && Forward(c, stages)
    ensures var tm := ClockTimer(id, c + d, Every(d));
            var t := if stages == [] then c else stages[|stages| - 1];
            && EndsOver([tm], stages) && |FiresOver([tm], stages)| == (t - c) / d
            && forall k :: 0 <= k < |FiresOver([tm], stages)| ==> FiresOver([tm], stages)[k] == c + d + k * d
  {
    var tm := ClockTimer(id, c + d, Every(d));
    var t := if stages == [] then c else stages[|stages| - 1];
    if stages != [] { ForwardLast(c, stages); }
    FiresOverIsFires(tm, c, stages);
    TickerCount(tm, t);
    QuotientUnique(t - c, d, |Fires(tm, t)|);
    forall k | 0 <= k < |Fires(tm, t)| ensures Fires(tm, t)[k] == c + d + k * d {
      TickerTimes(tm, t, k);
    }
  }

  /** In every state that any sequence of Timer, Ticker, Remove, Set and Add leads to: a
      ticker made at time c with period d and never stopped has fired exactly
      floor((now - c) / d) times, the k-th time at c + (k + 1) * d, if the clock was only
      moved forward since; one that was stopped, as often as when it was. */
  lemma TickerInLog(m: Mock, id: nat, d: int)
    requires m.Valid() && id < m.made && m.records[id].tm.kind == Every(d) && d > 0
    requires Forward(m.records[id].created, m.records[id].stages)
    ensures var r, times := m.records[id], TimesOf(m.log, id);
            && |times| == (LastStage(r) - r.created) / d
            && (!r.stopped ==> |times| == (m.now - r.created) / d && |Find(m.timers, id)| == 1)
            && forall k :: 0 <= k < |times| ==> times[k] == r.created + d + k * d
  {
    TickerRecorded(m.records[id], id, d, m.log, m.timers, m.now);
  }

  lemma TickerRecorded(r: Record, id: nat, d: int, log: seq<Firing>, ts: seq<ClockTimer>, now: int)
    requires Recorded(r, id, log, ts, now) && r.tm.kind == Every(d) && d > 0 && Forward(r.created, r.stages)
    ensures var times := TimesOf(log, id);
            && |times| == (LastStage(r) - r.created) / d
            && (!r.stopped ==> LastStage(r) == now && |Find(ts, id)| == 1)
            && forall k :: 0 <= k < |times| ==> times[k] == r.created + d + k * d
  {
    assert r.tm == ClockTimer(id, r.created + d, Every(d));
    TickerFiresFloor(id, r.created, d, r.stages);
    if !r.stopped { TickerStays(r.tm, r.stages); }
  }

  lemma {:induction false} TickerStays(tm: ClockTimer, stages: seq<int>)
    requires tm.kind.Every? && EndsOver([tm], stages)
    ensures |LeftOver([tm], stages)| == 1
    decreases |stages|
  {
    if stages != [] {
      LeftTicker(tm, stages[0]);
      TickerStays(Left(tm, stages[0])[0], stages[1..]);
      assert Left(tm, stages[0]) == [Left(tm, stages[0])[0]];
    }
  }

  lemma {:induction false} LeftTicker(tm: ClockTimer, t: int)
    requires tm.kind.Every? && tm.EndsBy(t)
    ensures Left(tm, t) != []
    decreases if tm.next <= t then t - tm.next + 1 else 0
  {
    if tm.next <= t {
      LeftTicker(tm.(next := tm.next + tm.kind.d), t);
    }
  }

  /** And a one-shot timer has fired once, at its time, if the clock was moved that far
      before it was stopped, and otherwise not. */
  lemma OneShotInLog(m: Mock, id: nat)
    requires m.Valid() && id < m.made && m.records[id].tm.kind == Once
    requires Forward(m.records[id].created, m.records[id].stages)
    ensures var r := m.records[id];
            && TimesOf(m.log, id) == (if r.stages != [] && LastStage(r) >= r.tm.next then [r.tm.next] else [])
            && (!r.stopped ==> LastStage(r) == m.now)
  {
    var r := m.records[id];
    assert Recorded(r, id, m.log, m.timers, m.now);
    FiresOverIsFires(r.tm, r.created, r.stages);
  }
}
