/**
 Stacks frame by frame: every search starts from the 64 innermost frames of the
 goroutine, and traces taken at different depths of one stack overlap.
 */
module GlsTraces {
  import opened Options
  import opened Sequences
  import opened StackTags
  import opened Gls

  /** For each goroutine its stack of frames now, and before that the one from which each
      call of SetValues in progress was made, the innermost call first. */
  datatype Process = Process(sys: System, traces: map<nat, seq<seq<Frame>>>)

  /** What a goroutine does to its frames: calls and returns of functions that are no
      markers, and SetValues down to its callback and back, with its frames in between. */
  datatype Act =
    | Begin(g: nat, frames: seq<Frame>)
    | Call(g: nat, frames: seq<Frame>)
    | Ret(g: nat)
    | Set(g: nat, mgr: nat, vals: Values, frames: seq<Frame>)
    | Unset(g: nat)

  /** How many tags a trace taken of these frames shows. */
  function Seen(frames: seq<Frame>): nat { Starts(CurrentStack(frames)) }

  predicate Running(p: Process, g: nat) { g in p.sys.stacks && g in p.traces && p.traces[g] != [] }

  predicate CanDo(p: Process, a: Act) {
    match a
    case Begin(g, frames) => g !in p.sys.stacks && Marks(frames) == []
    case Call(g, frames) => Running(p, g) && Marks(frames) == []
    case Ret(g) => Running(p, g) && p.traces[g][0] != [] && p.traces[g][0][0] == Other
    case Set(g, _, vals, frames) =>
      Running(p, g) && Marks(frames) == if vals == map[] then [] else TagFrames(AcquireFrom(p.sys.pool).0)
    case Unset(g) => Running(p, g) && p.sys.stacks[g] != []
  }

  function Do(p: Process, a: Act): Process
    requires CanDo(p, a)
  {
    match a
    case Begin(g, frames) => Process(Step(p.sys, Start(g)), p.traces[g := [frames]])
    case Call(g, frames) => p.(traces := p.traces[g := [frames + p.traces[g][0]] + p.traces[g][1..]])
    case Ret(g) => p.(traces := p.traces[g := [p.traces[g][0][1..]] + p.traces[g][1..]])
    case Set(g, mgr, vals, frames) =>
      var from := p.traces[g][0];
      Process(Enter(p.sys, g, mgr, vals, Seen(from)),
              p.traces[g := [frames + from] + if vals == map[] then p.traces[g][1..] else p.traces[g]])
    case Unset(g) => Process(Leave(p.sys, g), p.traces[g := p.traces[g][1..]])
  }

  predicate CanDoAll(p: Process, acts: seq<Act>)
    decreases |acts|
  {
    acts == [] || (CanDo(p, acts[0]) && CanDoAll(Do(p, acts[0]), acts[1..]))
  }

  function DoAll(p: Process, acts: seq<Act>): Process
    requires CanDoAll(p, acts)
    decreases |acts|
  {
    if acts == [] then p else DoAll(Do(p, acts[0]), acts[1..])
  }

  const NOTHING := Process(EMPTY, map[])

  /** What GetValue returns from these frames. */
  function Found(p: Process, frames: seq<Frame>, mgr: nat, key: Key): Option<Value> {
    Lookup(FirstOf(FiledBy(p.sys, mgr), ReadFrom(CurrentStack(frames), 0)), key)
  }

  // ----- Frames -----

  lemma {:induction false} MarksConcat(a: seq<Frame>, b: seq<Frame>)
    ensures Marks(a + b) == Marks(a) + Marks(b)
  {
    if a == [] {
      Empty(b);
      Empty(Marks(b));
    } else {
      MarksConcat(a[1..], b);
      assert (a + b)[1..] == a[1..] + b;
      Assoc(if a[0].Other? then [] else [a[0]], Marks(a[1..]), Marks(b));
    }
  }

  lemma {:induction false} StartsConcat(a: seq<Frame>, b: seq<Frame>)
    ensures Starts(a + b) == Starts(a) + Starts(b)
  {
    if a == [] {
      Empty(b);
    } else {
      StartsConcat(a[1..], b);
      assert (a + b)[1..] == a[1..] + b;
    }
  }

  lemma {:induction false} StartsOfMarks(a: seq<Frame>)
    ensures Starts(a) == Starts(Marks(a))
  {
    if a != [] {
      StartsOfMarks(a[1..]);
      Empty(Marks(a[1..]));
      assert !a[0].Other? ==> Marks(a)[1..] == Marks(a[1..]);
    }
  }

  lemma {:induction false} OneStart(tag: nat)
    ensures Starts(Digits(tag)) == 0 && Starts(TagFrames(tag)) == 1
    decreases tag
  {
    StartsConcat(Digits(tag), [MarkS]);
    if tag > 0 {
      OneStart(tag / 16);
      StartsConcat(Digits(tag / 16), [Mark(tag % 16)]);
    }
  }

  lemma PrefixStarts(a: seq<Frame>, b: seq<Frame>)
    requires a <= b
    ensures Starts(a) <= Starts(b)
  {
    StartsConcat(a, b[|a|..]);
    assert a + b[|a|..] == b;
  }

  /** A trace reaches no further outwards than one taken further out. */
  lemma SeenFurtherIn(frames: seq<Frame>, from: seq<Frame>)
    ensures Seen(frames + from) <= Starts(frames) + Seen(from)
  {
    PrefixStarts(CurrentStack(frames + from), frames + CurrentStack(from));
    StartsConcat(frames, CurrentStack(from));
  }

  // ----- Nested traces -----

  /** A trace of n tags shows no more than its part up to each call and that call's own. */
  ghost predicate Nested(stack: seq<Scope>, n: nat) {
    n <= |stack| && forall i :: 0 <= i < n ==> n <= i + 1 + stack[i].seen
  }

  /** The traces from which the calls in progress were made are nested. */
  ghost predicate NestedCalls(stack: seq<Scope>) {
    stack == [] || (Nested(stack[1..], stack[0].seen) && NestedCalls(stack[1..]))
  }

  lemma {:induction false} OwnPrefix(stack: seq<Scope>, mgr: nat, m: nat, n: nat)
    requires m <= n <= |stack|
    ensures Own(stack[..m], mgr) <= Own(stack[..n], mgr)
  {
    if m > 0 {
      assert stack[..m][1..] == stack[1..][..m - 1] && stack[..n][1..] == stack[1..][..n - 1];
      OwnPrefix(stack[1..], mgr, m - 1, n - 1);
    }
  }

  /** Whatever call of the manager's own the reader's trace shows is among those reached. */
  lemma {:induction false} SeenIsReached(stack: seq<Scope>, mgr: nat, n: nat)
    requires NestedCalls(stack) && Nested(stack, n)
    ensures Own(stack[..n], mgr) <= Reached(stack, mgr, n)
  {
    if n > 0 {
      var rest, c := stack[1..], stack[0];
      assert stack[..n][0] == c && stack[..n][1..] == rest[..n - 1];
      if c.mgr == mgr {
        SeenIsReached(rest, mgr, c.seen);
        OwnPrefix(rest, mgr, n - 1, c.seen);
      } else {
        assert forall i :: 0 <= i < n - 1 ==> rest[i] == stack[i + 1];
        SeenIsReached(rest, mgr, n - 1);
        Empty(Own(rest[..n - 1], mgr));
      }
    }
  }

  // ----- The frames of a stack of calls -----

  /** The frames from which a call was made lie below its markers, and its own trace was
      taken of them. */
  predicate MadeFrom(c: Scope, frames: seq<Frame>, from: seq<Frame>) {
    var k := |frames| - |from|;
    && k >= 0 && frames[k..] == from && Marks(frames[..k]) == TagFrames(c.tag)
    && c.seen == Seen(from)
  }

  ghost predicate Traced(stack: seq<Scope>, traces: seq<seq<Frame>>) {
    && |traces| == |stack| + 1
    && if stack == [] then Marks(traces[0]) == []
       else MadeFrom(stack[0], traces[0], traces[1]) && Traced(stack[1..], traces[1..])
  }

  lemma Markers(c: Scope, frames: seq<Frame>, from: seq<Frame>) returns (inner: seq<Frame>)
    requires MadeFrom(c, frames, from)
    ensures frames == inner + from && Marks(inner) == TagFrames(c.tag)
  {
    var k := |frames| - |from|;
    inner := frames[..k];
    assert frames[..k] + frames[k..] == frames;
  }

  lemma {:induction false} TracedMarks(stack: seq<Scope>, traces: seq<seq<Frame>>)
    requires Traced(stack, traces)
    ensures Marks(traces[0]) == TagsFrames(Tags(stack)) && Starts(traces[0]) == |stack|
  {
    StartsOfMarks(traces[0]);
    if stack != [] {
      var inner := Markers(stack[0], traces[0], traces[1]);
      TracedMarks(stack[1..], traces[1..]);
      MarksConcat(inner, traces[1]);
      StartsConcat(TagFrames(stack[0].tag), Marks(traces[1]));
      StartsOfMarks(traces[1]);
      OneStart(stack[0].tag);
      assert Tags(stack)[1..] == Tags(stack[1..]);
    }
  }

  /** Traces taken of such frames are nested. */
  lemma {:induction false} TracedNested(stack: seq<Scope>, traces: seq<seq<Frame>>)
    requires Traced(stack, traces)
    ensures NestedCalls(stack) && Nested(stack, Seen(traces[0]))
  {
    if stack == [] {
      TracedMarks(stack, traces);
      PrefixStarts(CurrentStack(traces[0]), traces[0]);
    } else {
      var inner := Markers(stack[0], traces[0], traces[1]);
      var n, rest := Seen(traces[0]), stack[1..];
      TracedNested(rest, traces[1..]);
      SeenFurtherIn(inner, traces[1]);
      StartsOfMarks(inner);
      OneStart(stack[0].tag);
      forall i | 0 <= i < n ensures n <= i + 1 + stack[i].seen {
        assert i > 0 ==> stack[i] == rest[i - 1];
      }
    }
  }

  // ----- Every run -----

  ghost predicate Consistent(p: Process) {
    && Inv(p.sys) && p.traces.Keys == p.sys.stacks.Keys
    && forall g :: g in p.traces ==> Traced(p.sys.stacks[g], p.traces[g])
  }

  lemma Parts(a: seq<Frame>, b: seq<Frame>)
    ensures (a + b)[..|a|] == a && (a + b)[|a|..] == b
  {}

  lemma MadeFromParts(c: Scope, inner: seq<Frame>, from: seq<Frame>)
    requires Marks(inner) == TagFrames(c.tag) && c.seen == Seen(from)
    ensures MadeFrom(c, inner + from, from)
  {
    Parts(inner, from);
  }

  lemma MadeFromTop(c: Scope, frames: seq<Frame>, from: seq<Frame>, top: seq<Frame>)
    requires MadeFrom(c, frames, from) && Marks(top) == []
    ensures MadeFrom(c, top + frames, from)
  {
    var inner := Markers(c, frames, from);
    MarksConcat(top, inner);
    Empty(Marks(inner));
    MadeFromParts(c, top + inner, from);
    Assoc(top, inner, from);
  }

  lemma MadeFromPop(c: Scope, frames: seq<Frame>, from: seq<Frame>)
    requires MadeFrom(c, frames, from) && frames != [] && frames[0] == Other
    ensures MadeFrom(c, frames[1..], from)
  {
    var inner := Markers(c, frames, from);
    assert inner != [];
    Empty(Marks(inner[1..]));
    MadeFromParts(c, inner[1..], from);
    assert frames[1..] == inner[1..] + from;
  }

  lemma TracedTop(stack: seq<Scope>, traces: seq<seq<Frame>>, top: seq<Frame>)
    requires Traced(stack, traces) && Marks(top) == []
    ensures Traced(stack, [top + traces[0]] + traces[1..])
  {
    assert ([top + traces[0]] + traces[1..])[1..] == traces[1..];
    if stack == [] {
      MarksConcat(top, traces[0]);
    } else {
      MadeFromTop(stack[0], traces[0], traces[1], top);
    }
  }

  lemma TracedPop(stack: seq<Scope>, traces: seq<seq<Frame>>)
    requires Traced(stack, traces) && traces[0] != [] && traces[0][0] == Other
    ensures Traced(stack, [traces[0][1..]] + traces[1..])
  {
    assert ([traces[0][1..]] + traces[1..])[1..] == traces[1..];
    if stack == [] {
      Empty(Marks(traces[0][1..]));
    } else {
      MadeFromPop(stack[0], traces[0], traces[1]);
    }
  }

  lemma TracedPush(c: Scope, stack: seq<Scope>, traces: seq<seq<Frame>>, top: seq<Frame>)
    requires Traced(stack, traces) && Marks(top) == TagFrames(c.tag) && c.seen == Seen(traces[0])
    ensures Traced([c] + stack, [top + traces[0]] + traces)
  {
    var now := [top + traces[0]] + traces;
    assert now[1..] == traces && ([c] + stack)[1..] == stack;
    MadeFromParts(c, top, traces[0]);
  }

  /** The other goroutines keep their calls and their frames. */
  ghost predicate SameBeside(p: Process, p': Process, g: nat) {
    forall h :: h != g ==>
      && (h in p'.traces <==> h in p.traces) && (h in p'.sys.stacks <==> h in p.sys.stacks)
      && (h in p.traces ==> p'.traces[h] == p.traces[h])
      && (h in p.sys.stacks ==> p'.sys.stacks[h] == p.sys.stacks[h])
  }

  lemma OthersKept(p: Process, a: Act)
    requires CanDo(p, a)
    ensures SameBeside(p, Do(p, a), a.g)
  {}

  lemma OwnKept(p: Process, a: Act)
    requires Consistent(p) && CanDo(p, a)
    ensures a.g in Do(p, a).traces && a.g in Do(p, a).sys.stacks
    ensures Traced(Do(p, a).sys.stacks[a.g], Do(p, a).traces[a.g])
  {
    match a
    case Begin(g, frames) =>
    case Call(g, frames) => TracedTop(p.sys.stacks[g], p.traces[g], frames);
    case Ret(g) => TracedPop(p.sys.stacks[g], p.traces[g]);
    case Set(g, mgr, vals, frames) =>
      if vals == map[] {
        TracedTop(p.sys.stacks[g], p.traces[g], frames);
      } else {
        var c := Scope(mgr, AcquireFrom(p.sys.pool).0, vals, Seen(p.traces[g][0]));
        TracedPush(c, p.sys.stacks[g], p.traces[g], frames);
      }
    case Unset(g) =>
  }

  lemma DoKeeps(p: Process, a: Act)
    requires Consistent(p) && CanDo(p, a)
    ensures Consistent(Do(p, a))
  {
    SystemKept(p, a);
    OwnKept(p, a);
    OthersKept(p, a);
    ConsistentBeside(p, Do(p, a), a.g);
  }

  lemma ConsistentBeside(p: Process, p': Process, g: nat)
    requires Consistent(p) && SameBeside(p, p', g) && Inv(p'.sys)
    requires g in p'.traces && g in p'.sys.stacks && Traced(p'.sys.stacks[g], p'.traces[g])
    ensures Consistent(p')
  {
    forall h | h in p'.traces ensures h in p'.sys.stacks && Traced(p'.sys.stacks[h], p'.traces[h]) {
      assert h != g ==> Traced(p.sys.stacks[h], p.traces[h]);
    }
    forall h | h in p'.sys.stacks ensures h in p'.traces {}
  }

  lemma SystemKept(p: Process, a: Act)
    requires Inv(p.sys) && CanDo(p, a)
    ensures Inv(Do(p, a).sys)
  {
    match a
    case Begin(g, _) => StepKeeps(p.sys, Start(g));
    case Set(g, mgr, vals, _) => EnterKeeps(p.sys, g, mgr, vals, Seen(p.traces[g][0]));
    case Unset(g) => LeaveKeeps(p.sys, g);
    case _ =>
  }

  lemma {:induction false} RunConsistent(p: Process, acts: seq<Act>)
    requires Consistent(p) && CanDoAll(p, acts)
    ensures Consistent(DoAll(p, acts))
    decreases |acts|
  {
    if acts != [] {
      DoKeeps(p, acts[0]);
      RunConsistent(Do(p, acts[0]), acts[1..]);
    }
  }

  lemma {:induction false} TagsHeld(s: System, g: nat, i: nat)
    requires Inv(s) && g in s.stacks && i <= |s.stacks[g]| && s.pool.maxId <= UINT
    ensures AllUint(Tags(s.stacks[g][i..]))
    decreases |s.stacks[g]| - i
  {
    if i < |s.stacks[g]| {
      assert ScopeFiled(s, g, i);
      assert s.stacks[g][i..][1..] == s.stacks[g][i + 1..];
      TagsHeld(s, g, i + 1);
    }
  }

  /** The search from the frames of a goroutine is that of the model with as many tags as
      the trace shows. */
  lemma FoundIsGetValue(p: Process, g: nat, mgr: nat, key: Key)
    requires Consistent(p) && g in p.traces && p.sys.pool.maxId <= UINT
    ensures p.traces[g] != [] && Found(p, p.traces[g][0], mgr, key) == GetValue(p.sys, g, mgr, key, Seen(p.traces[g][0]))
  {
    TracedMarks(p.sys.stacks[g], p.traces[g]);
    assert p.sys.stacks[g][0..] == p.sys.stacks[g];
    TagsHeld(p.sys, g, 0);
    TraceShows(FiledBy(p.sys, mgr), p.sys.stacks[g], p.traces[g][0]);
  }

  /** Every value set by a call whose tag is in the reader's own trace is found as the
      outward search would, and within 64 frames every value at all. */
  lemma SeenIsFound(p: Process, g: nat, mgr: nat, key: Key)
    requires Consistent(p) && g in p.traces && p.sys.pool.maxId <= UINT
    ensures p.traces[g] != []
    ensures var stack, trace := p.sys.stacks[g], p.traces[g][0];
            var found, n := Found(p, trace, mgr, key), Seen(trace);
            && n <= |stack|
            && (SetIn(Own(stack[..n], mgr), key) ==> found == Outward(stack, mgr, key))
            && (|trace| <= 64 ==> found == Outward(stack, mgr, key))
  {
    var stack, trace := p.sys.stacks[g], p.traces[g][0];
    var n := Seen(trace);
    FoundIsGetValue(p, g, mgr, key);
    TracedNested(stack, p.traces[g]);
    SeenIsReached(stack, mgr, n);
    GetValueIsOutwardIff(p.sys, g, mgr, key, n);
    var seen, reached := Own(stack[..n], mgr), Reached(stack, mgr, n);
    if SetIn(seen, key) {
      var i :| 0 <= i < |seen| && key in seen[i].vals;
      assert reached[i] == seen[i];
    }
    if |trace| <= 64 {
      TracedMarks(stack, p.traces[g]);
      assert stack[..n] == stack;
      assert reached == Own(stack, mgr);
    }
  }

  /** Over every run of any number of goroutines, frame by frame: a value set by a call
      whose tag is in the reader's trace is found; within 64 frames all are; and beyond
      that exactly those that are not only set past the first broken link. */
  lemma EveryTracedRun(acts: seq<Act>, g: nat, mgr: nat, key: Key)
    requires CanDoAll(NOTHING, acts) && g in DoAll(NOTHING, acts).traces
    requires DoAll(NOTHING, acts).sys.pool.maxId <= UINT
    ensures var p := DoAll(NOTHING, acts);
            && g in p.sys.stacks && p.traces[g] != []
            && var stack, trace := p.sys.stacks[g], p.traces[g][0];
            var found, n, reached := Found(p, trace, mgr, key), Seen(trace), Reached(stack, mgr, Seen(trace));
            && n <= |stack| && reached <= Own(stack, mgr)
            && (SetIn(Own(stack[..n], mgr), key) ==> found == Outward(stack, mgr, key))
            && (|trace| <= 64 ==> found == Outward(stack, mgr, key))
            && (found == Outward(stack, mgr, key) <==>
                (SetIn(Own(stack, mgr)[|reached|..], key) ==> SetIn(reached, key)))
  {
    RunConsistent(NOTHING, acts);
    var p := DoAll(NOTHING, acts);
    SeenIsFound(p, g, mgr, key);
    FoundIsGetValue(p, g, mgr, key);
    GetValueIsOutwardIff(p.sys, g, mgr, key, Seen(p.traces[g][0]));
  }

  // ----- A value that is lost -----

  /** A manager sets outer, 64 or more frames follow, and it sets inner. */
  function LosingRun(mgr: nat, outer: Values, inner: Values, first: seq<Frame>, between: seq<Frame>, second: seq<Frame>): seq<Act> {
    [Begin(0, []), Set(0, mgr, outer, first), Call(0, between), Set(0, mgr, inner, second)]
  }

  predicate Loses(outer: Values, inner: Values, first: seq<Frame>, between: seq<Frame>, second: seq<Frame>) {
    && outer != map[] && inner != map[]
    && Marks(first) == TagFrames(0) && Marks(between) == [] && Marks(second) == TagFrames(1)
    && |between| >= 64 >= |second|
  }

  lemma LosingEnd(mgr: nat, outer: Values, inner: Values, first: seq<Frame>, between: seq<Frame>, second: seq<Frame>)
    requires Loses(outer, inner, first, between, second)
    ensures var acts := LosingRun(mgr, outer, inner, first, between, second);
            && CanDoAll(NOTHING, acts)
            && var p := DoAll(NOTHING, acts);
            && Running(p, 0) && p.traces[0][0] == second + (between + first) && p.sys.pool == Pool([], 2)
            && p.sys.stacks[0] == [Scope(mgr, 1, inner, 0), Scope(mgr, 0, outer, 0)]
  {
    var acts := LosingRun(mgr, outer, inner, first, between, second);
    var p1 := Do(NOTHING, acts[0]);
    SetPushes(p1, acts[1], 0);
    var p2 := Do(p1, acts[1]);
    Empty(first);
    var p3 := Do(p2, acts[2]);
    CutOff(between, first, second);
    SetPushes(p3, acts[3], 1);
    FourActs(NOTHING, acts[0], acts[1], acts[2], acts[3], p1, p2, p3);
  }

  /** A SetValues that does not see the call of its manager 64 frames further out loses
      what that one set: a reader right below, whose trace shows the inner call alone, finds
      what this has set and nothing else.  No trace taken further in shows more. */
  lemma LostBehindCut(mgr: nat, outer: Values, inner: Values, first: seq<Frame>, between: seq<Frame>, second: seq<Frame>, key: Key)
    requires Loses(outer, inner, first, between, second)
    ensures var acts := LosingRun(mgr, outer, inner, first, between, second);
            && CanDoAll(NOTHING, acts) && Running(DoAll(NOTHING, acts), 0)
            && var p := DoAll(NOTHING, acts);
            var trace := p.traces[0][0];
            && Seen(trace) == 1 && (forall more :: Starts(more) == 0 ==> Seen(more + trace) <= 1)
            && Found(p, trace, mgr, key) == (if key in inner then Some(inner[key]) else None)
            && (Found(p, trace, mgr, key) == Outward(p.sys.stacks[0], mgr, key) <==> key in inner || key !in outer)
  {
    var acts := LosingRun(mgr, outer, inner, first, between, second);
    LosingEnd(mgr, outer, inner, first, between, second);
    CutOff(between, first, second);
    RunConsistent(NOTHING, acts);
    OnlyInner(DoAll(NOTHING, acts), Scope(mgr, 1, inner, 0), Scope(mgr, 0, outer, 0), key);
  }

  lemma SetPushes(p: Process, a: Act, tag: nat)
    requires a.Set? && a.vals != map[] && Running(p, a.g)
    requires p.sys.pool == Pool([], tag) && Marks(a.frames) == TagFrames(tag)
    ensures CanDo(p, a)
    ensures var p', traces := Do(p, a), p.traces[a.g];
            && Running(p', a.g) && p'.sys.pool == Pool([], tag + 1)
            && p'.sys.stacks[a.g] == [Scope(a.mgr, tag, a.vals, Seen(traces[0]))] + p.sys.stacks[a.g]
            && p'.traces[a.g] == [a.frames + traces[0]] + traces
  {}

  lemma FourActs(p: Process, a: Act, b: Act, c: Act, d: Act, p1: Process, p2: Process, p3: Process)
    requires CanDo(p, a) && p1 == Do(p, a) && CanDo(p1, b) && p2 == Do(p1, b)
    requires CanDo(p2, c) && p3 == Do(p2, c) && CanDo(p3, d)
    ensures CanDoAll(p, [a, b, c, d]) && DoAll(p, [a, b, c, d]) == Do(p3, d)
  {
    assert [d][1..] == [] && CanDoAll(Do(p3, d), []) && DoAll(Do(p3, d), []) == Do(p3, d);
    assert CanDoAll(p3, [d]) && DoAll(p3, [d]) == Do(p3, d);
    assert [c, d][1..] == [d] && CanDoAll(p2, [c, d]) && DoAll(p2, [c, d]) == Do(p3, d);
    assert [b, c, d][1..] == [c, d] && CanDoAll(p1, [b, c, d]) && DoAll(p1, [b, c, d]) == Do(p3, d);
    assert [a, b, c, d][1..] == [b, c, d];
  }

  lemma CutOff(between: seq<Frame>, first: seq<Frame>, second: seq<Frame>)
    requires Marks(between) == [] && Marks(second) == TagFrames(1) && |between| >= 64 >= |second|
    ensures Seen(between + first) == 0 && Seen(second + (between + first)) == 1
    ensures forall more :: Starts(more) == 0 ==> Seen(more + (second + (between + first))) <= 1
  {
    StartsOfMarks(between);
    PrefixStarts(CurrentStack(between + first), between);
    StartsOfMarks(second);
    OneStart(1);
    var all := second + (between + first);
    SeenFurtherIn(second, between + first);
    PrefixStarts(second, CurrentStack(all));
    forall more | Starts(more) == 0 ensures Seen(more + all) <= 1 { SeenFurtherIn(more, all); }
  }

  lemma OnlyInner(p: Process, inner: Scope, outer: Scope, key: Key)
    requires Consistent(p) && 0 in p.traces && p.sys.stacks[0] == [inner, outer] && p.sys.pool.maxId <= UINT
    requires inner.mgr == outer.mgr && inner.seen == 0 && p.traces[0] != [] && Seen(p.traces[0][0]) == 1
    ensures Found(p, p.traces[0][0], inner.mgr, key) == if key in inner.vals then Some(inner.vals[key]) else None
    ensures Outward(p.sys.stacks[0], inner.mgr, key) ==
            if key in inner.vals then Some(inner.vals[key]) else if key in outer.vals then Some(outer.vals[key]) else None
  {
    var stack := [inner, outer];
    assert stack[1..] == [outer] && [inner][1..] == [] && [outer][1..] == [];
    assert Reached(stack, inner.mgr, 1) == [inner] + Reached([outer], inner.mgr, 0) == [inner];
    assert Outward([outer], inner.mgr, key) == if key in outer.vals then Some(outer.vals[key]) else None;
    FoundIsGetValue(p, 0, inner.mgr, key);
    GetValueIsReached(p.sys, 0, inner.mgr, key, 1);
  }
}
