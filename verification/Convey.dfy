/**
 GoConvey's traversal of nested scopes.  The test program is a tree of scopes, whose bodies
 call Convey for their children in order on every pass, without panics, focus or skipping.
 */
module Convey {
  import opened Sequences

  datatype Scope = Scope(name: string, children: seq<Scope>)

  /** A scope's place: the names from the root down. */
  type Path = seq<string>

  predicate Distinct(t: Scope)
    decreases t, 1
  {
    DistinctAll(t.children)
  }

  predicate DistinctAll(cs: seq<Scope>)
    decreases cs, 0
  {
    cs == [] || (Distinct(cs[0]) && cs[0].name !in Names(cs[1..]) && DistinctAll(cs[1..]))
  }

  function Names(cs: seq<Scope>): set<string> {
    if cs == [] then {} else {cs[0].name} + Names(cs[1..])
  }

  function Leaves(t: Scope): (n: nat)
    ensures n > 0
    decreases t, 1
  {
    if t.children == [] then 1 else LeavesAll(t.children)
  }

  function LeavesAll(cs: seq<Scope>): (n: nat)
    ensures cs != [] ==> n > 0
    decreases cs, 0
  {
    if cs == [] then 0 else Leaves(cs[0]) + LeavesAll(cs[1..])
  }

  // ----- What should run: one pass per leaf, in source order -----

  /** The passes over t at p; each is the list of scopes from p down to one leaf. */
  function Passes(t: Scope, p: Path): seq<seq<Path>>
    decreases t, 1
  {
    if t.children == [] then [[p]] else Entering(p, PassesAll(t.children, p))
  }

  function PassesAll(cs: seq<Scope>, p: Path): seq<seq<Path>>
    decreases cs, 0
  {
    if cs == [] then [] else Passes(cs[0], p + [cs[0].name]) + PassesAll(cs[1..], p)
  }

  function Entering(p: Path, passes: seq<seq<Path>>): (r: seq<seq<Path>>)
    ensures |r| == |passes| && forall k :: 0 <= k < |r| ==> r[k] == [p] + passes[k]
  {
    if passes == [] then [] else [[p] + passes[0]] + Entering(p, passes[1..])
  }

  lemma {:induction false} OnePassPerLeaf(t: Scope, p: Path)
    ensures |Passes(t, p)| == Leaves(t)
    decreases t, 1
  {
    if t.children != [] {
      OnePassPerLeafAll(t.children, p);
    }
  }

  lemma {:induction false} OnePassPerLeafAll(cs: seq<Scope>, p: Path)
    ensures |PassesAll(cs, p)| == LeavesAll(cs)
    decreases cs, 0
  {
    if cs != [] {
      OnePassPerLeaf(cs[0], p + [cs[0].name]);
      OnePassPerLeafAll(cs[1..], p);
    }
  }

  // ----- The contexts -----

  /** The context of a scope; the child context of a given name is the one at the path
      extended by that name. */
  datatype Context = Context(children: set<string>, executedOnce: bool, complete: bool)

  const NEW_CONTEXT := Context({}, false, false)

  /** The contexts at and below p are as they are once j leaves of t have been run. */
  ghost predicate Holds(m: map<Path, Context>, t: Scope, p: Path, j: nat)
    decreases t, 1
  {
    && p in m
    && m[p].complete == (j == Leaves(t))
    && m[p].executedOnce == (j > 0)
    && (if j == 0 then m[p].children == {}
        else m[p].children == Names(t.children) && HoldsAll(m, t.children, p, if t.children == [] then 0 else j))
  }

  /** Of the leaves below these children of p, the first j have been run. */
  ghost predicate HoldsAll(m: map<Path, Context>, cs: seq<Scope>, p: Path, j: nat)
    decreases cs, 0
  {
    if cs == [] then j == 0
    else
      var n := Leaves(cs[0]);
      && Holds(m, cs[0], p + [cs[0].name], if j < n then j else n)
      && HoldsAll(m, cs[1..], p, if j < n then 0 else j - n)
  }

  predicate Below(p: Path, q: Path) { p <= q }

  ghost predicate SameAt(m: map<Path, Context>, m': map<Path, Context>, q: Path) {
    (q in m <==> q in m') && (q in m ==> m[q] == m'[q])
  }

  lemma {:induction false} HoldsFrame(m: map<Path, Context>, m': map<Path, Context>, t: Scope, p: Path, j: nat)
    requires Holds(m, t, p, j) && forall q :: Below(p, q) ==> SameAt(m, m', q)
    ensures Holds(m', t, p, j)
    decreases t, 1
  {
    assert Below(p, p) && SameAt(m, m', p);
    if j > 0 {
      forall c, q | c in Names(t.children) && Below(p + [c], q) ensures SameAt(m, m', q) {
        assert Below(p, q);
      }
      HoldsAllFrame(m, m', t.children, p, if t.children == [] then 0 else j);
    }
  }

  lemma {:induction false} HoldsAllFrame(m: map<Path, Context>, m': map<Path, Context>, cs: seq<Scope>, p: Path, j: nat)
    requires HoldsAll(m, cs, p, j)
    requires forall c, q :: c in Names(cs) && Below(p + [c], q) ==> SameAt(m, m', q)
    ensures HoldsAll(m', cs, p, j)
    decreases cs, 0
  {
    if cs != [] {
      var n := Leaves(cs[0]);
      assert cs[0].name in Names(cs);
      HoldsFrame(m, m', cs[0], p + [cs[0].name], if j < n then j else n);
      HoldsAllFrame(m, m', cs[1..], p, if j < n then 0 else j - n);
    }
  }

  lemma Siblings(p: Path, a: string, b: string, q: Path)
    requires a != b && Below(p + [a], q)
    ensures !Below(p + [b], q)
  {
    assert (p + [a])[|p|] == a && (p + [b])[|p|] == b;
  }

  /** All contexts that j leaves left complete are complete, and no others. */
  lemma {:induction false} CompleteIff(m: map<Path, Context>, cs: seq<Scope>, p: Path, j: nat)
    requires HoldsAll(m, cs, p, j)
    ensures j <= LeavesAll(cs)
    ensures (forall c :: c in Names(cs) ==> p + [c] in m && m[p + [c]].complete) <==> j == LeavesAll(cs)
    decreases cs
  {
    if cs != [] {
      var n := Leaves(cs[0]);
      CompleteIff(m, cs[1..], p, if j < n then 0 else j - n);
      assert cs[0].name in Names(cs);
      assert forall c :: c in Names(cs) <==> c == cs[0].name || c in Names(cs[1..]);
      if j < n && cs[1..] != [] {
        assert LeavesAll(cs[1..]) > 0;
      }
    }
  }

  /** Outside p itself and what is below these children of it, nothing differs. */
  ghost predicate SameBeside(m: map<Path, Context>, m': map<Path, Context>, p: Path, names: set<string>) {
    forall q :: Beside(p, names, q) ==> SameAt(m, m', q)
  }

  ghost predicate Beside(p: Path, names: set<string>, q: Path) {
    q != p && forall c :: c in names ==> !Below(p + [c], q)
  }

  lemma RestKept(m: map<Path, Context>, m': map<Path, Context>, cs: seq<Scope>, p: Path, j: nat)
    requires cs != [] && DistinctAll(cs) && SameBeside(m, m', p, {cs[0].name}) && HoldsAll(m, cs[1..], p, j)
    ensures HoldsAll(m', cs[1..], p, j)
  {
    forall c, q | c in Names(cs[1..]) && Below(p + [c], q) ensures SameAt(m, m', q) {
      Siblings(p, c, cs[0].name, q);
      assert Beside(p, {cs[0].name}, q);
    }
    HoldsAllFrame(m, m', cs[1..], p, j);
  }

  lemma FirstKept(m: map<Path, Context>, m': map<Path, Context>, cs: seq<Scope>, p: Path, j: nat)
    requires cs != [] && DistinctAll(cs) && SameBeside(m, m', p, Names(cs[1..])) && Holds(m, cs[0], p + [cs[0].name], j)
    ensures Holds(m', cs[0], p + [cs[0].name], j)
  {
    var first := p + [cs[0].name];
    forall q | Below(first, q) ensures SameAt(m, m', q) {
      forall c | c in Names(cs[1..]) ensures !Below(p + [c], q) { Siblings(p, cs[0].name, c, q); }
      assert Beside(p, Names(cs[1..]), q);
    }
    HoldsFrame(m, m', cs[0], first, j);
  }

  lemma OthersKept(m: map<Path, Context>, m1: map<Path, Context>, m2: map<Path, Context>, cs: seq<Scope>, p: Path)
    requires cs != [] && SameBeside(m, m1, p, {cs[0].name}) && SameBeside(m1, m2, p, Names(cs[1..]))
    ensures SameBeside(m, m2, p, Names(cs))
  {
    forall q | Beside(p, Names(cs), q) ensures SameAt(m, m2, q) {
      assert cs[0].name in Names(cs) && Names(cs[1..]) <= Names(cs);
      assert Beside(p, {cs[0].name}, q) && Beside(p, Names(cs[1..]), q);
      assert SameAt(m, m1, q) && SameAt(m1, m2, q);
    }
  }

  lemma BesideIsOutside(m: map<Path, Context>, m': map<Path, Context>, p: Path, names: set<string>)
    requires SameBeside(m, m', p, names)
    ensures forall q :: !Below(p, q) ==> SameAt(m, m', q)
  {
    forall q | !Below(p, q) ensures SameAt(m, m', q) {
      forall c | c in names ensures !Below(p + [c], q) { if Below(p + [c], q) { BelowParent(p, c, q); } }
      assert Beside(p, names, q);
    }
  }

  lemma BelowParent(p: Path, c: string, q: Path)
    requires Below(p + [c], q)
    ensures Below(p, q)
  {
    assert p <= p + [c];
  }

  /** What is run when j of the passes have been made already, if anything is. */
  function Pick(passes: seq<seq<Path>>, j: nat, run: bool): seq<Path> {
    if run && j < |passes| then passes[j] else []
  }

  function After(j: nat, leaves: nat, run: bool): nat { if run && j < leaves then j + 1 else j }

  lemma PickConcat(a: seq<seq<Path>>, b: seq<seq<Path>>, j: nat, run: bool)
    ensures Pick(a + b, j, run)
         == Pick(a, if j < |a| then j else |a|, run) + Pick(b, if j < |a| then 0 else j - |a|, run && j >= |a|)
  {
    Empty(Pick(a, j, run));
    if j >= |a| { Empty(Pick(b, j - |a|, run)); }
  }

  /** Before these children's Convey calls: on the first run of the body their contexts
      are still to be made, later they are there. */
  ghost predicate Ready(m: map<Path, Context>, cs: seq<Scope>, p: Path, j: nat) {
    && p in m && j <= LeavesAll(cs)
    && if m[p].executedOnce then Names(cs) <= m[p].children && HoldsAll(m, cs, p, j)
       else Names(cs) !! m[p].children && j == 0
  }

  /** After them. */
  ghost predicate Visited(m: map<Path, Context>, m': map<Path, Context>, cs: seq<Scope>, p: Path, j: nat, run: bool) {
    && p in m && p in m' && m'[p] == m[p].(children := m[p].children + Names(cs))
    && HoldsAll(m', cs, p, After(j, LeavesAll(cs), run))
    && SameBeside(m, m', p, Names(cs))
  }

  lemma ReadyRest(m: map<Path, Context>, m1: map<Path, Context>, cs: seq<Scope>, p: Path, j: nat)
    requires cs != [] && DistinctAll(cs) && Ready(m, cs, p, j)
    requires p in m1 && m1[p] == m[p].(children := m[p].children + {cs[0].name})
    requires SameBeside(m, m1, p, {cs[0].name})
    ensures Ready(m1, cs[1..], p, if j < Leaves(cs[0]) then 0 else j - Leaves(cs[0]))
  {
    if m[p].executedOnce {
      RestKept(m, m1, cs, p, if j < Leaves(cs[0]) then 0 else j - Leaves(cs[0]));
    }
  }

  /** The first child's Convey takes m to m1, the other children's take m1 to m2. */
  lemma BodyStep(m: map<Path, Context>, m1: map<Path, Context>, m2: map<Path, Context>,
                 cs: seq<Scope>, p: Path, j: nat, run: bool)
    requires cs != [] && DistinctAll(cs) && j <= LeavesAll(cs) && p in m && p in m1
    requires var n := Leaves(cs[0]);
             && Holds(m1, cs[0], p + [cs[0].name], After(if j < n then j else n, n, run))
             && Visited(m1, m2, cs[1..], p, if j < n then 0 else j - n, run && j >= n)
    requires SameBeside(m, m1, p, {cs[0].name})
    requires m1[p] == m[p].(children := m[p].children + {cs[0].name})
    ensures Visited(m, m2, cs, p, j, run)
  {
    var n := Leaves(cs[0]);
    FirstKept(m1, m2, cs, p, After(if j < n then j else n, n, run));
    OthersKept(m, m1, m2, cs, p);
    assert m[p].children + {cs[0].name} + Names(cs[1..]) == m[p].children + Names(cs);
  }

  // ----- The traversal -----

  // ----- One run of a scope's body -----

  /** How many of the leaves below the children are done when j of the scope's own are; a
      leaf has none below it. */
  function DoneBelow(t: Scope, j: nat): nat { if t.children == [] then 0 else j }

  lemma InnerReady(m: map<Path, Context>, t: Scope, p: Path, j: nat)
    requires Distinct(t) && Holds(m, t, p, j) && j < Leaves(t)
    ensures DistinctAll(t.children) && Ready(m, t.children, p, DoneBelow(t, j))
  {}

  lemma InnerPass(t: Scope, p: Path, j: nat, running: seq<Path>)
    requires j < Leaves(t)
    ensures |Passes(t, p)| == Leaves(t)
    ensures running + [p] + Pick(PassesAll(t.children, p), DoneBelow(t, j), true) == running + Passes(t, p)[j]
  {
    OnePassPerLeaf(t, p);
    OnePassPerLeafAll(t.children, p);
    Assoc(running, [p], Pick(PassesAll(t.children, p), j, true));
    Empty(running + [p]);
  }

  lemma InnerDone(m: map<Path, Context>, m1: map<Path, Context>, t: Scope, p: Path, j: nat)
    requires Holds(m, t, p, j) && j < Leaves(t) && Visited(m, m1, t.children, p, DoneBelow(t, j), true)
    ensures p in m1 && m1[p].children == Names(t.children)
    ensures forall c :: c in Names(t.children) ==> p + [c] in m1
    ensures (forall c :: c in Names(t.children) ==> m1[p + [c]].complete) <==> j + 1 == Leaves(t)
  {
    forall c | c in Names(t.children) ensures p + [c] in m1 {
      ChildContext(m1, t.children, p, DoneBelow(t, j + 1), c);
    }
    CompleteIff(m1, t.children, p, DoneBelow(t, j + 1));
  }

  lemma InnerRecorded(m: map<Path, Context>, m1: map<Path, Context>, t: Scope, p: Path, j: nat)
    requires Holds(m, t, p, j) && j < Leaves(t) && Visited(m, m1, t.children, p, DoneBelow(t, j), true)
    ensures var m2 := m1[p := m1[p].(complete := j + 1 == Leaves(t), executedOnce := true)];
            Holds(m2, t, p, j + 1) && forall q :: !Below(p, q) ==> SameAt(m, m2, q)
  {
    var m2 := m1[p := m1[p].(complete := j + 1 == Leaves(t), executedOnce := true)];
    BesideIsOutside(m, m1, p, Names(t.children));
    forall c, q | c in Names(t.children) && Below(p + [c], q) ensures SameAt(m1, m2, q) {}
    HoldsAllFrame(m1, m2, t.children, p, DoneBelow(t, j + 1));
  }

  class Suite {
    var contexts: map<Path, Context>
    var expectChildRun: bool
    var running: seq<Path>

    constructor ()
      ensures contexts == map[]
    {
      contexts, expectChildRun, running := map[], false, [];
    }

    predicate ShouldVisit(p: Path)
      reads this
      requires p in contexts
    {
      !contexts[p].complete && expectChildRun
    }

    /** ctx.Convey(c.name, f), called from the body at p; j of c's leaves are done. */
    method Convey(c: Scope, p: Path, ghost j: nat)
      requires Distinct(c) && p in contexts && j <= Leaves(c)
      requires contexts[p].executedOnce ==> c.name in contexts[p].children && Holds(contexts, c, p + [c.name], j)
      requires !contexts[p].executedOnce ==> c.name !in contexts[p].children && j == 0
      modifies this
      ensures p in contexts && contexts[p] == old(contexts[p]).(children := old(contexts[p]).children + {c.name})
      ensures Holds(contexts, c, p + [c.name], After(j, Leaves(c), old(expectChildRun)))
      ensures running == old(running) + Pick(Passes(c, p + [c.name]), j, old(expectChildRun))
      ensures expectChildRun == (old(expectChildRun) && j == Leaves(c))
      ensures SameBeside(old(contexts), contexts, p, {c.name})
      decreases c, 2
    {
      var child := p + [c.name];
      OnePassPerLeaf(c, child);
      if !contexts[p].executedOnce {
        contexts := contexts[child := NEW_CONTEXT];
        contexts := contexts[p := contexts[p].(children := contexts[p].children + {c.name})];
      } else {
        assert contexts[p].children == contexts[p].children + {c.name};
      }
      Empty(running);
      assert !Below(child, p);
      ghost var before := contexts;
      if ShouldVisit(child) {
        ConveyInner(c, child, j);
        assert SameAt(before, contexts, p);
      }
    }

    /** The statements of a body: one Convey after the other. */
    method Body(cs: seq<Scope>, p: Path, ghost j: nat)
      requires DistinctAll(cs) && Ready(contexts, cs, p, j)
      modifies this
      ensures Visited(old(contexts), contexts, cs, p, j, old(expectChildRun))
      ensures running == old(running) + Pick(PassesAll(cs, p), j, old(expectChildRun))
      ensures expectChildRun == (old(expectChildRun) && j == LeavesAll(cs))
      decreases cs, 1
    {
      if cs == [] {
        Empty(running);
        assert contexts[p].children + {} == contexts[p].children;
      } else {
        FirstThenRest(cs, p, j);
      }
    }

    method FirstThenRest(cs: seq<Scope>, p: Path, ghost j: nat)
      requires cs != [] && DistinctAll(cs) && Ready(contexts, cs, p, j)
      modifies this
      ensures Visited(old(contexts), contexts, cs, p, j, old(expectChildRun))
      ensures running == old(running) + Pick(PassesAll(cs, p), j, old(expectChildRun))
      ensures expectChildRun == (old(expectChildRun) && j == LeavesAll(cs))
      decreases cs, 0
    {
      ghost var n := Leaves(cs[0]);
      ghost var j0, j1 := if j < n then j else n, if j < n then 0 else j - n;
      ghost var before, run := contexts, expectChildRun;
      Convey(cs[0], p, j0);
      ghost var between := contexts;
      ReadyRest(before, between, cs, p, j);
      Body(cs[1..], p, j1);
      BodyStep(before, between, contexts, cs, p, j, run);
      ghost var a, b := Passes(cs[0], p + [cs[0].name]), PassesAll(cs[1..], p);
      OnePassPerLeaf(cs[0], p + [cs[0].name]);
      PickConcat(a, b, j, run);
      Assoc(old(running), Pick(a, j0, run), Pick(b, j1, run && j >= n));
    }

    /** conveyInner: the body, then whether everything below is complete. */
    method ConveyInner(t: Scope, p: Path, ghost j: nat)
      requires Distinct(t) && Holds(contexts, t, p, j) && j < Leaves(t) && expectChildRun
      modifies this
      ensures Holds(contexts, t, p, j + 1) && !expectChildRun
      ensures |Passes(t, p)| == Leaves(t) && running == old(running) + Passes(t, p)[j]
      ensures forall q :: !Below(p, q) ==> SameAt(old(contexts), contexts, q)
      decreases t, 1
    {
      ghost var start := contexts;
      InnerReady(contexts, t, p, j);
      InnerPass(t, p, j, running);
      running := running + [p];
      Body(t.children, p, DoneBelow(t, j));
      InnerDone(start, contexts, t, p, j);
      InnerRecorded(start, contexts, t, p, j);
      var complete := AllComplete(p);
      contexts := contexts[p := contexts[p].(complete := complete, executedOnce := true)];
      expectChildRun := false;
    }

    /** The loop over the children of the context at p, in any order. */
    method AllComplete(p: Path) returns (complete: bool)
      requires p in contexts && forall c :: c in contexts[p].children ==> p + [c] in contexts
      ensures complete <==> forall c :: c in contexts[p].children ==> contexts[p + [c]].complete
    {
      complete := true;
      var left := contexts[p].children;
      while left != {}
        invariant left <= contexts[p].children
        invariant forall c :: c in contexts[p].children - left ==> contexts[p + [c]].complete
        decreases left
      {
        var c :| c in left;
        if !contexts[p + [c]].complete {
          return false;
        }
        left := left - {c};
      }
    }

    /** rootConvey: the passes made, each the list of the scopes run. */
    method RootConvey(t: Scope) returns (passes: seq<seq<Path>>)
      requires Distinct(t)
      modifies this
      ensures passes == Passes(t, [t.name]) && |passes| == Leaves(t)
    {
      var root := [t.name];
      OnePassPerLeaf(t, root);
      contexts := map[root := NEW_CONTEXT];
      expectChildRun := true;
      passes := [];
      while ShouldVisit(root)
        invariant |passes| <= Leaves(t) && passes == Passes(t, root)[..|passes|]
        invariant root in contexts && Holds(contexts, t, root, |passes|) && expectChildRun
        decreases Leaves(t) - |passes|
      {
        running := [];
        ConveyInner(t, root, |passes|);
        Empty(Passes(t, root)[|passes|]);
        passes := passes + [running];
        expectChildRun := true;
      }
    }
  }

  lemma {:induction false} ChildContext(m: map<Path, Context>, cs: seq<Scope>, p: Path, j: nat, c: string)
    requires HoldsAll(m, cs, p, j) && c in Names(cs)
    ensures p + [c] in m
    decreases cs
  {
    if c != cs[0].name {
      var n := Leaves(cs[0]);
      ChildContext(m, cs[1..], p, if j < n then 0 else j - n, c);
    }
  }

  // ----- How often each body runs -----

  /** The scope reached from t by going down through these names. */
  function Find(t: Scope, names: seq<string>): seq<Scope>
    decreases t, 1
  {
    if names == [] then [t] else FindIn(t.children, names)
  }

  function FindIn(cs: seq<Scope>, names: seq<string>): seq<Scope>
    requires names != []
    decreases cs, 0
  {
    if cs == [] then []
    else if cs[0].name == names[0] then Find(cs[0], names[1..])
    else FindIn(cs[1..], names)
  }

  /** How many of the passes run the scope at q. */
  function Count(passes: seq<seq<Path>>, q: Path): nat {
    if passes == [] then 0 else (if q in passes[0] then 1 else 0) + Count(passes[1..], q)
  }

  lemma {:induction false} CountConcat(a: seq<seq<Path>>, b: seq<seq<Path>>, q: Path)
    ensures Count(a + b, q) == Count(a, q) + Count(b, q)
  {
    if a == [] {
      Empty(b);
    } else {
      assert (a + b)[1..] == a[1..] + b;
      CountConcat(a[1..], b, q);
    }
  }

  lemma {:induction false} CountEntering(p: Path, passes: seq<seq<Path>>, q: Path)
    ensures Count(Entering(p, passes), q) == if p == q then |passes| else Count(passes, q)
  {
    if passes != [] {
      CountEntering(p, passes[1..], q);
    }
  }

  lemma OtherChild(p: Path, a: string, names: seq<string>)
    requires names != [] && names[0] != a
    ensures !Below(p + [a], p + names)
  {
    assert (p + [a])[|p|] == a && (p + names)[|p|] == names[0];
  }

  /** Only scopes at or below p run in the passes over p. */
  lemma {:induction false} CountElsewhere(t: Scope, p: Path, q: Path)
    requires !Below(p, q)
    ensures Count(Passes(t, p), q) == 0
    decreases t, 1
  {
    if t.children == [] {
      assert Passes(t, p)[1..] == [];
    } else {
      CountElsewhereAll(t.children, p, q);
      CountEntering(p, PassesAll(t.children, p), q);
    }
  }

  lemma {:induction false} CountElsewhereAll(cs: seq<Scope>, p: Path, q: Path)
    requires forall c :: c in Names(cs) ==> !Below(p + [c], q)
    ensures Count(PassesAll(cs, p), q) == 0
    decreases cs, 0
  {
    if cs != [] {
      assert cs[0].name in Names(cs);
      CountElsewhere(cs[0], p + [cs[0].name], q);
      CountElsewhereAll(cs[1..], p, q);
      CountConcat(Passes(cs[0], p + [cs[0].name]), PassesAll(cs[1..], p), q);
    }
  }

  /** Each body runs once for every leaf below it, in all the passes together. */
  lemma {:induction false} RunsOncePerLeaf(t: Scope, p: Path, names: seq<string>)
    requires Distinct(t) && Find(t, names) != []
    ensures Count(Passes(t, p), p + names) == Leaves(Find(t, names)[0])
    decreases t, 1
  {
    OnePassPerLeaf(t, p);
    if names == [] {
      Empty(p);
      if t.children == [] {
        assert Passes(t, p)[1..] == [];
      } else {
        OnePassPerLeafAll(t.children, p);
        CountEntering(p, PassesAll(t.children, p), p);
      }
    } else {
      RunsOncePerLeafAll(t.children, p, names);
      CountEntering(p, PassesAll(t.children, p), p + names);
    }
  }

  lemma {:induction false} RunsOncePerLeafAll(cs: seq<Scope>, p: Path, names: seq<string>)
    requires DistinctAll(cs) && names != [] && FindIn(cs, names) != []
    ensures Count(PassesAll(cs, p), p + names) == Leaves(FindIn(cs, names)[0])
    decreases cs, 0
  {
    var first, q := p + [cs[0].name], p + names;
    CountConcat(Passes(cs[0], first), PassesAll(cs[1..], p), q);
    if cs[0].name == names[0] {
      RunsOncePerLeaf(cs[0], first, names[1..]);
      MoveFirst(p, names);
      forall c | c in Names(cs[1..]) ensures !Below(p + [c], q) { Siblings(p, names[0], c, q); }
      CountElsewhereAll(cs[1..], p, q);
    } else {
      RunsOncePerLeafAll(cs[1..], p, names);
      OtherChild(p, cs[0].name, names);
      CountElsewhere(cs[0], first, q);
    }
  }
}
