/**
 Goroutine-local storage: SetValues puts a tag on the goroutine's stack and files a merged
 copy of the values it finds; GetValue looks only at its manager's innermost tag.
 */
module Gls {
  import opened Options
  import opened Sequences
  import opened StackTags

  type Key = string
  type Value = string
  type Values = map<Key, Value>

  // ----- id_pool.go -----

  datatype Pool = Pool(released: seq<nat>, maxId: nat)

  function AcquireFrom(p: Pool): (r: (nat, Pool)) {
    if |p.released| > 0 then (p.released[|p.released| - 1], p.(released := p.released[..|p.released| - 1]))
    else (p.maxId, p.(maxId := p.maxId + 1))
  }

  function ReleaseTo(p: Pool, id: nat): Pool { p.(released := p.released + [id]) }

  /** Held and released ids are exactly 0 .. maxId - 1, each in one place. */
  ghost predicate PoolInv(p: Pool, held: set<nat>) {
    && (forall i, j :: 0 <= i < j < |p.released| ==> p.released[i] != p.released[j])
    && (forall id :: id in p.released ==> id < p.maxId && id !in held)
    && (forall id :: id in held ==> id < p.maxId)
    && (forall id: nat :: id < p.maxId && id !in held ==> id in p.released)
  }

  lemma AcquireKeeps(p: Pool, held: set<nat>)
    requires PoolInv(p, held)
    ensures var (id, p') := AcquireFrom(p); id !in held && PoolInv(p', held + {id})
  {
    if |p.released| > 0 {
      TakeLast(p, held);
    } else {
      assert p.maxId !in held;
    }
  }

  lemma TakeLast(p: Pool, held: set<nat>)
    requires PoolInv(p, held) && p.released != []
    ensures var n := |p.released| - 1;
            p.released[n] !in held && PoolInv(p.(released := p.released[..n]), held + {p.released[n]})
  {
    var n := |p.released| - 1;
    assert p.released[n] in p.released;
    forall x: nat | x in p.released[..n] ensures x in p.released && x != p.released[n] {
      var i :| 0 <= i < n && p.released[..n][i] == x;
      assert p.released[i] == x;
    }
    forall x: nat | x in p.released && x != p.released[n] ensures x in p.released[..n] {
      var i :| 0 <= i < |p.released| && p.released[i] == x;
      assert p.released[..n][i] == x;
    }
  }

  lemma ReleaseKeeps(p: Pool, held: set<nat>, id: nat)
    requires PoolInv(p, held) && id in held
    ensures PoolInv(ReleaseTo(p, id), held - {id})
  {}

  /** The id released last is the next to be acquired, which restores the pool. */
  lemma AcquireTakesLast(p: Pool, id: nat)
    ensures AcquireFrom(ReleaseTo(p, id)) == (id, p)
    ensures p.released == [] ==> AcquireFrom(p) == (p.maxId, Pool([], p.maxId + 1))
  {
    assert (p.released + [id])[..|p.released|] == p.released;
  }

  class IdPool {
    var released: seq<nat>
    var maxId: nat

    function Abstract(): Pool
      reads this
    {
      Pool(released, maxId)
    }

    constructor ()
      ensures Abstract() == Pool([], 0)
    {
      released, maxId := [], 0;
    }

    method Acquire() returns (id: nat)
      modifies this
      ensures (id, Abstract()) == AcquireFrom(old(Abstract()))
    {
      if |released| > 0 {
        id := released[|released| - 1];
        released := released[..|released| - 1];
        return;
      }
      id := maxId;
      maxId := maxId + 1;
    }

    method Release(id: nat)
      modifies this
      ensures Abstract() == ReleaseTo(old(Abstract()), id)
    {
      released := released + [id];
    }
  }

  // ----- context.go -----

  const MAX_CALLERS: nat := 64

  /** currentStack: the innermost 64 frames. */
  function CurrentStack(trace: seq<Frame>): seq<Frame> {
    if |trace| <= MAX_CALLERS then trace else trace[..MAX_CALLERS]
  }

  /** The values under the first of the tags that the manager has filed. */
  function FirstOf(filed: map<nat, Values>, tags: seq<nat>): Option<Values> {
    if tags == [] then None
    else if tags[0] in filed then Some(filed[tags[0]])
    else FirstOf(filed, tags[1..])
  }

  class ContextManager {
    const pool: IdPool
    var values: map<nat, Values>

    constructor (pool: IdPool)
      ensures this.pool == pool && values == map[]
    {
      this.pool, values := pool, map[];
    }

    /** SetValues up to the call of its callback, which runs below the new tag. */
    method SetValues(newValues: Values, trace: seq<Frame>) returns (newTag: Option<nat>)
      modifies this, pool
      ensures newValues == map[] ==> newTag == None && values == old(values) && pool.Abstract() == old(pool.Abstract())
      ensures newValues != map[] ==>
        var existing := FirstOf(old(values), ReadFrom(CurrentStack(trace), 0));
        var (tag, pool1) := AcquireFrom(old(pool.Abstract()));
        && newTag == Some(tag) && pool.Abstract() == pool1
        && values == old(values)[tag := if existing.Some? then existing.value + newValues else newValues]
    {
      if newValues == map[] {
        return None;
      }
      var existing := GetValues(trace);
      var vals := newValues;
      if existing.Some? {
        vals := existing.value + newValues;
      }
      var tag := pool.Acquire();
      values := values[tag := vals];
      return Some(tag);
    }

    /** What SetValues defers until its callback has returned. */
    method Unset(tag: nat)
      modifies this, pool
      ensures values == old(values) - {tag} && pool.Abstract() == ReleaseTo(old(pool.Abstract()), tag)
    {
      values := values - {tag};
      pool.Release(tag);
    }

    /** The search that SetValues, GetValue and getValues have in common. */
    method GetValues(trace: seq<Frame>) returns (r: Option<Values>)
      ensures r == FirstOf(values, ReadFrom(CurrentStack(trace), 0))
    {
      var tags := ReadStackTags(CurrentStack(trace));
      assert tags[0..] == tags;
      for i := 0 to |tags|
        invariant FirstOf(values, tags) == FirstOf(values, tags[i..])
      {
        if tags[i] in values {
          return Some(values[tags[i]]);
        }
        assert tags[i..][1..] == tags[i + 1..];
      }
      return None;
    }

    method GetValue(key: Key, trace: seq<Frame>) returns (r: Option<Value>)
      ensures r == Lookup(FirstOf(values, ReadFrom(CurrentStack(trace), 0)), key)
    {
      var vs := GetValues(trace);
      if vs.Some? && key in vs.value {
        return Some(vs.value[key]);
      }
      return None;
    }
  }

  // ----- The whole system -----

  /** One call of SetValues in progress; `seen` is the number of tags that its own trace
      showed, which is less than all of them when the stack went beyond the limit. */
  datatype Scope = Scope(mgr: nat, tag: nat, vals: Values, seen: nat)

  /** `filed` is each manager's values map, `stacks` the calls in progress on each
      goroutine, innermost first; `holder` records which manager holds which tag. */
  datatype System = System(
    pool: Pool,
    filed: map<nat, map<nat, Values>>,
    stacks: map<nat, seq<Scope>>,
    holder: map<nat, nat>)

  function FiledBy(s: System, mgr: nat): map<nat, Values> {
    if mgr in s.filed then s.filed[mgr] else map[]
  }

  function Tags(stack: seq<Scope>): seq<nat> {
    if stack == [] then [] else [stack[0].tag] + Tags(stack[1..])
  }

  /** The search through the innermost n of the calls. */
  function FirstFiled(filed: map<nat, Values>, stack: seq<Scope>, n: nat): Option<Values> {
    if stack == [] || n == 0 then None
    else if stack[0].tag in filed then Some(filed[stack[0].tag])
    else FirstFiled(filed, stack[1..], n - 1)
  }

  function Lookup(vs: Option<Values>, key: Key): Option<Value> {
    if vs.Some? && key in vs.value then Some(vs.value[key]) else None
  }

  /** GetValue when its trace shows n tags. */
  function GetValue(s: System, g: nat, mgr: nat, key: Key, n: nat): Option<Value>
    requires g in s.stacks
  {
    Lookup(FirstFiled(FiledBy(s, mgr), s.stacks[g], n), key)
  }

  /** SetValues up to the call of its callback, when its trace shows n tags. */
  function Enter(s: System, g: nat, mgr: nat, vals: Values, n: nat): System
    requires g in s.stacks
  {
    if vals == map[] then s
    else
      var existing := FirstFiled(FiledBy(s, mgr), s.stacks[g], n);
      var values := if existing.Some? then existing.value + vals else vals;
      var (tag, pool) := AcquireFrom(s.pool);
      System(pool, s.filed[mgr := FiledBy(s, mgr)[tag := values]],
             s.stacks[g := [Scope(mgr, tag, vals, n)] + s.stacks[g]], s.holder[tag := mgr])
  }

  /** What SetValues does after its callback. */
  function Leave(s: System, g: nat): System
    requires g in s.stacks && s.stacks[g] != []
  {
    var top := s.stacks[g][0];
    System(ReleaseTo(s.pool, top.tag), s.filed[top.mgr := FiledBy(s, top.mgr) - {top.tag}],
           s.stacks[g := s.stacks[g][1..]], s.holder - {top.tag})
  }

  datatype Event = Start(g: nat) | SetValues(g: nat, mgr: nat, vals: Values, n: nat) | Return(g: nat)

  /** A goroutine starts with an empty stack; only a SetValues that went further than
      its callback has anything to undo.  A trace may show any number of tags. */
  predicate Possible(s: System, e: Event) {
    match e
    case Start(g) => g !in s.stacks
    case SetValues(g, _, _, _) => g in s.stacks
    case Return(g) => g in s.stacks && s.stacks[g] != []
  }

  function Step(s: System, e: Event): System
    requires Possible(s, e)
  {
    match e
    case Start(g) => s.(stacks := s.stacks[g := []])
    case SetValues(g, mgr, vals, n) => Enter(s, g, mgr, vals, n)
    case Return(g) => Leave(s, g)
  }

  predicate PossibleRun(s: System, es: seq<Event>)
    decreases |es|
  {
    es == [] || (Possible(s, es[0]) && PossibleRun(Step(s, es[0]), es[1..]))
  }

  function Run(s: System, es: seq<Event>): System
    requires PossibleRun(s, es)
    decreases |es|
  {
    if es == [] then s else Run(Step(s, es[0]), es[1..])
  }

  const EMPTY := System(Pool([], 0), map[], map[], map[])

  // ----- Dynamic scoping -----

  /** The outward search: the innermost of the manager's calls that set the key. */
  function Outward(stack: seq<Scope>, mgr: nat, key: Key): Option<Value> {
    if stack == [] then None
    else if stack[0].mgr == mgr && key in stack[0].vals then Some(stack[0].vals[key])
    else Outward(stack[1..], mgr, key)
  }

  /** The manager's own calls in progress, innermost first. */
  function Own(stack: seq<Scope>, mgr: nat): seq<Scope> {
    if stack == [] then []
    else (if stack[0].mgr == mgr then [stack[0]] else []) + Own(stack[1..], mgr)
  }

  /** The manager's own calls that are found by going outwards from call to call, each
      time within the tags that the trace taken there shows. */
  function Reached(stack: seq<Scope>, mgr: nat, n: nat): seq<Scope> {
    if stack == [] || n == 0 then []
    else if stack[0].mgr == mgr then [stack[0]] + Reached(stack[1..], mgr, stack[0].seen)
    else Reached(stack[1..], mgr, n - 1)
  }

  function FirstSetting(cs: seq<Scope>, key: Key): Option<Value> {
    if cs == [] then None
    else if key in cs[0].vals then Some(cs[0].vals[key])
    else FirstSetting(cs[1..], key)
  }

  predicate SetIn(cs: seq<Scope>, key: Key) { exists i :: 0 <= i < |cs| && key in cs[i].vals }

  function Merged(cs: seq<Scope>): Values {
    if cs == [] then map[] else Merged(cs[1..]) + cs[0].vals
  }

  lemma {:induction false} MergedIsFirst(cs: seq<Scope>, key: Key)
    ensures Lookup(Some(Merged(cs)), key) == FirstSetting(cs, key)
  {
    if cs != [] {
      MergedIsFirst(cs[1..], key);
    }
  }

  lemma {:induction false} OutwardIsFirstOwn(stack: seq<Scope>, mgr: nat, key: Key)
    ensures Outward(stack, mgr, key) == FirstSetting(Own(stack, mgr), key)
  {
    if stack != [] {
      OutwardIsFirstOwn(stack[1..], mgr, key);
      Empty(Own(stack[1..], mgr));
      assert stack[0].mgr == mgr ==> Own(stack, mgr)[1..] == Own(stack[1..], mgr);
    }
  }

  lemma {:induction false} FirstSettingSplit(cs: seq<Scope>, ds: seq<Scope>, key: Key)
    ensures FirstSetting(cs, key).Some? <==> SetIn(cs, key)
    ensures FirstSetting(cs + ds, key) == if SetIn(cs, key) then FirstSetting(cs, key) else FirstSetting(ds, key)
  {
    if cs == [] {
      Empty(ds);
    } else {
      FirstSettingSplit(cs[1..], ds, key);
      assert (cs + ds)[1..] == cs[1..] + ds;
      assert SetIn(cs, key) <==> key in cs[0].vals || SetIn(cs[1..], key) by {
        if SetIn(cs, key) && key !in cs[0].vals {
          var i :| 0 <= i < |cs| && key in cs[i].vals;
          assert cs[1..][i - 1] == cs[i];
        }
        if SetIn(cs[1..], key) {
          var i :| 0 <= i < |cs| - 1 && key in cs[1..][i].vals;
          assert cs[i + 1] == cs[1..][i];
        }
      }
    }
  }

  lemma {:induction false} ReachedIsPrefix(stack: seq<Scope>, mgr: nat, n: nat)
    ensures Reached(stack, mgr, n) <= Own(stack, mgr)
  {
    if stack != [] && n > 0 {
      var own := stack[0].mgr == mgr;
      ReachedIsPrefix(stack[1..], mgr, if own then stack[0].seen else n - 1);
      Empty(Own(stack[1..], mgr));
    }
  }

  // ----- The invariant -----

  /** Every call in progress holds its tag, and its manager has filed under it what the
      calls reached from there have set. */
  ghost predicate ScopeFiled(s: System, g: nat, i: nat)
    requires g in s.stacks && i < |s.stacks[g]|
  {
    var c := s.stacks[g][i];
    && c.vals != map[]
    && c.tag in s.holder && s.holder[c.tag] == c.mgr
    && c.tag in FiledBy(s, c.mgr) && FiledBy(s, c.mgr)[c.tag] == Merged(Reached(s.stacks[g][i..], c.mgr, 1))
  }

  /** No two calls in progress have the same tag. */
  ghost predicate UniqueTags(stacks: map<nat, seq<Scope>>) {
    forall g, i, h, j | g in stacks && h in stacks && 0 <= i < |stacks[g]| && 0 <= j < |stacks[h]| ::
      stacks[g][i].tag == stacks[h][j].tag ==> g == h && i == j
  }

  ghost predicate FiledAreHeld(s: System) {
    forall mgr: nat, t: nat :: t in FiledBy(s, mgr) <==> t in s.holder && s.holder[t] == mgr
  }

  ghost predicate Inv(s: System) {
    && PoolInv(s.pool, s.holder.Keys)
    && (forall g, i :: g in s.stacks && 0 <= i < |s.stacks[g]| ==> ScopeFiled(s, g, i))
    && UniqueTags(s.stacks)
    && FiledAreHeld(s)
  }

  /** The first of the visible tags that the manager has filed holds what the calls
      reached from here have set. */
  lemma {:induction false} FirstFiledIsReached(s: System, g: nat, mgr: nat, i: nat, n: nat)
    requires Inv(s) && g in s.stacks && i <= |s.stacks[g]|
    ensures var cs := Reached(s.stacks[g][i..], mgr, n);
            FirstFiled(FiledBy(s, mgr), s.stacks[g][i..], n) == if cs == [] then None else Some(Merged(cs))
    decreases |s.stacks[g]| - i
  {
    var stack := s.stacks[g][i..];
    if stack != [] && n > 0 {
      var c := stack[0];
      assert ScopeFiled(s, g, i);
      assert stack[1..] == s.stacks[g][i + 1..];
      FirstFiledIsReached(s, g, mgr, i + 1, n - 1);
      assert c.tag in FiledBy(s, mgr) <==> c.mgr == mgr;
    }
  }

  lemma EnterMerges(s: System, g: nat, mgr: nat, vals: Values, n: nat)
    requires Inv(s) && g in s.stacks && vals != map[]
    ensures var (tag, _) := AcquireFrom(s.pool);
            FiledBy(Enter(s, g, mgr, vals, n), mgr) ==
            FiledBy(s, mgr)[tag := Merged(Reached([Scope(mgr, tag, vals, n)] + s.stacks[g], mgr, 1))]
  {
    var stack := s.stacks[g];
    var (tag, _) := AcquireFrom(s.pool);
    var c := Scope(mgr, tag, vals, n);
    assert stack[0..] == stack;
    FirstFiledIsReached(s, g, mgr, 0, n);
    var below := Reached(stack, mgr, n);
    assert ([c] + stack)[1..] == stack;
    assert Reached([c] + stack, mgr, 1) == [c] + below && ([c] + below)[1..] == below;
    assert map[] + vals == vals;
  }

  lemma EnterFiles(s: System, g: nat, mgr: nat, vals: Values, n: nat)
    requires Inv(s) && g in s.stacks && vals != map[]
    ensures FiledAreHeld(Enter(s, g, mgr, vals, n))
  {
    AcquireKeeps(s.pool, s.holder.Keys);
    var s' := Enter(s, g, mgr, vals, n);
    forall m: nat, t: nat ensures t in FiledBy(s', m) <==> t in s'.holder && s'.holder[t] == m {
      assert t in FiledBy(s, m) <==> t in s.holder && s.holder[t] == m;
    }
  }

  lemma EnterKeeps(s: System, g: nat, mgr: nat, vals: Values, n: nat)
    requires Inv(s) && g in s.stacks
    ensures Inv(Enter(s, g, mgr, vals, n))
  {
    if vals == map[] { return; }
    var s', stack := Enter(s, g, mgr, vals, n), s.stacks[g];
    var (tag, pool) := AcquireFrom(s.pool);
    var c := Scope(mgr, tag, vals, n);
    AcquireKeeps(s.pool, s.holder.Keys);
    EnterMerges(s, g, mgr, vals, n);
    EnterFiles(s, g, mgr, vals, n);
    assert s'.holder.Keys == s.holder.Keys + {tag};
    assert s'.stacks[g][0] == c && s'.stacks[g][1..] == stack;
    forall h, i | h in s'.stacks && 0 <= i < |s'.stacks[h]| ensures ScopeFiled(s', h, i) {
      if h != g {
        assert ScopeFiled(s, h, i);
      } else if i > 0 {
        assert ScopeFiled(s, g, i - 1);
        assert s'.stacks[g][i..] == stack[i - 1..];
      } else {
        assert s'.stacks[g][0..] == s'.stacks[g];
      }
    }
    assert s'.stacks == s.stacks[g := [c] + s.stacks[g]];
    TagsStayDistinct(s, s', g, c);
  }

  lemma TagsStayDistinct(s: System, s': System, g: nat, c: Scope)
    requires Inv(s) && g in s.stacks && c.tag !in s.holder
    requires s'.stacks == s.stacks[g := [c] + s.stacks[g]]
    ensures UniqueTags(s'.stacks)
  {
    forall a, i, b, j | a in s'.stacks && b in s'.stacks && 0 <= i < |s'.stacks[a]| && 0 <= j < |s'.stacks[b]|
        && s'.stacks[a][i].tag == s'.stacks[b][j].tag
      ensures a == b && i == j
    {
      var i0, j0 := if a == g then i - 1 else i, if b == g then j - 1 else j;
      if i0 >= 0 { assert ScopeFiled(s, a, i0); assert s'.stacks[a][i] == s.stacks[a][i0]; }
      if j0 >= 0 { assert ScopeFiled(s, b, j0); assert s'.stacks[b][j] == s.stacks[b][j0]; }
    }
  }

  lemma LeaveFiles(s: System, g: nat)
    requires Inv(s) && g in s.stacks && s.stacks[g] != []
    ensures FiledAreHeld(Leave(s, g))
  {
    var s' := Leave(s, g);
    assert ScopeFiled(s, g, 0);
    forall m: nat, t: nat ensures t in FiledBy(s', m) <==> t in s'.holder && s'.holder[t] == m {
      assert t in FiledBy(s, m) <==> t in s.holder && s.holder[t] == m;
    }
  }

  lemma LeaveKeeps(s: System, g: nat)
    requires Inv(s) && g in s.stacks && s.stacks[g] != []
    ensures Inv(Leave(s, g))
  {
    var s', top := Leave(s, g), s.stacks[g][0];
    assert ScopeFiled(s, g, 0);
    ReleaseKeeps(s.pool, s.holder.Keys, top.tag);
    assert s'.holder.Keys == s.holder.Keys - {top.tag};
    LeaveFiles(s, g);
    forall h, i | h in s'.stacks && 0 <= i < |s'.stacks[h]| ensures ScopeFiled(s', h, i) {
      var i0 := if h == g then i + 1 else i;
      assert ScopeFiled(s, h, i0);
      assert s'.stacks[h][i] == s.stacks[h][i0] && s'.stacks[h][i..] == s.stacks[h][i0..];
      assert s.stacks[h][i0].tag != top.tag;
    }
  }

  lemma StepKeeps(s: System, e: Event)
    requires Inv(s) && Possible(s, e)
    ensures Inv(Step(s, e))
  {
    match e
    case Start(g) =>
      forall m: nat, t: nat ensures t in FiledBy(Step(s, e), m) <==> t in FiledBy(s, m) {}
      forall h, i | h in Step(s, e).stacks && 0 <= i < |Step(s, e).stacks[h]| ensures ScopeFiled(Step(s, e), h, i) {
        assert ScopeFiled(s, h, i);
      }
    case SetValues(g, mgr, vals, n) => EnterKeeps(s, g, mgr, vals, n);
    case Return(g) => LeaveKeeps(s, g);
  }

  lemma {:induction false} RunKeeps(s: System, es: seq<Event>)
    requires Inv(s) && PossibleRun(s, es)
    ensures Inv(Run(s, es))
    decreases |es|
  {
    if es != [] {
      StepKeeps(s, es[0]);
      RunKeeps(Step(s, es[0]), es[1..]);
    }
  }

  lemma GetValueIsReached(s: System, g: nat, mgr: nat, key: Key, n: nat)
    requires Inv(s) && g in s.stacks
    ensures GetValue(s, g, mgr, key, n) == FirstSetting(Reached(s.stacks[g], mgr, n), key)
  {
    assert s.stacks[g][0..] == s.stacks[g];
    FirstFiledIsReached(s, g, mgr, 0, n);
    MergedIsFirst(Reached(s.stacks[g], mgr, n), key);
  }

  /** After any interleaving of SetValues and returns on any number of goroutines and
      managers, whatever their traces showed: GetValue returns what the innermost of the
      calls reached has set; no two calls in progress have the same tag, and held plus
      released ids are exactly 0 .. maxId - 1. */
  lemma EveryRun(es: seq<Event>, g: nat, mgr: nat, key: Key, n: nat)
    requires PossibleRun(EMPTY, es)
    ensures var s := Run(EMPTY, es);
            && (g in s.stacks ==> GetValue(s, g, mgr, key, n) == FirstSetting(Reached(s.stacks[g], mgr, n), key))
            && PoolInv(s.pool, s.holder.Keys)
            && UniqueTags(s.stacks)
  {
    RunKeeps(EMPTY, es);
    var s := Run(EMPTY, es);
    if g in s.stacks {
      GetValueIsReached(s, g, mgr, key, n);
    }
  }

  // ----- When the outward search is met -----

  /** GetValue finds what the outward search of the nested SetValues calls would if and
      only if no call beyond those reached sets the key, or one of those reached does too. */
  lemma GetValueIsOutwardIff(s: System, g: nat, mgr: nat, key: Key, n: nat)
    requires Inv(s) && g in s.stacks
    ensures var stack := s.stacks[g];
            var reached := Reached(stack, mgr, n);
            && reached <= Own(stack, mgr)
            && (GetValue(s, g, mgr, key, n) == Outward(stack, mgr, key) <==>
                (SetIn(Own(stack, mgr)[|reached|..], key) ==> SetIn(reached, key)))
  {
    var stack := s.stacks[g];
    var reached := Reached(stack, mgr, n);
    GetValueIsReached(s, g, mgr, key, n);
    OutwardIsFirstOwn(stack, mgr, key);
    ReachedIsPrefix(stack, mgr, n);
    var beyond := Own(stack, mgr)[|reached|..];
    assert Own(stack, mgr) == reached + beyond;
    FirstSettingSplit(reached, beyond, key);
    FirstSettingSplit(beyond, [], key);
  }

  /** Of every run, for every goroutine and manager: all keys are found if and only if
      every key set beyond the first broken link was also set before it. */
  lemma EveryRunIff(es: seq<Event>, g: nat, mgr: nat, n: nat)
    requires PossibleRun(EMPTY, es) && g in Run(EMPTY, es).stacks
    ensures var s := Run(EMPTY, es);
            var reached := Reached(s.stacks[g], mgr, n);
            && reached <= Own(s.stacks[g], mgr)
            && ((forall key :: GetValue(s, g, mgr, key, n) == Outward(s.stacks[g], mgr, key)) <==>
                (forall key :: SetIn(Own(s.stacks[g], mgr)[|reached|..], key) ==> SetIn(reached, key)))
  {
    RunKeeps(EMPTY, es);
    var s := Run(EMPTY, es);
    ReachedIsPrefix(s.stacks[g], mgr, n);
    forall key {
      GetValueIsOutwardIff(s, g, mgr, key, n);
    }
  }

  /** Among the innermost n of the calls is one of the manager's own, or it has none. */
  ghost predicate SeesOwn(stack: seq<Scope>, mgr: nat, n: nat) {
    || (exists i :: 0 <= i < |stack| && i < n && stack[i].mgr == mgr)
    || (forall i :: 0 <= i < |stack| ==> stack[i].mgr != mgr)
  }

  /** The reader and each of the manager's calls saw the next of its calls outwards. */
  ghost predicate Linked(stack: seq<Scope>, mgr: nat, n: nat) {
    && SeesOwn(stack, mgr, n)
    && forall i :: 0 <= i < |stack| && stack[i].mgr == mgr ==> SeesOwn(stack[i + 1..], mgr, stack[i].seen)
  }

  lemma SeesOwnNext(stack: seq<Scope>, mgr: nat, n: nat)
    requires stack != [] && stack[0].mgr != mgr && n > 0
    ensures SeesOwn(stack, mgr, n) <==> SeesOwn(stack[1..], mgr, n - 1)
  {
    var rest := stack[1..];
    assert forall i :: 0 <= i < |rest| ==> rest[i] == stack[i + 1];
    if i :| 0 <= i < |stack| && i < n && stack[i].mgr == mgr {
      assert rest[i - 1].mgr == mgr;
    }
    if i :| 0 <= i < |rest| && i < n - 1 && rest[i].mgr == mgr {
      assert stack[i + 1].mgr == mgr;
    }
    if forall i :: 0 <= i < |rest| ==> rest[i].mgr != mgr {
      forall i | 0 <= i < |stack| ensures stack[i].mgr != mgr {
        assert i > 0 ==> stack[i] == rest[i - 1];
      }
    }
  }

  lemma LinkedNext(stack: seq<Scope>, mgr: nat, n: nat)
    requires stack != [] && n > 0
    ensures Linked(stack, mgr, n) <==> Linked(stack[1..], mgr, if stack[0].mgr == mgr then stack[0].seen else n - 1)
  {
    var rest := stack[1..];
    assert forall i :: 0 <= i < |rest| ==> rest[i] == stack[i + 1] && rest[i + 1..] == stack[i + 2..];
    if stack[0].mgr != mgr {
      SeesOwnNext(stack, mgr, n);
    }
    if Linked(stack, mgr, n) {
      forall i | 0 <= i < |rest| && rest[i].mgr == mgr ensures SeesOwn(rest[i + 1..], mgr, rest[i].seen) {
        assert stack[i + 1].mgr == mgr;
      }
    }
    if Linked(rest, mgr, if stack[0].mgr == mgr then stack[0].seen else n - 1) {
      forall i | 0 <= i < |stack| && stack[i].mgr == mgr ensures SeesOwn(stack[i + 1..], mgr, stack[i].seen) {
        assert i > 0 ==> rest[i - 1].mgr == mgr;
      }
    }
  }

  lemma {:induction false} NoneOwn(stack: seq<Scope>, mgr: nat)
    ensures Own(stack, mgr) == [] <==> forall i :: 0 <= i < |stack| ==> stack[i].mgr != mgr
  {
    if stack != [] {
      NoneOwn(stack[1..], mgr);
      assert forall i :: 0 < i < |stack| ==> stack[i] == stack[1..][i - 1];
    }
  }

  /** No call is out of reach if and only if every link holds. */
  lemma {:induction false} LinkedIff(stack: seq<Scope>, mgr: nat, n: nat)
    ensures Reached(stack, mgr, n) == Own(stack, mgr) <==> Linked(stack, mgr, n)
  {
    if stack == [] || n == 0 {
      NoneOwn(stack, mgr);
    } else {
      LinkedIff(stack[1..], mgr, if stack[0].mgr == mgr then stack[0].seen else n - 1);
      LinkedNext(stack, mgr, n);
      Empty(Own(stack[1..], mgr));
      if stack[0].mgr == mgr {
        assert Own(stack, mgr)[1..] == Own(stack[1..], mgr);
        assert Reached(stack, mgr, n)[1..] == Reached(stack[1..], mgr, stack[0].seen);
      }
    }
  }

  /** Every SetValues of the run that sets something sees the innermost of its manager's
      calls, or there is none. */
  ghost predicate SeesRun(s: System, es: seq<Event>)
    requires PossibleRun(s, es)
    decreases |es|
  {
    es != [] ==>
      && (es[0].SetValues? && es[0].vals != map[] ==> SeesOwn(s.stacks[es[0].g], es[0].mgr, es[0].n))
      && SeesRun(Step(s, es[0]), es[1..])
  }

  ghost predicate LinkedStacks(stacks: map<nat, seq<Scope>>) {
    forall g, i :: g in stacks && 0 <= i < |stacks[g]| ==>
      SeesOwn(stacks[g][i + 1..], stacks[g][i].mgr, stacks[g][i].seen)
  }

  lemma StepLinks(s: System, e: Event)
    requires Possible(s, e) && LinkedStacks(s.stacks)
    requires e.SetValues? && e.vals != map[] ==> SeesOwn(s.stacks[e.g], e.mgr, e.n)
    ensures LinkedStacks(Step(s, e).stacks)
  {
    var stacks: map<nat, seq<Scope>> := Step(s, e).stacks;
    forall g: nat, i: nat | g in stacks && i < |stacks[g]|
      ensures SeesOwn(stacks[g][i + 1..], stacks[g][i].mgr, stacks[g][i].seen)
    {
      if g != e.g || (e.SetValues? && e.vals == map[]) {
        assert stacks[g] == s.stacks[g];
      } else if e.SetValues? {
        assert stacks[g][i + 1..] == s.stacks[g][i..];
        if i > 0 {
          assert stacks[g][i] == s.stacks[g][i - 1];
        } else {
          assert s.stacks[g][0..] == s.stacks[g];
        }
      } else if e.Return? {
        assert stacks[g][i] == s.stacks[g][i + 1] && stacks[g][i + 1..] == s.stacks[g][i + 2..];
      }
    }
  }

  lemma {:induction false} RunLinks(s: System, es: seq<Event>)
    requires PossibleRun(s, es) && SeesRun(s, es) && LinkedStacks(s.stacks)
    ensures LinkedStacks(Run(s, es).stacks)
    decreases |es|
  {
    if es != [] {
      StepLinks(s, es[0]);
      RunLinks(Step(s, es[0]), es[1..]);
    }
  }

  /** While every link holds, GetValue returns what the full outward search of the nested
      SetValues calls on the goroutine would. */
  lemma GetValueIsOutward(s: System, g: nat, mgr: nat, key: Key, n: nat)
    requires Inv(s) && g in s.stacks && Linked(s.stacks[g], mgr, n)
    ensures GetValue(s, g, mgr, key, n) == Outward(s.stacks[g], mgr, key)
  {
    LinkedIff(s.stacks[g], mgr, n);
    GetValueIsReached(s, g, mgr, key, n);
    OutwardIsFirstOwn(s.stacks[g], mgr, key);
  }

  /** Where no SetValues was cut off from its manager's calls, a reader that sees n tags
      finds all keys if and only if it sees one of them, or there is none. */
  lemma CutTraceIff(s: System, g: nat, mgr: nat, n: nat)
    requires Inv(s) && LinkedStacks(s.stacks) && g in s.stacks
    ensures (forall key :: GetValue(s, g, mgr, key, n) == Outward(s.stacks[g], mgr, key)) <==>
            SeesOwn(s.stacks[g], mgr, n)
  {
    var stack := s.stacks[g];
    if SeesOwn(stack, mgr, n) {
      forall key ensures GetValue(s, g, mgr, key, n) == Outward(stack, mgr, key) {
        GetValueIsOutward(s, g, mgr, key, n);
      }
    } else {
      NothingReached(stack, mgr, n);
      var i :| 0 <= i < |stack| && stack[i].mgr == mgr;
      assert ScopeFiled(s, g, i);
      var key :| key in stack[i].vals;
      GetValueIsReached(s, g, mgr, key, n);
      OutwardFinds(stack, mgr, key, i);
    }
  }

  /** Whatever the depth of the stacks: after a run in which every SetValues saw the
      innermost of its manager's calls if there was one, all keys are found from n tags
      if and only if that holds of the reader too. */
  lemma EveryRunSeen(es: seq<Event>, g: nat, mgr: nat, n: nat)
    requires PossibleRun(EMPTY, es) && SeesRun(EMPTY, es) && g in Run(EMPTY, es).stacks
    ensures var s := Run(EMPTY, es);
            (forall key :: GetValue(s, g, mgr, key, n) == Outward(s.stacks[g], mgr, key)) <==>
            SeesOwn(s.stacks[g], mgr, n)
  {
    RunKeeps(EMPTY, es);
    RunLinks(EMPTY, es);
    CutTraceIff(Run(EMPTY, es), g, mgr, n);
  }

  lemma {:induction false} NothingReached(stack: seq<Scope>, mgr: nat, n: nat)
    requires !SeesOwn(stack, mgr, n)
    ensures Reached(stack, mgr, n) == []
  {
    if stack != [] && n > 0 {
      SeesOwnNext(stack, mgr, n);
      NothingReached(stack[1..], mgr, n - 1);
    }
  }

  lemma {:induction false} OutwardFinds(stack: seq<Scope>, mgr: nat, key: Key, i: nat)
    requires i < |stack| && stack[i].mgr == mgr && key in stack[i].vals
    ensures Outward(stack, mgr, key).Some?
  {
    if i > 0 {
      OutwardFinds(stack[1..], mgr, key, i - 1);
    }
  }

  // ----- Traces -----

  /** From the trace that the code takes of a goroutine, whatever other frames lie between
      the markers, the search is that through as many of the innermost calls as have all
      their markers within the 64 frames. */
  lemma TraceShows(filed: map<nat, Values>, stack: seq<Scope>, trace: seq<Frame>)
    requires Marks(trace) == TagsFrames(Tags(stack)) && AllUint(Tags(stack))
    ensures var cut := CurrentStack(trace);
            Starts(cut) <= |stack| && FirstOf(filed, ReadFrom(cut, 0)) == FirstFiled(filed, stack, Starts(cut))
  {
    var m := if |trace| <= MAX_CALLERS then |trace| else MAX_CALLERS;
    assert trace[..m] == CurrentStack(trace);
    CutStackTags(trace, Tags(stack), m);
    OneTagEach(stack);
    FirstOfTags(filed, stack, Starts(trace[..m]));
  }

  /** The manager's own search, from the trace it takes, finds what the outward search of
      the calls would while every link holds. */
  lemma TraceLookupIsOutward(s: System, g: nat, mgr: nat, key: Key, trace: seq<Frame>)
    requires Inv(s) && g in s.stacks
    requires Marks(trace) == TagsFrames(Tags(s.stacks[g])) && AllUint(Tags(s.stacks[g]))
    requires Linked(s.stacks[g], mgr, Starts(CurrentStack(trace)))
    ensures Lookup(FirstOf(FiledBy(s, mgr), ReadFrom(CurrentStack(trace), 0)), key) == Outward(s.stacks[g], mgr, key)
  {
    TraceShows(FiledBy(s, mgr), s.stacks[g], trace);
    GetValueIsOutward(s, g, mgr, key, Starts(CurrentStack(trace)));
  }

  lemma {:induction false} OneTagEach(stack: seq<Scope>)
    ensures |Tags(stack)| == |stack|
  {
    if stack != [] {
      OneTagEach(stack[1..]);
    }
  }

  lemma {:induction false} FirstOfTags(filed: map<nat, Values>, stack: seq<Scope>, n: nat)
    requires n <= |stack| == |Tags(stack)|
    ensures FirstOf(filed, Tags(stack)[..n]) == FirstFiled(filed, stack, n)
  {
    if n > 0 {
      OneTagEach(stack[1..]);
      FirstOfTags(filed, stack[1..], n - 1);
      assert Tags(stack)[..n][1..] == Tags(stack[1..])[..n - 1];
    }
  }

  /** The search of GetValue in the code, from the trace it takes, finds all keys that the
      outward search would if and only if every key set beyond the first broken link was
      also set before it. */
  lemma CutFramesIff(s: System, g: nat, mgr: nat, trace: seq<Frame>)
    requires Inv(s) && g in s.stacks
    requires Marks(trace) == TagsFrames(Tags(s.stacks[g])) && AllUint(Tags(s.stacks[g]))
    ensures var stack, cut := s.stacks[g], CurrentStack(trace);
            var reached := Reached(stack, mgr, Starts(cut));
            && reached <= Own(stack, mgr)
            && ((forall key :: Lookup(FirstOf(FiledBy(s, mgr), ReadFrom(cut, 0)), key) == Outward(stack, mgr, key)) <==>
                (forall key :: SetIn(Own(stack, mgr)[|reached|..], key) ==> SetIn(reached, key)))
  {
    var n := Starts(CurrentStack(trace));
    TraceShows(FiledBy(s, mgr), s.stacks[g], trace);
    ReachedIsPrefix(s.stacks[g], mgr, n);
    forall key {
      GetValueIsOutwardIff(s, g, mgr, key, n);
    }
  }

  // ----- Go -----

  /** What Go carries over: for each registered manager, in whatever order they come,
      the values that its search finds from the trace taken in Go, if there are any. */
  function Captured(s: System, g: nat, mgrs: seq<nat>, n: nat): seq<(nat, Values)>
    requires g in s.stacks
  {
    if mgrs == [] then []
    else
      var vs := FirstFiled(FiledBy(s, mgrs[0]), s.stacks[g], n);
      (if vs.Some? && vs.value != map[] then [(mgrs[0], vs.value)] else []) + Captured(s, g, mgrs[1..], n)
  }

  predicate DistinctMgrs(ms: seq<nat>) { forall i, j :: 0 <= i < j < |ms| ==> ms[i] != ms[j] }

  /** Among what happens on any goroutines, goroutine h calls SetValues with these, the last
      of them first, and does nothing else. */
  predicate SetsOnly(es: seq<Event>, h: nat, todo: seq<(nat, Values)>)
    decreases |es|
  {
    if es == [] then todo == []
    else if es[0].g != h then SetsOnly(es[1..], h, todo)
    else
      var n := |todo| - 1;
      && n >= 0 && es[0].SetValues? && (es[0].mgr, es[0].vals) == todo[n]
      && SetsOnly(es[1..], h, todo[..n])
  }

  /** What the calls in progress have set, innermost first. */
  function Settings(stack: seq<Scope>): seq<(nat, Values)> {
    if stack == [] then [] else [(stack[0].mgr, stack[0].vals)] + Settings(stack[1..])
  }

  lemma {:induction false} SettingsStack(s: System, es: seq<Event>, h: nat, todo: seq<(nat, Values)>)
    requires PossibleRun(s, es) && h in s.stacks && SetsOnly(es, h, todo)
    requires forall i :: 0 <= i < |todo| ==> todo[i].1 != map[]
    ensures h in Run(s, es).stacks && Settings(Run(s, es).stacks[h]) == todo + Settings(s.stacks[h])
    decreases |es|
  {
    if es == [] {
      Empty(Settings(s.stacks[h]));
    } else {
      var e, s1 := es[0], Step(s, es[0]);
      if e.g != h {
        assert s1.stacks[h] == s.stacks[h];
        SettingsStack(s1, es[1..], h, todo);
      } else {
        var n := |todo| - 1;
        SettingsStack(s1, es[1..], h, todo[..n]);
        assert s1.stacks[h][1..] == s.stacks[h];
        Assoc(todo[..n], [todo[n]], Settings(s.stacks[h]));
        assert todo[..n] + [todo[n]] == todo;
      }
    }
  }

  /** The manager has one call in progress, which has set vs, or none if that is nothing. */
  ghost predicate HasOnly(stack: seq<Scope>, mgr: nat, vs: Option<Values>) {
    var own := Own(stack, mgr);
    if vs.Some? && vs.value != map[] then |own| == 1 && own[0].vals == vs.value else own == []
  }

  lemma {:induction false} CapturedFrom(s: System, g: nat, mgrs: seq<nat>, n: nat)
    requires g in s.stacks
    ensures forall i :: 0 <= i < |Captured(s, g, mgrs, n)| ==> Captured(s, g, mgrs, n)[i].1 != map[]
  {
    if mgrs != [] {
      CapturedFrom(s, g, mgrs[1..], n);
    }
  }

  /** Each manager that had something has one call on a stack that sets what was captured. */
  lemma {:induction false} CapturedOwn(s: System, g: nat, mgrs: seq<nat>, n: nat, stack: seq<Scope>, mgr: nat)
    requires g in s.stacks && DistinctMgrs(mgrs) && Settings(stack) == Captured(s, g, mgrs, n)
    ensures HasOnly(stack, mgr, if mgr in mgrs then FirstFiled(FiledBy(s, mgr), s.stacks[g], n) else None)
    decreases |mgrs|
  {
    if mgrs == [] {
      assert stack == [];
    } else {
      var cs, more := Captured(s, g, mgrs, n), Captured(s, g, mgrs[1..], n);
      assert forall i :: 0 <= i < |mgrs| - 1 ==> mgrs[1..][i] == mgrs[i + 1];
      assert mgrs[0] !in mgrs[1..];
      assert mgr in mgrs <==> mgr == mgrs[0] || mgr in mgrs[1..];
      if cs == more {
        CapturedOwn(s, g, mgrs[1..], n, stack, mgr);
      } else {
        assert cs[1..] == more && stack != [] && Settings(stack)[1..] == Settings(stack[1..]);
        CapturedOwn(s, g, mgrs[1..], n, stack[1..], mgr);
        Empty(Own(stack[1..], mgr));
      }
    }
  }

  lemma {:induction false} OneOwnReached(stack: seq<Scope>, mgr: nat, n: nat)
    requires |Own(stack, mgr)| <= 1 && SeesOwn(stack, mgr, n)
    ensures Reached(stack, mgr, n) == Own(stack, mgr)
  {
    NoneOwn(stack, mgr);
    if stack != [] && n > 0 {
      Empty(Own(stack[1..], mgr));
      if stack[0].mgr == mgr {
        ReachedIsPrefix(stack[1..], mgr, stack[0].seen);
      } else {
        SeesOwnNext(stack, mgr, n);
        OneOwnReached(stack[1..], mgr, n - 1);
      }
    }
  }

  /** With no more than one call of its own, which has set exactly vs, a manager finds
      all of vs if and only if that call is seen. */
  lemma OneOwnIff(s: System, h: nat, mgr: nat, m: nat, vs: Option<Values>)
    requires Inv(s) && h in s.stacks
    requires HasOnly(s.stacks[h], mgr, vs)
    ensures (forall key :: GetValue(s, h, mgr, key, m) == Lookup(vs, key)) <==> SeesOwn(s.stacks[h], mgr, m)
  {
    var stack := s.stacks[h];
    NoneOwn(stack, mgr);
    if SeesOwn(stack, mgr, m) {
      OneOwnReached(stack, mgr, m);
      forall key ensures GetValue(s, h, mgr, key, m) == Lookup(vs, key) {
        GetValueIsReached(s, h, mgr, key, m);
      }
    } else {
      NothingReached(stack, mgr, m);
      var key :| key in vs.value;
      GetValueIsReached(s, h, mgr, key, m);
      assert Lookup(vs, key) != None;
    }
  }

  /** In a goroutine h started by Go, every registered manager gets the values that were in
      force where Go was called, whatever all other goroutines do meanwhile (t is the state
      in which h starts, es what happens until it has set what was captured), if and only if
      the reader's trace shows the manager's call or it had nothing. */
  lemma GoPreservesValuesIff(s: System, g: nat, mgrs: seq<nat>, n: nat, t: System, h: nat, es: seq<Event>, mgr: nat, m: nat)
    requires Inv(s) && g in s.stacks && DistinctMgrs(mgrs) && mgr in mgrs
    requires Inv(t) && h in t.stacks && t.stacks[h] == []
    requires PossibleRun(t, es) && SetsOnly(es, h, Captured(s, g, mgrs, n))
    ensures var t' := Run(t, es);
            && h in t'.stacks
            && ((forall key :: GetValue(t', h, mgr, key, m) == GetValue(s, g, mgr, key, n)) <==>
                SeesOwn(t'.stacks[h], mgr, m))
  {
    var t', cs := Run(t, es), Captured(s, g, mgrs, n);
    RunKeeps(t, es);
    CapturedFrom(s, g, mgrs, n);
    SettingsStack(t, es, h, cs);
    Empty(cs);
    CapturedOwn(s, g, mgrs, n, t'.stacks[h], mgr);
    OneOwnIff(t', h, mgr, m, FirstFiled(FiledBy(s, mgr), s.stacks[g], n));
  }
}
