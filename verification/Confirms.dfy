/**
 Publisher confirms: tags numbered as messages are published, kept in a heap while
 outstanding, and passed on to the ack or nack listeners as the broker confirms them.
 */
module Confirms {
  import opened Sequences
  import opened TagHeap

  // ----- The abstract machine -----

  /** The outstanding tags, the publish counter, and what the ack and the nack
      listeners have been sent. */
  datatype State = State(outstanding: set<nat>, counter: nat, acked: seq<nat>, nacked: seq<nat>)

  datatype Event = Publish | Confirm(tag: nat, multiple: bool, ack: bool)

  ghost predicate IsLeast(m: nat, s: set<nat>) { m in s && forall x :: x in s ==> m <= x }

  ghost function Least(s: set<nat>): (m: nat)
    requires s != {}
    ensures IsLeast(m, s)
  {
    LeastExists(s);
    var m :| IsLeast(m, s);
    m
  }

  lemma {:induction false} LeastExists(s: set<nat>)
    requires s != {}
    ensures exists m :: IsLeast(m, s)
    decreases |s|
  {
    var x :| x in s;
    var rest := s - {x};
    if rest == {} {
      assert s == {x};
      assert IsLeast(x, s);
    } else {
      LeastExists(rest);
      var m :| IsLeast(m, rest);
      assert s == rest + {x};
      assert IsLeast(if m < x then m else x, s);
    }
  }

  /** The elements in increasing order. */
  ghost function Ascending(s: set<nat>): (r: seq<nat>)
    decreases |s|
  {
    if s == {} then [] else [Least(s)] + Ascending(s - {Least(s)})
  }

  ghost function UpTo(s: set<nat>, tag: nat): set<nat> { set t | t in s && t <= tag }

  /** What one confirm of the broker notifies. */
  ghost function Notified(st: State, tag: nat, multiple: bool): seq<nat> {
    if multiple then Ascending(UpTo(st.outstanding, tag)) else [tag]
  }

  ghost function Step(st: State, e: Event): State {
    match e
    case Publish => st.(outstanding := st.outstanding + {st.counter + 1}, counter := st.counter + 1)
    case Confirm(tag, multiple, ack) =>
      var ns := Notified(st, tag, multiple);
      var left := if multiple then st.outstanding - UpTo(st.outstanding, tag) else st.outstanding - {tag};
      if ack then st.(outstanding := left, acked := st.acked + ns) else st.(outstanding := left, nacked := st.nacked + ns)
  }

  /** The broker confirms only tags that are still outstanding. */
  predicate Legal(st: State, e: Event) { e.Confirm? ==> e.tag in st.outstanding }

  ghost predicate LegalRun(st: State, es: seq<Event>)
    decreases |es|
  {
    es == [] || (Legal(st, es[0]) && LegalRun(Step(st, es[0]), es[1..]))
  }

  ghost function Run(st: State, es: seq<Event>): State
    decreases |es|
  {
    if es == [] then st else Run(Step(st, es[0]), es[1..])
  }

  // ----- Ascending -----

  lemma {:induction false} AscendingMembers(s: set<nat>)
    ensures multiset(Ascending(s)) == multiset(s)
    decreases |s|
  {
    if s != {} {
      var m := Least(s);
      AscendingMembers(s - {m});
      assert s == (s - {m}) + {m};
    }
  }

  lemma {:induction false} AscendingIncreases(s: set<nat>)
    ensures forall i, j :: 0 <= i < j < |Ascending(s)| ==> Ascending(s)[i] < Ascending(s)[j]
    decreases |s|
  {
    if s != {} {
      var m := Least(s);
      var rest := Ascending(s - {m});
      AscendingIncreases(s - {m});
      AscendingMembers(s - {m});
      forall j | 0 <= j < |rest| ensures m < rest[j] {
        assert rest[j] in multiset(rest);
      }
    }
  }

  lemma AscendingAppend(s: set<nat>, last: nat)
    requires last !in s && forall x :: x in s ==> x < last
    ensures Ascending(s + {last}) == Ascending(s) + [last]
    decreases |s|
  {
    var all := s + {last};
    if s == {} {
      assert all == {last} && Least(all) == last;
      assert all - {last} == {};
      Empty([last]);
    } else {
      var m := Least(s);
      assert IsLeast(m, all) && Least(all) == m;
      AscendingAppend(s - {m}, last);
      assert all - {m} == (s - {m}) + {last};
      Assoc([m], Ascending(s - {m}), [last]);
    }
  }

  // ----- Every run -----

  /** What has been notified so far, of either kind. */
  function AllNotified(st: State): multiset<nat> { multiset(st.acked) + multiset(st.nacked) }

  /** The n tags after the first `from`. */
  function Tags(from: nat, n: nat): (s: set<nat>)
    ensures forall t :: t in s <==> from < t <= from + n
  {
    if n == 0 then {} else Tags(from, n - 1) + {from + n}
  }

  function Published(st: State): set<nat> { Tags(0, st.counter) }

  /** Outstanding and notified tags are exactly the tags published, each accounted for
      once. */
  ghost predicate Accounted(st: State) {
    multiset(st.outstanding) + AllNotified(st) == multiset(Published(st))
  }

  lemma DisjointUnion(a: set<nat>, b: set<nat>)
    requires a !! b
    ensures multiset(a + b) == multiset(a) + multiset(b)
  {
    forall t ensures multiset(a + b)[t] == (multiset(a) + multiset(b))[t] {}
  }

  lemma PublishAccounted(st: State)
    requires Accounted(st)
    ensures Accounted(Step(st, Publish))
  {
    var tag := st.counter + 1;
    assert multiset(st.outstanding)[tag] <= multiset(Published(st))[tag] == 0;
    assert Published(Step(st, Publish)) == Published(st) + {tag};
    DisjointUnion(Published(st), {tag});
    DisjointUnion(st.outstanding, {tag});
  }

  lemma ConfirmAccounted(st: State, tag: nat, multiple: bool, ack: bool)
    requires Accounted(st) && tag in st.outstanding
    ensures Accounted(Step(st, Confirm(tag, multiple, ack)))
  {
    var gone := if multiple then UpTo(st.outstanding, tag) else {tag};
    if multiple { AscendingMembers(gone); }
    assert multiset(Notified(st, tag, multiple)) == multiset(gone);
    OutstandingShrinks(st, tag, multiple, ack);
    NotifiedGrows(st, tag, multiple, ack);
  }

  lemma OutstandingShrinks(st: State, tag: nat, multiple: bool, ack: bool)
    requires tag in st.outstanding
    ensures var gone := if multiple then UpTo(st.outstanding, tag) else {tag};
            multiset(st.outstanding) == multiset(Step(st, Confirm(tag, multiple, ack)).outstanding) + multiset(gone)
  {
    var left := Step(st, Confirm(tag, multiple, ack)).outstanding;
    var gone := if multiple then UpTo(st.outstanding, tag) else {tag};
    assert st.outstanding == left + gone;
    DisjointUnion(left, gone);
  }

  lemma NotifiedGrows(st: State, tag: nat, multiple: bool, ack: bool)
    ensures AllNotified(Step(st, Confirm(tag, multiple, ack))) == AllNotified(st) + multiset(Notified(st, tag, multiple))
  {}

  lemma StepAccounted(st: State, e: Event)
    requires Accounted(st) && Legal(st, e)
    ensures Accounted(Step(st, e))
  {
    match e
    case Publish => PublishAccounted(st);
    case Confirm(tag, multiple, ack) => ConfirmAccounted(st, tag, multiple, ack);
  }

  const INITIAL := State({}, 0, [], [])

  /** Over every run against such a broker: each published tag is either outstanding or
      has been notified exactly once, as an ack or as a nack, and nothing else has. */
  lemma {:induction false} RunAccounted(st: State, es: seq<Event>)
    requires Accounted(st) && LegalRun(st, es)
    ensures Accounted(Run(st, es))
    decreases |es|
  {
    if es != [] {
      StepAccounted(st, es[0]);
      RunAccounted(Step(st, es[0]), es[1..]);
    }
  }

  lemma NotifiedAtMostOnce(es: seq<Event>, t: nat)
    requires LegalRun(INITIAL, es)
    ensures var st := Run(INITIAL, es);
            && AllNotified(st)[t] <= 1
            && (t in st.outstanding <==> 1 <= t <= st.counter && AllNotified(st)[t] == 0)
  {
    assert Published(INITIAL) == {};
    RunAccounted(INITIAL, es);
    var st := Run(INITIAL, es);
    assert (multiset(st.outstanding) + AllNotified(st))[t] == multiset(Published(st))[t];
  }

  /** A single confirm notifies its tag only and takes only it; a multiple confirm
      notifies, in increasing order, exactly the outstanding tags up to it. */
  lemma ConfirmNotifies(st: State, tag: nat, multiple: bool, ack: bool)
    requires tag in st.outstanding
    ensures var st' := Step(st, Confirm(tag, multiple, ack));
            var ns := Notified(st, tag, multiple);
            && (if ack then st'.acked == st.acked + ns && st'.nacked == st.nacked
                else st'.nacked == st.nacked + ns && st'.acked == st.acked)
            && (forall i, j :: 0 <= i < j < |ns| ==> ns[i] < ns[j])
            && (forall t :: t in ns <==> t in st.outstanding && (if multiple then t <= tag else t == tag))
            && (forall t :: t in st'.outstanding <==> t in st.outstanding && t !in ns)
  {
    if multiple {
      var gone := UpTo(st.outstanding, tag);
      AscendingMembers(gone);
      AscendingIncreases(gone);
      forall t ensures t in Ascending(gone) <==> t in gone {
        assert t in multiset(Ascending(gone)) <==> t in multiset(gone);
      }
    }
  }

  // ----- The order of the notifications -----

  /** Everything a run notifies, of either kind, as a channel that serves as both ack and
      nack listener receives it. */
  ghost function Log(st: State, es: seq<Event>): seq<nat>
    decreases |es|
  {
    if es == [] then []
    else
      (if es[0].Confirm? then Notified(st, es[0].tag, es[0].multiple) else []) + Log(Step(st, es[0]), es[1..])
  }

  /** The broker names the least outstanding tag whenever it confirms a single one. */
  ghost predicate LeastFirst(st: State, es: seq<Event>)
    decreases |es|
  {
    es == [] || ((es[0].Confirm? && !es[0].multiple ==> IsLeast(es[0].tag, st.outstanding)) &&
                 LeastFirst(Step(st, es[0]), es[1..]))
  }

  predicate AllAcks(es: seq<Event>) { forall i :: 0 <= i < |es| && es[i].Confirm? ==> es[i].ack }

  /** What was notified and then what is outstanding, ascending, are the published tags in
      the order of publishing. */
  ghost predicate InOrder(log: seq<nat>, st: State) {
    log + Ascending(st.outstanding) == Ascending(Published(st))
  }

  lemma {:induction false} AscendingSplit(s: set<nat>, tag: nat)
    ensures Ascending(s) == Ascending(UpTo(s, tag)) + Ascending(s - UpTo(s, tag))
    decreases |s|
  {
    if UpTo(s, tag) == {} {
      assert s - UpTo(s, tag) == s;
    } else {
      var m, low := Least(s), UpTo(s, tag);
      LeastUpTo(s, tag);
      AscendingSplit(s - {m}, tag);
      Assoc([m], Ascending(low - {m}), Ascending(s - low));
    }
  }

  lemma LeastUpTo(s: set<nat>, tag: nat)
    requires UpTo(s, tag) != {}
    ensures s != {} && Least(UpTo(s, tag)) == Least(s)
    ensures UpTo(s - {Least(s)}, tag) == UpTo(s, tag) - {Least(s)}
    ensures s - {Least(s)} - UpTo(s - {Least(s)}, tag) == s - UpTo(s, tag)
  {
    var t :| t in UpTo(s, tag);
    var m := Least(s);
    assert m <= t;
    assert IsLeast(m, UpTo(s, tag));
  }

  /** One legal step that keeps to the rule. */
  lemma StepInOrder(log: seq<nat>, st: State, e: Event)
    requires Legal(st, e) && LeastFirst(st, [e]) && InOrder(log, st) && st.outstanding <= Published(st)
    ensures InOrder(log + Log(st, [e]), Step(st, e)) && Step(st, e).outstanding <= Published(Step(st, e))
  {
    var out := st.outstanding;
    match e
    case Publish =>
      var tag := st.counter + 1;
      AscendingAppend(out, tag);
      AscendingAppend(Published(st), tag);
      assert Published(Step(st, e)) == Published(st) + {tag};
      Assoc(log, Ascending(out), [tag]);
      Empty(log);
    case Confirm(tag, multiple, _) =>
      var ns := Notified(st, tag, multiple);
      Empty(ns);
      if multiple {
        AscendingSplit(out, tag);
      }
      Assoc(log, ns, Ascending(Step(st, e).outstanding));
  }

  lemma {:induction false} RunInOrder(log: seq<nat>, st: State, es: seq<Event>)
    requires LegalRun(st, es) && LeastFirst(st, es) && InOrder(log, st) && st.outstanding <= Published(st)
    ensures InOrder(log + Log(st, es), Run(st, es))
    decreases |es|
  {
    if es == [] {
      Empty(log);
    } else {
      var first := Log(st, [es[0]]);
      LogFirst(st, es);
      StepInOrder(log, st, es[0]);
      RunInOrder(log + first, Step(st, es[0]), es[1..]);
      Assoc(log, first, Log(Step(st, es[0]), es[1..]));
    }
  }

  lemma LogFirst(st: State, es: seq<Event>)
    requires es != []
    ensures Log(st, es) == Log(st, [es[0]]) + Log(Step(st, es[0]), es[1..])
    ensures Log(st, [es[0]]) == if es[0].Confirm? then Notified(st, es[0].tag, es[0].multiple) else []
  {
    assert [es[0]][1..] == [];
    Empty(if es[0].Confirm? then Notified(st, es[0].tag, es[0].multiple) else []);
  }

  /** A notified tag stands before a lesser one that came later, or is yet to come. */
  ghost predicate OutOfOrder(log: seq<nat>, out: set<nat>) {
    (exists i, j :: 0 <= i < j < |log| && log[i] > log[j]) || exists i, u :: 0 <= i < |log| && u in out && log[i] > u
  }

  /** That is never made good. */
  lemma StaysOutOfOrder(log: seq<nat>, st: State, e: Event)
    requires Legal(st, e) && OutOfOrder(log, st.outstanding)
    ensures OutOfOrder(log + Log(st, [e]), Step(st, e).outstanding)
  {
    var more := Log(st, [e]);
    if i, j :| 0 <= i < j < |log| && log[i] > log[j] {
      assert (log + more)[i] > (log + more)[j];
    } else {
      var i, u :| 0 <= i < |log| && u in st.outstanding && log[i] > u;
      assert (log + more)[i] == log[i];
      if u !in Step(st, e).outstanding {
        var k := GoneIsLogged(st, e, u);
        assert (log + more)[|log| + k] == u;
      }
    }
  }

  lemma GoneIsLogged(st: State, e: Event, u: nat) returns (k: nat)
    requires Legal(st, e) && u in st.outstanding && u !in Step(st, e).outstanding
    ensures k < |Log(st, [e])| && Log(st, [e])[k] == u
  {
    LogFirst(st, [e]);
    ConfirmNotifies(st, e.tag, e.multiple, e.ack);
    k :| k < |Log(st, [e])| && Log(st, [e])[k] == u;
  }

  /** A single confirm of any other tag makes it so. */
  lemma NotLeastBreaksOrder(log: seq<nat>, st: State, tag: nat, ack: bool)
    requires tag in st.outstanding && !IsLeast(tag, st.outstanding)
    ensures OutOfOrder(log + [tag], Step(st, Confirm(tag, false, ack)).outstanding)
  {
    var u :| u in st.outstanding && u < tag;
    assert u in Step(st, Confirm(tag, false, ack)).outstanding;
    assert (log + [tag])[|log|] > u;
  }

  lemma {:induction false} RunOutOfOrder(log: seq<nat>, st: State, es: seq<Event>)
    requires LegalRun(st, es) && (OutOfOrder(log, st.outstanding) || !LeastFirst(st, es))
    ensures OutOfOrder(log + Log(st, es), Run(st, es).outstanding)
    decreases |es|
  {
    if es == [] {
      Empty(log);
    } else {
      var e, first := es[0], Log(st, [es[0]]);
      LogFirst(st, es);
      if OutOfOrder(log, st.outstanding) {
        StaysOutOfOrder(log, st, e);
      } else if e.Confirm? && !e.multiple && !IsLeast(e.tag, st.outstanding) {
        NotLeastBreaksOrder(log, st, e.tag, e.ack);
      }
      RunOutOfOrder(log + first, Step(st, e), es[1..]);
      Assoc(log, first, Log(Step(st, e), es[1..]));
    }
  }

  lemma OutOfOrderIsNotInOrder(log: seq<nat>, st: State)
    requires OutOfOrder(log, st.outstanding)
    ensures !InOrder(log, st)
  {
    var out := Ascending(st.outstanding);
    var all := log + out;
    AscendingIncreases(Published(st));
    if i, j :| 0 <= i < j < |log| && log[i] > log[j] {
      assert all[i] > all[j];
    } else {
      var i, u :| 0 <= i < |log| && u in st.outstanding && log[i] > u;
      AscendingMembers(st.outstanding);
      assert u in multiset(out);
      var k :| 0 <= k < |out| && out[k] == u;
      assert all[i] > all[|log| + k];
    }
  }

  /** When the notifications come in the order of publishing: over every legal run, if and
      only if every single confirm names the least tag outstanding at that moment. */
  lemma NotifiedInOrderIff(es: seq<Event>)
    requires LegalRun(INITIAL, es)
    ensures InOrder(Log(INITIAL, es), Run(INITIAL, es)) <==> LeastFirst(INITIAL, es)
  {
    var log := Log(INITIAL, es);
    Empty(log);
    assert Published(INITIAL) == {} && Ascending({}) == [];
    if LeastFirst(INITIAL, es) {
      RunInOrder([], INITIAL, es);
    } else {
      RunOutOfOrder([], INITIAL, es);
      OutOfOrderIsNotInOrder(log, Run(INITIAL, es));
    }
  }

  lemma {:induction false} AcksAreLogged(st: State, es: seq<Event>)
    requires AllAcks(es)
    ensures Run(st, es).acked == st.acked + Log(st, es)
    decreases |es|
  {
    if es == [] {
      Empty(st.acked);
    } else {
      LogFirst(st, es);
      AcksAreLogged(Step(st, es[0]), es[1..]);
      Empty(st.acked);
      Assoc(st.acked, Log(st, [es[0]]), Log(Step(st, es[0]), es[1..]));
    }
  }

  /** And so of the acks alone, once all that was published has been acked. */
  lemma AckedInOrderIff(es: seq<Event>)
    requires LegalRun(INITIAL, es) && AllAcks(es) && Run(INITIAL, es).outstanding == {}
    ensures Run(INITIAL, es).acked == Ascending(Published(Run(INITIAL, es))) <==> LeastFirst(INITIAL, es)
  {
    NotifiedInOrderIff(es);
    AcksAreLogged(INITIAL, es);
    Empty(Log(INITIAL, es));
  }

  /** Two messages acked the other way round are notified the other way round. */
  lemma AcksOutOfOrder()
    ensures var es := [Publish, Publish, Confirm(2, false, true), Confirm(1, false, true)];
            LegalRun(INITIAL, es) && Run(INITIAL, es) == State({}, 2, [2, 1], [])
  {
    var es := [Publish, Publish, Confirm(2, false, true), Confirm(1, false, true)];
    var s1 := Step(INITIAL, es[0]);
    var s2 := Step(s1, es[1]);
    var s3 := Step(s2, es[2]);
    assert s2 == State({1, 2}, 2, [], []);
    assert s3 == State({1}, 2, [2], []);
    assert Step(s3, es[3]) == State({}, 2, [2, 1], []);
    assert es[1..][1..] == es[2..] && es[2..][1..] == es[3..] && es[3..][1..] == [];
    assert LegalRun(s3, es[3..]) && Run(s3, es[3..]) == State({}, 2, [2, 1], []);
    assert LegalRun(s2, es[2..]) && Run(s2, es[2..]) == Run(s3, es[3..]);
    assert LegalRun(s1, es[1..]) && Run(s1, es[1..]) == Run(s2, es[2..]);
  }

  // ----- Tags and the broker's numbering -----

  ghost function Publishes(n: nat): seq<Event> { seq(n, _ => Publish) }

  lemma {:induction false} PublishesOutstanding(st: State, n: nat)
    ensures Run(st, Publishes(n)) == st.(outstanding := st.outstanding + Tags(st.counter, n), counter := st.counter + n)
    decreases n
  {
    if n > 0 {
      assert Publishes(n)[1..] == Publishes(n - 1);
      PublishesOutstanding(Step(st, Publish), n - 1);
      assert Tags(st.counter, n) == {st.counter + 1} + Tags(st.counter + 1, n - 1);
    }
  }

  /** The broker numbers from 1 what is published after Confirm; the channel's own
      counter has also counted what was published before.  The two agree exactly when
      nothing was. */
  lemma TagsMatchBrokerIff(before: nat, n: nat)
    requires n > 0
    ensures Run(State({}, before, [], []), Publishes(n)).outstanding == Tags(0, n) <==> before == 0
  {
    PublishesOutstanding(State({}, before, [], []), n);
    if before > 0 {
      assert before + n in Tags(before, n) && before + n !in Tags(0, n);
    }
  }

  // ----- The fields of Channel -----

  class Confirming {
    var confirms: TagSet?
    var publishCounter: nat
    var acked: seq<nat>
    var nacked: seq<nat>

    ghost predicate Valid()
      reads this, confirms
    {
      confirms != null ==>
        && HeapOrdered(confirms.tags) && NoDuplicates(confirms.tags)
        && Members(confirms.tags) <= Tags(0, publishCounter)
    }

    ghost function Abstract(): State
      reads this, confirms
      requires confirms != null
    {
      State(Members(confirms.tags), publishCounter, acked, nacked)
    }

    constructor ()
      ensures Valid() && confirms == null && publishCounter == 0 && acked == [] && nacked == []
    {
      confirms, publishCounter, acked, nacked := null, 0, [], [];
    }

    /** Confirm, once the broker has answered. */
    method EnterConfirmMode()
      modifies this
      ensures Valid() && fresh(confirms)
      ensures Abstract() == State({}, old(publishCounter), old(acked), old(nacked))
    {
      confirms := new TagSet();
    }

    /** Publish; `sent` says whether the frames went out. */
    method Publish(sent: bool)
      requires Valid()
      modifies this, confirms
      ensures Valid() && confirms == old(confirms)
      ensures sent && confirms != null ==> Abstract() == Step(old(Abstract()), Event.Publish)
      ensures !sent && confirms != null ==> Abstract() == old(Abstract())
      ensures publishCounter == old(publishCounter) + (if sent then 1 else 0)
      ensures acked == old(acked) && nacked == old(nacked)
    {
      if !sent { return; }
      publishCounter := publishCounter + 1;
      if confirms != null {
        ghost var was := confirms.tags;
        assert publishCounter !in Members(was);
        confirms.Push(publishCounter);
        PushedTags(was, confirms.tags, publishCounter);
      }
    }

    /** One value sent on every ack (or nack) listener. */
    method Notify(tag: nat, ack: bool)
      modifies this`acked, this`nacked
      ensures if ack then acked == old(acked) + [tag] && nacked == old(nacked)
              else nacked == old(nacked) + [tag] && acked == old(acked)
    {
      if ack { acked := acked + [tag]; } else { nacked := nacked + [tag]; }
    }

    /** confimOne: pop until the tag comes up, put the others back.  Popping the empty
        heap panics, which happens exactly when the tag is not outstanding; the heap has
        then lost its tags. */
    method ConfirmOne(tag: nat, ack: bool) returns (panicked: bool)
      requires Valid() && confirms != null
      modifies this`acked, this`nacked, confirms
      ensures panicked <==> tag !in old(confirms.tags)
      ensures !panicked ==> Valid() && Abstract() == Step(old(Abstract()), Confirm(tag, false, ack))
      ensures panicked ==> confirms.tags == [] && acked == old(acked) && nacked == old(nacked)
    {
      ghost var all := confirms.tags;
      var unacked: seq<nat> := [];
      while true
        invariant HeapOrdered(confirms.tags) && tag !in unacked && acked == old(acked) && nacked == old(nacked)
        invariant multiset(confirms.tags) + multiset(unacked) == multiset(all)
        decreases |confirms.tags|
      {
        if confirms.tags == [] {
          SameMembers(unacked, all, tag);
          return true;
        }
        var next := confirms.Pop();
        if next == tag { break; }
        unacked := unacked + [next];
      }
      Notify(tag, ack);
      PutBack(unacked);
      assert multiset(confirms.tags) + multiset{tag} == multiset(all);
      RemovedTag(all, confirms.tags, tag);
      return false;
    }

    method PutBack(unacked: seq<nat>)
      requires confirms != null && HeapOrdered(confirms.tags)
      modifies confirms
      ensures HeapOrdered(confirms.tags) && multiset(confirms.tags) == old(multiset(confirms.tags)) + multiset(unacked)
    {
      for i := 0 to |unacked|
        invariant HeapOrdered(confirms.tags)
        invariant multiset(confirms.tags) == old(multiset(confirms.tags)) + multiset(unacked[..i])
      {
        confirms.Push(unacked[i]);
        assert unacked[..i + 1] == unacked[..i] + [unacked[i]];
      }
      assert unacked[..|unacked|] == unacked;
    }

    /** confimMultiple: pop and notify up to and including the tag.  When the tag is not
        outstanding, everything is notified before the panic. */
    method ConfirmMultiple(tag: nat, ack: bool) returns (panicked: bool)
      requires Valid() && confirms != null
      modifies this`acked, this`nacked, confirms
      ensures panicked <==> tag !in old(confirms.tags)
      ensures !panicked ==> Valid() && Abstract() == Step(old(Abstract()), Confirm(tag, true, ack))
      ensures panicked ==> confirms.tags == [] &&
                           var ns := Ascending(Members(old(confirms.tags)));
                           if ack then acked == old(acked) + ns && nacked == old(nacked)
                           else nacked == old(nacked) + ns && acked == old(acked)
    {
      ghost var all := confirms.tags;
      ghost var out: set<nat> := {};
      assert Ascending(out) == [];
      Empty(old(acked));
      Empty(old(nacked));
      while true
        invariant HeapOrdered(confirms.tags) && NoDuplicates(confirms.tags) && tag !in out
        invariant Split(all, confirms.tags, out)
        invariant if ack then acked == old(acked) + Ascending(out) && nacked == old(nacked)
                  else nacked == old(nacked) + Ascending(out) && acked == old(acked)
        decreases |confirms.tags|
      {
        if confirms.tags == [] {
          assert Members(all) == out;
          return true;
        }
        ghost var was := confirms.tags;
        var next := confirms.Pop();
        NextPopped(all, was, confirms.tags, out, next);
        Notify(next, ack);
        AscendingAppend(out, next);
        Assoc(if ack then old(acked) else old(nacked), Ascending(out), [next]);
        out := out + {next};
        if next == tag { break; }
      }
      assert UpTo(Members(all), tag) == out;
      assert Members(confirms.tags) == Members(all) - out;
      return false;
    }
  }

  function Members(s: seq<nat>): set<nat> { set t | t in s }

  predicate NoDuplicates(s: seq<nat>) { forall i, j :: 0 <= i < j < |s| ==> s[i] != s[j] }

  lemma SameMembers(a: seq<nat>, b: seq<nat>, t: nat)
    requires multiset(a) == multiset(b)
    ensures t in a <==> t in b
  {
    assert t in multiset(a) <==> t in a;
    assert t in multiset(b) <==> t in b;
  }

  lemma {:induction false} CountsAreOnes(s: seq<nat>)
    requires NoDuplicates(s)
    ensures forall t :: multiset(s)[t] <= 1
    decreases |s|
  {
    if s != [] {
      var n := |s| - 1;
      CountsAreOnes(s[..n]);
      assert s == s[..n] + [s[n]];
      if s[n] in multiset(s[..n]) {
        assert s[n] in s[..n];
      }
    }
  }

  lemma RepeatedCount(s: seq<nat>, i: nat, j: nat)
    requires i < j < |s| && s[i] == s[j]
    ensures multiset(s)[s[j]] >= 2
  {
    assert s == s[..j] + [s[j]] + s[j + 1..];
    assert s[i] in s[..j];
  }

  lemma OnesAreDistinct(s: seq<nat>)
    requires forall t :: multiset(s)[t] <= 1
    ensures NoDuplicates(s)
  {
    forall i, j | 0 <= i < j < |s| ensures s[i] != s[j] {
      if s[i] == s[j] { RepeatedCount(s, i, j); }
    }
  }

  lemma PushedTags(was: seq<nat>, now: seq<nat>, tag: nat)
    requires NoDuplicates(was) && tag !in was && multiset(now) == multiset(was) + multiset{tag}
    ensures NoDuplicates(now) && Members(now) == Members(was) + {tag}
  {
    CountsAreOnes(was);
    assert multiset(was)[tag] == 0;
    OnesAreDistinct(now);
    SameMembers(now, was + [tag], 0);
    forall t ensures t in now <==> t in was || t == tag { SameMembers(now, was + [tag], t); }
  }

  lemma RemovedTag(was: seq<nat>, now: seq<nat>, tag: nat)
    requires NoDuplicates(was) && multiset(now) + multiset{tag} == multiset(was)
    ensures tag in was && NoDuplicates(now) && Members(now) == Members(was) - {tag}
  {
    CountsAreOnes(was);
    assert multiset(was)[tag] == multiset(now)[tag] + 1;
    forall t ensures multiset(now)[t] <= 1 { assert multiset(was)[t] >= multiset(now)[t]; }
    OnesAreDistinct(now);
    forall t ensures t in was <==> t in now || t == tag { SameMembers(was, now + [tag], t); }
    assert tag in multiset(was);
  }

  /** `out` are the least of all the tags, `left` the others. */
  ghost predicate Split(all: seq<nat>, left: seq<nat>, out: set<nat>) {
    && (forall t :: t in all <==> t in left || t in out)
    && (forall t, u :: t in out && u in left ==> t < u)
  }

  lemma NextPopped(all: seq<nat>, was: seq<nat>, now: seq<nat>, out: set<nat>, next: nat)
    requires NoDuplicates(was) && Split(all, was, out)
    requires multiset(now) + multiset{next} == multiset(was) && forall t :: t in was ==> next <= t
    ensures NoDuplicates(now) && Split(all, now, out + {next})
    ensures next !in out && forall t :: t in out ==> t < next
  {
    RemovedTag(was, now, next);
    forall t ensures t in now <==> t in was && t != next {
      assert t in Members(now) <==> t in Members(was) - {next};
    }
  }
}
