/**
 Who closes what, and that nobody closes it twice.  There is the map of consumer input
 channels, each read by a goroutine of its own, and there are the listeners of a channel,
 registered by its users and closed at its shutdown.

 Closing a closed Go channel panics, and so does sending on one.
 */
module Listeners {
  // ----- consumers.go -----

  /** The map holds exactly the input channels still open, each once. */
  ghost predicate HoldsOpen(chans: map<string, nat>, made: nat, closed: set<nat>) {
    && (forall t :: t in chans ==> chans[t] < made && chans[t] !in closed)
    && (forall t, u :: t in chans && u in chans && t != u ==> chans[t] != chans[u])
    && (forall c :: c in closed ==> c < made)
    && (forall c: nat :: c < made && c !in closed ==> c in chans.Values)
  }

  lemma NewIsHeld(chans: map<string, nat>, made: nat, closed: set<nat>, tag: string)
    requires HoldsOpen(chans, made, closed)
    ensures HoldsOpen(chans[tag := made], made + 1, closed + if tag in chans then {chans[tag]} else {})
  {
    var now, gone := chans[tag := made], if tag in chans then {chans[tag]} else {};
    forall c: nat | c < made + 1 && c !in closed + gone ensures c in now.Values {
      if c == made {
        assert now[tag] == c;
      } else {
        assert c in chans.Values;
        var t :| t in chans && chans[t] == c;
        assert now[t] == c;
      }
    }
  }

  /** Input channels are numbered as they are made. */
  class Consumers {
    var chans: map<string, nat>
    var made: nat
    var closed: set<nat>

    ghost predicate Valid()
      reads this
    {
      HoldsOpen(chans, made, closed)
    }

    constructor ()
      ensures Valid() && chans == map[] && closed == {} && made == 0
    {
      chans, made, closed := map[], 0, {};
    }

    method CloseChan(c: nat)
      requires c !in closed
      modifies this`closed
      ensures closed == old(closed) + {c}
    {
      closed := closed + {c};
    }

    /** add: on a conflict the previous channel is closed. */
    method Add(tag: string) returns (c: nat)
      requires Valid()
      modifies this
      ensures Valid() && c == old(made) && chans == old(chans)[tag := c]
      ensures closed == old(closed) + if tag in old(chans) then {old(chans)[tag]} else {}
    {
      NewIsHeld(chans, made, closed, tag);
      if tag in chans {
        CloseChan(chans[tag]);
      }
      c := made;
      made := made + 1;
      chans := chans[tag := c];
    }

    method Close(tag: string) returns (found: bool)
      requires Valid()
      modifies this
      ensures Valid() && (found <==> tag in old(chans)) && chans == old(chans) - {tag} && made == old(made)
      ensures closed == old(closed) + if found then {old(chans)[tag]} else {}
    {
      found := tag in chans;
      if found {
        ghost var before := chans;
        var c := chans[tag];
        chans := chans - {tag};
        CloseChan(c);
        forall x: nat | x < made && x !in closed ensures x in chans.Values {
          var t :| t in before && before[t] == x;
          assert chans[t] == x;
        }
      }
    }

    method CloseAll()
      requires Valid()
      modifies this
      ensures Valid() && chans == map[] && made == old(made)
      ensures closed == old(closed) + old(chans).Values
    {
      var left := chans.Keys;
      while left != {}
        invariant left <= chans.Keys && chans == old(chans) && made == old(made)
        invariant closed == old(closed) + set t | t in chans.Keys - left :: chans[t]
        decreases left
      {
        var t :| t in left;
        assert chans[t] !in closed;
        CloseChan(chans[t]);
        left := left - {t};
      }
      assert closed == old(closed) + old(chans).Values;
      chans := map[];
    }

    /** send: only ever on an open channel. */
    method Send(tag: string) returns (found: bool, to: nat)
      requires Valid()
      ensures (found <==> tag in chans) && (found ==> to == chans[tag] && to !in closed)
    {
      found, to := tag in chans, 0;
      if found {
        to := chans[tag];
      }
    }
  }

  // ----- Channel.shutdown and the Notify methods -----

  datatype Kind = OnClose | OnFlow | OnReturn | OnCancel | OnConfirm

  /** A listener channel; those of different kinds have different types. */
  datatype Listener = Listener(kind: Kind, id: nat)

  predicate Distinct(s: seq<Listener>) { forall i, j :: 0 <= i < j < |s| ==> s[i] != s[j] }

  predicate AllOf(s: seq<Listener>, k: Kind) { forall i :: 0 <= i < |s| ==> s[i].kind == k }

  function Elements(s: seq<Listener>): set<Listener> { set c | c in s }

  class Registrations {
    var closes: seq<Listener>
    var flows: seq<Listener>
    var returns_: seq<Listener>
    var cancels: seq<Listener>
    var acks: seq<Listener>
    var nacks: seq<Listener>
    var noNotify: bool
    var closed: set<Listener>
    const consumers: Consumers
    /** The close listeners that were sent the error, in order. */
    var told: seq<Listener>
    /** Whether `send` is still sendOpen, and whether the connection still knows the
        channel. */
    var sending: bool
    var listed: bool

    function Registered(): set<Listener>
      reads this
    {
      Elements(closes) + Elements(flows) + Elements(returns_) + Elements(cancels) + Elements(acks) + Elements(nacks)
    }

    predicate Typed()
      reads this
    {
      && AllOf(closes, OnClose) && AllOf(flows, OnFlow) && AllOf(returns_, OnReturn) && AllOf(cancels, OnCancel)
      && AllOf(acks, OnConfirm) && AllOf(nacks, OnConfirm)
    }

    /** Each list holds listeners of its own type, and none is closed before shutdown. */
    ghost predicate Valid()
      reads this, consumers
    {
      && consumers.Valid() && Typed()
      && (if noNotify then Registered() <= closed else Registered() !! closed)
    }

    constructor ()
      ensures Valid() && !noNotify && closed == {} && Registered() == {} && told == [] && sending && listed
      ensures fresh(consumers) && consumers.chans == map[]
    {
      closes, flows, returns_, cancels, acks, nacks := [], [], [], [], [], [];
      noNotify, closed, told, sending, listed := false, {}, [], true, true;
      consumers := new Consumers();
    }

    /** close(c) */
    method CloseChan(c: Listener) returns (panicked: bool)
      modifies this`closed
      ensures panicked <==> c in old(closed)
      ensures closed == old(closed) + {c}
    {
      panicked := c in closed;
      closed := closed + {c};
    }

    /** for _, c := range cs { close(c) } */
    method CloseEach(cs: seq<Listener>) returns (panicked: bool)
      requires Elements(cs) !! closed
      modifies this`closed
      ensures panicked <==> !Distinct(cs)
      ensures !panicked ==> closed == old(closed) + Elements(cs)
    {
      panicked := false;
      for i := 0 to |cs|
        invariant Distinct(cs[..i]) && closed == old(closed) + Elements(cs[..i])
      {
        assert cs[i] in Elements(cs);
        assert cs[..i + 1] == cs[..i] + [cs[i]];
        panicked := CloseChan(cs[i]);
        if panicked {
          var j :| 0 <= j < i && cs[j] == cs[i];
          return;
        }
      }
      assert cs[..|cs|] == cs;
    }

    /** The same behind a map of the channels already seen. */
    method CloseUnseen(cs: seq<Listener>, seen0: set<Listener>) returns (seen: set<Listener>)
      requires Elements(cs) * closed <= seen0 <= closed
      modifies this`closed
      ensures closed == old(closed) + Elements(cs) && seen == seen0 + Elements(cs)
    {
      seen := seen0;
      for i := 0 to |cs|
        invariant closed == old(closed) + Elements(cs[..i]) && seen == seen0 + Elements(cs[..i])
      {
        assert cs[i] in Elements(cs);
        assert cs[..i + 1] == cs[..i] + [cs[i]];
        if cs[i] !in seen {
          var panicked := CloseChan(cs[i]);
          assert !panicked;
          seen := seen + {cs[i]};
        }
      }
      assert cs[..|cs|] == cs;
    }

    /** No close, flow, return or cancel listener was registered twice. */
    predicate NoneTwice()
      reads this
    {
      Distinct(closes) && Distinct(flows) && Distinct(returns_) && Distinct(cancels)
    }

    /** for _, c := range me.closes { c <- e } */
    method Broadcast()
      modifies this`told
      ensures told == old(told) + closes
    {
      for i := 0 to |closes|
        invariant told == old(told) + closes[..i]
      {
        told := told + [closes[i]];
      }
      assert closes[..|closes|] == closes;
    }

    /** The closing loops of shutdown, one list after the other. */
    method CloseAllListeners() returns (panicked: bool)
      requires Typed() && Registered() !! closed
      modifies this`closed
      ensures panicked <==> !NoneTwice()
      ensures !panicked ==> closed == old(closed) + Registered()
    {
      panicked := CloseEach(closes);
      if panicked { return; }
      panicked := CloseEach(flows);
      if panicked { return; }
      panicked := CloseEach(returns_);
      if panicked { return; }
      panicked := CloseEach(cancels);
      if panicked { return; }
      var seen := CloseUnseen(acks, {});
      seen := CloseUnseen(nacks, seen);
    }

    /** shutdown, behind its sync.Once.  An error goes to every close listener first; then
        sending ends, every consumer is closed, and every registered listener is closed, and
        closed once, unless a close, flow, return or cancel listener was registered twice;
        that one would be closed again, and panics.  Ack and nack listeners may be shared. */
    method Shutdown(withError: bool) returns (panicked: bool)
      requires Valid()
      modifies this, consumers
      ensures panicked <==> !old(noNotify) && !old(NoneTwice())
      ensures told == old(told) + if withError && !old(noNotify) then old(closes) else []
      ensures !old(noNotify) ==> !sending && consumers.chans == map[] &&
                                 consumers.closed == old(consumers.closed) + old(consumers.chans).Values
      ensures !panicked ==> Valid() && noNotify && Registered() == old(Registered())
      ensures !panicked ==> closed == old(closed) + old(Registered())
      ensures !panicked && !old(noNotify) ==>
                forall c :: c in closed <==> c in old(closed) || c in old(closes) || c in old(flows) ||
                                             c in old(returns_) || c in old(cancels) || c in old(acks) || c in old(nacks)
      ensures old(noNotify) ==> closed == old(closed) && told == old(told)
      ensures listed == (old(listed) && (old(noNotify) || panicked))
    {
      if noNotify { return false; }
      if withError { Broadcast(); }
      sending := false;
      consumers.CloseAll();
      panicked := CloseAllListeners();
      if panicked { return; }
      noNotify := true;
      listed := false;
    }

    /** NotifyClose; NotifyFlow, NotifyReturn and NotifyCancel differ in the list. */
    method NotifyClose(c: Listener) returns (panicked: bool)
      requires Valid() && c.kind == OnClose && (!noNotify ==> c !in closed)
      modifies this`closes, this`closed
      ensures Valid() && noNotify == old(noNotify)
      ensures noNotify ==> closed == old(closed) + {c} && (panicked <==> c in old(closed)) && closes == old(closes)
      ensures !noNotify ==> closed == old(closed) && closes == old(closes) + [c] && !panicked
      ensures Registered() == old(Registered()) + if noNotify then {} else {c}
    {
      panicked := false;
      if noNotify {
        panicked := CloseChan(c);
      } else {
        closes := closes + [c];
      }
    }

    /** NotifyConfirm: after the shutdown both are closed on arrival, which panics when
        they are one channel. */
    method NotifyConfirm(ack: Listener, nack: Listener) returns (panicked: bool)
      requires Valid() && ack.kind == OnConfirm && nack.kind == OnConfirm
      requires !noNotify ==> ack !in closed && nack !in closed
      modifies this`acks, this`nacks, this`closed
      ensures Valid() && noNotify == old(noNotify)
      ensures noNotify ==> (panicked <==> ack == nack || ack in old(closed) || nack in old(closed))
      ensures noNotify && !panicked ==> closed == old(closed) + {ack, nack}
      ensures noNotify ==> acks == old(acks) && nacks == old(nacks)
      ensures !noNotify ==> !panicked && closed == old(closed) && acks == old(acks) + [ack] && nacks == old(nacks) + [nack]
      ensures Registered() == old(Registered()) + if noNotify then {} else {ack, nack}
    {
      panicked := false;
      if noNotify {
        panicked := CloseChan(ack);
        if panicked { return; }
        panicked := CloseChan(nack);
      } else {
        acks := acks + [ack];
        nacks := nacks + [nack];
      }
    }
  }
}
