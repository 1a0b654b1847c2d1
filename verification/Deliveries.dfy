/**
 Consumer buffering: the goroutine that stands between the channel's reader and a
 consumer, as a machine whose steps interleave with arrivals, and as the two nested
 loops it is written as.
 */
module Deliveries {
  import opened Sequences

  /** Where the goroutine is: waiting in `range in`; holding a delivery it has just
      received; in the loop that drains the queue; past close(out). */
  datatype Place<D> = Waiting | Holding(d: D) | Draining | Finished

  /** `received` and `delivered` record what came out of `in` and went into `out`. */
  datatype Buffer<D> = Buffer(
    place: Place<D>,
    queue: seq<D>,
    queueIn: bool,
    inClosed: bool,
    received: seq<D>,
    delivered: seq<D>)
  {
    predicate OutClosed() { place.Finished? }

    function Held(): seq<D> { if place.Holding? then [place.d] else [] }
  }

  datatype Event<D> =
    | Arrive(d: D)    // the reader sends on `in`, and the goroutine receives
    | CloseIn         // the reader closes `in`
    | Deliver         // out <- *delivery, while the consumer can receive
    | Enqueue         // default: put it in the queue
    | SendHead        // out <- *queue[0]
    | SeeClosed       // the queue's receive reports that `in` is closed
    | Finish          // the range over `in` ends, close(out)

  predicate Enabled<D>(b: Buffer<D>, e: Event<D>) {
    match e
    case Arrive(_) => !b.inClosed && (b.place.Waiting? || (b.place.Draining? && b.queueIn))
    case CloseIn => !b.inClosed
    case Deliver => b.place.Holding?
    case Enqueue => b.place.Holding?
    case SendHead => b.place.Draining? && b.queue != []
    case SeeClosed => b.place.Draining? && b.queueIn && b.inClosed
    case Finish => b.place.Waiting? && b.inClosed
  }

  /** The head of the draining loop. */
  function AtDrain<D>(b: Buffer<D>): Buffer<D> {
    b.(place := if b.queue == [] then Waiting else Draining)
  }

  function Step<D>(b: Buffer<D>, e: Event<D>): Buffer<D>
    requires Enabled(b, e)
  {
    match e
    case Arrive(d) =>
      var b := b.(received := b.received + [d]);
      if b.place.Waiting? then b.(place := Holding(d)) else AtDrain(b.(queue := b.queue + [d]))
    case CloseIn => b.(inClosed := true)
    case Deliver => AtDrain(b.(delivered := b.delivered + [b.place.d]))
    case Enqueue => AtDrain(b.(queue := b.queue + [b.place.d]))
    case SendHead => AtDrain(b.(delivered := b.delivered + [b.queue[0]], queue := b.queue[1..]))
    case SeeClosed => AtDrain(b.(queueIn := false))
    case Finish => b.(place := Finished)
  }

  predicate Inv<D(==)>(b: Buffer<D>) {
    && b.delivered + b.Held() + b.queue == b.received
    && (b.place.Draining? <==> b.queue != [])
    && (!b.queueIn ==> b.inClosed)
    && (b.OutClosed() ==> b.inClosed)
  }

  function Initial<D>(): Buffer<D> { Buffer(Waiting, [], true, false, [], []) }

  predicate Possible<D>(b: Buffer<D>, es: seq<Event<D>>)
    decreases |es|
  {
    es == [] || (Enabled(b, es[0]) && Possible(Step(b, es[0]), es[1..]))
  }

  function Run<D>(b: Buffer<D>, es: seq<Event<D>>): Buffer<D>
    requires Possible(b, es)
    decreases |es|
  {
    if es == [] then b else Run(Step(b, es[0]), es[1..])
  }

  lemma StepKeepsInv<D>(b: Buffer<D>, e: Event<D>)
    requires Inv(b) && Enabled(b, e)
    ensures Inv(Step(b, e))
  {
    Empty(b.delivered);
    match e
    case Arrive(d) =>
      Empty(b.delivered + b.Held());
      Assoc(b.delivered, b.queue, [d]);
    case CloseIn =>
    case Deliver => Empty(b.delivered + [b.place.d]);
    case Enqueue => Empty(b.delivered + [b.place.d]);
    case SendHead =>
      MoveFirst(b.delivered, b.queue);
      Empty(b.delivered + [b.queue[0]]);
    case SeeClosed =>
    case Finish =>
  }

  lemma {:induction false} RunKeepsInv<D>(b: Buffer<D>, es: seq<Event<D>>)
    requires Inv(b) && Possible(b, es)
    ensures Inv(Run(b, es))
    decreases |es|
  {
    if es != [] {
      StepKeepsInv(b, es[0]);
      RunKeepsInv(Step(b, es[0]), es[1..]);
    }
  }

  /** In every interleaving of arrivals, sends and the close: what was delivered,
      followed by what is held and queued, is what was received, in order; and `out` is
      closed only when `in` is and everything received has been delivered. */
  lemma NothingLostOrReordered<D>(es: seq<Event<D>>)
    requires Possible(Initial<D>(), es)
    ensures var b := Run(Initial<D>(), es);
            && b.delivered + b.Held() + b.queue == b.received
            && (b.OutClosed() ==> b.inClosed && b.delivered == b.received)
  {
    RunKeepsInv(Initial<D>(), es);
    var b := Run(Initial<D>(), es);
    if b.OutClosed() {
      Empty(b.delivered);
    }
  }

  // ----- After the close -----

  /** How many steps are at most left once `in` is closed. */
  function StepsLeft<D>(b: Buffer<D>): nat {
    (match b.place case Finished => 0 case Waiting => 1 case Draining => 1 case Holding(_) => 4)
    + 2 * |b.queue| + if b.queueIn then 1 else 0
  }

  /** Once `in` is closed, a send shortens the queue, every step brings the end nearer,
      and until the end some step can be taken. */
  lemma DrainsAfterClose<D>(b: Buffer<D>, e: Event<D>)
    requires Inv(b) && b.inClosed
    ensures Enabled(b, e) ==> StepsLeft(Step(b, e)) < StepsLeft(b)
    ensures Enabled(b, SendHead) ==> |Step(b, SendHead).queue| == |b.queue| - 1
    ensures !b.OutClosed() ==> exists e' :: Enabled(b, e')
  {
    match b.place
    case Finished =>
    case Waiting => assert Enabled(b, Finish);
    case Draining => assert Enabled(b, SendHead);
    case Holding(_) => assert Enabled(b, Deliver);
  }

  /** So every run that goes on after the close, for as long as it can, delivers all of
      what was received. */
  lemma {:induction false} CompleteRunDeliversAll<D>(b: Buffer<D>, es: seq<Event<D>>)
    requires Inv(b) && b.inClosed && Possible(b, es)
    ensures |es| <= StepsLeft(b)
    ensures (forall e :: !Enabled(Run(b, es), e)) ==> Run(b, es).OutClosed() && Run(b, es).delivered == b.received
    decreases |es|
  {
    if es == [] {
      DrainsAfterClose(b, Finish);
      if b.OutClosed() { Empty(b.delivered); }
    } else {
      StepKeepsInv(b, es[0]);
      DrainsAfterClose(b, es[0]);
      CompleteRunDeliversAll(Step(b, es[0]), es[1..]);
    }
  }

  // ----- Unbounded buffering -----

  /** Until the close any number of arrivals can be received without a send to the
      consumer. */
  lemma {:induction false} Unbounded<D>(b: Buffer<D>, ds: seq<D>) returns (es: seq<Event<D>>)
    requires Inv(b) && !b.inClosed
    ensures Possible(b, es) && forall i :: 0 <= i < |es| ==> es[i].Arrive? || es[i].Enqueue?
    ensures Run(b, es).received == b.received + ds && Run(b, es).delivered == b.delivered && !Run(b, es).inClosed
    decreases |ds|, b.place.Holding?
  {
    if b.place.Holding? {
      StepKeepsInv(b, Enqueue);
      var more := Unbounded(Step(b, Enqueue), ds);
      es := [Enqueue] + more;
      assert es[1..] == more;
    } else if ds == [] {
      Empty(b.received);
      es := [];
    } else {
      StepKeepsInv(b, Arrive(ds[0]));
      var more := Unbounded(Step(b, Arrive(ds[0])), ds[1..]);
      es := [Arrive(ds[0])] + more;
      assert es[1..] == more;
      MoveFirst(b.received, ds);
    }
  }

  // ----- The nested loops -----

  /** bufferDeliveries on a channel that yields these deliveries and is then closed; the
      choices of select are left open. */
  method BufferDeliveries<D>(input: seq<D>) returns (out: seq<D>)
    ensures out == input
  {
    var queue: seq<D> := [];
    var queueIn := true;
    var next := 0;
    out := [];
    while next < |input|
      invariant 0 <= next <= |input| && queue == [] && out == input[..next]
      invariant !queueIn ==> next == |input|
    {
      var delivery := input[next];
      next := next + 1;
      assert input[..next] == input[..next - 1] + [delivery];
      if * {
        out := out + [delivery];
      } else {
        queue := queue + [delivery];
      }
      while |queue| > 0
        invariant 0 <= next <= |input| && out + queue == input[..next]
        invariant !queueIn ==> next == |input|
        decreases |input| - next, |queue|, queueIn
      {
        var receive := *;
        if !receive || !queueIn {
          MoveFirst(out, queue);
          out, queue := out + [queue[0]], queue[1..];
        } else if next < |input| {
          Assoc(out, queue, [input[next]]);
          assert input[..next + 1] == input[..next] + [input[next]];
          queue := queue + [input[next]];
          next := next + 1;
        } else {
          queueIn := false;
        }
      }
      Empty(out);
    }
    assert input[..|input|] == input;
  }
}
