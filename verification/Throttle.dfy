/**
 Throttled reading and writing: so many bytes in a batch, and a new batch no sooner than
 one resolution after the last one started.  Times are in nanoseconds.
 */
module Throttle {
  import opened Options
  import opened Wire

  const SECOND: int := 1_000_000_000

  // ----- limiter.go -----

  /** Division truncating towards zero. */
  function Quotient(a: int, b: int): int
    requires b != 0
  {
    if a >= 0 then a / b else -(-a / b)
  }

  /** The bytes allowed per batch; None is the panic of a division by zero. */
  function PerBatch(perSec: int, resolution: int): Option<int> {
    if resolution == 0 || Quotient(SECOND, resolution) == 0 then None
    else Some(Quotient(perSec, Quotient(SECOND, resolution)))
  }

  datatype Limiter = Limiter(resolution: int, maxPerBatch: int, batchDone: int, lastBatch: int)

  function CanDo(l: Limiter): nat {
    if l.maxPerBatch - l.batchDone < 0 then 0 else l.maxPerBatch - l.batchDone
  }

  /** A new limiter panics unless its resolution is at most a second either way and not
      zero; the batches of a second carry at most what the rate allows, and one more
      byte per batch would be too much. */
  lemma PerBatchWithinRate(perSec: int, resolution: int)
    ensures PerBatch(perSec, resolution).Some? <==> resolution != 0 && -SECOND <= resolution <= SECOND
    ensures 0 < resolution <= SECOND && perSec >= 0 ==>
      var m := PerBatch(perSec, resolution).value;
      0 <= m && m * (SECOND / resolution) <= perSec < (m + 1) * (SECOND / resolution)
    ensures 0 < resolution <= SECOND && perSec < 0 ==> PerBatch(perSec, resolution).value <= 0
  {
    if resolution != 0 {
      QuotientZero(SECOND, resolution);
      if 0 < resolution <= SECOND {
        var k := SECOND / resolution;
        assert k > 0;
        if perSec >= 0 {
          Floors(perSec, k);
        } else {
          Floors(-perSec, k);
        }
      }
    }
  }

  lemma QuotientZero(a: int, b: int)
    requires a > 0 && b != 0
    ensures Quotient(a, b) == 0 <==> a < b || a < -b
  {
    if b > 0 {
      Floors(a, b);
    } else {
      Floors(a, -b);
      assert a / b == -(a / -b);
    }
  }

  lemma Floors(a: int, b: int)
    requires a >= 0 && b > 0
    ensures 0 <= a / b && a / b * b <= a < (a / b + 1) * b
    ensures a / b == 0 <==> a < b
  {
    var q := a / b;
    assert a == q * b + a % b && (q + 1) * b == q * b + b;
    if q >= 1 {
      AtLeastOnce(q, b);
    }
  }

  lemma AtLeastOnce(q: int, b: int)
    requires q >= 1 && b > 0
    ensures q * b >= b
  {
    assert q * b == (q - 1) * b + b;
  }

  // ----- The limiter under any sequence of operations -----

  /** Bytes passed on at one time, and what the limiter then does.
      Whole: no throttling was needed; the bytes are counted.
      Part: what the batch allows, then Limit, whose last clock reading is `back`.
      Broken: like Part, but the write failed, so that Limit is not called and the
      bytes are not counted.
      Rate: SetRate, possibly in the middle of a Write. */
  datatype Event =
    | Whole(at: int, n: nat)
    | Part(at: int, n: nat, back: int)
    | Broken(at: int, n: nat)
    | Rate(maxPerBatch: int)

  datatype State = State(lim: Limiter, now: int)

  predicate Possible(s: State, e: Event) {
    match e
    case Whole(at, n) => s.now <= at && n <= CanDo(s.lim)
    case Part(at, n, back) => s.now <= at <= back && n <= CanDo(s.lim) && s.lim.lastBatch + s.lim.resolution <= back
    case Broken(at, n) => s.now <= at && n <= CanDo(s.lim)
    case Rate(_) => true
  }

  function Step(s: State, e: Event): State {
    match e
    case Whole(at, n) => State(s.lim.(batchDone := s.lim.batchDone + n), at)
    case Part(_, _, back) => State(s.lim.(batchDone := 0, lastBatch := back), back)
    case Broken(at, _) => s.(now := at)
    case Rate(m) => s.(lim := s.lim.(maxPerBatch := m))
  }

  predicate PossibleRun(s: State, es: seq<Event>)
    decreases |es|
  {
    es == [] || (Possible(s, es[0]) && PossibleRun(Step(s, es[0]), es[1..]))
  }

  function Run(s: State, es: seq<Event>): State
    decreases |es|
  {
    if es == [] then s else Run(Step(s, es[0]), es[1..])
  }

  /** No rate in force during the run allows more than m bytes per batch. */
  predicate RatesAtMost(es: seq<Event>, m: nat) {
    es == [] || ((es[0].Rate? ==> es[0].maxPerBatch <= m) && RatesAtMost(es[1..], m))
  }

  function SizeIn(e: Event, from: int, to: int): nat {
    if !e.Rate? && from <= e.at <= to then e.n else 0
  }

  /** The bytes passed on between two times, ends included. */
  function BytesIn(es: seq<Event>, from: int, to: int): nat {
    if es == [] then 0 else SizeIn(es[0], from, to) + BytesIn(es[1..], from, to)
  }

  /** Those among them that failed throttled writes passed on. */
  function UncountedIn(es: seq<Event>, from: int, to: int): nat {
    if es == [] then 0
    else (if es[0].Broken? then SizeIn(es[0], from, to) else 0) + UncountedIn(es[1..], from, to)
  }

  ghost predicate Within(s: State, es: seq<Event>, m: nat) {
    && PossibleRun(s, es)
    && RatesAtMost(es, m)
    && s.lim.resolution > 0 && s.lim.maxPerBatch <= m && 0 <= s.lim.batchDone <= m
  }

  lemma StepWithin(s: State, es: seq<Event>, m: nat)
    requires es != [] && Within(s, es, m)
    ensures Within(Step(s, es[0]), es[1..], m) && Step(s, es[0]).lim.resolution == s.lim.resolution
    ensures !es[0].Rate? ==> es[0].n <= m - s.lim.batchDone && s.now <= es[0].at
  {}

  lemma {:induction false} NothingBeforeNow(s: State, es: seq<Event>, from: int, to: int)
    requires PossibleRun(s, es) && to < s.now
    ensures BytesIn(es, from, to) == 0
    decreases |es|
  {
    if es != [] {
      NothingBeforeNow(Step(s, es[0]), es[1..], from, to);
    }
  }

  /** n more batches take n resolutions. */
  lemma BatchLater(m: nat, span: int, later: int, res: int)
    requires res > 0 && later >= res && span >= later
    ensures m + m * ((span - later) / res) <= m * (span / res)
  {
    DivMod(span, res);
    DivMod(span - later, res);
    FloorsApart((span - later) / res, span / res, (span - later) % res, span % res, res);
    Scales(m, (span - later) / res + 1, span / res);
  }

  lemma DivMod(a: int, b: int)
    requires b > 0
    ensures a == a / b * b + a % b && 0 <= a % b < b
  {}

  /** Of two numbers at least a divisor apart, the quotients are at least one apart. */
  lemma FloorsApart(p: int, q: int, r: int, u: int, res: int)
    requires 0 <= r < res && 0 <= u < res && p * res + r + res <= q * res + u
    ensures p + 1 <= q
  {
    if q <= p {
      Scales(res, q, p);
    }
  }

  lemma FloorMonotone(a: int, b: int, res: int)
    requires res > 0 && a <= b
    ensures a / res <= b / res
  {
    DivMod(a, res);
    DivMod(b, res);
    if b / res + 1 <= a / res {
      Scales(res, b / res + 1, a / res);
    }
  }

  lemma Scales(m: nat, a: int, b: int)
    requires a <= b
    ensures m * a <= m * b
  {}

  function Batches(span: int, res: int): nat
    requires res > 0
  {
    if span < 0 then 0 else span / res
  }

  /** From a state whose batch began at lastBatch: the rest of that batch, and as many
      whole batches as fit before the end of the window. */
  lemma {:induction false} FromBatchStart(s: State, es: seq<Event>, m: nat, from: int, to: int)
    requires Within(s, es, m)
    ensures BytesIn(es, from, to) <=
      m - s.lim.batchDone + m * Batches(to - s.lim.lastBatch, s.lim.resolution) + UncountedIn(es, from, to)
    decreases |es|
  {
    if es != [] {
      var s', res := Step(s, es[0]), s.lim.resolution;
      StepWithin(s, es, m);
      FromBatchStart(s', es[1..], m, from, to);
      if es[0].Part? {
        if to < s'.now {
          NothingBeforeNow(s', es[1..], from, to);
        } else {
          BatchLater(m, to - s.lim.lastBatch, s'.lim.lastBatch - s.lim.lastBatch, res);
        }
      }
    }
  }

  /** Once the window has begun: the rest of the batch and every later one. */
  lemma {:induction false} FromWindowStart(s: State, es: seq<Event>, m: nat, from: int, to: int)
    requires Within(s, es, m) && from <= to
    requires s.now >= from || (es != [] && !es[0].Rate? && es[0].at >= from)
    ensures BytesIn(es, from, to) <=
      m - s.lim.batchDone + m * ((to - from) / s.lim.resolution + 1) + UncountedIn(es, from, to)
    decreases |es|
  {
    if es != [] {
      var s', res := Step(s, es[0]), s.lim.resolution;
      StepWithin(s, es, m);
      if es[0].Part? {
        FromBatchStart(s', es[1..], m, from, to);
        FromPart(m, from, to, s'.lim.lastBatch, res);
      } else {
        FromWindowStart(s', es[1..], m, from, to);
      }
    } else {
      Scales(m, 0, (to - from) / s.lim.resolution + 1);
    }
  }

  lemma FromPart(m: nat, from: int, to: int, start: int, res: int)
    requires res > 0 && from <= to && from <= start
    ensures m + m * Batches(to - start, res) <= m * ((to - from) / res + 1)
  {
    if start <= to {
      FloorMonotone(to - start, to - from, res);
    }
    Scales(m, Batches(to - start, res) + 1, (to - from) / res + 1);
  }

  /** Over any run, in any window: at most maxPerBatch * (window / resolution + 2) bytes,
      not counting what failed throttled writes passed on. */
  lemma {:induction false} WindowBound(s: State, es: seq<Event>, m: nat, from: int, to: int)
    requires Within(s, es, m) && from <= to
    ensures BytesIn(es, from, to) <= m * ((to - from) / s.lim.resolution + 2) + UncountedIn(es, from, to)
    decreases |es|
  {
    if es == [] {
      Scales(m, 0, (to - from) / s.lim.resolution + 2);
    } else if !es[0].Rate? && es[0].at >= from {
      FromWindowStart(s, es, m, from, to);
    } else {
      StepWithin(s, es, m);
      WindowBound(Step(s, es[0]), es[1..], m, from, to);
    }
  }

  /** No rate was set and no throttled write failed. */
  predicate Steady(es: seq<Event>) {
    es == [] || (!es[0].Rate? && !es[0].Broken? && Steady(es[1..]))
  }

  lemma {:induction false} SteadyCounts(es: seq<Event>, m: nat, from: int, to: int)
    requires Steady(es)
    ensures RatesAtMost(es, m) && UncountedIn(es, from, to) == 0
  {
    if es != [] {
      SteadyCounts(es[1..], m, from, to);
    }
  }

  /** With a fixed rate and an error-free stream, any window of time sees at most
      maxPerBatch bytes for each of window / resolution + 2 batches.  The batches of one
      second alone would stay within the rate; the two more need not, as RateKeptIff says. */
  lemma RateHolds(s: State, es: seq<Event>, perSec: nat, from: int, to: int)
    requires PossibleRun(s, es) && Steady(es) && from <= to
    requires 0 < s.lim.resolution <= SECOND && s.lim.batchDone == 0
    requires PerBatch(perSec, s.lim.resolution) == Some(s.lim.maxPerBatch)
    ensures BytesIn(es, from, to) <= s.lim.maxPerBatch * ((to - from) / s.lim.resolution + 2)
    ensures s.lim.maxPerBatch * (SECOND / s.lim.resolution) <= perSec
  {
    PerBatchWithinRate(perSec, s.lim.resolution);
    SteadyCounts(es, s.lim.maxPerBatch, from, to);
    WindowBound(s, es, s.lim.maxPerBatch, from, to);
  }

  function Total(es: seq<Event>): nat {
    if es == [] then 0 else (if es[0].Rate? then 0 else es[0].n) + Total(es[1..])
  }

  function Repeated(e: Event, k: nat): seq<Event> {
    if k == 0 then [] else [e] + Repeated(e, k - 1)
  }

  /** The bytes of failed throttled writes are not limited: k of them pass on k whole
      batches at a single moment. */
  lemma {:induction false} FailedWritesAreNotLimited(s: State, k: nat)
    ensures var es := Repeated(Broken(s.now, CanDo(s.lim)), k);
            PossibleRun(s, es) && BytesIn(es, s.now, s.now) == k * CanDo(s.lim)
    decreases k
  {
    if k > 0 {
      var e := Broken(s.now, CanDo(s.lim));
      FailedWritesAreNotLimited(s, k - 1);
      assert Repeated(e, k)[1..] == Repeated(e, k - 1);
      assert Step(s, e) == s;
    }
  }

  // ----- When a rate is kept -----

  predicate FixedRate(es: seq<Event>) { es == [] || (!es[0].Rate? && FixedRate(es[1..])) }

  /** How many throttled writes failed. */
  function Failures(es: seq<Event>): nat {
    if es == [] then 0 else (if es[0].Broken? then 1 else 0) + Failures(es[1..])
  }

  predicate WindowKeeps(es: seq<Event>, from: int, window: nat, limit: nat) {
    BytesIn(es, from, from + window) <= limit
  }

  /** No window of this length sees more than the limit, in any run at a fixed rate in
      which at most so many throttled writes fail. */
  ghost predicate Keeps(s: State, failures: nat, window: nat, limit: nat) {
    forall es, from :: PossibleRun(s, es) && FixedRate(es) && Failures(es) <= failures ==>
      WindowKeeps(es, from, window, limit)
  }

  /** As a limiter is when it is new, or has not been used for a while. */
  predicate Idle(s: State) {
    s.lim.resolution > 0 && s.lim.batchDone == 0 && s.lim.lastBatch + s.lim.resolution <= s.now
  }

  lemma {:induction false} FailuresUncounted(s: State, es: seq<Event>, m: nat, from: int, to: int)
    requires Within(s, es, m)
    ensures UncountedIn(es, from, to) <= m * Failures(es)
    decreases |es|
  {
    if es != [] {
      StepWithin(s, es, m);
      FailuresUncounted(Step(s, es[0]), es[1..], m, from, to);
      if es[0].Broken? {
        assert m * Failures(es) == m + m * Failures(es[1..]);
      }
    }
  }

  lemma {:induction false} FixedIsAtMost(es: seq<Event>, m: nat)
    requires FixedRate(es)
    ensures RatesAtMost(es, m)
  {
    if es != [] {
      FixedIsAtMost(es[1..], m);
    }
  }

  lemma Distributes(m: nat, a: int, b: int)
    ensures m * a + m * b == m * (a + b)
  {}

  lemma KeptWithin(s: State, es: seq<Event>, failures: nat, from: int, window: nat)
    requires Idle(s) && PossibleRun(s, es) && FixedRate(es) && Failures(es) <= failures
    ensures BytesIn(es, from, from + window) <= CanDo(s.lim) * (window / s.lim.resolution + 2 + failures)
  {
    var m := CanDo(s.lim);
    FixedIsAtMost(es, m);
    WindowBound(s, es, m, from, from + window);
    FailuresUncounted(s, es, m, from, from + window);
    Scales(m, Failures(es), failures);
    Distributes(m, window / s.lim.resolution + 2, failures);
  }

  /** Batches one resolution apart, each full at its start, the first at a time when a
      batch has just begun. */
  function FullBatches(at: int, m: nat, res: int, k: nat): seq<Event>
    decreases k
  {
    [Part(at, m, at + res)] + if k == 0 then [] else FullBatches(at + res, m, res, k - 1)
  }

  /** The worst an idle limiter allows: failed writes, what is left of the old batch, the
      new one at the same moment, and k more. */
  function WorstRun(at: int, m: nat, res: int, failures: nat, k: nat): seq<Event>
    decreases failures
  {
    if failures > 0 then [Broken(at, m)] + WorstRun(at, m, res, failures - 1, k)
    else [Part(at, m, at)] + FullBatches(at, m, res, k)
  }

  lemma {:induction false} FullBatchesPossible(s: State, k: nat, from: int, to: int)
    requires s.lim.resolution > 0 && s.lim.batchDone == 0 && s.lim.lastBatch == s.now
    requires from <= s.now && s.now + k * s.lim.resolution <= to
    ensures var es := FullBatches(s.now, CanDo(s.lim), s.lim.resolution, k);
            PossibleRun(s, es) && FixedRate(es) && Failures(es) == 0 && BytesIn(es, from, to) == CanDo(s.lim) * (k + 1)
    decreases k
  {
    var m, res := CanDo(s.lim), s.lim.resolution;
    var e, more := Part(s.now, m, s.now + res), if k == 0 then [] else FullBatches(s.now + res, m, res, k - 1);
    assert ([e] + more)[1..] == more;
    if k > 0 {
      Distributes(res, k - 1, 1);
      FullBatchesPossible(Step(s, e), k - 1, from, to);
      Distributes(m, k, 1);
    } else {
      assert s.now <= to;
    }
  }

  lemma {:induction false} WorstRunPossible(s: State, failures: nat, k: nat, to: int)
    requires Idle(s) && s.now + k * s.lim.resolution <= to
    ensures var es := WorstRun(s.now, CanDo(s.lim), s.lim.resolution, failures, k);
            && PossibleRun(s, es) && FixedRate(es) && Failures(es) == failures
            && BytesIn(es, s.now, to) == CanDo(s.lim) * (k + 2 + failures)
    decreases failures
  {
    var m, res := CanDo(s.lim), s.lim.resolution;
    assert k * res >= 0 by { Scales(k, 0, res); }
    if failures > 0 {
      var e, more := Broken(s.now, m), WorstRun(s.now, m, res, failures - 1, k);
      assert ([e] + more)[1..] == more && Step(s, e) == s;
      WorstRunPossible(s, failures - 1, k, to);
      Distributes(m, k + 1 + failures, 1);
    } else {
      var e, more := Part(s.now, m, s.now), FullBatches(s.now, m, res, k);
      assert ([e] + more)[1..] == more;
      FullBatchesPossible(Step(s, e), k, s.now, to);
      Distributes(m, k + 1, 1);
    }
  }

  /** The bound is attained: from an idle limiter, a window of any length keeps a limit, in
      all runs with at most so many failures, if and only if the limit has room for two
      batches and one for each failure besides those of the window. */
  lemma KeepsIff(s: State, failures: nat, window: nat, limit: nat)
    requires Idle(s)
    ensures Keeps(s, failures, window, limit) <==>
            CanDo(s.lim) * (window / s.lim.resolution + 2 + failures) <= limit
  {
    var m, res := CanDo(s.lim), s.lim.resolution;
    var most := m * (window / res + 2 + failures);
    if most <= limit {
      forall es, from | PossibleRun(s, es) && FixedRate(es) && Failures(es) <= failures
        ensures WindowKeeps(es, from, window, limit)
      {
        KeptWithin(s, es, failures, from, window);
      }
    } else {
      DivMod(window, res);
      var worst := WorstRun(s.now, m, res, failures, window / res);
      WorstRunPossible(s, failures, window / res, s.now + window);
      assert !WindowKeeps(worst, s.now, window, limit);
    }
  }

  /** That a limiter never exceeds its rate, over any second, even while nothing fails, is
      true exactly if the batches leave room for two more. */
  lemma RateKeptIff(s: State, perSec: nat)
    requires Idle(s) && s.lim.resolution <= SECOND && PerBatch(perSec, s.lim.resolution) == Some(s.lim.maxPerBatch)
    ensures Keeps(s, 0, SECOND, perSec) <==> s.lim.maxPerBatch * (SECOND / s.lim.resolution + 2) <= perSec
  {
    PerBatchWithinRate(perSec, s.lim.resolution);
    KeepsIff(s, 0, SECOND, perSec);
  }

  /** With a batch a second it is never true of a positive rate. */
  lemma WholeSecondsExceed(s: State, perSec: nat)
    requires Idle(s) && s.lim.resolution == SECOND && s.lim.maxPerBatch == perSec > 0
    ensures !Keeps(s, 0, SECOND, perSec)
  {
    KeepsIff(s, 0, SECOND, perSec);
  }

  /** The bound of two batches more than the window's holds of every run exactly if no
      throttled write fails, or nothing may be passed on at all. */
  lemma FailuresKeepBoundIff(s: State, failures: nat)
    requires Idle(s)
    ensures (forall window: nat :: Keeps(s, failures, window, CanDo(s.lim) * (window / s.lim.resolution + 2))) <==>
            failures == 0 || s.lim.maxPerBatch <= 0
  {
    var m, res := CanDo(s.lim), s.lim.resolution;
    forall window: nat
      ensures Keeps(s, failures, window, m * (window / res + 2)) <==> failures == 0 || m == 0
    {
      KeepsIff(s, failures, window, m * (window / res + 2));
      Distributes(m, window / res + 2, failures);
    }
    var window: nat := 0;
    assert Keeps(s, failures, window, m * (window / res + 2)) <==> failures == 0 || m == 0;
  }

  lemma {:induction false} RunExtend(s: State, es: seq<Event>, e: Event)
    requires PossibleRun(s, es) && Possible(Run(s, es), e)
    ensures PossibleRun(s, es + [e]) && Run(s, es + [e]) == Step(Run(s, es), e)
    ensures Total(es + [e]) == Total(es) + if e.Rate? then 0 else e.n
    ensures Steady(es + [e]) <==> Steady(es) && !e.Rate? && !e.Broken?
    decreases |es|
  {
    if es == [] {
      assert [e][1..] == [];
    } else {
      assert (es + [e])[1..] == es[1..] + [e];
      RunExtend(Step(s, es[0]), es[1..], e);
    }
  }

  // ----- When a Write ends -----

  /** Whether a Write of `left` more bytes to a writer that never fails is through after
      at most k turns of its loop. */
  predicate EndsWithin(l: Limiter, left: nat, k: nat)
    decreases k
  {
    k > 0 && (left <= CanDo(l) || EndsWithin(l.(batchDone := 0), left - CanDo(l), k - 1))
  }

  ghost predicate Ends(l: Limiter, left: nat) {
    exists k: nat :: EndsWithin(l, left, k)
  }

  /** It ends if and only if a batch allows something or the bytes fit at once. */
  lemma WriteEndsIff(l: Limiter, left: nat)
    ensures Ends(l, left) <==> l.maxPerBatch > 0 || left <= CanDo(l)
  {
    if l.maxPerBatch > 0 || left <= CanDo(l) {
      var k := EndsFor(l, left);
      assert EndsWithin(l, left, k);
    } else if Ends(l, left) {
      var k: nat :| EndsWithin(l, left, k);
      NeverEnds(l, left, k);
    }
  }

  lemma EndsFor(l: Limiter, left: nat) returns (k: nat)
    requires l.maxPerBatch > 0 || left <= CanDo(l)
    ensures EndsWithin(l, left, k)
  {
    if left <= CanDo(l) {
      return 1;
    }
    EndsSoon(l.(batchDone := 0), left - CanDo(l));
    k := left - CanDo(l) + 2;
  }

  lemma {:induction false} EndsSoon(l: Limiter, left: nat)
    requires l.maxPerBatch > 0 && l.batchDone == 0
    ensures EndsWithin(l, left, left + 1)
    decreases left
  {
    if left > CanDo(l) {
      EndsSoon(l, left - CanDo(l));
      EndsLater(l, left - CanDo(l), left - CanDo(l) + 1, left);
    }
  }

  lemma {:induction false} EndsLater(l: Limiter, left: nat, k: nat, k': nat)
    requires EndsWithin(l, left, k) && k <= k'
    ensures EndsWithin(l, left, k')
    decreases k
  {
    if left > CanDo(l) {
      EndsLater(l.(batchDone := 0), left - CanDo(l), k - 1, k' - 1);
    }
  }

  lemma {:induction false} NeverEnds(l: Limiter, left: nat, k: nat)
    requires l.maxPerBatch <= 0 && left > CanDo(l)
    ensures !EndsWithin(l, left, k)
    decreases k
  {
    if k > 0 {
      NeverEnds(l.(batchDone := 0), left - CanDo(l), k - 1);
    }
  }

  // ----- The objects -----

  /** A clock that never goes back; Sleep lasts at least as long as asked. */
  class Clock {
    var now: int

    constructor (now: int)
      ensures this.now == now
    {
      this.now := now;
    }

    method Now() returns (t: int)
      modifies this
      ensures t == now && old(now) <= now
    {
      var passed: nat :| true;
      now := now + passed;
      return now;
    }

    method Sleep(d: int)
      modifies this
      ensures now >= old(now) && now >= old(now) + d
    {
      var late: nat :| true;
      now := now + (if d > 0 then d else 0) + late;
    }
  }

  class RateLimiter {
    const clock: Clock
    const resolution: int
    var batchDone: int
    var lastBatch: int
    var maxPerBatch: int

    function Abstract(): Limiter
      reads this
    {
      Limiter(resolution, maxPerBatch, batchDone, lastBatch)
    }

    /** The zero time stands for a last batch long ago. */
    constructor (clock: Clock, perSec: int, maxBurst: int, zeroTime: int)
      requires PerBatch(perSec, maxBurst).Some?
      ensures this.clock == clock
      ensures Abstract() == Limiter(maxBurst, PerBatch(perSec, maxBurst).value, 0, zeroTime)
    {
      this.clock, resolution := clock, maxBurst;
      maxPerBatch := Quotient(perSec, Quotient(SECOND, maxBurst));
      batchDone, lastBatch := 0, zeroTime;
    }

    method CanDoNow() returns (canDo: nat)
      ensures canDo == CanDo(Abstract())
    {
      if maxPerBatch - batchDone < 0 {
        return 0;
      }
      return maxPerBatch - batchDone;
    }

    method Did(n: nat)
      modifies this`batchDone
      ensures batchDone == old(batchDone) + n
    {
      batchDone := batchDone + n;
    }

    method SetRate(perSec: int)
      requires PerBatch(perSec, resolution).Some?
      modifies this`maxPerBatch
      ensures Some(maxPerBatch) == PerBatch(perSec, resolution)
    {
      maxPerBatch := Quotient(perSec, Quotient(SECOND, resolution));
    }

    /** Returns no sooner than one resolution after the last batch began, and begins the
        next one. */
    method Limit()
      modifies this`batchDone, this`lastBatch, clock
      ensures batchDone == 0 && lastBatch == clock.now
      ensures lastBatch >= old(lastBatch) + resolution && clock.now >= old(clock.now)
    {
      var nextBatch := lastBatch + resolution;
      var now := clock.Now();
      clock.Sleep(nextBatch - now);
      lastBatch := clock.Now();
      batchDone := 0;
    }
  }

  /** The wrapped stream: what was passed on so far, and when each call took effect.
      A call that moves less than it was given fails, and any call may fail. */
  class Wrapped {
    const clock: Clock
    var passed: bytes
    /** How many calls failed, and how much each read was asked for. */
    var failures: nat
    var asked: seq<nat>

    constructor (clock: Clock)
      ensures this.clock == clock && passed == [] && failures == 0 && asked == []
    {
      this.clock, passed, failures, asked := clock, [], 0, [];
    }

    method Write(p: bytes) returns (m: nat, failed: bool, ghost at: int)
      modifies this, clock
      ensures m <= |p| && (m < |p| ==> failed)
      ensures passed == old(passed) + p[..m] && asked == old(asked)
      ensures failures == old(failures) + if failed then 1 else 0
      ensures old(clock.now) <= at <= clock.now
    {
      var start := clock.Now();
      at := start;
      m :| m >= 0;
      failed := *;
      if m > |p| {
        m := |p|;
      }
      failed := failed || m < |p|;
      failures := failures + if failed then 1 else 0;
      passed := passed + p[..m];
      var end := clock.Now();
    }

    /** Reading at most `room` bytes; how many come is up to the source. */
    method Read(room: nat) returns (p: bytes, failed: bool, ghost at: int)
      modifies this, clock
      ensures |p| <= room && passed == old(passed) + p && asked == old(asked) + [room]
      ensures failures == old(failures) + if failed then 1 else 0
      ensures old(clock.now) <= at <= clock.now
    {
      var start := clock.Now();
      at := start;
      p :| true;
      failed := *;
      if |p| > room {
        p := p[..room];
      }
      passed, asked := passed + p, asked + [room];
      failures := failures + if failed then 1 else 0;
      var end := clock.Now();
    }
  }

  /** throttledWriter and throttledReader; `events` records what was done from the state
      `start` on. */
  class Throttled {
    const wrap: Wrapped
    const limiter: RateLimiter
    const clock: Clock
    ghost const start: State
    ghost var events: seq<Event>

    ghost predicate Valid()
      reads this, wrap, limiter, clock
    {
      && wrap.clock == limiter.clock == clock
      && PossibleRun(start, events)
      && Run(start, events).lim == limiter.Abstract()
      && Run(start, events).now <= clock.now
    }

    constructor (wrap: Wrapped, limiter: RateLimiter)
      requires wrap.clock == limiter.clock
      ensures Valid() && events == [] && start == State(limiter.Abstract(), limiter.clock.now)
      ensures this.wrap == wrap && this.limiter == limiter && this.clock == wrap.clock
    {
      this.wrap, this.limiter, clock := wrap, limiter, wrap.clock;
      start := State(limiter.Abstract(), limiter.clock.now);
      events := [];
    }

    ghost method Record(e: Event)
      requires PossibleRun(start, events) && Possible(Run(start, events), e)
      modifies this`events
      ensures events == old(events) + [e] && PossibleRun(start, events)
      ensures Run(start, events) == Step(Run(start, old(events)), e)
      ensures Total(events) == Total(old(events)) + if e.Rate? then 0 else e.n
      ensures Steady(events) <==> Steady(old(events)) && !e.Rate? && !e.Broken?
    {
      RunExtend(start, events, e);
      events := events + [e];
    }

    method SetRate(perSec: int)
      requires Valid() && PerBatch(perSec, limiter.resolution).Some?
      modifies this`events, limiter`maxPerBatch
      ensures Valid() && Some(limiter.maxPerBatch) == PerBatch(perSec, limiter.resolution)
      ensures events == old(events) + [Rate(limiter.maxPerBatch)]
    {
      limiter.SetRate(perSec);
      Record(Rate(limiter.maxPerBatch));
    }

    /** It fails if and only if a call of the wrapped writer does, which ends it.  Without
        that exactly b is passed on, in order; with it, the part of b that n counts. */
    method Write(b: bytes) returns (n: nat, failed: bool)
      requires Valid() && (limiter.maxPerBatch > 0 || |b| <= CanDo(limiter.Abstract()))
      modifies this`events, wrap, limiter`batchDone, limiter`lastBatch, clock
      ensures Valid() && old(events) <= events
      ensures n <= |b| && (n < |b| ==> failed) && (failed <==> wrap.failures > old(wrap.failures))
      ensures wrap.passed == old(wrap.passed) + b[..n] && Total(events) == Total(old(events)) + n
      ensures old(Steady(events)) && !failed ==> Steady(events)
    {
      n := 0;
      while true
        invariant Valid() && old(events) <= events
        invariant wrap.failures == old(wrap.failures)
        invariant n <= |b| && wrap.passed == old(wrap.passed) + b[..n] && Total(events) == Total(old(events)) + n
        invariant old(Steady(events)) ==> Steady(events)
        invariant limiter.maxPerBatch > 0 || |b[n..]| <= CanDo(limiter.Abstract())
        decreases |b| - n, limiter.batchDone > 0
      {
        var canWrite := limiter.CanDoNow();
        var m: nat;
        if |b[n..]| <= canWrite {
          m, failed := WriteRest(b[n..]);
          Piece(b, n, |b|, m);
          n := n + m;
          return;
        }
        m, failed := WritePart(b[n..n + canWrite]);
        Piece(b, n, n + canWrite, m);
        n := n + m;
        if failed { return; }
      }
    }

    /** What is left fits the batch. */
    method WriteRest(p: bytes) returns (m: nat, failed: bool)
      requires Valid() && |p| <= CanDo(limiter.Abstract())
      modifies this`events, wrap, limiter`batchDone, clock
      ensures Valid() && old(events) <= events
      ensures m <= |p| && (m < |p| ==> failed)
      ensures wrap.failures == old(wrap.failures) + if failed then 1 else 0
      ensures wrap.passed == old(wrap.passed) + p[..m] && Total(events) == Total(old(events)) + m
      ensures old(Steady(events)) ==> Steady(events)
    {
      ghost var at;
      m, failed, at := wrap.Write(p);
      limiter.Did(m);
      Record(Whole(at, m));
    }

    /** What the batch still allows, and then the next batch, unless the write failed. */
    method WritePart(p: bytes) returns (m: nat, failed: bool)
      requires Valid() && |p| == CanDo(limiter.Abstract())
      modifies this`events, wrap, limiter`batchDone, limiter`lastBatch, clock
      ensures Valid() && old(events) <= events
      ensures m <= |p| && (m < |p| ==> failed) && (!failed ==> limiter.batchDone == 0)
      ensures wrap.failures == old(wrap.failures) + if failed then 1 else 0
      ensures wrap.passed == old(wrap.passed) + p[..m] && Total(events) == Total(old(events)) + m
      ensures old(Steady(events)) && !failed ==> Steady(events)
    {
      ghost var at;
      m, failed, at := wrap.Write(p);
      if failed {
        Record(Broken(at, m));
        return;
      }
      limiter.Limit();
      Record(Part(at, m, clock.now));
    }

    /** One call of the wrapped reader, for as much as there is room and the batch allows, or
        none if that is nothing; what it gave is returned, and its failure too. */
    method Read(room: nat) returns (p: bytes, failed: bool)
      requires Valid()
      modifies this`events, wrap, limiter`batchDone, limiter`lastBatch, clock
      ensures Valid() && |p| <= room && wrap.passed == old(wrap.passed) + p
      ensures var canRead := CanDo(old(limiter.Abstract()));
              wrap.asked == old(wrap.asked) +
              (if room <= canRead then [room] else if canRead > 0 then [canRead] else [])
      ensures failed <==> wrap.failures > old(wrap.failures)
      ensures |events| == |old(events)| + 1 && old(events) <= events && Total(events) == Total(old(events)) + |p|
      ensures old(Steady(events)) ==> Steady(events)
    {
      var canRead := limiter.CanDoNow();
      ghost var at := clock.now;
      if room <= canRead {
        p, failed, at := wrap.Read(room);
        limiter.Did(|p|);
        Record(Whole(at, |p|));
        return;
      }
      p, failed := [], false;
      if canRead > 0 {
        p, failed, at := wrap.Read(canRead);
      }
      limiter.Limit();
      Record(Part(at, |p|, clock.now));
    }
  }

  lemma Piece(b: bytes, n: nat, to: nat, m: nat)
    requires n + m <= to <= |b|
    ensures to == |b| ==> b[n..to] == b[n..]
    ensures b[..n] + b[n..to][..m] == b[..n + m]
  {}
}
