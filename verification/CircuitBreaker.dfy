/** The circuit breaker (shared/resilience/circuit_breaker.go). Execute releases its lock while the call runs, so
    each of its two locked sections is a step of its own; any number of calls may be between them. */
module CircuitBreaker {

  datatype CircuitState = StateClosed | StateOpen | StateHalfOpen

  const UINT32: nat := 0x1_0000_0000

  /** Times are ticks of the breaker's clock; failures is a 32-bit counter that wraps. */
  datatype Breaker = Breaker(maxFailures: nat, timeout: int, failures: nat, state: CircuitState, lastFailureAt: int)

  function New(maxFailures: nat, timeout: int): Breaker { Breaker(maxFailures, timeout, 0, StateClosed, 0) }

  /** The first locked section: may the call run? */
  function Begin(b: Breaker, now: int): (Breaker, bool) {
    if b.state == StateOpen then
      if now - b.lastFailureAt > b.timeout then (b.(state := StateHalfOpen), true) else (b, false)
    else (b, true)
  }

  /** The second locked section: the call's outcome. */
  function End(b: Breaker, now: int, ok: bool): Breaker {
    if ok then b.(failures := 0, state := StateClosed)
    else
      var n := (b.failures + 1) % UINT32;
      b.(failures := n, lastFailureAt := now, state := if n >= b.maxFailures then StateOpen else b.state)
  }

  function ReportedState(b: Breaker, now: int): CircuitState {
    if b.state == StateOpen && now - b.lastFailureAt > b.timeout then StateHalfOpen else b.state
  }

  class Circuit {
    const maxFailures: nat
    const timeout: int
    var failures: nat
    var state: CircuitState
    var lastFailureAt: int

    function Current(): Breaker
      reads this
    {
      Breaker(maxFailures, timeout, failures, state, lastFailureAt)
    }

    constructor (maxFailures: nat, timeout: int)
      ensures Current() == New(maxFailures, timeout)
    {
      this.maxFailures, this.timeout := maxFailures, timeout;
      failures, state, lastFailureAt := 0, StateClosed, 0;
    }

    method BeginExecute(now: int) returns (admitted: bool)
      modifies this
      ensures (Current(), admitted) == Begin(old(Current()), now)
    {
      if state == StateOpen {
        if now - lastFailureAt > timeout {
          state := StateHalfOpen;
        } else {
          return false;
        }
      }
      return true;
    }

    method EndExecute(now: int, ok: bool)
      modifies this
      ensures Current() == End(old(Current()), now, ok)
    {
      if !ok {
        failures := (failures + 1) % UINT32;
        lastFailureAt := now;
        if failures >= maxFailures {
          state := StateOpen;
        }
        return;
      }
      failures := 0;
      state := StateClosed;
    }

    method State(now: int) returns (s: CircuitState)
      ensures s == ReportedState(Current(), now)
    {
      if state == StateOpen && now - lastFailureAt > timeout {
        return StateHalfOpen;
      }
      return state;
    }
  }

  // ---------------------------------------------------------------- traces

  datatype Event = Started(now: int) | Finished(now: int, ok: bool)

  function Apply(b: Breaker, e: Event): Breaker {
    match e
    case Started(now) => Begin(b, now).0
    case Finished(now, ok) => End(b, now, ok)
  }

  function Run(b: Breaker, events: seq<Event>): Breaker {
    if events == [] then b else Apply(Run(b, events[..|events| - 1]), events[|events| - 1])
  }

  /** The outcomes in the order in which calls completed. */
  function Outcomes(events: seq<Event>): seq<bool> {
    if events == [] then []
    else
      var last := events[|events| - 1];
      Outcomes(events[..|events| - 1]) + if last.Finished? then [last.ok] else []
  }

  /** How many failures have completed since the last success. */
  function TrailingFailures(events: seq<Event>): nat {
    if events == [] then 0
    else
      var before, last := events[..|events| - 1], events[|events| - 1];
      if last.Started? then TrailingFailures(before)
      else if last.ok then 0
      else TrailingFailures(before) + 1
  }

  /** When the latest failure completed. */
  function LastFailure(events: seq<Event>): int {
    if events == [] then 0
    else
      var last := events[|events| - 1];
      if last.Finished? && !last.ok then last.now else LastFailure(events[..|events| - 1])
  }

  predicate Monotone(events: seq<Event>) {
    forall i, j :: 0 <= i < j < |events| ==> events[i].now <= events[j].now
  }

  /** A limit of 0 acts like a limit of 1. */
  function Threshold(maxFailures: nat): nat { if maxFailures == 0 then 1 else maxFailures }

  /** The trailing failures are the longest run of failures at the end of the outcomes. */
  lemma {:induction false} TrailingFailuresMean(events: seq<Event>)
    ensures var outs, t := Outcomes(events), TrailingFailures(events);
            && t <= |outs|
            && (forall i :: |outs| - t <= i < |outs| ==> !outs[i])
            && (t < |outs| ==> outs[|outs| - t - 1])
  {
    if events == [] {
    } else {
      TrailingFailuresMean(events[..|events| - 1]);
    }
  }

  lemma WrapStep(t: nat)
    ensures (t % UINT32 + 1) % UINT32 == (t + 1) % UINT32
    ensures (t + 1) % UINT32 <= t + 1
  {}

  /** One event, for a breaker whose counter and state follow a count t. */
  lemma ApplyFollows(b: Breaker, t: nat, e: Event)
    requires b.maxFailures < UINT32 && b.failures == t % UINT32
        && (b.state == StateClosed <==> t < Threshold(b.maxFailures))
    ensures var b', t' := Apply(b, e), if e.Started? then t else if e.ok then 0 else t + 1;
            && b'.maxFailures == b.maxFailures && b'.timeout == b.timeout
            && b'.failures == t' % UINT32
            && (b'.state == StateClosed <==> t' < Threshold(b.maxFailures))
            && b'.lastFailureAt == if e.Finished? && !e.ok then e.now else b.lastFailureAt
  {
    if t + 1 < UINT32 {
      assert (t + 1) % UINT32 == t + 1;
    }
    WrapStep(t);
  }

  /** Under every interleaving of concurrent calls the breaker is a function of the outcomes so far: the counter is
      the trailing failures modulo 2^32, the latest failure time is remembered, and the circuit is closed
      exactly while the trailing failures are below the threshold. */
  lemma {:induction false} StateFollowsOutcomes(maxFailures: nat, timeout: int, events: seq<Event>)
    requires maxFailures < UINT32
    ensures var b, t := Run(New(maxFailures, timeout), events), TrailingFailures(events);
            && b.maxFailures == maxFailures && b.timeout == timeout
            && b.failures == t % UINT32
            && (b.state == StateClosed <==> t < Threshold(maxFailures))
            && b.lastFailureAt == LastFailure(events)
  {
    if events == [] {
    } else {
      var before, last := events[..|events| - 1], events[|events| - 1];
      StateFollowsOutcomes(maxFailures, timeout, before);
      ApplyFollows(Run(New(maxFailures, timeout), before), TrailingFailures(before), last);
    }
  }

  /** A call is rejected only if at least the threshold's number of outcomes have failed in a row, the latest of
      them at most timeout ago. */
  lemma RejectedOnlyWhenFailing(maxFailures: nat, timeout: int, events: seq<Event>, now: int)
    requires maxFailures < UINT32
    requires !Begin(Run(New(maxFailures, timeout), events), now).1
    ensures var outs, m := Outcomes(events), Threshold(maxFailures);
            |outs| >= m && (forall i :: |outs| - m <= i < |outs| ==> !outs[i])
            && now - LastFailure(events) <= timeout
  {
    StateFollowsOutcomes(maxFailures, timeout, events);
    TrailingFailuresMean(events);
  }

  /** Whether a call has been let through after the failures reached the threshold, with no outcome since that
      closed the circuit or opened it again; a failure opens it again unless its 32-bit count is below the limit. */
  predicate Probing(maxFailures: nat, timeout: int, events: seq<Event>) {
    if events == [] then false
    else
      var before, last := events[..|events| - 1], events[|events| - 1];
      match last
      case Started(now) =>
        Probing(maxFailures, timeout, before)
        || (TrailingFailures(before) >= Threshold(maxFailures) && now - LastFailure(before) > timeout)
      case Finished(_, ok) =>
        !ok && Probing(maxFailures, timeout, before) && TrailingFailures(events) % UINT32 < maxFailures
  }

  lemma {:induction false} HalfOpenIsProbing(maxFailures: nat, timeout: int, events: seq<Event>)
    requires maxFailures < UINT32
    ensures Run(New(maxFailures, timeout), events).state == StateHalfOpen <==> Probing(maxFailures, timeout, events)
  {
    if events == [] {
    } else {
      var before := events[..|events| - 1];
      HalfOpenIsProbing(maxFailures, timeout, before);
      StateFollowsOutcomes(maxFailures, timeout, before);
      StateFollowsOutcomes(maxFailures, timeout, events);
    }
  }

  /** For every history, whatever the clock and the counter did: a call is admitted exactly when the trailing
      failures are below the threshold, or the latest is older than timeout, or a probe is out. */
  lemma AdmittedExactly(maxFailures: nat, timeout: int, events: seq<Event>, now: int)
    requires maxFailures < UINT32
    ensures Begin(Run(New(maxFailures, timeout), events), now).1
            <==> || TrailingFailures(events) < Threshold(maxFailures)
                 || now - LastFailure(events) > timeout
                 || Probing(maxFailures, timeout, events)
  {
    StateFollowsOutcomes(maxFailures, timeout, events);
    HalfOpenIsProbing(maxFailures, timeout, events);
  }

  /** With a monotone clock a probe that is out began late, unless the count of failures has wrapped. */
  lemma {:induction false} ProbingIsLate(maxFailures: nat, timeout: int, events: seq<Event>)
    requires Monotone(events) && Probing(maxFailures, timeout, events) && TrailingFailures(events) < UINT32
    ensures events != [] && events[|events| - 1].now - LastFailure(events) > timeout
  {
    var before, last := events[..|events| - 1], events[|events| - 1];
    if last.Started? {
      if Probing(maxFailures, timeout, before) { ProbingIsLate(maxFailures, timeout, before); }
    } else {
      StreakOfProbe(maxFailures, timeout, before);
    }
  }

  lemma {:induction false} StreakOfProbe(maxFailures: nat, timeout: int, events: seq<Event>)
    requires Probing(maxFailures, timeout, events)
    ensures TrailingFailures(events) >= Threshold(maxFailures)
  {
    var before := events[..|events| - 1];
    if Probing(maxFailures, timeout, before) { StreakOfProbe(maxFailures, timeout, before); }
  }

  lemma MonotoneLast(events: seq<Event>, now: int)
    requires Monotone(events + [Started(now)])
    ensures Monotone(events) && (events != [] ==> events[|events| - 1].now <= now)
  {
    var all := events + [Started(now)];
    assert forall i :: 0 <= i < |events| ==> all[i] == events[i];
    assert all[|events|].now == now;
  }

  /** With a monotone clock, and while the current streak has not wrapped the counter, admission is a function of
      the outcomes: below the threshold, or the latest failure older than timeout. */
  lemma AdmissionExact(maxFailures: nat, timeout: int, events: seq<Event>, now: int)
    requires maxFailures < UINT32 && Monotone(events + [Started(now)]) && TrailingFailures(events) < UINT32
    ensures Begin(Run(New(maxFailures, timeout), events), now).1
            <==> TrailingFailures(events) < Threshold(maxFailures) || now - LastFailure(events) > timeout
  {
    MonotoneLast(events, now);
    AdmittedExactly(maxFailures, timeout, events, now);
    if Probing(maxFailures, timeout, events) { ProbingIsLate(maxFailures, timeout, events); }
  }

  /** What State reports, in terms of the outcomes: closed exactly below the threshold, and open exactly when a call
      at that moment would be rejected. */
  lemma ReportedExact(maxFailures: nat, timeout: int, events: seq<Event>, now: int)
    requires maxFailures < UINT32
    ensures var b := Run(New(maxFailures, timeout), events);
      && (ReportedState(b, now) == StateClosed <==> TrailingFailures(events) < Threshold(maxFailures))
      && (ReportedState(b, now) == StateOpen <==> !Begin(b, now).1)
      && (ReportedState(b, now) == StateHalfOpen
          <==> TrailingFailures(events) >= Threshold(maxFailures)
               && (now - LastFailure(events) > timeout || Probing(maxFailures, timeout, events)))
  {
    StateFollowsOutcomes(maxFailures, timeout, events);
    HalfOpenIsProbing(maxFailures, timeout, events);
    if Probing(maxFailures, timeout, events) { StreakOfProbe(maxFailures, timeout, events); }
  }

  /** After a success, whatever came before: the count is zero and every call is admitted. */
  lemma SuccessCloses(maxFailures: nat, timeout: int, events: seq<Event>, at: int, now: int)
    ensures var b := Run(New(maxFailures, timeout), events + [Finished(at, true)]);
      b.failures == 0 && b.state == StateClosed && Begin(b, now) == (b, true)
  {
    assert (events + [Finished(at, true)])[..|events|] == events;
  }

  /** Calls that begin together at a fresh breaker and fail one after the other. */
  function Failing(began: int, times: seq<int>): seq<Event> {
    seq(|times|, i => Started(began)) + Failures(times)
  }

  lemma {:induction false} StartsChangeNothing(maxFailures: nat, timeout: int, began: int, n: nat)
    ensures Run(New(maxFailures, timeout), seq(n, i => Started(began))) == New(maxFailures, timeout)
  {
    if n == 0 {
    } else {
      StartsChangeNothing(maxFailures, timeout, began, n - 1);
      assert seq(n, i => Started(began))[..n - 1] == seq(n - 1, i => Started(began));
    }
  }

  function Failures(times: seq<int>): seq<Event> {
    seq(|times|, i requires 0 <= i < |times| => Finished(times[i], false))
  }

  lemma FailuresLast(starts: seq<Event>, times: seq<int>)
    requires times != []
    ensures var all, n := starts + Failures(times), |times|;
      all != [] && all[|all| - 1] == Finished(times[n - 1], false)
      && all[..|all| - 1] == starts + Failures(times[..n - 1])
  {}

  lemma FailsOnce(maxFailures: nat, timeout: int, n: nat, last: int, now: int)
    requires n + 1 < 0x1_0000_0000
    ensures End(Breaker(maxFailures, timeout, n, if n == 0 || n < maxFailures then StateClosed else StateOpen, last),
                now, false)
         == Breaker(maxFailures, timeout, n + 1, if n + 1 < maxFailures then StateClosed else StateOpen, now)
  {}

  lemma {:induction false} FailingRun(maxFailures: nat, timeout: int, starts: seq<Event>, times: seq<int>)
    requires |times| < 0x1_0000_0000 && Run(New(maxFailures, timeout), starts) == New(maxFailures, timeout)
    ensures var n := |times|;
      Run(New(maxFailures, timeout), starts + Failures(times))
      == Breaker(maxFailures, timeout, n, if n == 0 || n < maxFailures then StateClosed else StateOpen,
                 if n == 0 then 0 else times[n - 1])
  {
    var n := |times|;
    if n == 0 {
      assert starts + Failures(times) == starts;
    } else {
      hide Failures, End;
      FailingRun(maxFailures, timeout, starts, times[..n - 1]);
      FailuresLast(starts, times);
      FailsOnce(maxFailures, timeout, n - 1, if n == 1 then 0 else times[n - 2], times[n - 1]);
    }
  }

  /** n calls that begin at a fresh breaker and fail: the next one is admitted exactly if n is below the limit, or
      more than timeout has passed since the last failure. */
  lemma FreshAdmission(maxFailures: nat, timeout: int, began: int, times: seq<int>, now: int)
    requires 0 < |times| < 0x1_0000_0000
    ensures Begin(Run(New(maxFailures, timeout), Failing(began, times)), now).1
            <==> |times| < maxFailures || now - times[|times| - 1] > timeout
  {
    StartsChangeNothing(maxFailures, timeout, began, |times|);
    FailingRun(maxFailures, timeout, seq(|times|, i => Started(began)), times);
  }

  // ---------------------------------------------------------------- what wrapping does

  /** How many calls have been let through and have not come back. */
  function InFlight(maxFailures: nat, timeout: int, events: seq<Event>): int {
    if events == [] then 0
    else
      var before, last := events[..|events| - 1], events[|events| - 1];
      InFlight(maxFailures, timeout, before)
      + match last
        case Started(now) => if Begin(Run(New(maxFailures, timeout), before), now).1 then 1 else 0
        case Finished(_, _) => -1
  }

  /** A history that the code can produce: the clock is monotone, and every call that finishes was let through. */
  predicate Realizable(maxFailures: nat, timeout: int, events: seq<Event>) {
    events == []
    || var before, last := events[..|events| - 1], events[|events| - 1];
       && Realizable(maxFailures, timeout, before)
       && (before != [] ==> before[|before| - 1].now <= last.now)
       && (last.Finished? ==> InFlight(maxFailures, timeout, before) > 0)
  }

  /** When the n-th probe begins and fails. */
  function ProbeTime(timeout: nat, n: nat): int { if n == 0 then 0 else ProbeTime(timeout, n - 1) + timeout + 1 }

  function Probe(timeout: nat, n: nat): seq<Event> {
    [Started(ProbeTime(timeout, n)), Finished(ProbeTime(timeout, n), false)]
  }

  /** n sequential failing calls, each more than timeout after the one before. */
  function Probes(timeout: nat, n: nat): seq<Event> {
    if n == 0 then [] else Probes(timeout, n - 1) + Probe(timeout, n)
  }

  /** What a failing call that is let through adds to a history. */
  lemma FailingStep(maxFailures: nat, timeout: nat, events: seq<Event>, now: int)
    requires Realizable(maxFailures, timeout, events) && InFlight(maxFailures, timeout, events) == 0
    requires events != [] ==> events[|events| - 1].now <= now
    requires Begin(Run(New(maxFailures, timeout), events), now).1
    ensures var b := Run(New(maxFailures, timeout), events);
      var longer := events + [Started(now), Finished(now, false)];
      && Realizable(maxFailures, timeout, longer) && InFlight(maxFailures, timeout, longer) == 0
      && Run(New(maxFailures, timeout), longer) == End(Begin(b, now).0, now, false)
      && TrailingFailures(longer) == TrailingFailures(events) + 1 && LastFailure(longer) == now
      && longer[|longer| - 1].now == now
  {
    hide Begin, End;
    var started := events + [Started(now)];
    var longer := events + [Started(now), Finished(now, false)];
    assert started[..|started| - 1] == events && longer[..|longer| - 1] == started;
  }

  /** The breaker after n probes. */
  function Probed(maxFailures: nat, timeout: nat, n: nat): Breaker {
    Breaker(maxFailures, timeout, n,
        if n < Threshold(maxFailures) then StateClosed else StateOpen, ProbeTime(timeout, n))
  }

  lemma ProbeStep(maxFailures: nat, timeout: nat, n: nat)
    requires 0 < n < UINT32
    ensures var b, now := Probed(maxFailures, timeout, n - 1), ProbeTime(timeout, n);
      Begin(b, now).1 && End(Begin(b, now).0, now, false) == Probed(maxFailures, timeout, n)
  {
    assert (n - 1 + 1) % UINT32 == n;
  }

  lemma {:induction false} ProbesRun(maxFailures: nat, timeout: nat, n: nat)
    requires n < UINT32
    ensures var events := Probes(timeout, n);
      && Realizable(maxFailures, timeout, events) && InFlight(maxFailures, timeout, events) == 0
      && TrailingFailures(events) == n
      && (events != [] ==> events[|events| - 1].now == ProbeTime(timeout, n))
      && Run(New(maxFailures, timeout), events) == Probed(maxFailures, timeout, n)
  {
    if n == 0 {
    } else {
      ProbesRun(maxFailures, timeout, n - 1);
      hide Run, Realizable, InFlight, TrailingFailures, LastFailure, Begin, End, Probed;
      ProbeStep(maxFailures, timeout, n);
      FailingStep(maxFailures, timeout, Probes(timeout, n - 1), ProbeTime(timeout, n));
    }
  }

  /** The no-wrap condition of AdmissionExact is needed: when the 2^32nd failure in a row completes during a probe,
      the counter wraps to 0, the circuit stays half-open, and a call is admitted at the very tick of that failure. */
  lemma WrapAdmitsEarly(maxFailures: nat, timeout: nat) returns (events: seq<Event>, now: int)
    requires 1 <= maxFailures < UINT32
    ensures Realizable(maxFailures, timeout, events + [Started(now)])
    ensures TrailingFailures(events) == 0x1_0000_0000 && LastFailure(events) == now
    ensures Begin(Run(New(maxFailures, timeout), events), now).1
  {
    now := ProbeTime(timeout, UINT32);
    events := Probes(timeout, UINT32 - 1) + Probe(timeout, UINT32);
    ProbesRun(maxFailures, timeout, UINT32 - 1);
    FailingStep(maxFailures, timeout, Probes(timeout, UINT32 - 1), now);
    hide Run, InFlight, TrailingFailures, LastFailure;
    var next := events + [Started(now)];
    assert next[..|next| - 1] == events;
  }

  // ---------------------------------------------------------------- the load bound

  /** One sequential call whose function, if invoked, fails: when it began and when the failure came back. */
  datatype FailingCall = FailingCall(began: int, failed: int)

  predicate Sequential(calls: seq<FailingCall>) {
    && (forall i :: 0 <= i < |calls| ==> calls[i].began <= calls[i].failed)
    && (forall i, j :: 0 <= i < j < |calls| ==> calls[i].failed <= calls[j].began)
  }

  /** How many of the calls are let through. */
  function Invocations(b: Breaker, calls: seq<FailingCall>): nat
    decreases |calls|
  {
    if calls == [] then 0
    else
      var (b1, admitted) := Begin(b, calls[0].began);
      if admitted then 1 + Invocations(End(b1, calls[0].failed, false), calls[1..])
      else Invocations(b1, calls[1..])
  }

  /** How many whole windows of k ticks fit into a span. */
  function Windows(span: int, k: nat): nat
    requires k > 0
    decreases if span < k then 0 else span
  {
    if span < k then 0 else 1 + Windows(span - k, k)
  }

  lemma {:induction false} WindowsMonotone(x: int, y: int, k: nat)
    requires k > 0 && x >= y
    ensures Windows(x, k) >= Windows(y, k)
    decreases if y < k then 0 else y
  {
    if y >= k { WindowsMonotone(x - k, y - k, k); }
  }

  lemma WindowsAfter(x: int, y: int, k: nat)
    requires k > 0 && x >= y + k && y >= 0
    ensures Windows(x, k) >= Windows(y, k) + 1
  {
    WindowsMonotone(x - k, y, k);
  }

  lemma {:induction false} WindowsDivide(span: nat, k: nat)
    requires k > 0
    ensures Windows(span, k) == span / k
  {
    if span >= k {
      WindowsDivide(span - k, k);
      DivideStep(span, k);
    }
  }

  lemma Multiples(a: int, b: int, k: nat)
    requires a < b
    ensures a * k + k <= b * k
  {
    var d := b - a - 1;
    assert d * k >= 0;
    assert b * k == (a + 1 + d) * k == a * k + k + d * k;
  }

  lemma Quotient(x: nat, k: nat, q: int, r: nat)
    requires k > 0 && x == q * k + r && r < k
    ensures x / k == q
  {
    var p := x / k;
    assert x == p * k + x % k;
    if p < q { Multiples(p, q, k); }
    if q < p { Multiples(q, p, k); }
  }

  lemma DivideStep(x: nat, k: nat)
    requires x >= k > 0
    ensures x / k == (x - k) / k + 1
  {
    var q, r := x / k, x % k;
    assert x == q * k + r;
    assert x - k == (q - 1) * k + r;
    Quotient(x - k, k, q - 1, r);
  }

  /** How often the 32-bit counter wraps while the calls are made. */
  function Wraps(b: Breaker, calls: seq<FailingCall>): nat
    decreases |calls|
  {
    if calls == [] then 0
    else
      var (b1, admitted) := Begin(b, calls[0].began);
      if admitted then
        var b2 := End(b1, calls[0].failed, false);
        (if b2.failures == 0 then 1 else 0) + Wraps(b2, calls[1..])
      else Wraps(b1, calls[1..])
  }

  /** Every invocation counts once, so the counter's wraps are those of the sum. */
  lemma {:induction false} WrapsCount(b: Breaker, calls: seq<FailingCall>)
    requires b.failures < UINT32
    ensures Wraps(b, calls) == (b.failures + Invocations(b, calls)) / UINT32
    decreases |calls|
  {
    if calls == [] {
    } else {
      var (b1, admitted) := Begin(b, calls[0].began);
      WrapsCount(if admitted then End(b1, calls[0].failed, false) else b1, calls[1..]);
    }
  }

  /** How many failures in a row can pass before the circuit opens. */
  function Slack(b: Breaker): (n: nat)
    ensures 1 <= n <= Threshold(b.maxFailures)
  {
    if b.failures < b.maxFailures then b.maxFailures - b.failures else 1
  }

  lemma TailSequential(calls: seq<FailingCall>)
    requires Sequential(calls) && |calls| > 1
    ensures Sequential(calls[1..]) && calls[1..] != [] && calls[|calls| - 1] == calls[1..][|calls| - 2]
    ensures calls[0].began <= calls[0].failed <= calls[1..][0].began <= calls[|calls| - 1].began
  {}

  /** The invocations keep to a limit, which every wrap lifts by the threshold; below 2^32 in all none wraps. */
  predicate LoadKept(b: Breaker, calls: seq<FailingCall>, limit: nat) {
    && Invocations(b, calls) <= limit + b.maxFailures * Wraps(b, calls)
    && (b.failures + limit < UINT32 ==> Wraps(b, calls) == 0)
  }

  /** A call that is let through, then the rest. */
  lemma CallThenRest(b: Breaker, calls: seq<FailingCall>, limit: nat, rest: nat)
    requires calls != [] && b.failures < UINT32 && Begin(b, calls[0].began).1 && 1 <= limit
    requires var b2 := End(Begin(b, calls[0].began).0, calls[0].failed, false);
      && LoadKept(b2, calls[1..], rest)
      && 1 + rest <= limit + if b2.failures == 0 then b.maxFailures else 0
    ensures LoadKept(b, calls, limit)
  {
    var b2 := End(Begin(b, calls[0].began).0, calls[0].failed, false);
    var w := Wraps(b2, calls[1..]);
    assert b.maxFailures * (1 + w) == b.maxFailures + b.maxFailures * w;
  }

  lemma LastCall(b: Breaker, calls: seq<FailingCall>, limit: nat)
    requires |calls| == 1 && b.failures < UINT32 && (Begin(b, calls[0].began).1 ==> 1 <= limit)
    ensures LoadKept(b, calls, limit)
  {
    var (b1, admitted) := Begin(b, calls[0].began);
    if admitted {
      CallThenRest(b, calls, limit, 0);
    }
  }

  /** What a failing call that was let through leaves. */
  lemma AfterFailure(b: Breaker, now: int)
    requires b.failures < UINT32 && b.state != StateOpen
    ensures var b2 := End(b, now, false);
      && b2.failures < UINT32 && b2.maxFailures == b.maxFailures && b2.timeout == b.timeout && b2.lastFailureAt == now
      && (b2.state == StateOpen ==> b2.maxFailures <= b2.failures)
      && (b2.state != StateOpen ==>
            if b2.failures == 0 then Slack(b2) == b.maxFailures else Slack(b2) + 1 == Slack(b))
  {}

  /** How many invocations can follow a state left by a failure, apart from the windows. */
  function Remaining(b: Breaker): nat { if b.state == StateOpen then 0 else Slack(b) }

  /** From open, an invocation needs more than timeout since the last failure; otherwise a full count comes first. */
  lemma {:induction false} FailedLoad(b: Breaker, calls: seq<FailingCall>)
    requires Sequential(calls) && calls != [] && b.timeout >= 0 && b.failures < UINT32
    requires b.lastFailureAt <= calls[0].began && (b.state == StateOpen ==> b.maxFailures <= b.failures)
    ensures LoadKept(b, calls, Remaining(b) + Windows(calls[|calls| - 1].began - b.lastFailureAt, b.timeout + 1))
    decreases |calls|, 2
  {
    hide Wraps, Invocations, Windows;
    var k, first, last := b.timeout + 1, calls[0].began, calls[|calls| - 1].began;
    var limit := Remaining(b) + Windows(last - b.lastFailureAt, k);
    TimesOrdered(calls);
    if b.state != StateOpen {
      LoadInWindows(b, calls);
      WindowsMonotone(last - b.lastFailureAt, last - first, k);
    } else if Begin(b, first).1 {
      WindowsAfter(last - b.lastFailureAt, last - first, k);
      AdmittedLoad(b, calls, limit);
    } else if |calls| == 1 {
      LastCall(b, calls, limit);
    } else {
      TailSequential(calls);
      FailedLoad(b, calls[1..]);
      RejectThenRest(b, calls, limit);
    }
  }

  lemma RejectThenRest(b: Breaker, calls: seq<FailingCall>, limit: nat)
    requires calls != [] && !Begin(b, calls[0].began).1 && LoadKept(b, calls[1..], limit)
    ensures LoadKept(b, calls, limit)
  {}

  lemma TimesOrdered(calls: seq<FailingCall>)
    requires Sequential(calls) && calls != []
    ensures calls[0].began <= calls[|calls| - 1].began
  {}

  /** A call that is let through, within a limit that has room for it besides the windows from then on. */
  lemma {:induction false} AdmittedLoad(b: Breaker, calls: seq<FailingCall>, limit: nat)
    requires Sequential(calls) && calls != [] && b.timeout >= 0 && b.failures < UINT32
    requires var (b1, admitted) := Begin(b, calls[0].began);
      admitted && Slack(b1) + Windows(calls[|calls| - 1].began - calls[0].began, b.timeout + 1) <= limit
    ensures LoadKept(b, calls, limit)
    decreases |calls|, 0
  {
    hide Wraps, Invocations, Windows;
    if |calls| == 1 {
      LastCall(b, calls, limit);
    } else {
      var b1, last := Begin(b, calls[0].began).0, calls[|calls| - 1].began;
      var b2 := End(b1, calls[0].failed, false);
      TailSequential(calls);
      AfterFailure(b1, calls[0].failed);
      FailedLoad(b2, calls[1..]);
      WindowsMonotone(last - calls[0].began, last - calls[0].failed, b.timeout + 1);
      CallThenRest(b, calls, limit, Remaining(b2) + Windows(last - calls[0].failed, b.timeout + 1));
    }
  }

  /** From any state. */
  lemma {:induction false} LoadInWindows(b: Breaker, calls: seq<FailingCall>)
    requires Sequential(calls) && calls != [] && b.timeout >= 0 && b.failures < UINT32
    ensures LoadKept(b, calls, Slack(b) + Windows(calls[|calls| - 1].began - calls[0].began, b.timeout + 1))
    decreases |calls|, 1
  {
    hide Wraps, Invocations, Windows;
    var first, last := calls[0].began, calls[|calls| - 1].began;
    var limit := Slack(b) + Windows(last - first, b.timeout + 1);
    if Begin(b, first).1 {
      AdmittedLoad(b, calls, limit);
    } else if |calls| == 1 {
      LastCall(b, calls, limit);
    } else {
      TailSequential(calls);
      LoadInWindows(b, calls[1..]);
      WindowsMonotone(last - first, last - calls[1..][0].began, b.timeout + 1);
      LoadKeptMore(b, calls[1..], Slack(b) + Windows(last - calls[1..][0].began, b.timeout + 1), limit);
      RejectThenRest(b, calls, limit);
    }
  }

  lemma LoadKeptMore(b: Breaker, calls: seq<FailingCall>, limit: nat, more: nat)
    requires LoadKept(b, calls, limit) && limit <= more
    ensures LoadKept(b, calls, more)
  {}

  /** In any sequential run with a monotone clock in which every invocation fails, after any history of
      interleaved calls: the invocations that begin within D ticks are at most the threshold plus D / (timeout + 1),
      and a threshold more for each wrap of the counter, of which there is none below 2^32 failures in all. */
  lemma LoadBound(maxFailures: nat, timeout: nat, events: seq<Event>, calls: seq<FailingCall>)
    requires maxFailures < UINT32 && Sequential(calls) && calls != []
    ensures var b, count := Run(New(maxFailures, timeout), events), TrailingFailures(events) % UINT32;
      var n := Invocations(b, calls);
      var limit := Threshold(maxFailures) + (calls[|calls| - 1].began - calls[0].began) / (timeout + 1);
      && n <= limit + maxFailures * ((count + n) / UINT32)
      && (count + limit < UINT32 ==> n <= limit)
  {
    hide Run, LoadKept, TrailingFailures, Invocations, Wraps, Windows;
    var b, span := Run(New(maxFailures, timeout), events), calls[|calls| - 1].began - calls[0].began;
    StateFollowsOutcomes(maxFailures, timeout, events);
    TimesOrdered(calls);
    LoadInWindows(b, calls);
    WindowsDivide(span, timeout + 1);
    LoadKeptMore(b, calls, Slack(b) + Windows(span, timeout + 1), Threshold(maxFailures) + span / (timeout + 1));
    LoadKeptMeans(b, calls, Threshold(maxFailures) + span / (timeout + 1));
  }

  lemma LoadKeptMeans(b: Breaker, calls: seq<FailingCall>, limit: nat)
    requires b.failures < UINT32 && LoadKept(b, calls, limit)
    ensures var n := Invocations(b, calls);
      && n <= limit + b.maxFailures * ((b.failures + n) / UINT32)
      && (b.failures + limit < UINT32 ==> n <= limit)
  {
    WrapsCount(b, calls);
  }
}
