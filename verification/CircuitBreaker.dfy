/** The circuit breaker of a pool endpoint: a timed state machine whose failure counter
    is a walk reflected at zero. Times are reals on one clock. */
module CircuitBreaker {

  datatype Circuit = Closed | Open | HalfOpen

  datatype Config = Config(failureThreshold: int, recoveryTimeout: real, halfOpenMaxCalls: int)

  datatype Breaker = Breaker(state: Circuit, failureCount: int, successCount: int, lastFailureTime: real)

  const FRESH := Breaker(Closed, 0, 0, 0.0)

  // ---------------------------------------------------------------- one call

  function OnSuccess(c: Config, b: Breaker): Breaker {
    if b.state == HalfOpen then
      if b.successCount + 1 >= c.halfOpenMaxCalls then b.(state := Closed, failureCount := 0, successCount := 0)
      else b.(successCount := b.successCount + 1)
    else b.(failureCount := if b.failureCount - 1 > 0 then b.failureCount - 1 else 0)
  }

  function OnFailure(c: Config, b: Breaker, now: real): Breaker {
    var counted := b.(failureCount := b.failureCount + 1, lastFailureTime := now);
    if b.state == HalfOpen || counted.failureCount >= c.failureThreshold then counted.(state := Open) else counted
  }

  /** The breaker after a request for admission, and whether the request may go ahead. */
  function OnAsk(c: Config, b: Breaker, now: real): (Breaker, bool) {
    if b.state == Open then
      if now - b.lastFailureTime >= c.recoveryTimeout then (b.(state := HalfOpen, successCount := 0), true)
      else (b, false)
    else (b, true)
  }

  class CircuitBreaker {
    const config: Config
    var state: Circuit
    var failureCount: int
    var successCount: int
    var lastFailureTime: real

    constructor (config: Config)
      ensures this.config == config && Value() == FRESH
    {
      this.config := config;
      state, failureCount, successCount, lastFailureTime := Closed, 0, 0, 0.0;
    }

    function Value(): Breaker
      reads this
    {
      Breaker(state, failureCount, successCount, lastFailureTime)
    }

    method RecordSuccess()
      modifies this
      ensures Value() == OnSuccess(config, old(Value()))
    {
      if state == HalfOpen {
        successCount := successCount + 1;
        if successCount >= config.halfOpenMaxCalls {
          state := Closed;
          failureCount := 0;
          successCount := 0;
        }
      } else {
        failureCount := if failureCount - 1 > 0 then failureCount - 1 else 0;
      }
    }

    method RecordFailure(now: real)
      modifies this
      ensures Value() == OnFailure(config, old(Value()), now)
    {
      failureCount := failureCount + 1;
      lastFailureTime := now;
      if state == HalfOpen {
        state := Open;
      } else if failureCount >= config.failureThreshold {
        state := Open;
      }
    }

    method CanExecute(now: real) returns (admitted: bool)
      modifies this
      ensures (Value(), admitted) == OnAsk(config, old(Value()), now)
    {
      if state == Closed {
        return true;
      } else if state == Open {
        if now - lastFailureTime >= config.recoveryTimeout {
          state := HalfOpen;
          successCount := 0;
          return true;
        }
        return false;
      } else {
        return true;
      }
    }
  }

  // ---------------------------------------------------------------- whole runs

  datatype Event = Succeeded | Failed(now: real) | Asked(now: real)

  function Step(c: Config, b: Breaker, e: Event): Breaker {
    match e
    case Succeeded => OnSuccess(c, b)
    case Failed(now) => OnFailure(c, b, now)
    case Asked(now) => OnAsk(c, b, now).0
  }

  /** The breaker after a run of events, starting fresh. */
  function Run(c: Config, es: seq<Event>): Breaker {
    if es == [] then FRESH else Step(c, Run(c, es[..|es| - 1]), es[|es| - 1])
  }

  /** The outcomes recorded since the breaker last entered Closed; true is a failure. */
  function Outcomes(c: Config, es: seq<Event>): seq<bool> {
    if es == [] then []
    else
      var before, e := es[..|es| - 1], es[|es| - 1];
      if Run(c, before).state != Closed then []
      else if e.Asked? then Outcomes(c, before)
      else Outcomes(c, before) + [e.Failed?]
  }

  /** Failures minus successes in a window of outcomes. */
  function Excess(window: seq<bool>): int {
    if window == [] then 0
    else Excess(window[..|window| - 1]) + (if window[|window| - 1] then 1 else -1)
  }

  /** m is the largest excess among the windows that end now, the empty window included. */
  ghost predicate IsLargestExcess(m: int, outcomes: seq<bool>) {
    && (exists i :: 0 <= i <= |outcomes| && Excess(outcomes[i..]) == m)
    && (forall i :: 0 <= i <= |outcomes| ==> Excess(outcomes[i..]) <= m)
  }

  lemma WindowGrows(outcomes: seq<bool>, failed: bool, i: nat)
    requires i <= |outcomes|
    ensures Excess((outcomes + [failed])[i..]) == Excess(outcomes[i..]) + (if failed then 1 else -1)
  {
    assert (outcomes + [failed])[i..] == outcomes[i..] + [failed];
    assert (outcomes[i..] + [failed])[..|outcomes| - i] == outcomes[i..];
  }

  /** One more outcome moves the largest excess by one, reflected at zero. */
  lemma LargestExcessMoves(m: int, outcomes: seq<bool>, failed: bool)
    requires IsLargestExcess(m, outcomes)
    ensures IsLargestExcess(if failed then m + 1 else if m - 1 > 0 then m - 1 else 0, outcomes + [failed])
  {
    var next := outcomes + [failed];
    var j :| 0 <= j <= |outcomes| && Excess(outcomes[j..]) == m;
    WindowGrows(outcomes, failed, j);
    assert next[|next|..] == [] && outcomes[|outcomes|..] == [];
    forall i | 0 <= i <= |outcomes| ensures Excess(next[i..]) <= m + (if failed then 1 else -1) {
      WindowGrows(outcomes, failed, i);
    }
  }

  /** While the breaker is closed its failure count is the largest excess of failures over
      successes among all windows of outcomes that end now. */
  lemma {:induction false} ReflectedWalk(c: Config, es: seq<Event>)
    requires Run(c, es).state == Closed
    ensures IsLargestExcess(Run(c, es).failureCount, Outcomes(c, es))
  {
    if es == [] || Run(c, es[..|es| - 1]).state != Closed {
      assert Outcomes(c, es) == [] && Excess([]) == 0;
      assert Outcomes(c, es)[0..] == [];
    } else {
      var before, e := es[..|es| - 1], es[|es| - 1];
      ReflectedWalk(c, before);
      if !e.Asked? {
        LargestExcessMoves(Run(c, before).failureCount, Outcomes(c, before), e.Failed?);
      }
    }
  }

  lemma RunOneMore(c: Config, es: seq<Event>, e: Event)
    ensures Run(c, es + [e]) == Step(c, Run(c, es), e)
  {
    assert (es + [e])[..|es|] == es;
  }

  /** A closed breaker opens on a failure exactly when some window of outcomes ending with that
      failure has failures ahead of successes by the threshold. */
  lemma OpensExactlyOnExcess(c: Config, es: seq<Event>, now: real)
    requires Run(c, es).state == Closed
    ensures Run(c, es + [Failed(now)]).state == Open <==>
      exists i :: 0 <= i <= |Outcomes(c, es)| && Excess((Outcomes(c, es) + [true])[i..]) >= c.failureThreshold
  {
    var outs := Outcomes(c, es);
    var count := Run(c, es).failureCount;
    RunOneMore(c, es, Failed(now));
    ReflectedWalk(c, es);
    var j :| 0 <= j <= |outs| && Excess(outs[j..]) == count;
    WindowGrows(outs, true, j);
    assert Excess((outs + [true])[j..]) == count + 1;
    forall i | 0 <= i <= |outs| ensures Excess((outs + [true])[i..]) <= count + 1 {
      WindowGrows(outs, true, i);
      assert Excess(outs[i..]) <= count;
    }
    assert Run(c, es + [Failed(now)]).state == Open <==> count + 1 >= c.failureThreshold;
  }

  /** While closed, successes and admissions never open the breaker. */
  lemma OnlyFailuresOpen(c: Config, b: Breaker, e: Event)
    requires b.state == Closed && !e.Failed?
    ensures Step(c, b, e).state == Closed
  {
  }

  lemma {:induction false} FailuresExcess(window: seq<bool>)
    requires forall i :: 0 <= i < |window| ==> window[i]
    ensures Excess(window) == |window|
  {
    if window != [] { FailuresExcess(window[..|window| - 1]); }
  }

  /** So `failureThreshold` consecutive failures open it ... */
  lemma ConsecutiveFailuresOpen(c: Config, es: seq<Event>, now: real)
    requires Run(c, es).state == Closed && c.failureThreshold >= 1
    requires c.failureThreshold - 1 <= |Outcomes(c, es)|
    requires forall i :: |Outcomes(c, es)| - (c.failureThreshold - 1) <= i < |Outcomes(c, es)| ==> Outcomes(c, es)[i]
    ensures Run(c, es + [Failed(now)]).state == Open
  {
    var outs := Outcomes(c, es);
    var i := |outs| - (c.failureThreshold - 1);
    FailuresExcess((outs + [true])[i..]);
    OpensExactlyOnExcess(c, es, now);
  }

  function Failures(k: nat): seq<Event> {
    if k == 0 then [] else Failures(k - 1) + [Failed(0.0)]
  }

  lemma {:induction false} CountFailures(c: Config, es: seq<Event>, k: nat)
    requires Run(c, es).state == Closed && Run(c, es).failureCount + k < c.failureThreshold
    ensures Run(c, es + Failures(k)).state == Closed
    ensures Run(c, es + Failures(k)).failureCount == Run(c, es).failureCount + k
  {
    if k == 0 {
      assert es + [] == es;
    } else {
      CountFailures(c, es, k - 1);
      assert es + Failures(k) == es + Failures(k - 1) + [Failed(0.0)];
      RunOneMore(c, es + Failures(k - 1), Failed(0.0));
    }
  }

  /** n consecutive events from position i on all record failures. */
  predicate FailuresFrom(es: seq<Event>, i: nat, n: nat) {
    i + n <= |es| && forall j :: i <= j < i + n ==> es[j].Failed?
  }

  lemma {:induction false} FailuresLength(k: nat)
    ensures |Failures(k)| == k
  {
    if k > 0 {
      FailuresLength(k - 1);
    }
  }

  /** ... but they are not needed: for every threshold n of at least three, n - 1 failures, a success and
      two more failures open the breaker although no n failures are consecutive. */
  lemma OpensWithoutConsecutiveFailures(c: Config) returns (es: seq<Event>)
    requires c.failureThreshold >= 3
    ensures Run(c, es).state == Open && forall i: nat :: !FailuresFrom(es, i, c.failureThreshold)
  {
    var n := c.failureThreshold;
    var start := Failures(n - 1);
    CountFailures(c, [], n - 1);
    assert [] + start == start;
    RunOneMore(c, start, Succeeded);
    RunOneMore(c, start + [Succeeded], Failed(0.0));
    RunOneMore(c, start + [Succeeded] + [Failed(0.0)], Failed(0.0));
    es := start + [Succeeded] + [Failed(0.0)] + [Failed(0.0)];
    FailuresLength(n - 1);
    assert es[n - 1] == Succeeded;
  }

  // ---------------------------------------------------------------- recovery

  function Successes(es: seq<Event>): nat {
    if es == [] then 0 else Successes(es[..|es| - 1]) + (if es[|es| - 1].Succeeded? then 1 else 0)
  }

  /** f is the position of the last failure among the events. */
  ghost predicate LastFailureAt(es: seq<Event>, f: int) {
    0 <= f < |es| && es[f].Failed? && forall i :: f < i < |es| ==> !es[i].Failed?
  }

  /** Event j moved the breaker from Open to HalfOpen, at least the recovery timeout after the
      last failure before it. */
  ghost predicate TrialStartsAt(c: Config, es: seq<Event>, j: int) {
    && 0 <= j < |es|
    && es[j].Asked?
    && Run(c, es[..j]).state == Open
    && exists f :: LastFailureAt(es[..j], f) && es[j].now - es[f].now >= c.recoveryTimeout
  }

  /** No failure and n successes after event j. */
  ghost predicate CleanTrial(es: seq<Event>, j: int, n: int) {
    && 0 <= j < |es|
    && (forall i :: j < i < |es| ==> !es[i].Failed?)
    && Successes(es[j + 1..]) == n
  }

  lemma {:induction false} NotClosedHasFailure(c: Config, es: seq<Event>) returns (f: int)
    requires Run(c, es).state != Closed
    ensures LastFailureAt(es, f) && Run(c, es).lastFailureTime == es[f].now
  {
    var n := |es| - 1;
    if es[n].Failed? {
      f := n;
    } else {
      f := NotClosedHasFailure(c, es[..n]);
    }
  }

  lemma CleanTrialGrows(es: seq<Event>, j: int, n: int)
    requires |es| > 0 && CleanTrial(es[..|es| - 1], j, n) && !es[|es| - 1].Failed?
    ensures CleanTrial(es, j, n + if es[|es| - 1].Succeeded? then 1 else 0)
  {
    var m := |es| - 1;
    assert es[j + 1..][..m - j - 1] == es[..m][j + 1..];
  }

  lemma TrialStartStays(c: Config, es: seq<Event>, j: int)
    requires |es| > 0 && TrialStartsAt(c, es[..|es| - 1], j)
    ensures TrialStartsAt(c, es, j)
  {
    assert es[..|es| - 1][..j] == es[..j];
  }

  /** A half-open breaker is in a trial: it was admitted in time, has seen no failure since, and its
      success count is the number of successes since. */
  lemma {:induction false} HalfOpenIsTrial(c: Config, es: seq<Event>) returns (j: int)
    requires Run(c, es).state == HalfOpen
    ensures TrialStartsAt(c, es, j)
    ensures CleanTrial(es, j, Run(c, es).successCount)
    ensures Run(c, es).successCount == 0 || Run(c, es).successCount < c.halfOpenMaxCalls
  {
    var n := |es| - 1;
    var before := es[..n];
    if Run(c, before).state == HalfOpen {
      j := HalfOpenIsTrial(c, before);
      TrialStartStays(c, es, j);
      CleanTrialGrows(es, j, Run(c, before).successCount);
    } else {
      j := n;
      var f := NotClosedHasFailure(c, before);
      assert es[n].now - es[f].now >= c.recoveryTimeout;
      assert es[j + 1..] == [];
    }
  }

  /** Every return to Closed, over every run, is from HalfOpen: the closing event ends a trial that was admitted at
      least the recovery timeout after the last failure and that then saw no failure and exactly
      `halfOpenMaxCalls` successes (one, when that setting is below one). */
  lemma RecoveryOverRuns(c: Config, es: seq<Event>) returns (j: int)
    requires |es| > 0 && Run(c, es).state == Closed && Run(c, es[..|es| - 1]).state != Closed
    ensures Run(c, es[..|es| - 1]).state == HalfOpen
    ensures TrialStartsAt(c, es, j)
    ensures CleanTrial(es, j, if c.halfOpenMaxCalls > 1 then c.halfOpenMaxCalls else 1)
  {
    var before := es[..|es| - 1];
    j := HalfOpenIsTrial(c, before);
    TrialStartStays(c, es, j);
    CleanTrialGrows(es, j, Run(c, before).successCount);
  }

  /** Bounds kept by every run: the counters stay below the settings that would have moved the state. */
  lemma {:induction false} CounterBounds(c: Config, es: seq<Event>)
    ensures Run(c, es).failureCount >= 0
    ensures Run(c, es).state == Closed ==> Run(c, es).failureCount == 0 || Run(c, es).failureCount < c.failureThreshold
    ensures Run(c, es).state == HalfOpen ==>
      Run(c, es).successCount == 0 || Run(c, es).successCount < c.halfOpenMaxCalls
  {
    if es != [] {
      CounterBounds(c, es[..|es| - 1]);
    }
  }

  /** After every run a request is refused exactly if the breaker is open and the timeout since the last failure
      has not passed. A request admitted by an open breaker starts a trial; no other changes the breaker. */
  lemma {:induction false} RefusesExactlyWhenEarly(c: Config, es: seq<Event>, now: real)
    ensures var b := Run(c, es);
      && (!OnAsk(c, b, now).1 <==>
            b.state == Open && exists f :: LastFailureAt(es, f) && now - es[f].now < c.recoveryTimeout)
      && (b.state == Open && OnAsk(c, b, now).1 ==>
            OnAsk(c, b, now).0.state == HalfOpen && OnAsk(c, b, now).0.successCount == 0)
      && (!(b.state == Open && OnAsk(c, b, now).1) ==> OnAsk(c, b, now).0 == b)
  {
    if Run(c, es).state == Open {
      var f := NotClosedHasFailure(c, es);
      assert forall g :: LastFailureAt(es, g) ==> g == f;
    }
  }
}
