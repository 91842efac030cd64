/** What the load balancer's steps mean for the pools: which are available and in which order, what a health check
    changes, and what failing and succeeding checks do to availability. */
module Routing {
  import opened Options
  import opened Affinity
  import opened Balancer
  import CB = CircuitBreaker
  import Selection

  // ---------------------------------------------------------------- availability

  /** The breaker lets a request through: it is not open, or the last failure is thirty seconds old. */
  predicate Admits(b: CB.Breaker, now: real) {
    b.state == CB.Open ==> now - b.lastFailureTime >= 30.0
  }

  /** The pool is up, has room and no long queue. */
  predicate Serves(e: Endpoint) {
    && (e.load.status == Selection.Healthy || e.load.status == Selection.Degraded)
    && e.load.currentSessions < e.load.maxSessions && e.queueDepth <= 50
  }

  /** A pool is available exactly if it is registered, serves, and its breaker lets the request through. */
  lemma AvailableMeans(b: Balancer, now: real, p: PoolName)
    requires WellFormed(b)
    ensures p in Available(b, now).1 <==> p in b.endpoints && Serves(b.endpoints[p]) && Admits(b.breakers[p], now)
  {
    AvailableExactly(b, now, |b.order|, p);
    assert b.order[..|b.order|] == b.order;
  }

  function AfterAsking(b: CB.Breaker, now: real): CB.Breaker {
    if b.state == CB.Open && now - b.lastFailureTime >= 30.0 then b.(state := CB.HalfOpen, successCount := 0) else b
  }

  lemma HasBreaker(b: Balancer, i: nat)
    requires WellFormed(b) && i < |b.order|
    ensures b.order[i] in b.breakers && b.order[i] in b.endpoints
  {
  }

  /** Asking for pools changes exactly the open breakers whose time has come: each is on trial, with no success yet. */
  lemma {:induction false} AskedBreakers(b: Balancer, now: real, n: nat, p: PoolName)
    requires WellFormed(b) && n <= |b.order| && p in b.breakers
    ensures p in Scan(b, now, n).0
    ensures Scan(b, now, n).0[p]
         == if p in b.order[..n] then AfterAsking(b.breakers[p], now) else b.breakers[p]
  {
    hide Scan, WellFormed;
    if n == 0 {
      ScanNone(b, now);
    } else {
      var last, before := b.order[n - 1], Scan(b, now, n - 1);
      AskedBreakers(b, now, n - 1, p);
      HasBreaker(b, n - 1);
      ScanLeavesRest(b, now, n - 1, n - 1);
      ScanNext(b, now, n - 1, before.0, before.1, CB.OnAsk(DEFAULTS, before.0[last], now));
      assert b.order[..n] == b.order[..n - 1] + [last];
    }
  }

  ghost predicate Precedes(order: seq<PoolName>, p: PoolName, q: PoolName) {
    exists i, j :: 0 <= i < j < |order| && order[i] == p && order[j] == q
  }

  /** s keeps the order that its elements have in `order`. */
  ghost predicate KeepsOrder(s: seq<PoolName>, order: seq<PoolName>) {
    forall i, j :: 0 <= i < j < |s| ==> Precedes(order, s[i], s[j])
  }

  lemma PrecedesMore(order: seq<PoolName>, n: nat, p: PoolName, q: PoolName)
    requires n < |order|
    ensures Precedes(order[..n], p, q) ==> Precedes(order[..n + 1], p, q)
    ensures p in order[..n] ==> Precedes(order[..n + 1], p, order[n])
  {
    if Precedes(order[..n], p, q) {
      var i, j :| 0 <= i < j < n && order[..n][i] == p && order[..n][j] == q;
      assert order[..n + 1][i] == p && order[..n + 1][j] == q;
    }
    if p in order[..n] {
      var i :| 0 <= i < n && order[..n][i] == p;
      assert order[..n + 1][i] == p && order[..n + 1][n] == order[n];
    }
  }

  /** Available pools are found in the order of the dictionary. */
  lemma {:induction false} FoundInOrder(b: Balancer, now: real, n: nat)
    requires WellFormed(b) && n <= |b.order|
    ensures KeepsOrder(Scan(b, now, n).1, b.order[..n])
  {
    hide WellFormed;
    if n > 0 {
      HasBreaker(b, n - 1);
      ScanLeavesRest(b, now, n - 1, n - 1);
      FoundInOrder(b, now, n - 1);
      var before, after := Scan(b, now, n - 1).1, Scan(b, now, n).1;
      forall i, j | 0 <= i < j < |after| ensures Precedes(b.order[..n], after[i], after[j]) {
        AvailableExactly(b, now, n - 1, after[i]);
        PrecedesMore(b.order, n - 1, after[i], after[j]);
        assert i < |before| && after[i] == before[i];
        assert j < |before| ==> after[j] == before[j];
      }
    }
  }

  predicate Near(e: Endpoint, preferred: Option<Region>) {
    preferred.None? || e.region == preferred.value
  }

  lemma QuotientOrder(a: real, b: real, c: real, d: real)
    requires b > 0.0 && d > 0.0 && a / b <= c / d
    ensures a * d <= c * b
  {
    assert a == (a / b) * b && c == (c / d) * d;
    assert (c / d - a / b) * (b * d) >= 0.0;
    assert (a / b) * b * d == (a / b) * (b * d) && (c / d) * d * b == (c / d) * (b * d);
  }

  /** The candidates come nearest first, then by rising priority number, then by rising share of room in use. */
  lemma CandidatesInOrder(b: Balancer, preferred: Option<Region>, now: real, i: nat, j: nat)
    requires WellFormed(b) && i < j < |Candidates(b, preferred, now)|
    ensures var candidates := Candidates(b, preferred, now);
      && candidates[i] in b.endpoints && candidates[j] in b.endpoints
      && var e, f := b.endpoints[candidates[i]], b.endpoints[candidates[j]];
      && (Near(f, preferred) ==> Near(e, preferred))
      && (Near(f, preferred) == Near(e, preferred) ==> e.priority <= f.priority)
      && (Near(f, preferred) == Near(e, preferred) && e.priority == f.priority ==>
            e.load.currentSessions as real * f.load.maxSessions as real
              <= f.load.currentSessions as real * e.load.maxSessions as real)
  {
    ScanRoomy(b, now, |b.order|);
    SortedSorts(b.endpoints, preferred, Available(b, now).1);
    var candidates := Candidates(b, preferred, now);
    assert Roomy(b.endpoints, candidates[i]) && Roomy(b.endpoints, candidates[j]);
    var e, f := b.endpoints[candidates[i]], b.endpoints[candidates[j]];
    assert !SortsBefore(b.endpoints, preferred, candidates[j], candidates[i]);
    if Near(f, preferred) == Near(e, preferred) && e.priority == f.priority {
      QuotientOrder(e.load.currentSessions as real, e.load.maxSessions as real,
                    f.load.currentSessions as real, f.load.maxSessions as real);
    }
  }

  // ---------------------------------------------------------------- registering and unregistering

  /** A newly registered pool is available at once if it may hold a session, and scores its weight; it stands last
      in the dictionary, or where the pool stood whose name it takes. No other pool is touched. */
  lemma FreshPool(b: Balancer, p: PoolName, region: Region, weight: int, priority: int, maxSessions: int, now: real)
    requires WellFormed(b)
    ensures var after := Register(b, p, NewEndpoint(region, weight, priority, maxSessions));
      && WellFormed(after) && (p in Available(after, now).1 <==> maxSessions > 0)
      && after.endpoints[p].region == region && after.endpoints[p].priority == priority
      && (maxSessions > 0 ==> Selection.Score(after.endpoints[p].load) == weight as real)
      && after.order == (if p in b.endpoints then b.order else b.order + [p])
      && after.endpoints - {p} == b.endpoints - {p} && after.breakers - {p} == b.breakers - {p}
      && after.affinities == b.affinities
  {
    var after := Register(b, p, NewEndpoint(region, weight, priority, maxSessions));
    RegisterWellFormed(b, p, NewEndpoint(region, weight, priority, maxSessions));
    hide Scan, WellFormed, Selection.Score;
    AvailableMeans(after, now, p);
    if maxSessions > 0 {
      Selection.IdleScore(after.endpoints[p].load);
    }
  }

  lemma {:induction false} WithoutKeepsOrder(s: seq<PoolName>, p: PoolName)
    ensures KeepsOrder(Without(s, p), s)
  {
    if s != [] {
      var n := |s| - 1;
      WithoutKeepsOrder(s[..n], p);
      var left, rest := Without(s, p), Without(s[..n], p);
      assert s[..n + 1] == s;
      forall i, j | 0 <= i < j < |left| ensures Precedes(s, left[i], left[j]) {
        WithoutKeepsOthers(s[..n], p, left[i]);
        PrecedesMore(s, n, left[i], left[j]);
        assert i < |rest| && left[i] == rest[i];
        assert j < |rest| ==> left[j] == rest[j];
      }
    }
  }

  /** An unregistered pool is gone; the others stay as they were, in their order, as available as before. */
  lemma UnregisteredIsGone(b: Balancer, p: PoolName, q: PoolName, now: real)
    requires WellFormed(b)
    ensures var after := Unregister(b, p);
      && WellFormed(after) && p !in Available(after, now).1
      && (q != p ==> (q in Available(after, now).1 <==> q in Available(b, now).1))
      && KeepsOrder(after.order, b.order) && after.affinities == b.affinities
  {
    UnregisterWellFormed(b, p);
    WithoutKeepsOrder(b.order, p);
    AvailableMeans(Unregister(b, p), now, p);
    AvailableMeans(Unregister(b, p), now, q);
    AvailableMeans(b, now, q);
  }

  // ---------------------------------------------------------------- health checks

  /** A check leaves a pool up exactly if it answered or timed out, and wholly healthy exactly if it answered with cpu
      and memory at most nine tenths in use. The answer's time and queue are noted, a timeout as five seconds; a
      rejection or an error changes the status alone. Sessions, weight and settings are never touched. */
  lemma CheckShows(b: Balancer, p: PoolName, h: Health, now: real)
    requires p in b.endpoints
    ensures p in Check(b, p, h, now).endpoints
    ensures var e, f := b.endpoints[p], Check(b, p, h, now).endpoints[p];
      && (f.load.status == Selection.Healthy <==> h.Responded? && h.cpu <= 90.0 && h.memory <= 90.0)
      && (f.load.status == Selection.Degraded <==>
            h.TimedOut? || (h.Responded? && (h.cpu > 90.0 || h.memory > 90.0)))
      && (f.load.status == Selection.Unhealthy <==> h.Rejected? || h.Failed?)
      && (f.load.responseMs == match h
            case Responded(ms, _, _, _) => ms
            case TimedOut => 5000.0
            case _ => e.load.responseMs)
      && f.queueDepth == (if h.Responded? then h.queueDepth else e.queueDepth)
      && f.load.currentSessions == e.load.currentSessions && f.load.maxSessions == e.load.maxSessions
      && f.load.weight == e.load.weight && f.priority == e.priority && f.region == e.region
      && Check(b, p, h, now).endpoints - {p} == b.endpoints - {p}
      && Check(b, p, h, now).breakers - {p} == b.breakers - {p}
  {
  }

  /** Checks of one pool, each with its instant. */
  function Checks(b: Balancer, p: PoolName, hs: seq<(Health, real)>): Balancer {
    if hs == [] then b else Check(Checks(b, p, hs[..|hs| - 1]), p, hs[|hs| - 1].0, hs[|hs| - 1].1)
  }

  lemma {:induction false} ChecksCount(b: Balancer, p: PoolName, hs: seq<(Health, real)>)
    requires p in b.endpoints && p in b.breakers && b.breakers[p].failureCount >= 0
    requires forall i :: 0 <= i < |hs| ==> !hs[i].0.Responded?
    ensures var after := Checks(b, p, hs);
      && after.endpoints.Keys == b.endpoints.Keys && after.breakers.Keys == b.breakers.Keys && after.order == b.order
      && after.breakers[p].failureCount == b.breakers[p].failureCount + |hs|
      && (hs != [] ==> after.breakers[p].lastFailureTime == hs[|hs| - 1].1)
      && (|hs| >= 5 ==> after.breakers[p].state == CB.Open)
  {
    if hs != [] {
      ChecksCount(b, p, hs[..|hs| - 1]);
    }
  }

  lemma {:induction false} ChecksWellFormed(b: Balancer, p: PoolName, hs: seq<(Health, real)>)
    requires WellFormed(b)
    ensures WellFormed(Checks(b, p, hs))
  {
    if hs != [] {
      ChecksWellFormed(b, p, hs[..|hs| - 1]);
      PerformWellFormed(Checks(b, p, hs[..|hs| - 1]), Checked(p, hs[|hs| - 1].0, hs[|hs| - 1].1));
    }
  }

  lemma {:induction false} FewFailures(b: Balancer, p: PoolName, hs: seq<(Health, real)>)
    requires p in b.endpoints && p in b.breakers
    requires b.breakers[p].state == CB.Closed && b.breakers[p].failureCount == 0
    requires |hs| <= 4 && forall i :: 0 <= i < |hs| ==> !hs[i].0.Responded?
    ensures var after := Checks(b, p, hs);
      && after.endpoints.Keys == b.endpoints.Keys && after.breakers.Keys == b.breakers.Keys
      && after.breakers[p].state == CB.Closed && after.breakers[p].failureCount == |hs|
  {
    if hs != [] {
      FewFailures(b, p, hs[..|hs| - 1]);
    }
  }

  /** Up to four failing checks leave a closed breaker without failures closed: availability is up to the pool alone. */
  lemma {:induction false} FewFailingChecksPass(b: Balancer, p: PoolName, hs: seq<(Health, real)>, now: real)
    requires WellFormed(b) && p in b.endpoints
    requires b.breakers[p].state == CB.Closed && b.breakers[p].failureCount == 0
    requires |hs| <= 4 && forall i :: 0 <= i < |hs| ==> !hs[i].0.Responded?
    ensures WellFormed(Checks(b, p, hs)) && p in Checks(b, p, hs).endpoints
    ensures p in Available(Checks(b, p, hs), now).1 <==> Serves(Checks(b, p, hs).endpoints[p])
  {
    ChecksWellFormed(b, p, hs);
    FewFailures(b, p, hs);
    AvailableMeans(Checks(b, p, hs), now, p);
  }

  ghost predicate Counting(b: Balancer) {
    forall p :: p in b.breakers ==> b.breakers[p].failureCount >= 0
  }

  lemma CallKeepsCounting(b: Balancer, e: Call)
    requires WellFormed(b) && Counting(b)
    ensures Counting(Perform(b, e))
  {
    if e.Assigned? {
      hide Scan, WellFormed;
      ScanKeys(b, e.at, |b.order|);
      forall p | p in b.breakers ensures p in Available(b, e.at).0 && Available(b, e.at).0[p].failureCount >= 0 {
        AskedBreakers(b, e.at, |b.order|, p);
      }
    }
  }

  lemma {:induction false} RunKeepsCounting(es: seq<Call>)
    ensures Counting(RunCalls(es))
  {
    if es != [] {
      RunKeepsCounting(es[..|es| - 1]);
      CallKeepsCounting(RunCalls(es[..|es| - 1]), es[|es| - 1]);
    }
  }

  /** After every run, five failing checks in a row, whatever came before, keep a pool from being available for thirty
      seconds after the last; then, if it serves, it is available again. */
  lemma FailingChecksExclude(es: seq<Call>, p: PoolName, hs: seq<(Health, real)>, now: real)
    requires p in RunCalls(es).endpoints
    requires |hs| >= 5 && forall i :: 0 <= i < |hs| ==> !hs[i].0.Responded?
    ensures var after := Checks(RunCalls(es), p, hs);
      && WellFormed(after) && p in after.endpoints
      && (p in Available(after, now).1 <==> Serves(after.endpoints[p]) && now - hs[|hs| - 1].1 >= 30.0)
  {
    var b := RunCalls(es);
    RunKeepsCounting(es);
    ChecksWellFormed(b, p, hs);
    ChecksCount(b, p, hs);
    AvailableMeans(Checks(b, p, hs), now, p);
  }

  lemma {:induction false} TrialCounts(b: Balancer, p: PoolName, hs: seq<(Health, real)>)
    requires p in b.endpoints && p in b.breakers
    requires b.breakers[p].state == CB.HalfOpen && b.breakers[p].successCount == 0
    requires |hs| <= 2 && forall i :: 0 <= i < |hs| ==> hs[i].0.Responded?
    ensures var after := Checks(b, p, hs);
      && p in after.endpoints && p in after.breakers
      && after.breakers[p].state == CB.HalfOpen && after.breakers[p].successCount == |hs|
  {
    if hs != [] {
      TrialCounts(b, p, hs[..|hs| - 1]);
    }
  }

  /** On trial a breaker takes three successful checks to close, and one failing check opens it again. */
  lemma TrialTakesThree(b: Balancer, p: PoolName, hs: seq<(Health, real)>)
    requires p in b.endpoints && p in b.breakers
    requires b.breakers[p].state == CB.HalfOpen && b.breakers[p].successCount == 0
    requires 1 <= |hs| <= 3 && forall i :: 0 <= i < |hs| - 1 ==> hs[i].0.Responded?
    ensures p in Checks(b, p, hs).breakers
    ensures Checks(b, p, hs).breakers[p].state ==
      if !hs[|hs| - 1].0.Responded? then CB.Open else if |hs| == 3 then CB.Closed else CB.HalfOpen
  {
    TrialCounts(b, p, hs[..|hs| - 1]);
  }
}
