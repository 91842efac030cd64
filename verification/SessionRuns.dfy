/** Interleaved runs of the session manager: creations of any number of threads, lookups,
    destructions that succeed or raise, and cleanups, in any order. */
module SessionRuns {
  import opened Sessions
  import opened MapSum

  type Thread = nat

  /** The manager and the threads that hold a permit while they build a sandbox. */
  datatype World<M> = World(manager: Manager<M>, building: set<Thread>)

  datatype Event<M> =
    | TryAcquire(thread: Thread)
    | Registered(thread: Thread, id: Id, info: M, ttl: int, now: real)
    | BuildFailed(thread: Thread)
    | Looked(id: Id, now: real, raises: bool)
    | Destroyed(id: Id, raises: bool)
    | Cleaned(now: real, raising: set<Id>)

  function Init<M>(maxSessions: nat): World<M> {
    World(Start(maxSessions), {})
  }

  /** One atomic step. A thread that is not building cannot register or fail, and one that is
      building does not acquire again. */
  function Step<M>(w: World<M>, e: Event<M>): World<M> {
    match e
    case TryAcquire(t) =>
      if t in w.building then w
      else
        var (m, ok) := Acquire(w.manager);
        World(m, if ok then w.building + {t} else w.building)
    case Registered(t, id, info, ttl, now) =>
      if t in w.building then World(Register(w.manager, id, NewSession(info, ttl, now)), w.building - {t}) else w
    case BuildFailed(t) =>
      if t in w.building then World(GiveUp(w.manager), w.building - {t}) else w
    case Looked(id, now, raises) => w.(manager := Get(w.manager, id, now, raises).0)
    case Destroyed(id, raises) => w.(manager := Destroy(w.manager, id, raises).0)
    case Cleaned(now, raising) => w.(manager := Cleanup(w.manager, now, raising).0)
  }

  function RunFrom<M>(w: World<M>, es: seq<Event<M>>): World<M> {
    if es == [] then w else Step(RunFrom(w, es[..|es| - 1]), es[|es| - 1])
  }

  function Run<M>(maxSessions: nat, es: seq<Event<M>>): World<M> {
    RunFrom(Init(maxSessions), es)
  }

  lemma {:induction false} RunConcat<M>(w: World<M>, a: seq<Event<M>>, b: seq<Event<M>>)
    ensures RunFrom(w, a + b) == RunFrom(RunFrom(w, a), b)
  {
    if b == [] {
      assert a + b == a;
    } else {
      assert (a + b)[..|a + b| - 1] == a + b[..|b| - 1];
      RunConcat(w, a, b[..|b| - 1]);
    }
  }

  predicate Overwriting<M>(w: World<M>, e: Event<M>) {
    e.Registered? && e.thread in w.building && e.id in w.manager.sessions
  }

  /** The registrations of the run that overwrote a session already registered under the id. */
  function Overwrites<M>(maxSessions: nat, es: seq<Event<M>>): nat {
    if es == [] then 0
    else
      var before, e := es[..|es| - 1], es[|es| - 1];
      Overwrites(maxSessions, before) + if Overwriting(Run(maxSessions, before), e) then 1 else 0
  }

  // ---------------------------------------------------------------- permits

  lemma CleanupCounts<M>(m: Manager<M>, now: real, raises: set<Id>)
    ensures var (after, gone) := Cleanup(m, now, raises);
      |after.sessions| + |gone| == |m.sessions|
  {
    var (after, gone) := Cleanup(m, now, raises);
    assert after.sessions.Keys == m.sessions.Keys - gone;
    assert gone <= m.sessions.Keys;
  }

  lemma DestroyCounts<M>(m: Manager<M>, id: Id, raises: bool)
    ensures var (after, destroyed) := Destroy(m, id, raises);
      && |after.sessions| + (if destroyed then 1 else 0) == |m.sessions|
      && after.permits == m.permits + (if destroyed then 1 else 0)
      && after.metrics.created == m.metrics.created
      && after.metrics.destroyed == m.metrics.destroyed + (if destroyed then 1 else 0)
  {
    if id in m.sessions {
      assert (m.sessions - {id}).Keys == m.sessions.Keys - {id};
      assert m.sessions[id := m.sessions[id].(active := false)].Keys == m.sessions.Keys;
    }
  }

  lemma GetCounts<M>(m: Manager<M>, id: Id, now: real, raises: bool)
    ensures var (after, found) := Get(m, id, now, raises);
      && |after.sessions| + (if found.Destroyed? then 1 else 0) == |m.sessions|
      && after.permits == m.permits + (if found.Destroyed? then 1 else 0)
      && after.metrics.created == m.metrics.created
      && after.metrics.destroyed == m.metrics.destroyed + (if found.Destroyed? then 1 else 0)
  {
    DestroyCounts(m, id, raises);
    if id in m.sessions {
      assert m.sessions[id := Touch(m.sessions[id], now)].Keys == m.sessions.Keys;
    }
  }

  /** One step keeps free permits + registered sessions + creations in flight, except that an
      overwriting registration loses one. */
  lemma StepConserves<M>(w: World<M>, e: Event<M>)
    ensures var after := Step(w, e);
      && after.manager.permits + |after.manager.sessions| + |after.building| + (if Overwriting(w, e) then 1 else 0)
         == w.manager.permits + |w.manager.sessions| + |w.building|
      && after.manager.metrics.created - after.manager.metrics.destroyed - |after.manager.sessions|
         == w.manager.metrics.created - w.manager.metrics.destroyed - |w.manager.sessions|
            + (if Overwriting(w, e) then 1 else 0)
  {
    match e
    case TryAcquire(t) =>
    case Registered(t, id, info, ttl, now) =>
      if t in w.building {
        assert w.manager.sessions[id := NewSession(info, ttl, now)].Keys == w.manager.sessions.Keys + {id};
        assert |w.building| == |w.building - {t}| + 1;
      }
    case BuildFailed(t) =>
      if t in w.building {
        assert |w.building| == |w.building - {t}| + 1;
      }
    case Looked(id, now, raises) => GetCounts(w.manager, id, now, raises);
    case Destroyed(id, raises) => DestroyCounts(w.manager, id, raises);
    case Cleaned(now, raising) => CleanupCounts(w.manager, now, raising);
  }

  /** Permit conservation over every interleaving: free permits, registered sessions, creations in
      flight and overwritten sessions always add up to the limit, and the creation and destruction
      counters differ by the registered and overwritten sessions. */
  lemma {:induction false} PermitConservation<M>(maxSessions: nat, es: seq<Event<M>>)
    ensures var w := Run(maxSessions, es);
      && w.manager.permits + |w.manager.sessions| + |w.building| + Overwrites(maxSessions, es) == maxSessions
      && w.manager.metrics.created - w.manager.metrics.destroyed
         == |w.manager.sessions| + Overwrites(maxSessions, es)
  {
    if es != [] {
      var before := es[..|es| - 1];
      PermitConservation(maxSessions, before);
      StepConserves(Run(maxSessions, before), es[|es| - 1]);
    }
  }

  /** So the limit holds in every reachable state, although the semaphore itself is unbounded: sessions
      and creations in flight never exceed it, permits never exceed their initial number, and the
      permits are exactly what the sessions and creations leave free if and only if no registration
      overwrote another. */
  lemma {:induction false} LimitHolds<M>(maxSessions: nat, es: seq<Event<M>>)
    ensures var w := Run(maxSessions, es);
      && |w.manager.sessions| + |w.building| <= maxSessions
      && w.manager.permits <= maxSessions
      && (w.manager.permits == maxSessions - |w.manager.sessions| - |w.building| <==> Overwrites(maxSessions, es) == 0)
  {
    PermitConservation(maxSessions, es);
  }

  /** A creation is refused only when no permit is free, and then the sessions, creations in flight and
      overwritten sessions fill the limit. */
  lemma RefusedOnlyAtLimit<M>(maxSessions: nat, es: seq<Event<M>>, t: Thread)
    requires t !in Run(maxSessions, es).building
    ensures var w := Run(maxSessions, es);
      t !in Step(w, TryAcquire(t)).building <==>
        |w.manager.sessions| + |w.building| + Overwrites(maxSessions, es) == maxSessions
  {
    PermitConservation(maxSessions, es);
  }

  /** No id is used by two registrations. */
  ghost predicate DistinctIds<M>(es: seq<Event<M>>) {
    forall i, j :: 0 <= i < j < |es| && es[i].Registered? && es[j].Registered? ==> es[i].id != es[j].id
  }

  ghost predicate RegisteredEarlier<M>(es: seq<Event<M>>, id: Id) {
    exists i :: 0 <= i < |es| && es[i].Registered? && es[i].id == id
  }

  lemma {:induction false} SessionsWereRegistered<M>(maxSessions: nat, es: seq<Event<M>>, id: Id)
    requires id in Run(maxSessions, es).manager.sessions
    ensures RegisteredEarlier(es, id)
  {
    var n := |es| - 1;
    if id in Run(maxSessions, es[..n]).manager.sessions {
      SessionsWereRegistered(maxSessions, es[..n], id);
      var i :| 0 <= i < n && es[..n][i].Registered? && es[..n][i].id == id;
      assert es[i].Registered? && es[i].id == id;
    } else {
      assert es[n].Registered? && es[n].id == id;
    }
  }

  /** With distinct ids nothing is overwritten, so conservation is exact. */
  lemma {:induction false} DistinctIdsNeverOverwrite<M>(maxSessions: nat, es: seq<Event<M>>)
    requires DistinctIds(es)
    ensures Overwrites(maxSessions, es) == 0
  {
    if es != [] {
      var before, e := es[..|es| - 1], es[|es| - 1];
      DistinctIdsNeverOverwrite(maxSessions, before);
      if Overwriting(Run(maxSessions, before), e) {
        SessionsWereRegistered(maxSessions, before, e.id);
        assert false;
      }
    }
  }

  // ---------------------------------------------------------------- use counts

  function UseCounts<M>(sessions: map<Id, Session<M>>): map<Id, nat> {
    map id | id in sessions :: sessions[id].useCount
  }

  /** The use counts of the sessions that one step takes out of the map, or overwrites. */
  ghost function RetiredBy<M>(w: World<M>, e: Event<M>): nat {
    var gone := w.manager.sessions.Keys - Step(w, e).manager.sessions.Keys;
    Sum(map id | id in w.manager.sessions && id in gone :: w.manager.sessions[id].useCount)
    + (if Overwriting(w, e) then w.manager.sessions[e.id].useCount else 0)
  }

  ghost function Retired<M>(maxSessions: nat, es: seq<Event<M>>): nat {
    if es == [] then 0
    else Retired(maxSessions, es[..|es| - 1]) + RetiredBy(Run(maxSessions, es[..|es| - 1]), es[|es| - 1])
  }

  /** Removing sessions moves their use counts from the registered sum to the retired sum. */
  lemma RemovalRetires<M>(before: map<Id, Session<M>>, after: map<Id, Session<M>>)
    requires after.Keys <= before.Keys
    requires forall id :: id in after ==> after[id].useCount == before[id].useCount
    ensures var gone := before.Keys - after.Keys;
      Sum(UseCounts(before)) == Sum(UseCounts(after))
        + Sum(map id | id in before && id in gone :: before[id].useCount)
  {
    var gone := before.Keys - after.Keys;
    var counts := UseCounts(before);
    SumSplit(counts, gone);
    assert (map id | id in counts && id in gone :: counts[id])
      == map id | id in before && id in gone :: before[id].useCount;
    assert counts - gone == UseCounts(after);
  }

  lemma TouchCountsUse<M>(before: map<Id, Session<M>>, id: Id, s: Session<M>)
    requires id in before && s.useCount == before[id].useCount + 1
    ensures Sum(UseCounts(before[id := s])) == Sum(UseCounts(before)) + 1
  {
    var counts := UseCounts(before);
    SumRemove(counts, id);
    SumUpdate(counts, id, s.useCount);
    assert UseCounts(before[id := s]) == counts[id := s.useCount];
  }

  /** The step adds to sessions_reused what it adds to the use counts, retired ones included. */
  ghost predicate CountsUses<M>(w: World<M>, e: Event<M>) {
    Step(w, e).manager.metrics.reused - Sum(UseCounts(Step(w, e).manager.sessions))
    == w.manager.metrics.reused - Sum(UseCounts(w.manager.sessions)) + RetiredBy(w, e)
  }

  lemma LookupCountsUses<M>(w: World<M>, e: Event<M>)
    requires e.Looked? && Get(w.manager, e.id, e.now, e.raises).1.Found?
    ensures CountsUses(w, e)
  {
    TouchCountsUse(w.manager.sessions, e.id, Touch(w.manager.sessions[e.id], e.now));
  }

  lemma RegisterRetires<M>(before: map<Id, Session<M>>, id: Id, s: Session<M>)
    requires s.useCount == 0
    ensures Sum(UseCounts(before))
      == Sum(UseCounts(before[id := s])) + (if id in before then before[id].useCount else 0)
  {
    var counts := UseCounts(before);
    SumUpdate(counts, id, 0);
    assert UseCounts(before[id := s]) == counts[id := 0];
    if id in before {
      SumRemove(counts, id);
    } else {
      assert counts - {id} == counts;
    }
  }

  lemma RegistrationCountsUses<M>(w: World<M>, e: Event<M>)
    requires e.Registered? && e.thread in w.building
    ensures CountsUses(w, e)
  {
    var before := w.manager.sessions;
    RegisterRetires(before, e.id, NewSession(e.info, e.ttl, e.now));
    var gone := before.Keys - Step(w, e).manager.sessions.Keys;
    assert (map id | id in before && id in gone :: before[id].useCount).Keys == {};
  }

  lemma OthersCountUses<M>(w: World<M>, e: Event<M>)
    requires !Overwriting(w, e)
    requires Step(w, e).manager.metrics.reused == w.manager.metrics.reused
    requires Step(w, e).manager.sessions.Keys <= w.manager.sessions.Keys
    requires forall id :: id in Step(w, e).manager.sessions ==>
      Step(w, e).manager.sessions[id].useCount == w.manager.sessions[id].useCount
    ensures CountsUses(w, e)
  {
    RemovalRetires(w.manager.sessions, Step(w, e).manager.sessions);
  }

  lemma StepCountsUses<M>(w: World<M>, e: Event<M>)
    ensures CountsUses(w, e)
  {
    if e.Registered? && e.thread in w.building {
      RegistrationCountsUses(w, e);
    } else if e.Looked? && Get(w.manager, e.id, e.now, e.raises).1.Found? {
      LookupCountsUses(w, e);
    } else {
      OthersCountUses(w, e);
    }
  }

  /** sessions_reused is the sum of use_count over all sessions ever created: those still registered
      and those that left the map. */
  lemma {:induction false} ReusedCountsAllUses<M>(maxSessions: nat, es: seq<Event<M>>)
    ensures var m := Run(maxSessions, es).manager;
      m.metrics.reused == Sum(UseCounts(m.sessions)) + Retired(maxSessions, es)
  {
    if es == [] {
      assert UseCounts<M>(map[]) == map[];
    } else {
      var before := es[..|es| - 1];
      ReusedCountsAllUses(maxSessions, before);
      StepCountsUses(Run(maxSessions, before), es[|es| - 1]);
    }
  }

  // ---------------------------------------------------------------- errors and expiries

  predicate Overdue<M>(m: Manager<M>, id: Id, now: real) {
    id in m.sessions && now - m.sessions[id].lastUsed > m.sessions[id].ttl as real
  }

  /** The builds that fail and the sandboxes that refuse to go in one step. */
  function Failures<M>(w: World<M>, e: Event<M>): nat {
    match e
    case BuildFailed(t) => if t in w.building then 1 else 0
    case Destroyed(id, raises) => if raises && id in w.manager.sessions then 1 else 0
    case Looked(id, now, raises) =>
      if raises && Overdue(w.manager, id, now) && w.manager.sessions[id].active then 1 else 0
    case Cleaned(now, raising) => |set id | id in w.manager.sessions && id in raising && Overdue(w.manager, id, now)|
    case _ => 0
  }

  /** The overdue sessions that a cleanup takes out. */
  function Expiries<M>(w: World<M>, e: Event<M>): nat {
    if e.Cleaned? then |set id | id in w.manager.sessions && id !in e.raising && Overdue(w.manager, id, e.now)| else 0
  }

  function Total<M>(count: (World<M>, Event<M>) -> nat, maxSessions: nat, es: seq<Event<M>>): nat {
    if es == [] then 0
    else Total(count, maxSessions, es[..|es| - 1]) + count(Run(maxSessions, es[..|es| - 1]), es[|es| - 1])
  }

  lemma CleaningCountsFailures<M>(m: Manager<M>, now: real, raising: set<Id>)
    ensures var after := Cleanup(m, now, raising).0;
      && after.metrics.errors == m.metrics.errors + |set id | id in m.sessions && id in raising && Overdue(m, id, now)|
      && after.metrics.expired
         == m.metrics.expired + |set id | id in m.sessions && id !in raising && Overdue(m, id, now)|
  {
    CleanupCounters(m, now, raising);
    assert (set id | id in m.sessions && id in raising && Overdue(m, id, now))
        == set id | id in m.sessions && id in raising && now - m.sessions[id].lastUsed > m.sessions[id].ttl as real;
    assert (set id | id in m.sessions && id !in raising && Overdue(m, id, now)) == Cleanup(m, now, raising).1;
  }

  lemma StepCountsFailures<M>(w: World<M>, e: Event<M>)
    ensures Step(w, e).manager.metrics.errors == w.manager.metrics.errors + Failures(w, e)
    ensures Step(w, e).manager.metrics.expired == w.manager.metrics.expired + Expiries(w, e)
  {
    if e.Cleaned? {
      CleaningCountsFailures(w.manager, e.now, e.raising);
    }
  }

  /** The error counter is the number of failed builds and refused destructions of the run, and the expiry
      counter the number of overdue sessions that cleanups took out. */
  lemma {:induction false} ErrorsAreFailures<M>(maxSessions: nat, es: seq<Event<M>>)
    ensures Run(maxSessions, es).manager.metrics.errors == Total((w, e) => Failures(w, e), maxSessions, es)
    ensures Run(maxSessions, es).manager.metrics.expired == Total((w, e) => Expiries(w, e), maxSessions, es)
  {
    if es != [] {
      ErrorsAreFailures(maxSessions, es[..|es| - 1]);
      StepCountsFailures(Run(maxSessions, es[..|es| - 1]), es[|es| - 1]);
    }
  }
}
