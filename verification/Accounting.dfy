/** What the session counters of the load balancer mean: which calls keep them equal to the number of
    sessions bound to each pool, over whole runs of sequential calls. */
module Accounting {
  import opened Options
  import opened Affinity
  import opened Balancer
  import opened MapSum
  import CB = CircuitBreaker
  import Selection

  // ---------------------------------------------------------------- bindings of a run

  /** The assignment selects and counts a pool instead of following an affinity. */
  predicate Counts(b: Balancer, e: Call)
    requires WellFormed(b)
  {
    e.Assigned? && !Honoured(b, e.id, e.at) && e.choice < |Available(b, e.at).1|
  }

  function Rebind(b: Balancer, bound: map<Sid, PoolName>, e: Call): map<Sid, PoolName>
    requires WellFormed(b)
  {
    if Counts(b, e) then bound[e.id := Available(b, e.at).1[e.choice]]
    else if e.Released? then bound - {e.id}
    else bound
  }

  /** The sessions assigned and not released since, with their pools. */
  function Bound(es: seq<Call>): map<Sid, PoolName> {
    if es == [] then map[]
    else Rebind(RunCalls(es[..|es| - 1]), Bound(es[..|es| - 1]), es[|es| - 1])
  }

  function Holders(bound: map<Sid, PoolName>, p: PoolName): set<Sid> {
    set id | id in bound && bound[id] == p
  }

  ghost predicate Accurate(b: Balancer, bound: map<Sid, PoolName>) {
    forall p :: p in b.endpoints ==> b.endpoints[p].load.currentSessions == |Holders(bound, p)|
  }

  predicate Unheld(bound: map<Sid, PoolName>, p: PoolName) {
    forall id :: id in bound ==> bound[id] != p
  }

  lemma UnheldHasNoHolders(bound: map<Sid, PoolName>, p: PoolName)
    ensures Unheld(bound, p) <==> |Holders(bound, p)| == 0
  {
    if id :| id in bound && bound[id] == p {
      assert id in Holders(bound, p);
    } else {
      assert Holders(bound, p) == {};
    }
  }

  lemma HoldersAfterBind(bound: map<Sid, PoolName>, id: Sid, q: PoolName, p: PoolName)
    ensures Holders(bound[id := q], p) == if p == q then Holders(bound, p) + {id} else Holders(bound, p) - {id}
  {
  }

  lemma HoldersAfterUnbind(bound: map<Sid, PoolName>, id: Sid, p: PoolName)
    ensures Holders(bound - {id}, p) == Holders(bound, p) - {id}
  {
  }

  /** After a rebinding the holders of a pool number one more or less, or the same. */
  lemma HoldersCount(bound: map<Sid, PoolName>, id: Sid, q: PoolName, p: PoolName)
    ensures |Holders(bound[id := q], p)| == |Holders(bound, p)|
      + (if p == q then 1 else 0) - (if id in bound && bound[id] == p then 1 else 0)
  {
    HoldersAfterBind(bound, id, q, p);
    if id in bound && bound[id] == p {
      assert id in Holders(bound, p);
    } else {
      assert id !in Holders(bound, p) && Holders(bound, p) - {id} == Holders(bound, p);
    }
    assert p == q && id in Holders(bound, p) ==> Holders(bound, p) + {id} == Holders(bound, p);
  }

  /** A counted assignment keeps the counters accurate exactly when the session was not already bound to
      a registered pool. */
  lemma CountingKeepsExactly(b: Balancer, bound: map<Sid, PoolName>, id: Sid, at: real, choice: nat)
    requires WellFormed(b) && Accurate(b, bound) && Counts(b, Assigned(id, at, choice))
    ensures Accurate(Assign(b, id, at, choice).0, Rebind(b, bound, Assigned(id, at, choice)))
      <==> id !in bound || bound[id] !in b.endpoints
  {
    var q := Available(b, at).1[choice];
    var after, bound' := Assign(b, id, at, choice).0, bound[id := q];
    forall p | p in b.endpoints
      ensures after.endpoints[p].load.currentSessions
           == |Holders(bound', p)| + if id in bound && bound[id] == p then 1 else 0
    {
      HoldersCount(bound, id, q, p);
    }
    if id in bound && bound[id] in b.endpoints {
      assert after.endpoints[bound[id]].load.currentSessions != |Holders(bound', bound[id])|;
    }
  }

  /** A release that counters survive: of the session's own pool, or one that changes no counter. */
  predicate OwnRelease(b: Balancer, bound: map<Sid, PoolName>, id: Sid, p: PoolName) {
    if id in bound && bound[id] in b.endpoints then p == bound[id] else p !in b.endpoints || Unheld(bound, p)
  }

  lemma ReleaseCounts(b: Balancer, bound: map<Sid, PoolName>, id: Sid, p: PoolName, at: real, q: PoolName)
    requires WellFormed(b) && Accurate(b, bound) && q in b.endpoints
    ensures q in Release(b, id, p, at).endpoints
    ensures Release(b, id, p, at).endpoints[q].load.currentSessions ==
      if q == p && |Holders(bound, q)| > 0 then |Holders(bound, q)| - 1 else |Holders(bound, q)|
    ensures |Holders(bound - {id}, q)| == |Holders(bound, q)| - if id in bound && bound[id] == q then 1 else 0
  {
    HoldersAfterUnbind(bound, id, q);
    if id in bound && bound[id] == q {
      assert id in Holders(bound, q);
    } else {
      assert Holders(bound, q) - {id} == Holders(bound, q);
    }
  }

  /** A release keeps the counters accurate exactly when it names the session's own pool or changes none. */
  lemma ReleasingKeepsExactly(b: Balancer, bound: map<Sid, PoolName>, id: Sid, p: PoolName, at: real)
    requires WellFormed(b) && Accurate(b, bound)
    ensures Accurate(Release(b, id, p, at), bound - {id}) <==> OwnRelease(b, bound, id, p)
  {
    forall q | q in b.endpoints
      ensures q in Release(b, id, p, at).endpoints
      ensures Release(b, id, p, at).endpoints[q].load.currentSessions ==
        if q == p && |Holders(bound, q)| > 0 then |Holders(bound, q)| - 1 else |Holders(bound, q)|
      ensures |Holders(bound - {id}, q)| == |Holders(bound, q)| - if id in bound && bound[id] == q then 1 else 0
    {
      ReleaseCounts(b, bound, id, p, at, q);
    }
    UnheldHasNoHolders(bound, p);
    if id in bound {
      assert id in Holders(bound, bound[id]);
    }
  }

  /** Registering starts at zero, so it keeps the counters accurate exactly when no session is bound to the name. */
  lemma RegisteringKeepsExactly(b: Balancer, bound: map<Sid, PoolName>, p: PoolName, e: Endpoint)
    requires Accurate(b, bound) && e.load.currentSessions == 0
    ensures Accurate(Register(b, p, e), bound) <==> Unheld(bound, p)
  {
    UnheldHasNoHolders(bound, p);
    assert Accurate(Register(b, p, e), bound) ==> Register(b, p, e).endpoints[p] == e;
  }

  // ---------------------------------------------------------------- sticky lookups

  /** The affinity operations of a call. */
  function AffinityOps(b: Balancer, e: Call): seq<Affinity.Event>
    requires WellFormed(b)
  {
    if Counts(b, e) then [GetAt(e.id, e.at), SetAt(e.id, Available(b, e.at).1[e.choice], e.at)]
    else if e.Assigned? then [GetAt(e.id, e.at)]
    else if e.Released? then [ClearAt(e.id, e.at)]
    else []
  }

  function AffinityEvents(es: seq<Call>): seq<Affinity.Event> {
    if es == [] then []
    else AffinityEvents(es[..|es| - 1]) + AffinityOps(RunCalls(es[..|es| - 1]), es[|es| - 1])
  }

  lemma AffinityOneMore(es: seq<Affinity.Event>, e: Affinity.Event)
    ensures Affinity.Run(es + [e]) == Affinity.Step(Affinity.Run(es), e)
    ensures Plain(es + [e]) == PlainStep(Plain(es), e)
  {
    assert (es + [e])[..|es|] == es;
  }

  ghost predicate Follows(b: Balancer, bound: map<Sid, PoolName>, ops: seq<Affinity.Event>) {
    && b.affinities == Affinity.Run(ops)
    && bound.Keys == Plain(ops).Keys
    && forall id :: id in bound ==> bound[id] == Plain(ops)[id].pool
  }

  lemma CountedFollows(b: Balancer, bound: map<Sid, PoolName>, ops: seq<Affinity.Event>, e: Call)
    requires WellFormed(b) && Follows(b, bound, ops) && Counts(b, e)
    ensures Follows(Perform(b, e), Rebind(b, bound, e), ops + AffinityOps(b, e))
  {
    hide Scan, WellFormed;
    var get, bind := GetAt(e.id, e.at), SetAt(e.id, Available(b, e.at).1[e.choice], e.at);
    AffinityOneMore(ops, get);
    AffinityOneMore(ops + [get], bind);
    assert ops + AffinityOps(b, e) == ops + [get] + [bind];
  }

  lemma LookupFollows(b: Balancer, bound: map<Sid, PoolName>, ops: seq<Affinity.Event>, e: Call)
    requires WellFormed(b) && Follows(b, bound, ops) && !Counts(b, e) && e.Assigned?
    ensures Follows(Perform(b, e), Rebind(b, bound, e), ops + AffinityOps(b, e))
  {
    hide Scan, WellFormed;
    AffinityOneMore(ops, GetAt(e.id, e.at));
  }

  lemma ReleaseFollows(b: Balancer, bound: map<Sid, PoolName>, ops: seq<Affinity.Event>, e: Call)
    requires WellFormed(b) && Follows(b, bound, ops) && e.Released?
    ensures Follows(Perform(b, e), Rebind(b, bound, e), ops + AffinityOps(b, e))
  {
    hide Scan, WellFormed;
    AffinityOneMore(ops, ClearAt(e.id, e.at));
  }

  lemma CallFollows(b: Balancer, bound: map<Sid, PoolName>, ops: seq<Affinity.Event>, e: Call)
    requires WellFormed(b) && Follows(b, bound, ops)
    ensures Follows(Perform(b, e), Rebind(b, bound, e), ops + AffinityOps(b, e))
  {
    hide Scan, WellFormed;
    if Counts(b, e) {
      CountedFollows(b, bound, ops, e);
    } else if e.Assigned? {
      LookupFollows(b, bound, ops, e);
    } else if e.Released? {
      ReleaseFollows(b, bound, ops, e);
    } else {
      assert ops + AffinityOps(b, e) == ops;
    }
  }

  /** The balancer's affinities are those of its affinity operations, and what they bind is Bound. */
  lemma {:induction false} AffinitiesFollow(es: seq<Call>)
    ensures Follows(RunCalls(es), Bound(es), AffinityEvents(es))
  {
    if es != [] {
      AffinitiesFollow(es[..|es| - 1]);
      CallFollows(RunCalls(es[..|es| - 1]), Bound(es[..|es| - 1]), AffinityEvents(es[..|es| - 1]), es[|es| - 1]);
    }
  }

  lemma {:induction false} NoRestarts(es: seq<Call>)
    ensures forall i :: 0 <= i < |AffinityEvents(es)| ==> !AffinityEvents(es)[i].RestartAt?
  {
    if es != [] {
      NoRestarts(es[..|es| - 1]);
    }
  }

  /** A repeated lookup of a bound session, within the ttl and while its pool is registered and healthy,
      returns the same pool and changes nothing at all. */
  lemma RepeatLookupChangesNothing(es: seq<Call>, id: Sid, now: real, choice: nat)
    requires Monotone(AffinityEvents(es)) && (AffinityEvents(es) != [] ==> Clock(AffinityEvents(es)) <= now)
    requires id in Bound(es) && Bound(es)[id] in RunCalls(es).endpoints
    requires RunCalls(es).endpoints[Bound(es)[id]].load.status == Selection.Healthy
    requires id in Plain(AffinityEvents(es)) && !Expired(Plain(AffinityEvents(es))[id], now)
    ensures Assign(RunCalls(es), id, now, choice) == (RunCalls(es), Some(Bound(es)[id]))
  {
    AffinitiesFollow(es);
    NoRestarts(es);
    ExactWithoutRestart(AffinityEvents(es), id, now);
    CacheKeepsLive(AffinityEvents(es), id);
    RunIsFaithful(AffinityEvents(es));
  }

  // ---------------------------------------------------------------- which runs keep the counters

  predicate HasTime(e: Call) {
    !e.Registered? && !e.Unregistered?
  }

  /** The clock does not run backwards over the calls. */
  ghost predicate InTime(es: seq<Call>) {
    forall i, j :: 0 <= i < j < |es| && HasTime(es[i]) && HasTime(es[j]) ==> es[i].at <= es[j].at
  }

  lemma {:induction false} EventsUntil(es: seq<Call>, t: real)
    requires forall i :: 0 <= i < |es| && HasTime(es[i]) ==> es[i].at <= t
    ensures forall k :: 0 <= k < |AffinityEvents(es)| ==> AffinityEvents(es)[k].now <= t
  {
    if es != [] {
      EventsUntil(es[..|es| - 1], t);
    }
  }

  lemma MonotoneMore(ops: seq<Affinity.Event>, more: seq<Affinity.Event>, t: real)
    requires Monotone(ops) && forall k :: 0 <= k < |ops| ==> ops[k].now <= t
    requires forall k :: 0 <= k < |more| ==> more[k].now == t
    ensures Monotone(ops + more)
  {
  }

  lemma OpsAt(b: Balancer, e: Call)
    requires WellFormed(b)
    ensures if HasTime(e) then forall k :: 0 <= k < |AffinityOps(b, e)| ==> AffinityOps(b, e)[k].now == e.at
            else AffinityOps(b, e) == []
  {
  }

  lemma {:induction false} EventsInTime(es: seq<Call>)
    requires InTime(es)
    ensures Monotone(AffinityEvents(es))
  {
    if es != [] {
      hide AffinityOps, Monotone, Perform;
      var n := |es| - 1;
      EventsInTime(es[..n]);
      OpsAt(RunCalls(es[..n]), es[n]);
      var ops, more := AffinityEvents(es[..n]), AffinityOps(RunCalls(es[..n]), es[n]);
      if HasTime(es[n]) {
        EventsUntil(es[..n], es[n].at);
        MonotoneMore(ops, more, es[n].at);
      } else {
        assert ops + more == ops;
      }
    }
  }

  /** The session is bound to a registered, healthy pool, and its binding is within the ttl. */
  predicate StuckTo(es: seq<Call>, id: Sid, at: real) {
    var b, bound := RunCalls(es), Bound(es);
    && id in bound && bound[id] in b.endpoints
    && b.endpoints[bound[id]].load.status == Selection.Healthy
    && id in Plain(AffinityEvents(es)) && !Expired(Plain(AffinityEvents(es))[id], at)
  }

  lemma LastIsLatest(es: seq<Call>, e: Call)
    requires InTime(es + [e]) && HasTime(e)
    ensures InTime(es) && forall i :: 0 <= i < |es| && HasTime(es[i]) ==> es[i].at <= e.at
  {
    assert forall i :: 0 <= i < |es| ==> (es + [e])[i] == es[i];
    assert (es + [e])[|es|] == e;
  }

  /** In time, an affinity is honoured exactly for such a session. */
  lemma HonouredExactly(es: seq<Call>, id: Sid, at: real, choice: nat)
    requires InTime(es + [Assigned(id, at, choice)])
    ensures Honoured(RunCalls(es), id, at) <==> StuckTo(es, id, at)
  {
    hide InTime, Monotone, RunCalls, Bound, AffinityEvents, Get, Affinity.Run, Plain;
    LastIsLatest(es, Assigned(id, at, choice));
    EventsInTime(es);
    EventsUntil(es, at);
    AffinitiesFollow(es);
    NoRestarts(es);
    ExactWithoutRestart(AffinityEvents(es), id, at);
  }

  /** The calls that keep the counters accurate. */
  predicate Benign(es: seq<Call>, e: Call) {
    var b, bound := RunCalls(es), Bound(es);
    match e
    case Registered(p, _, _, _, _) => Unheld(bound, p)
    case Assigned(id, at, choice) =>
      || id !in bound || bound[id] !in b.endpoints
      || StuckTo(es, id, at)
      || choice >= |Available(b, at).1| // no pool to select
    case Released(id, p, _) => OwnRelease(b, bound, id, p)
    case _ => true
  }

  lemma CallsOneMore(es: seq<Call>, e: Call)
    ensures RunCalls(es + [e]) == Perform(RunCalls(es), e)
    ensures Bound(es + [e]) == Rebind(RunCalls(es), Bound(es), e)
  {
    assert (es + [e])[..|es|] == es;
  }

  /** What changes neither counters nor bindings, or only drops a pool, keeps the counters accurate. */
  lemma UncountedKeeps(b: Balancer, bound: map<Sid, PoolName>, e: Call)
    requires WellFormed(b) && Accurate(b, bound) && !Counts(b, e) && !e.Registered? && !e.Released?
    ensures Rebind(b, bound, e) == bound && Accurate(Perform(b, e), bound)
  {
  }

  lemma AssignmentKeepsExactly(es: seq<Call>, id: Sid, at: real, choice: nat)
    requires InTime(es + [Assigned(id, at, choice)]) && Accurate(RunCalls(es), Bound(es))
    ensures Accurate(Perform(RunCalls(es), Assigned(id, at, choice)),
                     Rebind(RunCalls(es), Bound(es), Assigned(id, at, choice)))
      <==> Benign(es, Assigned(id, at, choice))
  {
    hide StuckTo, Accurate, Honoured, Scan, WellFormed;
    var b, e := RunCalls(es), Assigned(id, at, choice);
    HonouredExactly(es, id, at, choice);
    if Counts(b, e) {
      CountingKeepsExactly(b, Bound(es), id, at, choice);
    } else {
      UncountedKeeps(b, Bound(es), e);
    }
  }

  /** From accurate counters, one call leaves them accurate exactly when it is benign. */
  lemma KeepsExactlyWhenBenign(es: seq<Call>, e: Call)
    requires InTime(es + [e]) && Accurate(RunCalls(es), Bound(es))
    ensures Accurate(RunCalls(es + [e]), Bound(es + [e])) <==> Benign(es, e)
  {
    hide StuckTo, Accurate, Scan, WellFormed, OwnRelease, Unheld;
    var b, bound := RunCalls(es), Bound(es);
    CallsOneMore(es, e);
    match e
    case Registered(p, region, weight, priority, max) =>
      RegisteringKeepsExactly(b, bound, p, NewEndpoint(region, weight, priority, max));
    case Unregistered(p) => UncountedKeeps(b, bound, e);
    case Checked(p, health, at) => UncountedKeeps(b, bound, e);
    case CheckedLate(p, success, at) => UncountedKeeps(b, bound, e);
    case Assigned(id, at, choice) => AssignmentKeepsExactly(es, id, at, choice);
    case Released(id, p, at) => ReleasingKeepsExactly(b, bound, id, p, at);
  }

  ghost predicate BenignRun(es: seq<Call>) {
    es != [] ==> BenignRun(es[..|es| - 1]) && Benign(es[..|es| - 1], es[|es| - 1])
  }

  lemma {:induction false} CountersWhileBenign(es: seq<Call>)
    requires InTime(es) && BenignRun(es)
    ensures Accurate(RunCalls(es), Bound(es))
  {
    if es != [] {
      hide Accurate, Benign, RunCalls, Bound;
      var before := es[..|es| - 1];
      CountersWhileBenign(before);
      assert before + [es[|es| - 1]] == es;
      KeepsExactlyWhenBenign(before, es[|es| - 1]);
    }
  }

  /** What the operators of the balancer can see to: a name is registered while no session is bound to it; a
      session that asks again finds its pool registered and healthy and its binding within the ttl; a
      release is of a bound session and names its pool. */
  predicate Steady(es: seq<Call>, e: Call) {
    match e
    case Registered(p, _, _, _, _) => Unheld(Bound(es), p)
    case Assigned(id, at, _) => id in Bound(es) ==> StuckTo(es, id, at)
    case Released(id, p, _) => id in Bound(es) && Bound(es)[id] == p
    case _ => true
  }

  ghost predicate SteadyRun(es: seq<Call>) {
    es != [] ==> SteadyRun(es[..|es| - 1]) && Steady(es[..|es| - 1], es[|es| - 1])
  }

  lemma {:induction false} SteadyIsBenign(es: seq<Call>)
    requires SteadyRun(es)
    ensures BenignRun(es)
  {
    if es != [] {
      SteadyIsBenign(es[..|es| - 1]);
    }
  }

  /** Over every steady run each pool's counter is the number of sessions bound to it. */
  lemma CountersAreBindings(es: seq<Call>)
    requires InTime(es) && SteadyRun(es)
    ensures Accurate(RunCalls(es), Bound(es))
  {
    SteadyIsBenign(es);
    CountersWhileBenign(es);
  }

  /** Releasing a bound session from its pool never meets the clamp at zero. */
  lemma ClampNeverFires(es: seq<Call>, id: Sid)
    requires InTime(es) && BenignRun(es) && id in Bound(es) && Bound(es)[id] in RunCalls(es).endpoints
    ensures RunCalls(es).endpoints[Bound(es)[id]].load.currentSessions >= 1
  {
    CountersWhileBenign(es);
    assert id in Holders(Bound(es), Bound(es)[id]);
  }

  /** And the trap: once its pool is not healthy, a bound session is counted a second time, so the
      counters stop being accurate. */
  lemma UnhealthyPoolIsRecounted(es: seq<Call>, id: Sid, now: real, choice: nat)
    requires InTime(es) && BenignRun(es) && id in Bound(es) && Bound(es)[id] in RunCalls(es).endpoints
    requires !Honoured(RunCalls(es), id, now) && choice < |Available(RunCalls(es), now).1|
    ensures !Accurate(Assign(RunCalls(es), id, now, choice).0,
                      Rebind(RunCalls(es), Bound(es), Assigned(id, now, choice)))
  {
    CountersWhileBenign(es);
    CountingKeepsExactly(RunCalls(es), Bound(es), id, now, choice);
  }

  /** One pool whose last check found it overloaded, and one session that asks for a pool n times. */
  function OverloadedRun(p: PoolName, region: Region, maxSessions: int, id: Sid, at: real, n: nat): seq<Call> {
    if n == 0 then [Registered(p, region, 100, 0, maxSessions), Checked(p, Responded(0.0, 0, 95.0, 0.0), at)]
    else OverloadedRun(p, region, maxSessions, id, at, n - 1) + [Assigned(id, at, 0)]
  }

  /** The only pool is p, degraded, with n sessions counted and a closed breaker. */
  ghost predicate Overloaded(b: Balancer, p: PoolName, region: Region, maxSessions: int, n: nat) {
    && b.order == [p]
    && b.breakers == map[p := CB.FRESH]
    && b.endpoints == map[p := Endpoint(region, 0, 0, Selection.Pool(100, maxSessions, n, Selection.Degraded, 0.0))]
  }

  lemma OverloadedAvailable(b: Balancer, p: PoolName, region: Region, maxSessions: int, n: nat, at: real)
    requires WellFormed(b) && Overloaded(b, p, region, maxSessions, n)
    ensures Available(b, at).0 == b.breakers && Available(b, at).1 == if n < maxSessions then [p] else []
  {
    ScanNone(b, at);
    assert b.order[0] == p;
    ScanNext(b, at, 0, b.breakers, [], CB.OnAsk(DEFAULTS, b.breakers[p], at));
    assert b.breakers[p := CB.FRESH] == b.breakers;
  }

  lemma DegradedNotHonoured(b: Balancer, p: PoolName, region: Region, maxSessions: int, n: nat, id: Sid, at: real)
    requires Overloaded(b, p, region, maxSessions, n)
    ensures !Honoured(b, id, at)
  {
    hide Get;
  }

  lemma AdjustOverloaded(b: Balancer, p: PoolName, region: Region, maxSessions: int, n: nat)
    requires Overloaded(b, p, region, maxSessions, n)
    ensures Overloaded(Adjust(b, p, 1), p, region, maxSessions, n + 1)
  {
    assert Adjust(b, p, 1).endpoints.Keys == {p};
  }

  /** An assignment when p is the only available pool. */
  lemma OnlyAvailable(b: Balancer, p: PoolName, id: Sid, at: real)
    requires WellFormed(b) && !Honoured(b, id, at) && Available(b, at) == (b.breakers, [p])
    ensures Counts(b, Assigned(id, at, 0))
    ensures Assign(b, id, at, 0).0 == Adjust(b.(affinities := Set(Get(b.affinities, id, at).0, id, p, at)), p, 1)
  {
    hide Adjust, Set, Get, Honoured, Scan, Available, WellFormed;
  }

  /** An affinity for a degraded pool is not honoured, and a degraded pool may be selected: the session is
      counted again. */
  lemma CountedAgain(b: Balancer, p: PoolName, region: Region, maxSessions: int, n: nat, id: Sid, at: real)
    requires WellFormed(b) && Overloaded(b, p, region, maxSessions, n) && n < maxSessions
    ensures Counts(b, Assigned(id, at, 0)) && Available(b, at).1 == [p]
    ensures Overloaded(Perform(b, Assigned(id, at, 0)), p, region, maxSessions, n + 1)
  {
    hide Adjust, Set, Get, Honoured, Scan, Available, WellFormed, Assign, Counts;
    OverloadedAvailable(b, p, region, maxSessions, n, at);
    DegradedNotHonoured(b, p, region, maxSessions, n, id, at);
    OnlyAvailable(b, p, id, at);
    AdjustOverloaded(b.(affinities := Set(Get(b.affinities, id, at).0, id, p, at)), p, region, maxSessions, n);
  }

  lemma RegisteredOverloaded(p: PoolName, region: Region, maxSessions: int, at: real)
    ensures Overloaded(Check(Register(NO_POOLS, p, NewEndpoint(region, 100, 0, maxSessions)), p,
                             Responded(0.0, 0, 95.0, 0.0), at), p, region, maxSessions, 0)
  {
    var b := Register(NO_POOLS, p, NewEndpoint(region, 100, 0, maxSessions));
    assert b.order == [p] && b.endpoints.Keys == {p} && b.breakers == map[p := CB.FRESH];
    var after := Check(b, p, Responded(0.0, 0, 95.0, 0.0), at);
    assert after.breakers[p] == CB.FRESH && after.breakers.Keys == {p} && after.endpoints.Keys == {p};
  }

  /** In time, with every call at or before `at`. */
  ghost predicate InTimeBy(es: seq<Call>, at: real) {
    InTime(es) && forall i :: 0 <= i < |es| && HasTime(es[i]) ==> es[i].at <= at
  }

  lemma InTimeMore(es: seq<Call>, e: Call, at: real)
    requires InTimeBy(es, at) && (HasTime(e) ==> e.at == at)
    ensures InTimeBy(es + [e], at)
  {
  }

  lemma TwoCallsRun(a: Call, b: Call)
    ensures RunCalls([a, b]) == Perform(Perform(NO_POOLS, a), b)
    ensures Bound([a, b]) == Rebind(Perform(NO_POOLS, a), Rebind(NO_POOLS, map[], a), b)
  {
    assert [a] == [] + [a] && [a, b] == [a] + [b];
    assert RunCalls([]) == NO_POOLS && Bound([]) == map[];
    hide RunCalls, Bound, Perform, Rebind;
    CallsOneMore([], a);
    CallsOneMore([a], b);
  }

  lemma OverloadedStart(p: PoolName, region: Region, maxSessions: int, at: real)
    ensures var es := [Registered(p, region, 100, 0, maxSessions), Checked(p, Responded(0.0, 0, 95.0, 0.0), at)];
      InTimeBy(es, at) && Overloaded(RunCalls(es), p, region, maxSessions, 0) && Bound(es) == map[]
  {
    TwoCallsRun(Registered(p, region, 100, 0, maxSessions), Checked(p, Responded(0.0, 0, 95.0, 0.0), at));
    hide RunCalls, Bound, Overloaded, Scan, Available, WellFormed, Honoured, Register, Check;
    RegisteredOverloaded(p, region, maxSessions, at);
  }

  lemma RebindsToPool(b: Balancer, bound: map<Sid, PoolName>, p: PoolName, id: Sid, at: real)
    requires WellFormed(b) && Counts(b, Assigned(id, at, 0)) && Available(b, at).1 == [p] && bound.Keys <= {id}
    ensures Rebind(b, bound, Assigned(id, at, 0)) == map[id := p]
  {
    hide Scan, WellFormed, Available, Counts;
  }

  lemma {:induction false} OverloadedReached(p: PoolName, region: Region, maxSessions: int, id: Sid, at: real, n: nat)
    requires n == 0 || n <= maxSessions
    ensures var es := OverloadedRun(p, region, maxSessions, id, at, n);
      && InTimeBy(es, at)
      && Overloaded(RunCalls(es), p, region, maxSessions, n)
      && Bound(es) == if n == 0 then map[] else map[id := p]
  {
    hide Overloaded, InTimeBy, RunCalls, Bound, WellFormed, Perform, Available, Rebind, Counts, Scan;
    if n == 0 {
      OverloadedStart(p, region, maxSessions, at);
    } else {
      var before := OverloadedRun(p, region, maxSessions, id, at, n - 1);
      OverloadedReached(p, region, maxSessions, id, at, n - 1);
      CountedAgain(RunCalls(before), p, region, maxSessions, n - 1, id, at);
      RebindsToPool(RunCalls(before), Bound(before), p, id, at);
      CallsOneMore(before, Assigned(id, at, 0));
      InTimeMore(before, Assigned(id, at, 0), at);
    }
  }

  lemma OnePoolAccurate(b: Balancer, p: PoolName, region: Region, maxSessions: int, n: nat, id: Sid)
    requires Overloaded(b, p, region, maxSessions, n)
    ensures var bound := if n == 0 then map[] else map[id := p];
      && Holders(bound, p) == (if n == 0 then {} else {id})
      && (Accurate(b, bound) <==> n <= 1)
  {
    var bound := if n == 0 then map[] else map[id := p];
    assert Holders(bound, p) == if n == 0 then {} else {id};
  }

  /** The trap is reached: on a degraded pool one session that asks n times is counted n times, so the
      counters are right exactly for n at most one, and a single session can fill the pool. */
  lemma {:induction false} OneSessionFillsPool(p: PoolName, region: Region, maxSessions: int, id: Sid, at: real, n: nat)
    requires n == 0 || n <= maxSessions
    ensures var es := OverloadedRun(p, region, maxSessions, id, at, n);
      var b := RunCalls(es);
      && InTime(es) && b.endpoints.Keys == {p} && Holders(Bound(es), p) == (if n == 0 then {} else {id})
      && b.endpoints[p].load.currentSessions == n
      && (Accurate(b, Bound(es)) <==> n <= 1)
      && (Available(b, at).1 == [] <==> n >= maxSessions)
  {
    hide RunCalls, Bound, OverloadedRun, Accurate, InTime, Scan, Holders;
    OverloadedReached(p, region, maxSessions, id, at, n);
    var b := RunCalls(OverloadedRun(p, region, maxSessions, id, at, n));
    OverloadedAvailable(b, p, region, maxSessions, n, at);
    OnePoolAccurate(b, p, region, maxSessions, n, id);
  }

  // ---------------------------------------------------------------- totals

  function HolderCounts(bound: map<Sid, PoolName>, pools: set<PoolName>): map<PoolName, nat> {
    map p | p in pools :: |Holders(bound, p)|
  }

  lemma {:induction false} HoldersPartition(bound: map<Sid, PoolName>, pools: set<PoolName>)
    ensures Sum(HolderCounts(bound, pools)) == |set id | id in bound && bound[id] in pools|
    decreases |pools|
  {
    if pools == {} {
      assert HolderCounts(bound, {}) == map[];
      assert (set id | id in bound && bound[id] in pools) == {};
    } else {
      var p :| p in pools;
      var rest := pools - {p};
      HoldersPartition(bound, rest);
      SumRemove(HolderCounts(bound, pools), p);
      assert HolderCounts(bound, pools) - {p} == HolderCounts(bound, rest);
      assert (set id | id in bound && bound[id] in pools)
          == (set id | id in bound && bound[id] in rest) + Holders(bound, p);
      assert (set id | id in bound && bound[id] in rest) !! Holders(bound, p);
    }
  }

  ghost predicate NonNegativeCounts(b: Balancer) {
    forall p :: p in b.endpoints ==> b.endpoints[p].load.currentSessions >= 0
  }

  function SessionCounts(b: Balancer): map<PoolName, nat>
    requires NonNegativeCounts(b)
  {
    map p | p in b.endpoints :: b.endpoints[p].load.currentSessions
  }

  lemma CountsAreHolders(b: Balancer, bound: map<Sid, PoolName>)
    requires Accurate(b, bound)
    ensures NonNegativeCounts(b) && SessionCounts(b) == HolderCounts(bound, b.endpoints.Keys)
  {
  }

  /** total_sessions of get_pool_stats is the number of sessions bound to a registered pool. */
  lemma TotalIsBoundSessions(es: seq<Call>)
    requires InTime(es) && BenignRun(es)
    ensures var b, bound := RunCalls(es), Bound(es);
      && NonNegativeCounts(b)
      && Sum(SessionCounts(b)) == |set id | id in bound && bound[id] in b.endpoints|
  {
    var b, bound := RunCalls(es), Bound(es);
    CountersWhileBenign(es);
    HoldersPartition(bound, b.endpoints.Keys);
    CountsAreHolders(b, bound);
    assert (set id | id in bound && bound[id] in b.endpoints.Keys) == set id | id in bound && bound[id] in b.endpoints;
  }
}
