/** The pre-warmed pool of sessions under interleaving: pool operations of any number of holders mixed
    with everything other threads do to the session manager. */
module PoolRuns {
  import opened Options
  import opened Sessions
  import opened SessionRuns

  /** `disposing` is the id that a release, holding the pool's lock, has looked up and will destroy. */
  datatype PoolWorld<M> = PoolWorld(world: World<M>, open: bool, warmed: nat, pool: seq<Id>, leased: set<Id>,
                                    disposing: Option<Id>)

  datatype PoolEvent<M> =
    | Elsewhere(event: Event<M>)                                  // another thread's manager step
    | Prewarmed(thread: Thread, id: Id, info: M, ttl: int, now: real) // _initialize_pool
    | Opened                                                      // the constructor returns
    | PoppedHead(now: real, raises: bool)                         // one turn of acquire's loop
    | LeasedNew(thread: Thread, id: Id, info: M, ttl: int, now: real) // acquire with an empty pool
    | GivenBack(id: Id, now: real, raises: bool)                  // release(id): the lookup and its outcome
    | Disposed(raises: bool)                                      // ... the destruction of what is not kept
    | GivenUp(id: Id, raises: bool)                               // release(id, destroy=True)

  datatype Sizes = Sizes(maxSessions: nat, minSize: nat, maxSize: int)

  /** The manager step inside a pool event. */
  function ManagerEvent<M>(pw: PoolWorld<M>, e: PoolEvent<M>): Event<M> {
    match e
    case Elsewhere(event) => event
    case Prewarmed(t, id, info, ttl, now) => Registered(t, id, info, ttl, now)
    case LeasedNew(t, id, info, ttl, now) => Registered(t, id, info, ttl, now)
    case PoppedHead(now, raises) => if pw.pool == [] then Cleaned(now, {}) else Looked(pw.pool[0], now, raises)
    case GivenBack(id, now, raises) => Looked(id, now, raises)
    case Disposed(raises) =>
      if pw.disposing.None? then Cleaned(0.0, {}) else Event.Destroyed(pw.disposing.value, raises)
    case GivenUp(id, raises) => Event.Destroyed(id, raises)
    case Opened => Cleaned(0.0, {})
  }

  /** When the code can take the step at all. Between the lookup and the destruction of a release the pool's
      lock is held, so only the manager, and holders who ask for destruction, may act. */
  predicate Enabled<M>(z: Sizes, pw: PoolWorld<M>, e: PoolEvent<M>) {
    match e
    case Elsewhere(_) => true
    case Prewarmed(t, _, _, _, _) => !pw.open && pw.warmed < z.minSize && t in pw.world.building
    case Opened => !pw.open
    case PoppedHead(_, _) => pw.open && pw.disposing.None? && pw.pool != []
    case LeasedNew(t, _, _, _, _) =>
      pw.open && pw.disposing.None? && pw.pool == [] && 0 < z.maxSize && t in pw.world.building
    case GivenBack(id, _, _) => pw.open && pw.disposing.None? && id in pw.leased
    case Disposed(_) => pw.disposing.Some?
    case GivenUp(id, _) => pw.open && id in pw.leased
  }

  predicate FoundLive<M>(w: World<M>, id: Id, now: real, raises: bool) {
    Get(w.manager, id, now, raises).1.Found?
  }

  function PoolStep<M>(z: Sizes, pw: PoolWorld<M>, e: PoolEvent<M>): PoolWorld<M> {
    if !Enabled(z, pw, e) then pw
    else if e.Opened? then pw.(open := true)
    else
      var w := Step(pw.world, ManagerEvent(pw, e));
      match e
      case Elsewhere(_) => pw.(world := w)
      case Prewarmed(_, id, _, _, _) => pw.(world := w, warmed := pw.warmed + 1, pool := pw.pool + [id])
      case PoppedHead(now, raises) =>
        pw.(world := w, pool := pw.pool[1..],
            leased := if FoundLive(pw.world, pw.pool[0], now, raises) then pw.leased + {pw.pool[0]} else pw.leased)
      case LeasedNew(_, id, _, _, _) => pw.(world := w, leased := pw.leased + {id})
      case GivenBack(id, now, raises) =>
        if FoundLive(pw.world, id, now, raises) && |pw.pool| < z.maxSize then
          pw.(world := w, pool := pw.pool + [id], leased := pw.leased - {id})
        else pw.(world := w, leased := pw.leased - {id}, disposing := Some(id))
      case Disposed(_) => pw.(world := w, disposing := None)
      case GivenUp(id, _) => pw.(world := w, leased := pw.leased - {id})
  }

  function PoolRun<M>(z: Sizes, es: seq<PoolEvent<M>>): PoolWorld<M> {
    if es == [] then PoolWorld(Init(z.maxSessions), false, 0, [], {}, None)
    else PoolStep(z, PoolRun(z, es[..|es| - 1]), es[|es| - 1])
  }

  /** The id a pool event would register, if any. */
  function NewId<M>(e: PoolEvent<M>): Option<Id> {
    match e
    case Elsewhere(Registered(_, id, _, _, _)) => Some(id)
    case Prewarmed(_, id, _, _, _) => Some(id)
    case LeasedNew(_, id, _, _, _) => Some(id)
    case _ => None
  }

  ghost predicate DistinctNewIds<M>(es: seq<PoolEvent<M>>) {
    forall i, j :: 0 <= i < j < |es| && NewId(es[i]).Some? && NewId(es[j]).Some? ==> NewId(es[i]) != NewId(es[j])
  }

  ghost predicate Used<M>(es: seq<PoolEvent<M>>, id: Id) {
    exists i :: 0 <= i < |es| && NewId(es[i]) == Some(id)
  }

  // ---------------------------------------------------------------- exclusive leasing

  /** Pooled ids are distinct, disjoint from the leased ones and not about to be destroyed, and there are
      not too many of them. */
  ghost predicate Exclusive<M>(z: Sizes, pw: PoolWorld<M>) {
    && (forall i, j :: 0 <= i < j < |pw.pool| ==> pw.pool[i] != pw.pool[j])
    && (forall i :: 0 <= i < |pw.pool| ==> pw.pool[i] !in pw.leased)
    && |pw.pool| <= (if z.minSize > z.maxSize then z.minSize else z.maxSize)
    && (pw.disposing.Some? ==> pw.disposing.value !in pw.leased && pw.disposing.value !in pw.pool)
    && (!pw.open ==> |pw.pool| == pw.warmed <= z.minSize && pw.leased == {} && pw.disposing == None)
  }

  ghost predicate KnownIds<M>(pw: PoolWorld<M>, es: seq<PoolEvent<M>>) {
    && (forall id :: id in pw.leased ==> Used(es, id))
    && (forall i :: 0 <= i < |pw.pool| ==> Used(es, pw.pool[i]))
    && (pw.disposing.Some? ==> Used(es, pw.disposing.value))
  }

  lemma StepKeepsExclusive<M>(z: Sizes, pw: PoolWorld<M>, e: PoolEvent<M>)
    requires Exclusive(z, pw)
    requires (e.Prewarmed? || e.LeasedNew?) ==> e.id !in pw.leased && e.id !in pw.pool && Some(e.id) != pw.disposing
    ensures Exclusive(z, PoolStep(z, pw, e))
  {
  }

  /** A step brings no id into the pool's hands but the new one. */
  lemma StepBringsNoId<M>(z: Sizes, pw: PoolWorld<M>, e: PoolEvent<M>, id: Id)
    ensures id in PoolStep(z, pw, e).leased || id in PoolStep(z, pw, e).pool || PoolStep(z, pw, e).disposing == Some(id)
      ==> id in pw.leased || id in pw.pool || pw.disposing == Some(id) || NewId(e) == Some(id)
  {
  }

  lemma StepKeepsKnown<M>(z: Sizes, es: seq<PoolEvent<M>>)
    requires |es| > 0 && KnownIds(PoolRun(z, es[..|es| - 1]), es[..|es| - 1])
    ensures KnownIds(PoolRun(z, es), es)
  {
    var before, e := PoolRun(z, es[..|es| - 1]), es[|es| - 1];
    var after := PoolRun(z, es);
    forall id | id in after.leased || id in after.pool || after.disposing == Some(id) ensures Used(es, id) {
      hide PoolStep;
      StepBringsNoId(z, before, e, id);
    }
  }

  /** Over every interleaving in which no session id is drawn twice and holders release what they hold:
      pooled ids are distinct, disjoint from the leased ids, and at most max(minSize, maxSize); and an id
      that a release is about to destroy is in nobody's hands. */
  lemma {:induction false} ExclusiveLeasing<M>(z: Sizes, es: seq<PoolEvent<M>>)
    requires DistinctNewIds(es)
    ensures Exclusive(z, PoolRun(z, es)) && KnownIds(PoolRun(z, es), es)
  {
    if es != [] {
      var n := |es| - 1;
      ExclusiveLeasing(z, es[..n]);
      StepKeepsKnown(z, es);
      var pw, e := PoolRun(z, es[..n]), es[n];
      if e.Prewarmed? || e.LeasedNew? {
        assert e.id !in pw.pool;
      }
      StepKeepsExclusive(z, pw, e);
    }
  }

  /** What acquire hands out: an id nobody holds, whose session is registered, active and touched at
      that instant, whatever expired in between. */
  lemma {:induction false} LeaseIsLiveAndExclusive<M>(z: Sizes, es: seq<PoolEvent<M>>, now: real, raises: bool)
    requires DistinctNewIds(es)
    requires var pw := PoolRun(z, es);
      Enabled(z, pw, PoppedHead(now, raises)) && FoundLive(pw.world, pw.pool[0], now, raises)
    ensures var pw, after := PoolRun(z, es), PoolStep(z, PoolRun(z, es), PoppedHead(now, raises));
      var id := pw.pool[0];
      && id !in pw.leased && after.leased == pw.leased + {id} && id !in after.pool
      && id in after.world.manager.sessions
      && after.world.manager.sessions[id].active
      && after.world.manager.sessions[id].lastUsed == now
      && after.world.manager.sessions[id].useCount == pw.world.manager.sessions[id].useCount + 1
  {
    ExclusiveLeasing(z, es);
  }

  /** And when the pool is empty: a new id, in nobody's hands and not pooled, whose session is registered,
      active and unused. */
  lemma NewLeaseIsLiveAndExclusive<M>(z: Sizes, es: seq<PoolEvent<M>>, e: PoolEvent<M>)
    requires DistinctNewIds(es + [e]) && e.LeasedNew? && Enabled(z, PoolRun(z, es), e)
    ensures var pw, after := PoolRun(z, es), PoolStep(z, PoolRun(z, es), e);
      && e.id !in pw.leased && after.leased == pw.leased + {e.id} && e.id !in after.pool
      && e.id in after.world.manager.sessions
      && after.world.manager.sessions[e.id] == NewSession(e.info, e.ttl, e.now)
      && after.world.manager.sessions[e.id].active
  {
    assert (es + [e])[..|es|] == es && (es + [e])[|es|] == e;
    assert forall i :: 0 <= i < |es| ==> (es + [e])[i] == es[i];
    ExclusiveLeasing(z, es);
  }

  /** A head that is not handed out is gone from the pool and was dead: unregistered, inactive or expired. */
  lemma SkippedHeadWasDead<M>(z: Sizes, pw: PoolWorld<M>, now: real, raises: bool)
    requires Enabled(z, pw, PoppedHead(now, raises))
    ensures FoundLive(pw.world, pw.pool[0], now, raises) <==> Peek(pw.world.manager, pw.pool[0], now).Some?
    ensures |PoolStep(z, pw, PoppedHead(now, raises)).pool| == |pw.pool| - 1
  {
  }

  /** A release takes the id from its holder and puts it at the end of the pool exactly when its session is
      live and there is room; otherwise its session is destroyed next, unless its sandbox raises. */
  lemma ReleasedExactly<M>(z: Sizes, pw: PoolWorld<M>, id: Id, now: real, raises: bool, later: bool)
    requires Enabled(z, pw, GivenBack(id, now, raises))
    ensures var after := PoolStep(z, pw, GivenBack(id, now, raises));
      var kept := Peek(pw.world.manager, id, now).Some? && |pw.pool| < z.maxSize;
      && after.leased == pw.leased - {id}
      && after.pool == (if kept then pw.pool + [id] else pw.pool)
      && after.disposing == (if kept then None else Some(id))
      && (!kept ==>
            var gone := PoolStep(z, after, Disposed(later));
            && gone.disposing == None && gone.pool == pw.pool && gone.leased == after.leased
            && (id in gone.world.manager.sessions <==> id in after.world.manager.sessions && later))
  {
    LookupExactly(pw.world.manager, id, now, raises);
  }

  /** The session limit also bounds the pool's creations: pool events are manager events. */
  lemma {:induction false} PoolRunIsRun<M>(z: Sizes, es: seq<PoolEvent<M>>) returns (ms: seq<Event<M>>)
    ensures PoolRun(z, es).world == Run(z.maxSessions, ms)
  {
    if es == [] {
      ms := [];
    } else {
      var n := |es| - 1;
      var before := PoolRunIsRun(z, es[..n]);
      var pw, e := PoolRun(z, es[..n]), es[n];
      ms := before;
      if Enabled(z, pw, e) && !e.Opened? {
        ms := before + [ManagerEvent(pw, e)];
      }
    }
  }

  // ---------------------------------------------------------------- how many sessions can be out

  /** The leased ids whose session is registered. */
  function LiveLeases<M>(pw: PoolWorld<M>): set<Id> {
    set id | id in pw.leased && id in pw.world.manager.sessions
  }

  lemma SubsetCounts(a: set<Id>, b: set<Id>)
    requires a <= b
    ensures |a| <= |b|
  {
    assert b == a + (b - a);
  }

  /** The session limit of the manager is what bounds the leases. */
  lemma LeasesWithinLimit<M>(z: Sizes, es: seq<PoolEvent<M>>)
    ensures |LiveLeases(PoolRun(z, es))| <= z.maxSessions
  {
    var ms := PoolRunIsRun(z, es);
    LimitHolds(z.maxSessions, ms);
    SubsetCounts(LiveLeases(PoolRun(z, es)), PoolRun(z, es).world.manager.sessions.Keys);
  }

  lemma PoolRunOneMore<M>(z: Sizes, es: seq<PoolEvent<M>>, e: PoolEvent<M>)
    ensures PoolRun(z, es + [e]) == PoolStep(z, PoolRun(z, es), e)
  {
    assert (es + [e])[..|es|] == es;
  }

  /** A pool that opens empty, its minimum being zero or its pre-warming having failed, and one acquisition after
      the other. */
  function Acquisitions<M>(ids: seq<Id>, info: M, ttl: int, now: real): seq<PoolEvent<M>> {
    if ids == [] then [Opened]
    else
      Acquisitions(ids[..|ids| - 1], info, ttl, now)
      + [Elsewhere(TryAcquire(0))] + [LeasedNew(0, ids[|ids| - 1], info, ttl, now)]
  }

  ghost predicate Distinct(ids: seq<Id>) {
    forall i, j :: 0 <= i < j < |ids| ==> ids[i] != ids[j]
  }

  /** The pool is open and empty, and exactly `ids` are registered, as `s`, and leased. */
  ghost predicate AllOut<M>(z: Sizes, pw: PoolWorld<M>, ids: seq<Id>, s: Session<M>) {
    && pw.open && pw.pool == [] && pw.disposing == None
    && pw.leased == (set id | id in ids)
    && pw.world.building == {} && pw.world.manager.permits == z.maxSessions - |ids|
    && pw.world.manager.sessions == map id | id in ids :: s
  }

  lemma OneMoreOut<M>(z: Sizes, pw: PoolWorld<M>, ids: seq<Id>, id: Id, info: M, ttl: int, now: real)
    requires 0 < z.maxSize && |ids| < z.maxSessions && AllOut(z, pw, ids, NewSession(info, ttl, now))
    ensures AllOut(z, PoolStep(z, PoolStep(z, pw, Elsewhere(TryAcquire(0))), LeasedNew(0, id, info, ttl, now)),
                   ids + [id], NewSession(info, ttl, now))
  {
    var acquired := PoolStep(z, pw, Elsewhere(TryAcquire(0)));
    assert acquired.world.building == {0} && acquired.world.manager.permits == z.maxSessions - |ids| - 1;
    var after := PoolStep(z, acquired, LeasedNew(0, id, info, ttl, now));
    assert after.world.building == {};
    assert after.world.manager.sessions == pw.world.manager.sessions[id := NewSession(info, ttl, now)];
  }

  /** Every acquisition from an empty pool leases a new session, until the manager's limit is reached. */
  lemma {:induction false} AcquisitionsLease<M>(z: Sizes, ids: seq<Id>, info: M, ttl: int, now: real)
    requires 0 < z.maxSize && |ids| <= z.maxSessions
    ensures AllOut(z, PoolRun(z, Acquisitions(ids, info, ttl, now)), ids, NewSession(info, ttl, now))
  {
    if ids == [] {
      PoolRunOneMore<M>(z, [], Opened);
    } else {
      hide AllOut, PoolStep, PoolRun;
      var n := |ids| - 1;
      var before, pw := Acquisitions(ids[..n], info, ttl, now), PoolRun(z, Acquisitions(ids[..n], info, ttl, now));
      AcquisitionsLease(z, ids[..n], info, ttl, now);
      OneMoreOut(z, pw, ids[..n], ids[n], info, ttl, now);
      PoolRunOneMore(z, before, Elsewhere(TryAcquire(0)));
      PoolRunOneMore(z, before + [Elsewhere(TryAcquire(0))], LeasedNew(0, ids[n], info, ttl, now));
      assert ids == ids[..n] + [ids[n]];
    }
  }

  lemma {:induction false} DistinctCount(ids: seq<Id>)
    requires Distinct(ids)
    ensures |set id | id in ids| == |ids|
  {
    if ids != [] {
      var n := |ids| - 1;
      DistinctCount(ids[..n]);
      assert ids == ids[..n] + [ids[n]];
      assert (set id | id in ids) == (set id | id in ids[..n]) + {ids[n]};
    }
  }

  /** So max_size says nothing about the leases: any number within the session limit can be out at once. */
  lemma LeasesExceedMaxSize<M>(z: Sizes, ids: seq<Id>, info: M, ttl: int, now: real)
    requires 0 < z.maxSize && |ids| <= z.maxSessions && Distinct(ids)
    ensures |LiveLeases(PoolRun(z, Acquisitions(ids, info, ttl, now)))| == |ids|
  {
    AcquisitionsLease(z, ids, info, ttl, now);
    DistinctCount(ids);
    assert LiveLeases(PoolRun(z, Acquisitions(ids, info, ttl, now))) == set id | id in ids;
  }

  /** A pre-warmed session, leased. */
  function WarmLease<M>(id: Id, info: M, ttl: int, now: real): seq<PoolEvent<M>> {
    [Elsewhere(TryAcquire(0))] + [Prewarmed(0, id, info, ttl, now)] + [Opened] + [PoppedHead(now, false)]
  }

  lemma WarmLeaseOut<M>(z: Sizes, id: Id, info: M, ttl: int, now: real)
    requires 0 < z.minSize && 0 < z.maxSessions && 0 <= ttl
    ensures LiveLeases(PoolRun(z, WarmLease(id, info, ttl, now))) == {id}
  {
    var acquired: seq<PoolEvent<M>> := [Elsewhere(TryAcquire(0))];
    var warmed := acquired + [Prewarmed(0, id, info, ttl, now)];
    assert acquired == [] + acquired;
    PoolRunOneMore<M>(z, [], Elsewhere(TryAcquire(0)));
    PoolRunOneMore(z, acquired, Prewarmed(0, id, info, ttl, now));
    PoolRunOneMore(z, warmed, Opened);
    PoolRunOneMore(z, warmed + [Opened], PoppedHead(now, false));
  }

  /** Without room and without pre-warming nothing is ever leased. */
  lemma {:induction false} NothingToLease<M>(z: Sizes, es: seq<PoolEvent<M>>)
    requires z.maxSize <= 0 && z.minSize == 0
    ensures PoolRun(z, es).pool == [] && PoolRun(z, es).leased == {}
  {
    if es != [] {
      NothingToLease(z, es[..|es| - 1]);
    }
  }

  /** When max_size bounds the leases after all: for every run, exactly if the manager's own limit is no
      larger, or nothing can be leased at all. */
  lemma MaxSizeBoundsLeasesExactly<M(!new)>(z: Sizes, ids: seq<Id>, info: M, now: real)
    requires Distinct(ids) && |ids| > z.maxSize
    ensures (forall es: seq<PoolEvent<M>> :: |LiveLeases(PoolRun(z, es))| <= z.maxSize)
      <==> 0 <= z.maxSize && (z.maxSessions <= z.maxSize || (z.maxSize == 0 && z.minSize == 0))
  {
    if z.maxSize < 0 {
      assert |LiveLeases(PoolRun<M>(z, []))| > z.maxSize;
    } else if z.maxSessions <= z.maxSize {
      forall es: seq<PoolEvent<M>> ensures |LiveLeases(PoolRun(z, es))| <= z.maxSize {
        LeasesWithinLimit(z, es);
      }
    } else if z.maxSize > 0 {
      LeasesExceedMaxSize(z, ids[..z.maxSize + 1], info, 0, now);
    } else if z.minSize > 0 {
      WarmLeaseOut(z, ids[0], info, 0, now);
    } else {
      forall es: seq<PoolEvent<M>> ensures |LiveLeases(PoolRun(z, es))| <= z.maxSize {
        NothingToLease(z, es);
        assert LiveLeases(PoolRun(z, es)) == {};
      }
    }
  }
}
