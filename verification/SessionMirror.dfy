/** Sequential calls of the session manager together with the Redis mirror of its sessions. */
module SessionMirror {
  import opened Options
  import opened Sessions
  import Runs = SessionRuns

  /** A record holds the session as it was saved; Redis drops it at `expires`. */
  datatype Record<M> = Record(session: Session<M>, expires: real)

  datatype Host<M> = Host(manager: Manager<M>, store: map<Id, Record<M>>)

  /** RedisSessionStateStore.save: SET with EX max(1, ttl). */
  function Save<M>(store: map<Id, Record<M>>, id: Id, s: Session<M>, at: real): map<Id, Record<M>> {
    store[id := Record(s, at + (if s.ttl < 1 then 1 else s.ttl) as real)]
  }

  predicate Visible<M>(store: map<Id, Record<M>>, id: Id, now: real) {
    id in store && now < store[id].expires
  }

  // ---------------------------------------------------------------- calls

  /** What a call to create_session gets from outside: the id it draws, whether the sandbox can be
      built, and the instants at which it cleans up, registers and saves. */
  datatype Creation<M> = Creation(info: M, ttl: int, id: Id, built: bool, cleanAt: real, raising: set<Id>,
                                  registerAt: real, saveAt: real)

  /** ttl or self.default_ttl: an absent or zero request takes the default. */
  function EffectiveTtl(requested: Option<int>, default: int): int {
    if requested.Some? && requested.value != 0 then requested.value else default
  }

  datatype CreateResult = Created(id: Id) | LimitReached | BuildError

  /** The part of create_session that holds a permit. */
  function FinishCreate<M>(h: Host<M>, c: Creation<M>): (Host<M>, CreateResult) {
    if c.built then
      var s := NewSession(c.info, c.ttl, c.registerAt);
      (Host(Register(h.manager, c.id, s), Save(h.store, c.id, s, c.saveAt)), Created(c.id))
    else (h.(manager := GiveUp(h.manager)), BuildError)
  }

  /** One round of the cleanup thread. */
  function CleanupRound<M>(h: Host<M>, now: real, raising: set<Id>): Host<M> {
    var (m, gone) := Cleanup(h.manager, now, raising);
    Host(m, h.store - gone)
  }

  /** A permit, if need be after a cleanup of expired sessions. */
  function TakePermit<M>(h: Host<M>, c: Creation<M>): (Host<M>, bool) {
    var (m, ok) := Acquire(h.manager);
    if ok then (h.(manager := m), true)
    else
      var cleaned := CleanupRound(h, c.cleanAt, c.raising);
      var (m2, ok2) := Acquire(cleaned.manager);
      (cleaned.(manager := m2), ok2)
  }

  function Create<M>(h: Host<M>, c: Creation<M>): (Host<M>, CreateResult) {
    var (held, ok) := TakePermit(h, c);
    if ok then FinishCreate(held, c) else (held, LimitReached)
  }

  function GetSession<M>(h: Host<M>, id: Id, now: real, saveAt: real, raises: bool): (Host<M>, Option<Session<M>>) {
    var (m, found) := Get(h.manager, id, now, raises);
    match found
    case Found(s) => (Host(m, Save(h.store, id, s, saveAt)), Some(s))
    case Destroyed => (Host(m, h.store - {id}), None)
    case Missing => (Host(m, h.store), None)
  }

  function DestroySession<M>(h: Host<M>, id: Id, raises: bool): (Host<M>, bool) {
    var (m, destroyed) := Destroy(h.manager, id, raises);
    (Host(m, if destroyed then h.store - {id} else h.store), destroyed)
  }

  /** stop(): every session is destroyed, and no record is deleted. */
  function Stop<M>(h: Host<M>, raising: set<Id>): Host<M> {
    h.(manager := DestroyEach(h.manager, h.manager.sessions.Keys, raising))
  }

  datatype Call<M> =
    | CallCreate(creation: Creation<M>)
    | CallGet(id: Id, now: real, saveAt: real, raises: bool)
    | CallDestroy(id: Id, raises: bool)
    | CallCleanup(now: real, raising: set<Id>)
    | CallStop(raising: set<Id>)

  function Apply<M>(h: Host<M>, c: Call<M>): Host<M> {
    match c
    case CallCreate(creation) => Create(h, creation).0
    case CallGet(id, now, saveAt, raises) => GetSession(h, id, now, saveAt, raises).0
    case CallDestroy(id, raises) => DestroySession(h, id, raises).0
    case CallCleanup(now, raising) => CleanupRound(h, now, raising)
    case CallStop(raising) => Stop(h, raising)
  }

  function Run<M>(maxSessions: nat, calls: seq<Call<M>>): Host<M> {
    if calls == [] then Host(Start(maxSessions), map[])
    else Apply(Run(maxSessions, calls[..|calls| - 1]), calls[|calls| - 1])
  }

  function OrphanedBy<M>(h: Host<M>, c: Call<M>): set<Id> {
    if c.CallStop? then h.manager.sessions.Keys - c.raising else {}
  }

  /** The sessions that some stop() of the run destroyed. */
  function Stopped<M>(maxSessions: nat, calls: seq<Call<M>>): set<Id> {
    if calls == [] then {}
    else
      var before, c := calls[..|calls| - 1], calls[|calls| - 1];
      Stopped(maxSessions, before) + OrphanedBy(Run(maxSessions, before), c)
  }

  /** The clock does not run backwards inside a call: a save is not earlier than what it saves. */
  ghost predicate WellTimedCall<M>(c: Call<M>) {
    match c
    case CallCreate(creation) => creation.registerAt <= creation.saveAt
    case CallGet(_, now, saveAt, _) => now <= saveAt
    case _ => true
  }

  ghost predicate WellTimed<M>(calls: seq<Call<M>>) {
    forall i :: 0 <= i < |calls| ==> WellTimedCall(calls[i])
  }

  // ---------------------------------------------------------------- agreement

  /** A record is the session it mirrors, except that it never learns that a refused destruction
      made the session inactive. */
  ghost predicate Mirrors<M>(h: Host<M>, orphans: set<Id>) {
    && (forall id :: id in h.store && id !in orphans ==> id in h.manager.sessions)
    && (forall id :: id in h.store && id in h.manager.sessions ==>
          h.store[id].session == h.manager.sessions[id].(active := true))
    && (forall id :: id in h.manager.sessions ==>
          && id in h.store
          && h.store[id].expires >= h.manager.sessions[id].lastUsed +
               (if h.manager.sessions[id].ttl < 1 then 1 else h.manager.sessions[id].ttl) as real)
  }

  lemma FinishCreateMirrors<M>(h: Host<M>, c: Creation<M>, orphans: set<Id>)
    requires Mirrors(h, orphans) && c.registerAt <= c.saveAt
    ensures Mirrors(FinishCreate(h, c).0, orphans)
  {
  }

  lemma CleanupMirrors<M>(h: Host<M>, now: real, raising: set<Id>, orphans: set<Id>)
    requires Mirrors(h, orphans)
    ensures Mirrors(CleanupRound(h, now, raising), orphans)
  {
  }

  lemma TakePermitMirrors<M>(h: Host<M>, c: Creation<M>, orphans: set<Id>)
    requires Mirrors(h, orphans)
    ensures Mirrors(TakePermit(h, c).0, orphans)
  {
    CleanupMirrors(h, c.cleanAt, c.raising, orphans);
  }

  lemma CreateMirrors<M>(h: Host<M>, c: Creation<M>, orphans: set<Id>)
    requires Mirrors(h, orphans) && c.registerAt <= c.saveAt
    ensures Mirrors(Create(h, c).0, orphans)
  {
    TakePermitMirrors(h, c, orphans);
    if TakePermit(h, c).1 {
      FinishCreateMirrors(TakePermit(h, c).0, c, orphans);
    }
  }

  lemma DestroyMirrors<M>(h: Host<M>, id: Id, raises: bool, orphans: set<Id>)
    requires Mirrors(h, orphans)
    ensures Mirrors(DestroySession(h, id, raises).0, orphans)
  {
  }

  lemma CallMirrors<M>(h: Host<M>, c: Call<M>, orphans: set<Id>)
    requires Mirrors(h, orphans) && WellTimedCall(c)
    ensures Mirrors(Apply(h, c), orphans + OrphanedBy(h, c))
  {
    if !c.CallStop? {
      assert orphans + OrphanedBy(h, c) == orphans;
    }
    match c
    case CallCreate(creation) => CreateMirrors(h, creation, orphans);
    case CallGet(id, now, saveAt, raises) =>
    case CallDestroy(id, raises) => DestroyMirrors(h, id, raises, orphans);
    case CallCleanup(now, raising) => CleanupMirrors(h, now, raising, orphans);
    case CallStop(raising) =>
  }

  lemma {:induction false} RunMirrors<M>(maxSessions: nat, calls: seq<Call<M>>)
    requires WellTimed(calls)
    ensures Mirrors(Run(maxSessions, calls), Stopped(maxSessions, calls))
  {
    if calls != [] {
      var before := calls[..|calls| - 1];
      RunMirrors(maxSessions, before);
      CallMirrors(Run(maxSessions, before), calls[|calls| - 1], Stopped(maxSessions, before));
    }
  }

  /** In every sequential run, at every instant: a record Redis still shows belongs to a registered
      session and equals it up to the active flag, unless a stop() orphaned it; and every unexpired
      session has its record, the instant at which the session is exactly `ttl` idle excepted. */
  lemma MirrorAgreement<M>(maxSessions: nat, calls: seq<Call<M>>, id: Id, now: real)
    requires WellTimed(calls)
    ensures var h := Run(maxSessions, calls);
      && (Visible(h.store, id, now) && id !in h.manager.sessions ==> id in Stopped(maxSessions, calls))
      && (Visible(h.store, id, now) && id in h.manager.sessions ==>
            h.store[id].session == h.manager.sessions[id].(active := true))
      && (id in h.manager.sessions && !Expired(h.manager.sessions[id], now)
            && now != h.manager.sessions[id].lastUsed + h.manager.sessions[id].ttl as real ==>
            Visible(h.store, id, now))
  {
    RunMirrors(maxSessions, calls);
  }

  /** No sandbox of the run refuses to be destroyed. */
  predicate CallDestroysCleanly<M>(c: Call<M>) {
    match c
    case CallCreate(creation) => creation.raising == {}
    case CallGet(_, _, _, raises) => !raises
    case CallDestroy(_, raises) => !raises
    case CallCleanup(_, raising) => raising == {}
    case CallStop(raising) => raising == {}
  }

  ghost predicate DestroysCleanly<M>(calls: seq<Call<M>>) {
    forall i :: 0 <= i < |calls| ==> CallDestroysCleanly(calls[i])
  }

  ghost predicate AllActive<M>(m: Manager<M>) {
    forall id :: id in m.sessions ==> m.sessions[id].active
  }

  lemma CreateKeepsActive<M>(h: Host<M>, c: Creation<M>)
    requires AllActive(h.manager) && c.raising == {}
    ensures AllActive(Create(h, c).0.manager)
  {
    assert AllActive(TakePermit(h, c).0.manager);
  }

  lemma CallKeepsActive<M>(h: Host<M>, c: Call<M>)
    requires AllActive(h.manager) && CallDestroysCleanly(c)
    ensures AllActive(Apply(h, c).manager)
  {
    if c.CallCreate? {
      CreateKeepsActive(h, c.creation);
    }
  }

  lemma {:induction false} RunKeepsActive<M>(maxSessions: nat, calls: seq<Call<M>>)
    requires DestroysCleanly(calls)
    ensures AllActive(Run(maxSessions, calls).manager)
  {
    if calls != [] {
      var before := calls[..|calls| - 1];
      RunKeepsActive(maxSessions, before);
      CallKeepsActive(Run(maxSessions, before), calls[|calls| - 1]);
    }
  }

  /** Nothing orphans a record but stop(). */
  lemma {:induction false} OnlyStopOrphans<M>(maxSessions: nat, calls: seq<Call<M>>)
    requires forall i :: 0 <= i < |calls| ==> !calls[i].CallStop?
    ensures Stopped(maxSessions, calls) == {}
  {
    if calls != [] {
      OnlyStopOrphans(maxSessions, calls[..|calls| - 1]);
    }
  }

  /** When no sandbox refuses to be destroyed and stop() is not called, a record that Redis still shows is
      exactly the payload of a registered session. */
  lemma {:induction false} ExactMirror<M>(maxSessions: nat, calls: seq<Call<M>>, id: Id, now: real)
    requires WellTimed(calls) && DestroysCleanly(calls) && forall i :: 0 <= i < |calls| ==> !calls[i].CallStop?
    ensures var h := Run(maxSessions, calls);
      Visible(h.store, id, now) ==> id in h.manager.sessions && h.store[id].session == h.manager.sessions[id]
  {
    MirrorAgreement(maxSessions, calls, id, now);
    OnlyStopOrphans(maxSessions, calls);
    RunKeepsActive(maxSessions, calls);
  }

  /** A record that Redis still shows although its session is gone. */
  predicate Orphaned<M>(h: Host<M>, id: Id, now: real) {
    Visible(h.store, id, now) && id !in h.manager.sessions
  }

  /** And stop() does, after every run: a visible record is orphaned exactly when its session was gone before
      or its sandbox did not raise. Before the first stop() no session with a visible record is gone, so then it
      is exactly the records of the destroyed sessions; and every destroyed session that had not expired,
      the boundary instant excepted, leaves one. */
  lemma {:induction false} StopLeavesRecords<M>(maxSessions: nat, calls: seq<Call<M>>, raising: set<Id>, id: Id,
                                                now: real)
    requires WellTimed(calls)
    ensures var h, after := Run(maxSessions, calls), Run(maxSessions, calls + [CallStop(raising)]);
      && (Orphaned(after, id, now) <==> Visible(h.store, id, now) && (id in h.manager.sessions ==> id !in raising))
      && ((forall i :: 0 <= i < |calls| ==> !calls[i].CallStop?) ==>
            (Orphaned(after, id, now) <==>
               Visible(h.store, id, now) && id in h.manager.sessions && id !in raising))
      && (id in h.manager.sessions && id !in raising && !Expired(h.manager.sessions[id], now)
            && now != h.manager.sessions[id].lastUsed + h.manager.sessions[id].ttl as real ==>
            Orphaned(after, id, now))
  {
    assert (calls + [CallStop(raising)])[..|calls|] == calls;
    MirrorAgreement(maxSessions, calls, id, now);
    if forall i :: 0 <= i < |calls| ==> !calls[i].CallStop? {
      OnlyStopOrphans(maxSessions, calls);
    }
  }

  // ---------------------------------------------------------------- what creations and lookups answer

  /** A permit is free, or a cleanup would free one. */
  ghost predicate RoomFor<M>(m: Manager<M>, c: Creation<M>) {
    || m.permits > 0
    || exists id ::
         && id in m.sessions && c.cleanAt - m.sessions[id].lastUsed > m.sessions[id].ttl as real && id !in c.raising
  }

  lemma PermitExactly<M>(h: Host<M>, c: Creation<M>)
    ensures TakePermit(h, c).1 <==> RoomFor(h.manager, c)
  {
    var (after, gone) := Cleanup(h.manager, c.cleanAt, c.raising);
    CleanupCounters(h.manager, c.cleanAt, c.raising);
    forall id
      ensures id in gone <==> id in h.manager.sessions && id !in after.sessions
      ensures id in gone <==>
        && id in h.manager.sessions && id !in c.raising
        && c.cleanAt - h.manager.sessions[id].lastUsed > h.manager.sessions[id].ttl as real
    {
      CleanupExactly(h.manager, c.cleanAt, c.raising, id);
    }
    assert gone != {} <==> exists id :: id in h.manager.sessions && id !in after.sessions;
  }

  /** A creation is refused exactly when no permit is free and no session is overdue whose sandbox lets itself be
      destroyed; with room it succeeds exactly if the sandbox can be built, and gives the permit back otherwise. */
  lemma CreateAnswers<M>(h: Host<M>, c: Creation<M>)
    ensures var (after, result) := Create(h, c);
      && (result == LimitReached <==> !RoomFor(h.manager, c))
      && (result == Created(c.id) <==> RoomFor(h.manager, c) && c.built)
      && (result == BuildError <==> RoomFor(h.manager, c) && !c.built)
      && (h.manager.permits > 0 && result.BuildError? ==>
            && after.store == h.store && after.manager.sessions == h.manager.sessions
            && after.manager.permits == h.manager.permits)
      && (h.manager.permits > 0 && result.Created? ==>
            && after.manager.permits == h.manager.permits - 1
            && after.manager.sessions - {c.id} == h.manager.sessions - {c.id}
            && after.store - {c.id} == h.store - {c.id})
  {
    PermitExactly(h, c);
  }

  /** The session created is what was asked for, unused, and lives for the requested ttl, or for the default if
      none or zero was requested; its record is visible for as long, and never for less than a second. */
  lemma CreatedLives<M>(h: Host<M>, c: Creation<M>, requested: Option<int>, default: int, now: real)
    requires var ttl := EffectiveTtl(requested, default); Create(h, c.(ttl := ttl)).1.Created?
    ensures var after := Create(h, c.(ttl := EffectiveTtl(requested, default))).0;
      var lifetime := if requested.None? || requested.value == 0 then default else requested.value;
      && c.id in after.manager.sessions && c.id in after.store
      && after.store[c.id].session == after.manager.sessions[c.id]
      && after.manager.sessions[c.id] == Session(c.info, c.registerAt, c.registerAt, lifetime, true, 0)
      && (Peek(after.manager, c.id, now).Some? <==> now - c.registerAt <= lifetime as real)
      && (Visible(after.store, c.id, now) <==> now - c.saveAt < (if lifetime >= 1 then lifetime else 1) as real)
  {
  }

  /** A lookup that finds its session saves it as it now is, for another ttl; one that destroys it takes the
      record away; no other record changes. */
  lemma LookupSaves<M>(h: Host<M>, id: Id, now: real, saveAt: real, raises: bool, later: real)
    ensures var (after, found) := GetSession(h, id, now, saveAt, raises);
      && (found.Some? <==> Peek(h.manager, id, now).Some?)
      && (found.Some? ==>
            && id in after.manager.sessions && found == Some(after.manager.sessions[id])
            && id in after.store && after.store[id].session == after.manager.sessions[id]
            && (Visible(after.store, id, later) <==>
                  later - saveAt < (if found.value.ttl >= 1 then found.value.ttl else 1) as real))
      && (id in h.manager.sessions && id !in after.manager.sessions ==> id !in after.store)
      && (found.None? && (id in h.manager.sessions ==> id in after.manager.sessions) ==> after.store == h.store)
      && after.store - {id} == h.store - {id}
  {
    LookupExactly(h.manager, id, now, raises);
  }

  // ---------------------------------------------------------------- sequential calls are interleaved runs

  lemma DestroyStep<M>(w: Runs.World<M>, es: seq<Runs.Event<M>>, id: Id, raises: bool)
    ensures Runs.RunFrom(w, es + [Runs.Destroyed(id, raises)])
         == Runs.RunFrom(w, es).(manager := Destroy(Runs.RunFrom(w, es).manager, id, raises).0)
  {
    assert (es + [Runs.Destroyed(id, raises)])[..|es|] == es;
  }

  lemma {:induction false} DestroyEachIsRun<M>(m: Manager<M>, ids: set<Id>, raises: set<Id>)
    returns (es: seq<Runs.Event<M>>)
    requires ids <= m.sessions.Keys
    ensures Runs.RunFrom(Runs.World(m, {}), es) == Runs.World(DestroyEach(m, ids, raises), {})
    decreases ids
  {
    if ids == {} {
      es := [];
    } else {
      hide DestroyEach, Destroy, Runs.RunFrom, Runs.Step;
      var id :| id in ids;
      var before := DestroyEachIsRun(m, ids - {id}, raises);
      DestroyOneMore(m, ids - {id}, id, raises);
      assert ids - {id} + {id} == ids;
      DestroyStep(Runs.World(m, {}), before, id, id in raises);
      es := before + [Runs.Destroyed(id, id in raises)];
    }
  }

  lemma OneStep<M>(w: Runs.World<M>, a: Runs.Event<M>)
    ensures Runs.RunFrom(w, [a]) == Runs.Step(w, a)
  {
    assert [a][..0] == [];
  }

  lemma TwoSteps<M>(w: Runs.World<M>, a: Runs.Event<M>, b: Runs.Event<M>)
    ensures Runs.RunFrom(w, [a, b]) == Runs.Step(Runs.Step(w, a), b)
  {
    assert [a, b][..1] == [a];
    OneStep(w, a);
  }

  /** A call of create_session is one of three short runs of a single thread. */
  lemma CreateIsRun<M>(h: Host<M>, c: Creation<M>) returns (es: seq<Runs.Event<M>>)
    ensures Runs.RunFrom(Runs.World(h.manager, {}), es) == Runs.World(Create(h, c).0.manager, {})
  {
    var finish := if c.built then Runs.Registered(0, c.id, c.info, c.ttl, c.registerAt) else Runs.BuildFailed(0);
    var w := Runs.World(h.manager, {});
    var try := Runs.TryAcquire(0);
    if h.manager.permits > 0 {
      es := [try, finish];
      TwoSteps(w, try, finish);
    } else {
      var clean := Runs.Cleaned(c.cleanAt, c.raising);
      if Cleanup(h.manager, c.cleanAt, c.raising).0.permits > 0 {
        TwoSteps(w, clean, try);
        es := [clean, try] + [finish];
        assert es[..2] == [clean, try];
      } else {
        es := [clean];
        assert es[..0] == [];
      }
    }
  }

  lemma CallIsRun<M>(h: Host<M>, c: Call<M>) returns (es: seq<Runs.Event<M>>)
    ensures Runs.RunFrom(Runs.World(h.manager, {}), es) == Runs.World(Apply(h, c).manager, {})
  {
    var w := Runs.World(h.manager, {});
    match c
    case CallCreate(creation) =>
      es := CreateIsRun(h, creation);
    case CallGet(id, now, saveAt, raises) =>
      es := [Runs.Looked(id, now, raises)];
      OneStep(w, es[0]);
    case CallDestroy(id, raises) =>
      es := [Runs.Destroyed(id, raises)];
      OneStep(w, es[0]);
    case CallCleanup(now, raising) =>
      es := [Runs.Cleaned(now, raising)];
      OneStep(w, es[0]);
    case CallStop(raising) =>
      es := DestroyEachIsRun(h.manager, h.manager.sessions.Keys, raising);
  }

  /** Every sequence of calls is a run of the interleaved system, so all that holds over interleaved runs
      (permit conservation, the session limit, the counters) holds after it. */
  lemma {:induction false} CallsAreRun<M>(maxSessions: nat, calls: seq<Call<M>>) returns (es: seq<Runs.Event<M>>)
    ensures Runs.Run(maxSessions, es) == Runs.World(Run(maxSessions, calls).manager, {})
  {
    if calls == [] {
      es := [];
    } else {
      var n := |calls| - 1;
      var before := CallsAreRun(maxSessions, calls[..n]);
      var last := CallIsRun(Run(maxSessions, calls[..n]), calls[n]);
      Runs.RunConcat(Runs.Init(maxSessions), before, last);
      es := before + last;
    }
  }

  /** The limit over sequences of whole calls, stop() included. */
  lemma LimitOverCalls<M>(maxSessions: nat, calls: seq<Call<M>>)
    ensures var m := Run(maxSessions, calls).manager;
      |m.sessions| <= maxSessions && m.permits + |m.sessions| <= maxSessions
  {
    var es := CallsAreRun(maxSessions, calls);
    Runs.PermitConservation(maxSessions, es);
  }
}
