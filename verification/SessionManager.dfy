/** SessionManager as a class: Session objects are updated in place; the dictionary of sessions, the
    creation semaphore, the counters and the Redis records are its fields. Each method is proved
    against the value-level call of the same name. */
module SessionManager {
  import opened Options
  import opened Sessions
  import Mirror = SessionMirror

  class SandboxSession<M> {
    const id: Id
    const info: M
    const createdAt: real
    const ttl: int
    var lastUsed: real
    var isActive: bool
    var useCount: nat

    constructor (id: Id, info: M, now: real, ttl: int)
      ensures this.id == id && Value() == NewSession(info, ttl, now)
    {
      this.id, this.info, createdAt, this.ttl := id, info, now, ttl;
      lastUsed, isActive, useCount := now, true, 0;
    }

    function Value(): Session<M>
      reads this
    {
      Session(info, createdAt, lastUsed, ttl, isActive, useCount)
    }

    predicate IsExpired(now: real)
      reads this
    {
      now - lastUsed > ttl as real
    }

    method Touch(now: real)
      modifies this
      ensures Value() == Sessions.Touch(old(Value()), now)
    {
      lastUsed := now;
      useCount := useCount + 1;
    }
  }

  class SessionManager<M> {
    const maxSessions: nat
    const defaultTtl: int
    var sessions: map<Id, SandboxSession<M>>
    var semaphore: nat
    var metrics: Metrics
    var store: map<Id, Mirror.Record<M>>
    ghost var values: map<Id, Session<M>> // what the session objects hold
    ghost var objects: set<SandboxSession<M>> // every session object this manager ever made

    constructor (maxSessions: nat, defaultTtl: int)
      ensures Valid() && objects == {} && Model() == Mirror.Run(maxSessions, [])
    {
      this.maxSessions, this.defaultTtl := maxSessions, defaultTtl;
      sessions, semaphore, store := map[], maxSessions, map[];
      metrics := Metrics(0, 0, 0, 0, 0);
      values, objects := map[], {};
    }

    ghost predicate Valid()
      reads this`sessions, this`values, this`objects, objects
    {
      && values.Keys == sessions.Keys
      && forall id :: id in sessions ==>
           sessions[id] in objects && sessions[id].id == id && sessions[id].Value() == values[id]
    }

    ghost function Core(): Manager<M>
      reads this
    {
      Manager(semaphore, values, metrics)
    }

    ghost function Model(): Mirror.Host<M>
      reads this
    {
      Mirror.Host(Core(), store)
    }

    // -------------------------------------------------------------- single updates

    method SetSemaphore(permits: nat)
      requires Valid()
      modifies this`semaphore
      ensures Valid() && semaphore == permits
    {
      semaphore := permits;
    }

    method SetMetrics(counts: Metrics)
      requires Valid()
      modifies this`metrics
      ensures Valid() && metrics == counts
    {
      metrics := counts;
    }

    /** _save_session_state, with a store that does not fail. */
    method SaveRecord(id: Id, at: real)
      requires Valid() && id in sessions
      modifies this`store
      ensures Valid() && store == Mirror.Save(old(store), id, values[id], at)
    {
      store := Mirror.Save(store, id, sessions[id].Value(), at);
    }

    /** _delete_session_state for each of the ids. */
    method DeleteRecords(ids: set<Id>)
      requires Valid()
      modifies this`store
      ensures Valid() && store == old(store) - ids
    {
      store := store - ids;
    }

    method Deactivate(id: Id)
      requires Valid() && id in sessions
      modifies sessions[id], this`values
      ensures Valid() && values == old(values)[id := old(values)[id].(active := false)]
    {
      sessions[id].isActive := false;
      values := values[id := values[id].(active := false)];
    }

    method Forget(id: Id)
      requires Valid() && id in sessions
      modifies this`sessions, this`values
      ensures Valid() && values == old(values) - {id}
    {
      sessions, values := sessions - {id}, values - {id};
    }

    method Enter(session: SandboxSession<M>)
      requires Valid() && session !in objects
      modifies this`sessions, this`values, this`objects
      ensures Valid() && values == old(values)[session.id := session.Value()] && objects == old(objects) + {session}
    {
      sessions := sessions[session.id := session];
      values := values[session.id := session.Value()];
      objects := objects + {session};
    }

    method TouchSession(id: Id, now: real)
      requires Valid() && id in sessions
      modifies sessions[id], this`values
      ensures Valid() && values == old(values)[id := Touch(old(values)[id], now)]
    {
      sessions[id].Touch(now);
      values := values[id := sessions[id].Value()];
    }

    // -------------------------------------------------------------- lock-held helpers

    /** _destroy_session_unlocked; `raises` is whether sandbox.destroy() raises. */
    method DestroyUnlocked(id: Id, raises: bool) returns (destroyed: bool)
      requires Valid()
      modifies this, objects
      ensures Valid() && objects == old(objects) && store == old(store)
      ensures (Core(), destroyed) == Destroy(old(Core()), id, raises)
    {
      if id !in sessions {
        return false;
      }
      Deactivate(id);
      if raises {
        SetMetrics(metrics.(errors := metrics.errors + 1));
        return false;
      }
      Forget(id);
      assert values == old(values) - {id};
      SetMetrics(metrics.(destroyed := metrics.destroyed + 1));
      SetSemaphore(semaphore + 1);
      return true;
    }

    static lemma MoveOne(ids: set<Id>, left: set<Id>, done: set<Id>, id: Id, raising: set<Id>)
      requires id in left && left <= ids && done == ids - left
      ensures id !in done && left - {id} <= ids && done + {id} == ids - (left - {id})
      ensures done + {id} - raising == done - raising + if id !in raising then {id} else {}
    {
    }

    /** The loop shared by _cleanup_expired and stop(): destroy the given sessions one by one.
        `raising` are the ids whose sandbox raises. */
    method DestroyAll(ids: set<Id>, raising: set<Id>) returns (destroyed: set<Id>)
      requires Valid() && ids <= sessions.Keys
      modifies this, objects
      ensures Valid() && objects == old(objects) && store == old(store)
      ensures Core() == DestroyEach(old(Core()), ids, raising)
      ensures destroyed == ids - raising
    {
      var left := ids;
      destroyed := {};
      ghost var start, done := Core(), {};
      while left != {}
        invariant Valid() && objects == old(objects) && store == old(store)
        invariant left <= ids && done == ids - left
        invariant Core() == DestroyEach(start, done, raising)
        invariant destroyed == done - raising
        decreases left
      {
        var id :| id in left;
        ghost var before := Core();
        var ok := DestroyUnlocked(id, id in raising);
        MoveOne(ids, left, done, id, raising);
        DestroyNext(start, done, id, raising, before, Core(), ok);
        left, done := left - {id}, done + {id};
        destroyed := destroyed + if ok then {id} else {};
      }
      assert done == ids;
    }

    method ExpiredNow(now: real) returns (expired: set<Id>)
      requires Valid()
      ensures expired == ExpiredIds(Core(), now) && expired <= sessions.Keys
    {
      expired := set id | id in sessions && sessions[id].IsExpired(now);
    }

    method RecordExpired(n: nat)
      requires Valid()
      modifies this`metrics
      ensures Valid() && Core() == CountExpired(old(Core()), n)
    {
      metrics := metrics.(expired := metrics.expired + n);
    }

    /** _cleanup_expired */
    method CleanupExpired(now: real, raising: set<Id>) returns (expiredStateIds: set<Id>)
      requires Valid()
      modifies this, objects
      ensures Valid() && objects == old(objects) && store == old(store)
      ensures (Core(), expiredStateIds) == Cleanup(old(Core()), now, raising)
    {
      var expired := ExpiredNow(now);
      expiredStateIds := DestroyAll(expired, raising);
      ghost var after := Core();
      RecordExpired(|expiredStateIds|);
    }

    // -------------------------------------------------------------- calls

    /** One round of the cleanup thread, also the cleanup inside create_session. */
    method CleanupRound(now: real, raising: set<Id>)
      requires Valid()
      modifies this, objects
      ensures Valid() && objects == old(objects)
      ensures Model() == Mirror.CleanupRound(old(Model()), now, raising)
    {
      var gone := CleanupExpired(now, raising);
      DeleteRecords(gone);
    }

    /** Semaphore.acquire(blocking=False) */
    method AcquirePermit() returns (ok: bool)
      requires Valid()
      modifies this`semaphore
      ensures Valid() && Core() == Acquire(old(Core())).0 && ok == Acquire(old(Core())).1
    {
      ok := semaphore > 0;
      if ok {
        semaphore := semaphore - 1;
      }
    }

    /** The first phase of create_session. */
    method TakePermit(c: Mirror.Creation<M>) returns (ok: bool)
      requires Valid()
      modifies this, objects
      ensures Valid() && objects == old(objects)
      ensures (Model(), ok) == Mirror.TakePermit(old(Model()), c)
    {
      ok := AcquirePermit();
      if !ok {
        CleanupRound(c.cleanAt, c.raising);
        ok := AcquirePermit();
      }
    }

    /** create_session from the point where the permit is held. */
    method CompleteCreation(c: Mirror.Creation<M>) returns (result: Mirror.CreateResult)
      requires Valid()
      modifies this
      ensures Valid() && fresh(objects - old(objects)) && objects >= old(objects)
      ensures (Model(), result) == Mirror.FinishCreate(old(Model()), c)
    {
      if !c.built {
        SetSemaphore(semaphore + 1);
        SetMetrics(metrics.(errors := metrics.errors + 1));
        return Mirror.BuildError;
      }
      var session := new SandboxSession(c.id, c.info, c.registerAt, c.ttl);
      Enter(session);
      SetMetrics(metrics.(created := metrics.created + 1));
      SaveRecord(c.id, c.saveAt);
      return Mirror.Created(c.id);
    }

    method CreateSession(requestedTtl: Option<int>, request: Mirror.Creation<M>) returns (result: Mirror.CreateResult)
      requires Valid()
      modifies this, objects
      ensures Valid() && fresh(objects - old(objects)) && objects >= old(objects)
      ensures (Model(), result) ==
        Mirror.Create(old(Model()), request.(ttl := Mirror.EffectiveTtl(requestedTtl, defaultTtl)))
    {
      var c := request.(ttl := Mirror.EffectiveTtl(requestedTtl, defaultTtl));
      var ok := TakePermit(c);
      if !ok {
        return Mirror.LimitReached;
      }
      result := CompleteCreation(c);
    }

    method PeekSession(id: Id, now: real) returns (found: Option<SandboxSession<M>>)
      requires Valid()
      ensures found.Some? <==> Peek(Core(), id, now).Some?
      ensures found.Some? ==>
        id in sessions && found.value == sessions[id] && Peek(Core(), id, now) == Some(found.value.Value())
    {
      if id !in sessions || !sessions[id].isActive || sessions[id].IsExpired(now) {
        return None;
      }
      return Some(sessions[id]);
    }

    /** get_session, reading the clock under the lock at `now` and saving at `saveAt`. */
    method GetSession(id: Id, now: real, saveAt: real, raises: bool) returns (found: bool)
      requires Valid()
      modifies this, objects
      ensures Valid() && objects == old(objects)
      ensures Model() == Mirror.GetSession(old(Model()), id, now, saveAt, raises).0
      ensures found <==> Mirror.GetSession(old(Model()), id, now, saveAt, raises).1.Some?
      ensures found ==>
        id in sessions && Mirror.GetSession(old(Model()), id, now, saveAt, raises).1.value == sessions[id].Value()
    {
      if id !in sessions || !sessions[id].isActive {
        return false;
      }
      if sessions[id].IsExpired(now) {
        var destroyed := DestroyUnlocked(id, raises);
        if destroyed {
          DeleteRecords({id});
        }
        return false;
      }
      TouchSession(id, now);
      SetMetrics(metrics.(reused := metrics.reused + 1));
      SaveRecord(id, saveAt);
      return true;
    }

    method DestroySession(id: Id, raises: bool) returns (destroyed: bool)
      requires Valid()
      modifies this, objects
      ensures Valid() && objects == old(objects)
      ensures (Model(), destroyed) == Mirror.DestroySession(old(Model()), id, raises)
    {
      destroyed := DestroyUnlocked(id, raises);
      if destroyed {
        DeleteRecords({id});
      }
    }

    method Stop(raising: set<Id>)
      requires Valid()
      modifies this, objects
      ensures Valid() && objects == old(objects)
      ensures Model() == Mirror.Stop(old(Model()), raising)
    {
      var _ := DestroyAll(sessions.Keys, raising);
    }
  }
}
