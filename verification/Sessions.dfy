/** The sandbox session manager as a value, and the steps it takes while holding its lock.
    Times are reals on one clock; one lock-held step reads one instant. */
module Sessions {
  import opened Options

  type Id(==,!new)

  /** M is what the caller attaches at creation: the template and the metadata. */
  datatype Session<M> = Session(info: M, createdAt: real, lastUsed: real, ttl: int, active: bool, useCount: nat)

  datatype Metrics = Metrics(created: nat, reused: nat, destroyed: nat, expired: nat, errors: nat)

  /** The free permits of the creation semaphore, the registered sessions and the counters. */
  datatype Manager<M> = Manager(permits: nat, sessions: map<Id, Session<M>>, metrics: Metrics)

  function Start<M>(maxSessions: nat): Manager<M> {
    Manager(maxSessions, map[], Metrics(0, 0, 0, 0, 0))
  }

  predicate Expired<M>(s: Session<M>, now: real) {
    now - s.lastUsed > s.ttl as real
  }

  function NewSession<M>(info: M, ttl: int, now: real): Session<M> {
    Session(info, now, now, ttl, true, 0)
  }

  function Touch<M>(s: Session<M>, now: real): Session<M> {
    s.(lastUsed := now, useCount := s.useCount + 1)
  }

  // ---------------------------------------------------------------- lock-held steps

  function CountError<M>(m: Manager<M>): Manager<M> {
    m.(metrics := m.metrics.(errors := m.metrics.errors + 1))
  }

  /** Semaphore.acquire(blocking=False) */
  function Acquire<M>(m: Manager<M>): (Manager<M>, bool) {
    if m.permits > 0 then (m.(permits := m.permits - 1), true) else (m, false)
  }

  function Register<M>(m: Manager<M>, id: Id, s: Session<M>): Manager<M> {
    m.(sessions := m.sessions[id := s], metrics := m.metrics.(created := m.metrics.created + 1))
  }

  /** A creation that failed after it took a permit. */
  function GiveUp<M>(m: Manager<M>): Manager<M> {
    CountError(m.(permits := m.permits + 1))
  }

  /** _destroy_session_unlocked: `raises` says whether the sandbox refuses to be destroyed, in which
      case the session stays registered, inactive, and keeps its permit. */
  function Destroy<M>(m: Manager<M>, id: Id, raises: bool): (Manager<M>, bool) {
    if id !in m.sessions then (m, false)
    else if raises then (CountError(m.(sessions := m.sessions[id := m.sessions[id].(active := false)])), false)
    else (m.(permits := m.permits + 1, sessions := m.sessions - {id},
             metrics := m.metrics.(destroyed := m.metrics.destroyed + 1)), true)
  }

  function ExpiredIds<M>(m: Manager<M>, now: real): set<Id> {
    set id | id in m.sessions && Expired(m.sessions[id], now)
  }

  /** The sessions left when those in `ids` were destroyed; those whose sandbox raised stay, inactive. */
  function SessionsLeft<M>(sessions: map<Id, Session<M>>, ids: set<Id>, raises: set<Id>): map<Id, Session<M>> {
    map id | id in sessions && !(id in ids && id !in raises) ::
      if id in ids then sessions[id].(active := false) else sessions[id]
  }

  /** The outcome of destroying the sessions in `ids` one after the other. */
  function DestroyEach<M>(m: Manager<M>, ids: set<Id>, raises: set<Id>): Manager<M> {
    var gone, stuck := ids - raises, ids * raises;
    Manager(m.permits + |gone|, SessionsLeft(m.sessions, ids, raises),
            m.metrics.(destroyed := m.metrics.destroyed + |gone|, errors := m.metrics.errors + |stuck|))
  }

  /** DestroyEach is what a loop over the ids computes, whatever the order. */
  lemma DestroyOneMore<M>(m: Manager<M>, done: set<Id>, id: Id, raises: set<Id>)
    requires id in m.sessions && id !in done
    ensures DestroyEach(m, done + {id}, raises) == Destroy(DestroyEach(m, done, raises), id, id in raises).0
    ensures Destroy(DestroyEach(m, done, raises), id, id in raises).1 <==> id !in raises
  {
    if id in raises {
      assert done + {id} - raises == done - raises;
      assert (done + {id}) * raises == done * raises + {id};
    } else {
      assert done + {id} - raises == done - raises + {id};
      assert (done + {id}) * raises == done * raises;
    }
    assert DestroyEach(m, done + {id}, raises).sessions
      == Destroy(DestroyEach(m, done, raises), id, id in raises).0.sessions;
  }

  lemma DestroyNext<M>(m: Manager<M>, done: set<Id>, id: Id, raises: set<Id>, before: Manager<M>, after: Manager<M>,
                       ok: bool)
    requires id in m.sessions && id !in done
    requires before == DestroyEach(m, done, raises) && (after, ok) == Destroy(before, id, id in raises)
    ensures after == DestroyEach(m, done + {id}, raises) && (ok <==> id !in raises)
  {
    DestroyOneMore(m, done, id, raises);
  }

  function CountExpired<M>(m: Manager<M>, n: nat): Manager<M> {
    m.(metrics := m.metrics.(expired := m.metrics.expired + n))
  }

  /** _cleanup_expired, with the set of ids whose record must then leave the state store. */
  function Cleanup<M>(m: Manager<M>, now: real, raises: set<Id>): (Manager<M>, set<Id>) {
    var expired := ExpiredIds(m, now);
    (CountExpired(DestroyEach(m, expired, raises), |expired - raises|), expired - raises)
  }

  /** peek_session and the guard of get_session. */
  function Peek<M>(m: Manager<M>, id: Id, now: real): Option<Session<M>> {
    if id in m.sessions && m.sessions[id].active && !Expired(m.sessions[id], now) then Some(m.sessions[id])
    else None
  }

  datatype Lookup<M> = Missing | Destroyed | Found(session: Session<M>)

  /** The lock-held part of get_session: an expired session is destroyed, a live one touched. */
  function Get<M>(m: Manager<M>, id: Id, now: real, raises: bool): (Manager<M>, Lookup<M>) {
    if id !in m.sessions || !m.sessions[id].active then (m, Missing)
    else if Expired(m.sessions[id], now) then
      var (after, destroyed) := Destroy(m, id, raises);
      (after, if destroyed then Destroyed else Missing)
    else
      var touched := Touch(m.sessions[id], now);
      (m.(sessions := m.sessions[id := touched], metrics := m.metrics.(reused := m.metrics.reused + 1)), Found(touched))
  }

  // ---------------------------------------------------------------- what the steps do to one session

  /** A destruction touches one session: it goes and frees its permit, or its sandbox raises and it stays,
      inactive, and an error is counted. */
  lemma DestroyExactly<M>(m: Manager<M>, id: Id, raises: bool)
    ensures var (after, destroyed) := Destroy(m, id, raises);
      && (destroyed <==> id in m.sessions && !raises)
      && (id in after.sessions <==> id in m.sessions && raises)
      && (id in after.sessions ==> !after.sessions[id].active && after.sessions[id] == m.sessions[id].(active := false))
      && after.sessions - {id} == m.sessions - {id}
      && after.permits - m.permits == |m.sessions| - |after.sessions| == (if destroyed then 1 else 0)
      && after.metrics.errors - m.metrics.errors == (if id in m.sessions && raises then 1 else 0)
      && after.metrics.expired == m.metrics.expired && after.metrics.reused == m.metrics.reused
  {
    if id in m.sessions {
      assert (m.sessions - {id}).Keys == m.sessions.Keys - {id};
      assert m.sessions[id := m.sessions[id].(active := false)].Keys == m.sessions.Keys;
    }
  }

  /** A cleanup destroys exactly the sessions idle for longer than their ttl; those whose sandbox raises stay,
      inactive. Every other session is as it was, so no lookup at that instant is answered differently. */
  lemma CleanupExactly<M>(m: Manager<M>, now: real, raises: set<Id>, id: Id)
    ensures var (after, gone) := Cleanup(m, now, raises);
      && (id in after.sessions <==>
            id in m.sessions && (now - m.sessions[id].lastUsed <= m.sessions[id].ttl as real || id in raises))
      && (id in gone <==> id in m.sessions && id !in after.sessions)
      && (id in after.sessions && now - m.sessions[id].lastUsed <= m.sessions[id].ttl as real ==>
            after.sessions[id] == m.sessions[id])
      && (id in after.sessions && now - m.sessions[id].lastUsed > m.sessions[id].ttl as real ==>
            !after.sessions[id].active)
      && Peek(after, id, now) == Peek(m, id, now)
  {
  }

  lemma CleanupCounters<M>(m: Manager<M>, now: real, raises: set<Id>)
    ensures var (after, gone) := Cleanup(m, now, raises);
      && after.permits == m.permits + |gone|
      && after.metrics.destroyed == m.metrics.destroyed + |gone| && after.metrics.expired == m.metrics.expired + |gone|
      && after.metrics.errors == m.metrics.errors
           + |set id | id in m.sessions && id in raises
                       && now - m.sessions[id].lastUsed > m.sessions[id].ttl as real|
      && after.metrics.created == m.metrics.created && after.metrics.reused == m.metrics.reused
  {
    assert ExpiredIds(m, now) * raises
        == set id | id in m.sessions && id in raises && now - m.sessions[id].lastUsed > m.sessions[id].ttl as real;
  }

  /** A lookup finds exactly a registered, active session idle for no longer than its ttl. It then touches
      that session and no other; one that is active but idle for longer it destroys; otherwise it does nothing. */
  lemma LookupExactly<M>(m: Manager<M>, id: Id, now: real, raises: bool)
    ensures var (after, found) := Get(m, id, now, raises);
      var active := id in m.sessions && m.sessions[id].active;
      var idle := if id in m.sessions then now - m.sessions[id].lastUsed else 0.0;
      && (found.Found? <==> active && idle <= m.sessions[id].ttl as real)
      && (found.Found? <==> Peek(m, id, now).Some?)
      && (found.Found? ==>
            && after.sessions.Keys == m.sessions.Keys && after.sessions[id] == found.session
            && found.session == m.sessions[id].(lastUsed := now, useCount := m.sessions[id].useCount + 1)
            && after.metrics == m.metrics.(reused := m.metrics.reused + 1) && after.permits == m.permits)
      && (active && idle > m.sessions[id].ttl as real ==> after == Destroy(m, id, raises).0)
      && (!active ==> after == m)
      && after.sessions - {id} == m.sessions - {id}
      && (found.Destroyed? <==> id in m.sessions && id !in after.sessions)
      && (Peek(m, id, now).Some? ==> Peek(m, id, now) == Some(m.sessions[id]))
  {
    DestroyExactly(m, id, raises);
  }
}
