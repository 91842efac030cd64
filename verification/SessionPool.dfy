/** SessionPool as a class over a session manager. */
module SessionPool {
  import opened Options
  import opened Sessions
  import Mirror = SessionMirror
  import opened SessionManager

  /** acquire's loop on values: heads are looked up, the k-th at instant at(k), until one is live. */
  function TakeHead<M>(h: Mirror.Host<M>, pool: seq<Id>, at: nat -> real, raising: set<Id>, k: nat)
    : (Mirror.Host<M>, seq<Id>, Option<Id>)
    decreases |pool|
  {
    if pool == [] then (h, [], None)
    else
      var (after, found) := Mirror.GetSession(h, pool[0], at(k), at(k), pool[0] in raising);
      if found.Some? then (after, pool[1..], Some(pool[0]))
      else TakeHead(after, pool[1..], at, raising, k + 1)
  }

  ghost predicate Distinct(ids: seq<Id>) {
    forall i, j :: 0 <= i < j < |ids| ==> ids[i] != ids[j]
  }

  /** None of the sessions is found at the instant of its lookup. */
  ghost predicate AllDead<M>(m: Manager<M>, ids: seq<Id>, at: nat -> real, k: nat) {
    forall j :: 0 <= j < |ids| ==> Peek(m, ids[j], at(k + j)).None?
  }

  lemma LookupOfOther<M>(h: Mirror.Host<M>, id: Id, now: real, raises: bool, other: Id, later: real)
    requires other != id
    ensures Peek(Mirror.GetSession(h, id, now, now, raises).0.manager, other, later) == Peek(h.manager, other, later)
  {
    LookupExactly(h.manager, id, now, raises);
    var after := Get(h.manager, id, now, raises).0;
    assert other in after.sessions <==> other in after.sessions - {id};
    assert other in h.manager.sessions <==> other in h.manager.sessions - {id};
    if other in h.manager.sessions {
      assert (after.sessions - {id})[other] == (h.manager.sessions - {id})[other];
    }
  }

  /** The loop ends with the first head that is live at the instant of its lookup, touched at that instant, and
      keeps the ids behind it; if no head is live it empties the pool. (That the heads it passes were dead is
      said of a pool of distinct ids, as every reachable one is.) */
  lemma {:induction false} TakeHeadFinds<M>(h: Mirror.Host<M>, pool: seq<Id>, at: nat -> real, raising: set<Id>, k: nat)
    returns (skipped: nat)
    ensures skipped <= |pool| && (Distinct(pool) ==> AllDead(h.manager, pool[..skipped], at, k))
    ensures var (after, rest, got) := TakeHead(h, pool, at, raising, k);
      match got
      case None => rest == [] && skipped == |pool|
      case Some(id) =>
        && skipped < |pool| && id == pool[skipped] && rest == pool[skipped + 1..]
        && (Distinct(pool) ==> Peek(h.manager, id, at(k + skipped)).Some?)
        && id in after.manager.sessions
        && after.manager.sessions[id].active
        && after.manager.sessions[id].lastUsed == at(k + skipped)
        && after.manager.sessions[id].useCount > 0
    decreases |pool|
  {
    skipped := 0;
    if pool != [] {
      LookupExactly(h.manager, pool[0], at(k), pool[0] in raising);
      var (after, found) := Mirror.GetSession(h, pool[0], at(k), at(k), pool[0] in raising);
      if found.None? {
        var more := TakeHeadFinds(after, pool[1..], at, raising, k + 1);
        skipped := more + 1;
        if Distinct(pool) {
          forall j | 0 < j < |pool|
            ensures Peek(after.manager, pool[1..][j - 1], at(k + 1 + (j - 1))) == Peek(h.manager, pool[j], at(k + j))
          {
            LookupOfOther(h, pool[0], at(k), pool[0] in raising, pool[j], at(k + j));
          }
          assert forall j :: 0 < j < skipped ==> pool[..skipped][j] == pool[1..][..more][j - 1];
        }
      }
    }
  }

  class SessionPool<M> {
    const manager: SessionManager<M>
    const maxSize: int
    var pool: seq<Id>

    constructor (manager: SessionManager<M>, maxSize: int)
      ensures this.manager == manager && this.maxSize == maxSize && pool == []
    {
      this.manager, this.maxSize := manager, maxSize;
      pool := [];
    }

    /** One turn of _initialize_pool. */
    method Prewarm(c: Mirror.Creation<M>)
      requires manager.Valid()
      modifies this, manager, manager.objects
      ensures manager.Valid()
      ensures var (after, result) :=
          Mirror.Create(old(manager.Model()), c.(ttl := Mirror.EffectiveTtl(None, manager.defaultTtl)));
        && manager.Model() == after
        && pool == old(pool) + if result.Created? then [result.id] else []
    {
      var result := manager.CreateSession(None, c);
      if result.Created? {
        pool := pool + [result.id];
      }
    }

    /** acquire; `c` is what a creation would draw from outside. */
    method Acquire(at: nat -> real, raising: set<Id>, c: Mirror.Creation<M>) returns (lease: Option<Id>)
      requires manager.Valid()
      modifies this, manager, manager.objects
      ensures manager.Valid()
      ensures var (after, rest, got) := TakeHead(old(manager.Model()), old(pool), at, raising, 0);
        && pool == rest
        && if got.Some? then lease == got && manager.Model() == after
           else if 0 < maxSize then
             var (final, result) := Mirror.Create(after, c.(ttl := Mirror.EffectiveTtl(None, manager.defaultTtl)));
             manager.Model() == final && lease == if result.Created? then Some(result.id) else None
           else lease == None && manager.Model() == after
    {
      var k := 0;
      while pool != []
        invariant manager.Valid() && manager.objects == old(manager.objects)
        invariant TakeHead(manager.Model(), pool, at, raising, k)
          == TakeHead(old(manager.Model()), old(pool), at, raising, 0)
        decreases |pool|
      {
        var id := pool[0];
        pool := pool[1..];
        var found := manager.GetSession(id, at(k), at(k), id in raising);
        if found {
          return Some(id);
        }
        k := k + 1;
      }
      if |pool| < maxSize {
        var result := manager.CreateSession(None, c);
        if result.Created? {
          return Some(result.id);
        }
      }
      return None;
    }

    /** release; the session goes back if it is live and there is room, else it is destroyed. */
    method Release(id: Id, destroy: bool, now: real, raises: bool)
      requires manager.Valid()
      modifies this, manager, manager.objects
      ensures manager.Valid()
      ensures var (looked, found) := Mirror.GetSession(old(manager.Model()), id, now, now, raises);
        if destroy then
          pool == old(pool) && manager.Model() == Mirror.DestroySession(old(manager.Model()), id, raises).0
        else if found.Some? && |old(pool)| < maxSize then
          pool == old(pool) + [id] && manager.Model() == looked
        else
          pool == old(pool) && manager.Model() == Mirror.DestroySession(looked, id, raises).0
    {
      if destroy {
        var _ := manager.DestroySession(id, raises);
        return;
      }
      var found := manager.GetSession(id, now, now, raises);
      if found && |pool| < maxSize {
        pool := pool + [id];
      } else {
        var _ := manager.DestroySession(id, raises);
      }
    }
  }
}
