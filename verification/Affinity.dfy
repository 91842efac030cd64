/** Session affinity of the load balancer: a local cache over one Redis hash that has a single
    deadline for all its fields, against a plain map of bindings. One replica, atomic operations. */
module Affinity {
  import opened Options

  type Sid(==,!new)
  type PoolName(==,!new)

  datatype Binding = Binding(pool: PoolName, createdAt: real)

  const TTL := 3600.0

  predicate Expired(b: Binding, now: real) {
    now - b.createdAt > TTL
  }

  /** hash and deadline are what Redis stores; from the deadline on the whole hash is gone. */
  datatype Affinities = Affinities(cache: map<Sid, Binding>, hash: map<Sid, Binding>, deadline: real)

  const EMPTY := Affinities(map[], map[], 0.0)

  function Visible(a: Affinities, now: real): map<Sid, Binding> {
    if now >= a.deadline then map[] else a.hash
  }

  /** _set_session_affinity: HSET, then EXPIRE of the whole hash. */
  function Set(a: Affinities, id: Sid, pool: PoolName, now: real): Affinities {
    var b := Binding(pool, now);
    Affinities(a.cache[id := b], Visible(a, now)[id := b], now + TTL)
  }

  /** _get_session_affinity: the cache first, then Redis; expired bindings are dropped on the way. */
  function Get(a: Affinities, id: Sid, now: real): (Affinities, Option<Binding>) {
    if id in a.cache && !Expired(a.cache[id], now) then (a, Some(a.cache[id]))
    else
      var cache, hash := a.cache - {id}, Visible(a, now);
      if id !in hash then (a.(cache := cache, hash := hash), None)
      else if Expired(hash[id], now) then (a.(cache := cache, hash := hash - {id}), None)
      else (a.(cache := cache[id := hash[id]], hash := hash), Some(hash[id]))
  }

  /** The affinity part of release_session. */
  function Clear(a: Affinities, id: Sid, now: real): Affinities {
    a.(cache := a.cache - {id}, hash := Visible(a, now) - {id})
  }

  /** A restart of the replica loses the cache and nothing else. */
  function Restart(a: Affinities): Affinities {
    a.(cache := map[])
  }

  // ---------------------------------------------------------------- runs

  datatype Event =
    | SetAt(id: Sid, pool: PoolName, now: real)
    | GetAt(id: Sid, now: real)
    | ClearAt(id: Sid, now: real)
    | RestartAt(now: real)

  function Step(a: Affinities, e: Event): Affinities {
    match e
    case SetAt(id, pool, now) => Set(a, id, pool, now)
    case GetAt(id, now) => Get(a, id, now).0
    case ClearAt(id, now) => Clear(a, id, now)
    case RestartAt(_) => Restart(a)
  }

  function Run(es: seq<Event>): Affinities {
    if es == [] then EMPTY else Step(Run(es[..|es| - 1]), es[|es| - 1])
  }

  function PlainStep(plain: map<Sid, Binding>, e: Event): map<Sid, Binding> {
    match e
    case SetAt(id, pool, now) => plain[id := Binding(pool, now)]
    case ClearAt(id, _) => plain - {id}
    case GetAt(_, _) => plain
    case RestartAt(_) => plain
  }

  /** The reference: bindings set and not cleared since. */
  function Plain(es: seq<Event>): map<Sid, Binding> {
    if es == [] then map[] else PlainStep(Plain(es[..|es| - 1]), es[|es| - 1])
  }

  /** The latest binding, unless it is older than an hour. */
  function Lookup(plain: map<Sid, Binding>, id: Sid, now: real): Option<Binding> {
    if id in plain && now - plain[id].createdAt <= 3600.0 then Some(plain[id]) else None
  }

  /** The clock never runs backwards over the run. */
  ghost predicate Monotone(es: seq<Event>) {
    forall i, j :: 0 <= i < j < |es| ==> es[i].now <= es[j].now
  }

  function Clock(es: seq<Event>): real {
    if es == [] then 0.0 else es[|es| - 1].now
  }

  // ---------------------------------------------------------------- invariant

  /** Cache and hash hold only true bindings; the whole-hash deadline is never earlier than the expiry
      of any binding; and a binding missing from the hash has reached its ttl. */
  ghost predicate Faithful(a: Affinities, plain: map<Sid, Binding>, clock: real) {
    && (forall id :: id in a.cache ==> id in plain && a.cache[id] == plain[id])
    && (forall id :: id in a.hash ==> id in plain && a.hash[id] == plain[id])
    && (forall id :: id in plain ==>
          && plain[id].createdAt <= clock
          && plain[id].createdAt + TTL <= a.deadline
          && (id in a.hash || plain[id].createdAt + TTL <= clock))
  }

  lemma MonotonePrefix(es: seq<Event>)
    requires |es| > 0 && Monotone(es)
    ensures Monotone(es[..|es| - 1])
    ensures |es| > 1 ==> Clock(es[..|es| - 1]) <= Clock(es)
  {
  }

  lemma StepIsFaithful(a: Affinities, plain: map<Sid, Binding>, clock: real, e: Event)
    requires Faithful(a, plain, clock) && clock <= e.now
    ensures Faithful(Step(a, e), PlainStep(plain, e), e.now)
  {
  }

  lemma {:induction false} RunIsFaithful(es: seq<Event>)
    requires Monotone(es)
    ensures es != [] ==> Faithful(Run(es), Plain(es), Clock(es))
    ensures es == [] ==> Plain(es) == map[] && Run(es) == EMPTY
  {
    if es != [] {
      var before, e := es[..|es| - 1], es[|es| - 1];
      MonotonePrefix(es);
      RunIsFaithful(before);
      if before == [] {
        assert Faithful(EMPTY, map[], e.now);
        StepIsFaithful(EMPTY, map[], e.now, e);
      } else {
        StepIsFaithful(Run(before), Plain(before), Clock(before), e);
      }
    }
  }

  /** Over every run with restarts: a lookup returns the latest unreleased binding with age at most the
      ttl, and it misses one exactly when the binding is at its very last instant, the cache was lost,
      and the hash has just gone. */
  lemma AffinityRefinesMap(es: seq<Event>, id: Sid, now: real)
    requires Monotone(es) && (es != [] ==> Clock(es) <= now)
    ensures var a, plain := Run(es), Plain(es);
      Get(a, id, now).1 == Lookup(plain, id, now) <==>
        !(id in plain && now == plain[id].createdAt + TTL && id !in a.cache && id !in Visible(a, now))
  {
    RunIsFaithful(es);
  }

  /** Nothing is ever returned that is not the latest unreleased binding. */
  lemma NeverStale(es: seq<Event>, id: Sid, now: real)
    requires Monotone(es) && (es != [] ==> Clock(es) <= now)
    requires Get(Run(es), id, now).1.Some?
    ensures Lookup(Plain(es), id, now) == Get(Run(es), id, now).1
  {
    RunIsFaithful(es);
  }

  /** Without restarts the cache keeps every binding up to and including its last instant, so the
      lookup is the reference lookup with no exception. */
  lemma {:induction false} CacheKeepsLive(es: seq<Event>, id: Sid)
    requires Monotone(es) && forall i :: 0 <= i < |es| ==> !es[i].RestartAt?
    requires id in Plain(es)
    ensures id in Run(es).cache || Expired(Plain(es)[id], Clock(es))
  {
    var n := |es| - 1;
    MonotonePrefix(es);
    RunIsFaithful(es[..n]);
    if id in Plain(es[..n]) {
      CacheKeepsLive(es[..n], id);
    }
  }

  lemma ExactWithoutRestart(es: seq<Event>, id: Sid, now: real)
    requires Monotone(es) && (es != [] ==> Clock(es) <= now)
    requires forall i :: 0 <= i < |es| ==> !es[i].RestartAt?
    ensures Get(Run(es), id, now).1 == Lookup(Plain(es), id, now)
  {
    RunIsFaithful(es);
    if id in Plain(es) {
      CacheKeepsLive(es, id);
    }
  }
}
