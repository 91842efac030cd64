/** Assignments suspended between the capacity test and the increment. A pool object is identified by a
    handle: re-registering a name makes a new object, and a suspended assignment keeps the old one. */
module Capacity {

  type Handle(==,!new)

  datatype Counter = Counter(current: int, max: int)

  /** `choosing` holds, per suspended assignment, the pool object it chose. */
  datatype World = World(pools: map<Handle, Counter>, choosing: multiset<Handle>)

  const EMPTY := World(map[], multiset{})

  datatype Event =
    | Created(pool: Handle, max: int)   // register_pool makes the object
    | Chosen(pool: Handle)              // capacity test passed, the coroutine awaits
    | Counted(pool: Handle)             // the coroutine resumes and increments
    | Released(pool: Handle)            // release_session, clamped at zero

  /** n is the number of assignments that may be suspended at a time. */
  function Step(n: nat, w: World, e: Event): World {
    match e
    case Created(p, max) => if p in w.pools then w else w.(pools := w.pools[p := Counter(0, max)])
    case Chosen(p) =>
      if p in w.pools && w.pools[p].current < w.pools[p].max && |w.choosing| < n then
        w.(choosing := w.choosing + multiset{p})
      else w
    case Counted(p) =>
      if p in w.pools && p in w.choosing then
        World(w.pools[p := w.pools[p].(current := w.pools[p].current + 1)], w.choosing - multiset{p})
      else w
    case Released(p) =>
      if p in w.pools then
        w.(pools := w.pools[p := w.pools[p].(current := if w.pools[p].current > 1 then w.pools[p].current - 1 else 0)])
      else w
  }

  function RunFrom(n: nat, w: World, es: seq<Event>): World {
    if es == [] then w else Step(n, RunFrom(n, w, es[..|es| - 1]), es[|es| - 1])
  }

  function Run(n: nat, es: seq<Event>): World {
    RunFrom(n, EMPTY, es)
  }

  lemma StepLast(n: nat, w: World, es: seq<Event>, e: Event)
    ensures RunFrom(n, w, es + [e]) == Step(n, RunFrom(n, w, es), e)
  {
    assert (es + [e])[..|es|] == es;
  }

  ghost predicate Bounded(n: nat, w: World) {
    && |w.choosing| <= n
    && (forall p :: p in w.choosing ==> p in w.pools)
    && forall p :: p in w.pools ==>
         && 0 <= w.pools[p].current
         && (w.pools[p].current + w.choosing[p] == 0
             || w.pools[p].current + w.choosing[p] <= w.pools[p].max + n - 1)
  }

  lemma CountedOnce(s: multiset<Handle>, p: Handle)
    ensures s[p] <= |s|
  {
    if p in s {
      assert s == s[p := 0] + multiset{}[p := s[p]];
    }
  }

  lemma StepBounded(n: nat, w: World, e: Event)
    requires Bounded(n, w)
    ensures Bounded(n, Step(n, w, e))
  {
    var after := Step(n, w, e);
    if e.Chosen? {
      CountedOnce(after.choosing, e.pool);
    }
  }

  /** In every reachable state, with at most n assignments suspended at a time: a pool's counter is never
      negative, and the counter plus the suspended choices of the pool exceed its maximum by at most n - 1. */
  lemma {:induction false} CapacityUnderSuspension(n: nat, es: seq<Event>)
    ensures Bounded(n, Run(n, es))
  {
    if es != [] {
      CapacityUnderSuspension(n, es[..|es| - 1]);
      StepBounded(n, Run(n, es[..|es| - 1]), es[|es| - 1]);
    }
  }

  /** Without concurrency the cap is exact. */
  lemma SequentialCapIsExact(es: seq<Event>, p: Handle)
    requires p in Run(1, es).pools && Run(1, es).pools[p].max >= 0
    ensures 0 <= Run(1, es).pools[p].current <= Run(1, es).pools[p].max
  {
    CapacityUnderSuspension(1, es);
  }

  // ---------------------------------------------------------------- the bound is attained

  /** One pool, with m assignments suspended on it. */
  function Solo(p: Handle, c: Counter, m: nat): World {
    World(map[p := c], multiset{}[p := m])
  }

  lemma ChoosingStep(n: nat, p: Handle, c: Counter, m: nat)
    requires m < n && c.current < c.max
    ensures Step(n, Solo(p, c, m), Chosen(p)) == Solo(p, c, m + 1)
  {
    assert |multiset{}[p := m]| == m;
    assert multiset{}[p := m] + multiset{p} == multiset{}[p := m + 1];
  }

  lemma CountingStep(n: nat, p: Handle, c: Counter, m: nat)
    requires m > 0
    ensures Step(n, Solo(p, c, m), Counted(p)) == Solo(p, c.(current := c.current + 1), m - 1)
  {
    assert multiset{}[p := m] - multiset{p} == multiset{}[p := m - 1];
    assert map[p := c][p := c.(current := c.current + 1)] == map[p := c.(current := c.current + 1)];
  }

  /** k assignments, one at a time. */
  lemma {:induction false} FillUp(n: nat, p: Handle, max: int, k: nat) returns (es: seq<Event>)
    requires n >= 1 && k < max
    ensures Run(n, es) == Solo(p, Counter(k, max), 0)
  {
    if k == 0 {
      StepLast(n, EMPTY, [], Created(p, max));
      es := [] + [Created(p, max)];
      assert multiset{}[p := 0] == multiset{};
    } else {
      var before := FillUp(n, p, max, k - 1);
      StepLast(n, EMPTY, before, Chosen(p));
      ChoosingStep(n, p, Counter(k - 1, max), 0);
      StepLast(n, EMPTY, before + [Chosen(p)], Counted(p));
      CountingStep(n, p, Counter(k - 1, max), 1);
      assert Counter(k - 1, max).(current := k - 1 + 1) == Counter(k, max);
      es := before + [Chosen(p)] + [Counted(p)];
    }
  }

  /** Then m assignments choose the pool before the first of them counts. */
  lemma {:induction false} AllChoose(n: nat, es: seq<Event>, p: Handle, c: Counter, m: nat) returns (all: seq<Event>)
    requires m <= n && c.current < c.max && Run(n, es) == Solo(p, c, 0)
    ensures Run(n, all) == Solo(p, c, m)
  {
    if m == 0 {
      all := es;
    } else {
      var before := AllChoose(n, es, p, c, m - 1);
      StepLast(n, EMPTY, before, Chosen(p));
      ChoosingStep(n, p, c, m - 1);
      all := before + [Chosen(p)];
    }
  }

  lemma OneMoreCounts(n: nat, es: seq<Event>, p: Handle, c: Counter, m: nat)
    requires m > 0 && Run(n, es) == Solo(p, c, m)
    ensures Run(n, es + [Counted(p)]) == Solo(p, c.(current := c.current + 1), m - 1)
  {
    StepLast(n, EMPTY, es, Counted(p));
    CountingStep(n, p, c, m);
  }

  /** Then k of them count. */
  lemma {:induction false} AllCount(n: nat, es: seq<Event>, p: Handle, c: Counter, m: nat, k: nat)
    returns (all: seq<Event>)
    requires k <= m && Run(n, es) == Solo(p, c, m)
    ensures Run(n, all) == Solo(p, Counter(c.current + k, c.max), m - k)
  {
    hide RunFrom, Step, Solo;
    if k == 0 {
      assert Counter(c.current + k, c.max) == c;
      all := es;
    } else {
      var before := AllCount(n, es, p, c, m, k - 1);
      var counter := Counter(c.current + (k - 1), c.max);
      OneMoreCounts(n, before, p, counter, m - (k - 1));
      assert counter.(current := counter.current + 1) == Counter(c.current + k, c.max);
      all := before + [Counted(p)];
    }
  }

  /** The overshoot really happens: with n assignments suspended at a time, some run takes a pool of
      maximum max >= 1 to max + n - 1 sessions, so the cap holds over all runs only for n = 1. */
  lemma OvershootAttained(n: nat, p: Handle, max: int) returns (es: seq<Event>)
    requires n >= 1 && max >= 1
    ensures Run(n, es) == Solo(p, Counter(max + n - 1, max), 0)
  {
    var full := FillUp(n, p, max, max - 1);
    var c := Counter(max - 1, max);
    var chosen := AllChoose(n, full, p, c, n);
    assert Counter(c.current + n, c.max) == Counter(max + n - 1, max);
    es := AllCount(n, chosen, p, c, n, n);
  }
}
