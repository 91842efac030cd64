/** The global load balancer as a value: endpoints, breakers and affinities, calls one at a time. */
module Balancer {
  import opened Options
  import opened Affinity
  import CB = CircuitBreaker
  import Selection

  type Region(==,!new)

  datatype Endpoint = Endpoint(region: Region, priority: int, queueDepth: int, load: Selection.Pool)

  /** `order` is the insertion order of the pools dictionary. */
  datatype Balancer = Balancer(order: seq<PoolName>, endpoints: map<PoolName, Endpoint>,
                               breakers: map<PoolName, CB.Breaker>, affinities: Affinities)

  const DEFAULTS := CB.Config(5, 30.0, 3)

  ghost predicate WellFormed(b: Balancer) {
    && b.endpoints.Keys == b.breakers.Keys
    && (forall i :: 0 <= i < |b.order| ==> b.order[i] in b.endpoints)
    && (forall i, j :: 0 <= i < j < |b.order| ==> b.order[i] != b.order[j])
    && (forall p :: p in b.endpoints ==> p in b.order)
    && (forall p :: p in b.endpoints ==> b.endpoints[p].load.currentSessions >= 0)
  }

  // ---------------------------------------------------------------- availability

  predicate Fits(e: Endpoint) {
    e.load.status in {Selection.Healthy, Selection.Degraded}
    && e.load.currentSessions < e.load.maxSessions && e.queueDepth <= 50
  }

  /** The first n pools in dictionary order: their breakers after being asked, and those available. */
  function Scan(b: Balancer, now: real, n: nat): (map<PoolName, CB.Breaker>, seq<PoolName>)
    requires WellFormed(b) && n <= |b.order|
  {
    if n == 0 then (b.breakers, [])
    else
      var (breakers, available) := Scan(b, now, n - 1);
      var name := b.order[n - 1];
      var (asked, admitted) := CB.OnAsk(DEFAULTS, b.breakers[name], now);
      (breakers[name := asked], if admitted && Fits(b.endpoints[name]) then available + [name] else available)
  }

  lemma ScanNone(b: Balancer, now: real)
    requires WellFormed(b)
    ensures Scan(b, now, 0) == (b.breakers, [])
  {
  }

  function Available(b: Balancer, now: real): (map<PoolName, CB.Breaker>, seq<PoolName>)
    requires WellFormed(b)
  {
    Scan(b, now, |b.order|)
  }

  lemma {:induction false} ScanKeys(b: Balancer, now: real, n: nat)
    requires WellFormed(b) && n <= |b.order|
    ensures Scan(b, now, n).0.Keys == b.breakers.Keys
  {
    if n > 0 {
      ScanKeys(b, now, n - 1);
    }
  }

  /** A pool is available exactly when its breaker admits the request and it fits. */
  lemma {:induction false} AvailableExactly(b: Balancer, now: real, n: nat, p: PoolName)
    requires WellFormed(b) && n <= |b.order|
    ensures p in Scan(b, now, n).1 <==>
      p in b.order[..n] && CB.OnAsk(DEFAULTS, b.breakers[p], now).1 && Fits(b.endpoints[p])
  {
    if n > 0 {
      AvailableExactly(b, now, n - 1, p);
      assert b.order[..n] == b.order[..n - 1] + [b.order[n - 1]];
    }
  }

  // ---------------------------------------------------------------- order of the available pools

  predicate Roomy(endpoints: map<PoolName, Endpoint>, p: PoolName) {
    p in endpoints && Selection.HasCapacity(endpoints[p].load)
  }

  function Distance(e: Endpoint, preferred: Option<Region>): int {
    if preferred == None || preferred == Some(e.region) then 0 else 1
  }

  function Utilisation(e: Endpoint): real
    requires e.load.maxSessions > 0
  {
    e.load.currentSessions as real / e.load.maxSessions as real
  }

  /** The key _get_available_pools sorts by: preferred region first if asked for, then priority, then
      utilisation, whose division needs a positive maximum. */
  predicate SortsBefore(endpoints: map<PoolName, Endpoint>, preferred: Option<Region>, p: PoolName, q: PoolName)
    requires Roomy(endpoints, p) && Roomy(endpoints, q)
  {
    var e, f := endpoints[p], endpoints[q];
    if Distance(e, preferred) != Distance(f, preferred) then Distance(e, preferred) < Distance(f, preferred)
    else if e.priority != f.priority then e.priority < f.priority
    else Utilisation(e) < Utilisation(f)
  }

  predicate AllRoomy(endpoints: map<PoolName, Endpoint>, s: seq<PoolName>) {
    forall i :: 0 <= i < |s| ==> Roomy(endpoints, s[i])
  }

  function InsertSorted(endpoints: map<PoolName, Endpoint>, preferred: Option<Region>, p: PoolName, s: seq<PoolName>)
    : (r: seq<PoolName>)
    requires Roomy(endpoints, p) && AllRoomy(endpoints, s)
    ensures |r| == |s| + 1 && AllRoomy(endpoints, r)
  {
    if s == [] || !SortsBefore(endpoints, preferred, s[0], p) then [p] + s
    else [s[0]] + InsertSorted(endpoints, preferred, p, s[1..])
  }

  /** list.sort is stable. */
  function Sorted(endpoints: map<PoolName, Endpoint>, preferred: Option<Region>, s: seq<PoolName>): (r: seq<PoolName>)
    requires AllRoomy(endpoints, s)
    ensures |r| == |s| && AllRoomy(endpoints, r)
  {
    if s == [] then [] else InsertSorted(endpoints, preferred, s[0], Sorted(endpoints, preferred, s[1..]))
  }

  lemma {:induction false} InsertSortedKeeps(endpoints: map<PoolName, Endpoint>, preferred: Option<Region>,
                                             p: PoolName, s: seq<PoolName>)
    requires Roomy(endpoints, p) && AllRoomy(endpoints, s)
    ensures multiset(InsertSorted(endpoints, preferred, p, s)) == multiset(s) + multiset{p}
  {
    if s != [] && SortsBefore(endpoints, preferred, s[0], p) {
      InsertSortedKeeps(endpoints, preferred, p, s[1..]);
      assert s == [s[0]] + s[1..];
    }
  }

  ghost predicate InOrder(endpoints: map<PoolName, Endpoint>, preferred: Option<Region>, s: seq<PoolName>)
    requires AllRoomy(endpoints, s)
  {
    forall i, j :: 0 <= i < j < |s| ==> !SortsBefore(endpoints, preferred, s[j], s[i])
  }

  ghost predicate NoneBefore(endpoints: map<PoolName, Endpoint>, preferred: Option<Region>, p: PoolName,
                             s: seq<PoolName>)
    requires Roomy(endpoints, p) && AllRoomy(endpoints, s)
  {
    forall i :: 0 <= i < |s| ==> !SortsBefore(endpoints, preferred, s[i], p)
  }

  lemma OrderExtends(endpoints: map<PoolName, Endpoint>, preferred: Option<Region>, p: PoolName, q: PoolName,
                     r: PoolName)
    requires Roomy(endpoints, p) && Roomy(endpoints, q) && Roomy(endpoints, r)
    requires !SortsBefore(endpoints, preferred, q, p) && !SortsBefore(endpoints, preferred, r, q)
    ensures !SortsBefore(endpoints, preferred, r, p)
  {
  }

  lemma {:induction false} InsertNoneBefore(endpoints: map<PoolName, Endpoint>, preferred: Option<Region>,
                                            p: PoolName, q: PoolName, s: seq<PoolName>)
    requires Roomy(endpoints, p) && Roomy(endpoints, q) && AllRoomy(endpoints, s)
    requires NoneBefore(endpoints, preferred, p, s) && !SortsBefore(endpoints, preferred, q, p)
    ensures NoneBefore(endpoints, preferred, p, InsertSorted(endpoints, preferred, q, s))
  {
    if s != [] && SortsBefore(endpoints, preferred, s[0], q) {
      InsertNoneBefore(endpoints, preferred, p, q, s[1..]);
    }
  }

  lemma {:induction false} InsertSortedOrders(endpoints: map<PoolName, Endpoint>, preferred: Option<Region>,
                                              p: PoolName, s: seq<PoolName>)
    requires Roomy(endpoints, p) && AllRoomy(endpoints, s) && InOrder(endpoints, preferred, s)
    ensures InOrder(endpoints, preferred, InsertSorted(endpoints, preferred, p, s))
  {
    if s == [] {
    } else if SortsBefore(endpoints, preferred, s[0], p) {
      InsertSortedOrders(endpoints, preferred, p, s[1..]);
      InsertNoneBefore(endpoints, preferred, s[0], p, s[1..]);
    } else {
      forall i | 0 <= i < |s| ensures !SortsBefore(endpoints, preferred, s[i], p) {
        OrderExtends(endpoints, preferred, p, s[0], s[i]);
      }
    }
  }

  /** Sorting permutes the available pools into the order of the key. */
  lemma {:induction false} SortedSorts(endpoints: map<PoolName, Endpoint>, preferred: Option<Region>, s: seq<PoolName>)
    requires AllRoomy(endpoints, s)
    ensures multiset(Sorted(endpoints, preferred, s)) == multiset(s)
    ensures InOrder(endpoints, preferred, Sorted(endpoints, preferred, s))
  {
    if s != [] {
      SortedSorts(endpoints, preferred, s[1..]);
      InsertSortedKeeps(endpoints, preferred, s[0], Sorted(endpoints, preferred, s[1..]));
      InsertSortedOrders(endpoints, preferred, s[0], Sorted(endpoints, preferred, s[1..]));
      assert s == [s[0]] + s[1..];
    }
  }

  /** What selection reads of the named pools. */
  function Loads(endpoints: map<PoolName, Endpoint>, s: seq<PoolName>): seq<Selection.Pool>
    requires AllRoomy(endpoints, s)
  {
    seq(|s|, i requires 0 <= i < |s| => endpoints[s[i]].load)
  }

  /** Every available pool has room under a positive maximum, so every division is defined for it. */
  lemma {:induction false} ScanRoomy(b: Balancer, now: real, n: nat)
    requires WellFormed(b) && n <= |b.order|
    ensures AllRoomy(b.endpoints, Scan(b, now, n).1)
  {
    if n > 0 {
      ScanRoomy(b, now, n - 1);
    }
  }

  /** The available pools in the order in which selection sees them. */
  function Candidates(b: Balancer, preferred: Option<Region>, now: real): (s: seq<PoolName>)
    requires WellFormed(b)
    ensures AllRoomy(b.endpoints, s) && |s| == |Available(b, now).1|
  {
    ScanRoomy(b, now, |b.order|);
    Sorted(b.endpoints, preferred, Available(b, now).1)
  }

  /** p is at position `selected` of the candidates, its score ranks k among the top three, and rank k was drawn. */
  ghost predicate ChosenAt(b: Balancer, preferred: Option<Region>, now: real, uniform: real -> real, pick: nat,
                           p: PoolName, selected: nat, k: nat)
    requires WellFormed(b)
  {
    var candidates := Candidates(b, preferred, now);
    && selected < |candidates| && p == candidates[selected]
    && Selection.SelectedBy(Loads(b.endpoints, candidates), selected, k, uniform, pick)
  }

  /** p is what the weighted draw selects among the available pools. */
  ghost predicate Chosen(b: Balancer, preferred: Option<Region>, now: real, uniform: real -> real, pick: nat,
                         p: PoolName)
    requires WellFormed(b)
  {
    exists selected: nat, k: nat :: ChosenAt(b, preferred, now, uniform, pick, p, selected, k)
  }

  lemma CandidatesAreAvailable(b: Balancer, preferred: Option<Region>, now: real, q: PoolName)
    requires WellFormed(b)
    ensures q in Candidates(b, preferred, now) <==> q in Available(b, now).1
  {
    ScanRoomy(b, now, |b.order|);
    SortedSorts(b.endpoints, preferred, Available(b, now).1);
    assert q in multiset(Candidates(b, preferred, now)) <==> q in multiset(Available(b, now).1);
  }

  /** A selection from the candidates is a choice. */
  lemma SelectionChooses(b: Balancer, preferred: Option<Region>, now: real, uniform: real -> real, pick: nat,
                         selected: nat)
    requires WellFormed(b) && selected < |Candidates(b, preferred, now)|
    requires exists k ::
      Selection.SelectedBy(Loads(b.endpoints, Candidates(b, preferred, now)), selected, k, uniform, pick)
    ensures Candidates(b, preferred, now)[selected] in Available(b, now).1
    ensures Chosen(b, preferred, now, uniform, pick, Candidates(b, preferred, now)[selected])
  {
    var k :| Selection.SelectedBy(Loads(b.endpoints, Candidates(b, preferred, now)), selected, k, uniform, pick);
    var p := Candidates(b, preferred, now)[selected];
    assert ChosenAt(b, preferred, now, uniform, pick, p, selected, k);
    CandidatesAreAvailable(b, preferred, now, p);
  }

  lemma {:induction false} ScanLeavesRest(b: Balancer, now: real, n: nat, j: nat)
    requires WellFormed(b) && n <= j < |b.order|
    ensures Scan(b, now, n).0.Keys == b.breakers.Keys && Scan(b, now, n).0[b.order[j]] == b.breakers[b.order[j]]
  {
    if n > 0 {
      ScanLeavesRest(b, now, n - 1, j);
    }
  }

  lemma {:induction false} ScanIgnoresAffinities(b: Balancer, a: Affinities, now: real, n: nat)
    requires WellFormed(b) && n <= |b.order|
    ensures Scan(b.(affinities := a), now, n) == Scan(b, now, n)
  {
    if n > 0 {
      ScanIgnoresAffinities(b, a, now, n - 1);
    }
  }

  /** One turn of the filtering loop. */
  lemma ScanNext(b: Balancer, now: real, n: nat, breakers: map<PoolName, CB.Breaker>, available: seq<PoolName>,
                 asked: (CB.Breaker, bool))
    requires WellFormed(b) && n < |b.order| && (breakers, available) == Scan(b, now, n)
    requires b.order[n] in breakers && asked == CB.OnAsk(DEFAULTS, breakers[b.order[n]], now)
    ensures Scan(b, now, n + 1) == (breakers[b.order[n] := asked.0],
      if asked.1 && Fits(b.endpoints[b.order[n]]) then available + [b.order[n]] else available)
  {
    ScanLeavesRest(b, now, n, n);
  }

  // ---------------------------------------------------------------- calls

  function NewEndpoint(region: Region, weight: int, priority: int, maxSessions: int): Endpoint {
    Endpoint(region, priority, 0, Selection.Pool(weight, maxSessions, 0, Selection.Healthy, 0.0))
  }

  function Register(b: Balancer, p: PoolName, e: Endpoint): Balancer {
    b.(order := if p in b.endpoints then b.order else b.order + [p],
       endpoints := b.endpoints[p := e], breakers := b.breakers[p := CB.FRESH])
  }

  function Without(s: seq<PoolName>, p: PoolName): seq<PoolName> {
    if s == [] then [] else Without(s[..|s| - 1], p) + if s[|s| - 1] == p then [] else [s[|s| - 1]]
  }

  function Unregister(b: Balancer, p: PoolName): Balancer {
    b.(order := Without(b.order, p), endpoints := b.endpoints - {p}, breakers := b.breakers - {p})
  }

  /** What a health check hears from a pool. */
  datatype Health = Responded(ms: real, queueDepth: int, cpu: real, memory: real) | Rejected | TimedOut | Failed

  /** The fields of an endpoint after a check. */
  function Observed(e: Endpoint, h: Health): Endpoint {
    match h
    case Responded(ms, depth, cpu, memory) =>
      e.(queueDepth := depth,
         load := e.load.(responseMs := ms,
                         status := if cpu > 90.0 || memory > 90.0 then Selection.Degraded else Selection.Healthy))
    case TimedOut => e.(load := e.load.(responseMs := 5000.0, status := Selection.Degraded))
    case Rejected => e.(load := e.load.(status := Selection.Unhealthy))
    case Failed => e.(load := e.load.(status := Selection.Unhealthy))
  }

  /** The outcome of a check, told to the breaker under the pool's name. */
  function Tell(b: Balancer, p: PoolName, success: bool, now: real): Balancer {
    if p !in b.breakers then b
    else
      b.(breakers := b.breakers[p := if success then CB.OnSuccess(DEFAULTS, b.breakers[p])
                                     else CB.OnFailure(DEFAULTS, b.breakers[p], now)])
  }

  /** _check_pool_health, for the endpoint that is still registered under its name. */
  function Check(b: Balancer, p: PoolName, h: Health, now: real): Balancer {
    if p !in b.endpoints then b
    else Tell(b.(endpoints := b.endpoints[p := Observed(b.endpoints[p], h)]), p, h.Responded?, now)
  }

  predicate Honoured(b: Balancer, id: Sid, now: real) {
    var found := Get(b.affinities, id, now).1;
    found.Some? && found.value.pool in b.endpoints && b.endpoints[found.value.pool].load.status == Selection.Healthy
  }

  function Adjust(b: Balancer, p: PoolName, delta: int): Balancer {
    if p !in b.endpoints then b
    else
      var e := b.endpoints[p];
      var count := e.load.currentSessions + delta;
      b.(endpoints := b.endpoints[p := e.(load := e.load.(currentSessions := if count > 0 then count else 0))])
  }

  /** get_pool_for_session, where `choice` is the position of the selected pool in the available list. */
  function Assign(b: Balancer, id: Sid, now: real, choice: nat): (Balancer, Option<PoolName>)
    requires WellFormed(b)
  {
    var (affinities, found) := Get(b.affinities, id, now);
    if Honoured(b, id, now) then (b.(affinities := affinities), Some(found.value.pool))
    else
      var (breakers, available) := Available(b, now);
      if choice >= |available| then (b.(affinities := affinities, breakers := breakers), None)
      else
        var p := available[choice];
        (Adjust(b.(affinities := Set(affinities, id, p, now), breakers := breakers), p, 1), Some(p))
  }

  /** Some selection turns b into `after` and answers `result`. */
  ghost predicate AssignsTo(b: Balancer, id: Sid, now: real, after: Balancer, result: Option<PoolName>)
    requires WellFormed(b)
  {
    exists choice: nat :: (choice == 0 || choice < |Available(b, now).1|)
      && Assign(b, id, now, choice) == (after, result)
  }

  /** The last steps of an assignment that follows no affinity. */
  lemma AssignParts(b: Balancer, id: Sid, now: real, choice: nat, looked: Affinities,
                    breakers: map<PoolName, CB.Breaker>, available: seq<PoolName>, selected: Balancer)
    requires WellFormed(b) && !Honoured(b, id, now) && looked == Get(b.affinities, id, now).0
    requires (breakers, available) == Available(b.(affinities := looked), now) && choice < |available|
    requires selected == b.(affinities := Set(looked, id, available[choice], now), breakers := breakers)
    ensures AssignsTo(b, id, now, Adjust(selected, available[choice], 1), Some(available[choice]))
  {
    ScanIgnoresAffinities(b, looked, now, |b.order|);
    assert Assign(b, id, now, choice) == (Adjust(selected, available[choice], 1), Some(available[choice]));
  }

  lemma HonouredAssigns(b: Balancer, id: Sid, now: real)
    requires WellFormed(b) && Honoured(b, id, now)
    ensures var (looked, found) := Get(b.affinities, id, now);
      AssignsTo(b, id, now, b.(affinities := looked), Some(found.value.pool))
  {
    var (looked, found) := Get(b.affinities, id, now);
    assert Assign(b, id, now, 0) == (b.(affinities := looked), Some(found.value.pool));
  }

  /** A pool is refused only when no affinity is honoured and no pool is available. */
  lemma RefusedExactly(b: Balancer, id: Sid, now: real, after: Balancer, result: Option<PoolName>)
    requires WellFormed(b) && AssignsTo(b, id, now, after, result)
    ensures result == None <==> !Honoured(b, id, now) && Available(b, now).1 == []
  {
    var choice: nat :| (choice == 0 || choice < |Available(b, now).1|) && Assign(b, id, now, choice) == (after, result);
  }

  lemma NoneAvailable(b: Balancer, id: Sid, now: real, looked: Affinities, breakers: map<PoolName, CB.Breaker>)
    requires WellFormed(b) && !Honoured(b, id, now) && looked == Get(b.affinities, id, now).0
    requires (breakers, []) == Available(b, now)
    ensures AssignsTo(b, id, now, b.(affinities := looked, breakers := breakers), None)
  {
    assert Assign(b, id, now, 0) == (b.(affinities := looked, breakers := breakers), None);
  }

  /** release_session */
  function Release(b: Balancer, id: Sid, p: PoolName, now: real): Balancer {
    Adjust(b, p, -1).(affinities := Clear(b.affinities, id, now))
  }

  // ---------------------------------------------------------------- runs

  datatype Call =
    | Registered(pool: PoolName, region: Region, weight: int, priority: int, maxSessions: int)
    | Unregistered(pool: PoolName)
    | Checked(pool: PoolName, health: Health, at: real)
    | CheckedLate(pool: PoolName, success: bool, at: real) // of an endpoint no longer registered
    | Assigned(id: Sid, at: real, choice: nat)
    | Released(id: Sid, pool: PoolName, at: real)

  const NO_POOLS := Balancer([], map[], map[], Affinity.EMPTY)

  function Perform(b: Balancer, e: Call): Balancer
    requires WellFormed(b)
  {
    match e
    case Registered(p, region, weight, priority, max) => Register(b, p, NewEndpoint(region, weight, priority, max))
    case Unregistered(p) => Unregister(b, p)
    case Checked(p, health, at) => Check(b, p, health, at)
    case CheckedLate(p, success, at) => Tell(b, p, success, at)
    case Assigned(id, at, choice) => Assign(b, id, at, choice).0
    case Released(id, p, at) => Release(b, id, p, at)
  }

  lemma {:induction false} WithoutKeepsOthers(s: seq<PoolName>, p: PoolName, q: PoolName)
    ensures q in Without(s, p) <==> q in s && q != p
  {
    if s != [] {
      WithoutKeepsOthers(s[..|s| - 1], p, q);
      assert s == s[..|s| - 1] + [s[|s| - 1]];
    }
  }

  lemma {:induction false} WithoutKeepsDistinct(s: seq<PoolName>, p: PoolName)
    requires forall i, j :: 0 <= i < j < |s| ==> s[i] != s[j]
    ensures forall i, j :: 0 <= i < j < |Without(s, p)| ==> Without(s, p)[i] != Without(s, p)[j]
  {
    if s != [] {
      var n := |s| - 1;
      WithoutKeepsDistinct(s[..n], p);
      WithoutKeepsOthers(s[..n], p, s[n]);
    }
  }

  lemma UnregisterWellFormed(b: Balancer, p: PoolName)
    requires WellFormed(b)
    ensures WellFormed(Unregister(b, p))
  {
    WithoutKeepsDistinct(b.order, p);
    var left := Without(b.order, p);
    forall i | 0 <= i < |left| ensures left[i] in b.endpoints - {p} {
      WithoutKeepsOthers(b.order, p, left[i]);
    }
    forall q | q in b.endpoints - {p} ensures q in left {
      WithoutKeepsOthers(b.order, p, q);
    }
  }

  lemma AppendDistinct(s: seq<PoolName>, p: PoolName)
    requires p !in s && forall i, j :: 0 <= i < j < |s| ==> s[i] != s[j]
    ensures forall i, j :: 0 <= i < j < |s + [p]| ==> (s + [p])[i] != (s + [p])[j]
    ensures forall q :: q in s + [p] <==> q in s || q == p
  {
  }

  lemma RegisterWellFormed(b: Balancer, p: PoolName, e: Endpoint)
    requires WellFormed(b) && e.load.currentSessions >= 0
    ensures WellFormed(Register(b, p, e))
  {
    if p !in b.endpoints {
      AppendDistinct(b.order, p);
    }
  }

  lemma AdjustWellFormed(b: Balancer, p: PoolName, delta: int)
    requires WellFormed(b)
    ensures WellFormed(Adjust(b, p, delta))
  {
  }

  lemma AssignWellFormed(b: Balancer, id: Sid, now: real, choice: nat)
    requires WellFormed(b)
    ensures WellFormed(Assign(b, id, now, choice).0)
  {
    var affinities := Get(b.affinities, id, now).0;
    var (breakers, available) := Available(b, now);
    ScanKeys(b, now, |b.order|);
    if choice < |available| {
      AdjustWellFormed(b.(affinities := Set(affinities, id, available[choice], now), breakers := breakers),
                       available[choice], 1);
    }
  }

  lemma PerformWellFormed(b: Balancer, e: Call)
    requires WellFormed(b)
    ensures WellFormed(Perform(b, e))
  {
    match e
    case Registered(p, region, weight, priority, max) =>
      RegisterWellFormed(b, p, NewEndpoint(region, weight, priority, max));
    case Unregistered(p) => UnregisterWellFormed(b, p);
    case Checked(p, health, at) =>
    case CheckedLate(p, success, at) =>
    case Assigned(id, at, choice) => AssignWellFormed(b, id, at, choice);
    case Released(id, p, at) => AdjustWellFormed(b, p, -1);
  }

  function RunCalls(es: seq<Call>): (b: Balancer)
    ensures WellFormed(b)
  {
    if es == [] then NO_POOLS
    else
      PerformWellFormed(RunCalls(es[..|es| - 1]), es[|es| - 1]);
      Perform(RunCalls(es[..|es| - 1]), es[|es| - 1])
  }

  // ---------------------------------------------------------------- what selection meets in a run

  /** Registrations with no negative weight, answers after no negative time. */
  predicate WeightedCall(e: Call) {
    && (e.Registered? ==> e.weight >= 0)
    && (e.Checked? && e.health.Responded? ==> e.health.ms >= 0.0)
  }

  ghost predicate WeightedRun(es: seq<Call>) {
    forall i :: 0 <= i < |es| ==> WeightedCall(es[i])
  }

  ghost predicate Weighted(b: Balancer) {
    forall p :: p in b.endpoints ==> b.endpoints[p].load.weight >= 0 && b.endpoints[p].load.responseMs >= 0.0
  }

  lemma PerformWeighted(b: Balancer, e: Call)
    requires WellFormed(b) && Weighted(b) && WeightedCall(e)
    ensures Weighted(Perform(b, e))
  {
  }

  lemma {:induction false} RunWeighted(es: seq<Call>)
    requires WeightedRun(es)
    ensures Weighted(RunCalls(es))
  {
    if es != [] {
      RunWeighted(es[..|es| - 1]);
      PerformWeighted(RunCalls(es[..|es| - 1]), es[|es| - 1]);
    }
  }

  /** In every reachable state the candidates have room under a positive maximum, and after a weighted
      run also no negative weight or response time: none of their scores is negative. */
  lemma CandidatesSelectable(es: seq<Call>, preferred: Option<Region>, now: real)
    ensures AllRoomy(RunCalls(es).endpoints, Candidates(RunCalls(es), preferred, now))
    ensures WeightedRun(es) ==>
      Selection.Selectable(Loads(RunCalls(es).endpoints, Candidates(RunCalls(es), preferred, now)))
  {
    if WeightedRun(es) {
      RunWeighted(es);
    }
  }

  /** Over every weighted run: a pool of weight zero is chosen only when every available pool has weight zero. */
  lemma WeightlessOnlyAmongWeightless(es: seq<Call>, preferred: Option<Region>, now: real, uniform: real -> real,
                                      pick: nat, p: PoolName, q: PoolName)
    requires WeightedRun(es) && Selection.IsUniformDraw(uniform)
    requires Chosen(RunCalls(es), preferred, now, uniform, pick, p) && q in Available(RunCalls(es), now).1
    ensures p in Available(RunCalls(es), now).1 && p in RunCalls(es).endpoints && q in RunCalls(es).endpoints
    ensures RunCalls(es).endpoints[p].load.weight == 0 ==> RunCalls(es).endpoints[q].load.weight == 0
  {
    var b := RunCalls(es);
    var candidates := Candidates(b, preferred, now);
    CandidatesSelectable(es, preferred, now);
    CandidatesAreAvailable(b, preferred, now, p);
    CandidatesAreAvailable(b, preferred, now, q);
    AvailableExactly(b, now, |b.order|, q);
    var selected: nat, k: nat :| ChosenAt(b, preferred, now, uniform, pick, p, selected, k);
    var j :| 0 <= j < |candidates| && candidates[j] == q;
    if b.endpoints[p].load.weight == 0 {
      Selection.ZeroChosenAmongZeros(Loads(b.endpoints, candidates), selected, k, uniform, pick, j);
    }
  }
}
