/** GlobalLoadBalancer as a class: endpoints and breakers are objects updated in place, the pools and
    affinity dictionaries are fields. Calls run one at a time. */
module LoadBalancer {
  import opened Options
  import opened Affinity
  import opened Balancer
  import opened CircuitBreaker
  import Selection

  class PoolEndpoint {
    const name: PoolName
    const region: Region
    const weight: int
    const priority: int
    const maxSessions: int
    var currentSessions: int
    var status: Selection.Status
    var responseMs: real
    var queueDepth: int

    constructor (name: PoolName, region: Region, weight: int, priority: int, maxSessions: int)
      ensures this.name == name && Value() == NewEndpoint(region, weight, priority, maxSessions)
    {
      this.name, this.region, this.weight := name, region, weight;
      this.priority, this.maxSessions := priority, maxSessions;
      currentSessions, status, responseMs, queueDepth := 0, Selection.Healthy, 0.0, 0;
    }

    function Value(): Endpoint
      reads this
    {
      Endpoint(region, priority, queueDepth, Selection.Pool(weight, maxSessions, currentSessions, status, responseMs))
    }

    method Observe(h: Health)
      modifies this
      ensures Value() == Observed(old(Value()), h)
    {
      match h {
        case Responded(ms, depth, cpu, memory) =>
          responseMs, queueDepth := ms, depth;
          status := if cpu > 90.0 || memory > 90.0 then Selection.Degraded else Selection.Healthy;
        case TimedOut =>
          responseMs, status := 5000.0, Selection.Degraded;
        case Rejected =>
          status := Selection.Unhealthy;
        case Failed =>
          status := Selection.Unhealthy;
      }
    }
  }

  class GlobalLoadBalancer {
    const geoRouting: bool
    var order: seq<PoolName>
    var pools: map<PoolName, PoolEndpoint>
    var circuitBreakers: map<PoolName, CircuitBreaker>
    var affinities: Affinities // session_affinities and the Redis hash
    ghost var endpoints: map<PoolName, Endpoint> // what the pool objects hold
    ghost var breakers: map<PoolName, Breaker>   // what the breaker objects hold
    ghost var poolObjects: set<PoolEndpoint>
    ghost var breakerObjects: set<CircuitBreaker>

    constructor (geoRouting: bool)
      ensures Valid() && poolObjects == {} && breakerObjects == {} && Model() == NO_POOLS
    {
      this.geoRouting := geoRouting;
      order, pools, circuitBreakers := [], map[], map[];
      affinities := Affinity.EMPTY;
      endpoints, breakers := map[], map[];
      poolObjects, breakerObjects := {}, {};
    }

    ghost function Model(): Balancer
      reads this
    {
      Balancer(order, endpoints, breakers, affinities)
    }

    /** Different names have different objects. */
    ghost predicate PoolsValid()
      reads this`pools, this`endpoints, this`poolObjects, poolObjects
    {
      && pools.Keys == endpoints.Keys
      && forall p :: p in pools ==>
           pools[p] in poolObjects && pools[p].name == p && pools[p].Value() == endpoints[p]
    }

    ghost predicate BreakersValid()
      reads this`circuitBreakers, this`breakers, this`breakerObjects, breakerObjects
    {
      && circuitBreakers.Keys == breakers.Keys
      && (forall p :: p in circuitBreakers ==>
            && circuitBreakers[p] in breakerObjects && circuitBreakers[p].config == DEFAULTS
            && circuitBreakers[p].Value() == breakers[p])
      && forall p, q :: p in circuitBreakers && q in circuitBreakers && circuitBreakers[p] == circuitBreakers[q] ==>
           p == q
    }

    ghost predicate Valid()
      reads this`pools, this`endpoints, this`poolObjects, poolObjects
      reads this`circuitBreakers, this`breakers, this`breakerObjects, breakerObjects
    {
      PoolsValid() && BreakersValid()
    }

    // -------------------------------------------------------------- single updates

    method AskBreaker(p: PoolName, now: real) returns (admitted: bool)
      requires Valid() && p in circuitBreakers
      modifies circuitBreakers[p], this`breakers
      ensures Valid()
      ensures (breakers, admitted) ==
        (old(breakers)[p := OnAsk(DEFAULTS, old(breakers)[p], now).0], OnAsk(DEFAULTS, old(breakers)[p], now).1)
    {
      admitted := circuitBreakers[p].CanExecute(now);
      breakers := breakers[p := circuitBreakers[p].Value()];
    }

    method AddSessions(p: PoolName, delta: int)
      requires Valid() && p in pools
      modifies pools[p], this`endpoints
      ensures Valid()
      ensures Model() == Adjust(old(Model()), p, delta)
    {
      var count := pools[p].currentSessions + delta;
      pools[p].currentSessions := if count > 0 then count else 0;
      endpoints := endpoints[p := pools[p].Value()];
    }

    method ObservePool(pool: PoolEndpoint, h: Health)
      requires Valid() && pool in poolObjects
      modifies pool, this`endpoints
      ensures Valid() && pool.Value() == Observed(old(pool.Value()), h)
      ensures endpoints == if pool.name in pools && pools[pool.name] == pool then
                             old(endpoints)[pool.name := Observed(old(endpoints)[pool.name], h)]
                           else old(endpoints)
    {
      pool.Observe(h);
      if pool.name in pools && pools[pool.name] == pool {
        endpoints := endpoints[pool.name := pool.Value()];
      }
    }

    method RecordOutcome(p: PoolName, success: bool, now: real)
      requires Valid() && p in circuitBreakers
      modifies circuitBreakers[p], this`breakers
      ensures Valid()
      ensures breakers == old(breakers)[p := if success then OnSuccess(DEFAULTS, old(breakers)[p])
                                             else OnFailure(DEFAULTS, old(breakers)[p], now)]
    {
      if success {
        circuitBreakers[p].RecordSuccess();
      } else {
        circuitBreakers[p].RecordFailure(now);
      }
      breakers := breakers[p := circuitBreakers[p].Value()];
    }

    method PutPool(p: PoolName, region: Region, weight: int, priority: int, maxSessions: int)
      requires Valid()
      modifies this`pools, this`endpoints, this`poolObjects
      ensures Valid() && fresh(poolObjects - old(poolObjects))
      ensures endpoints == old(endpoints)[p := NewEndpoint(region, weight, priority, maxSessions)]
    {
      var pool := new PoolEndpoint(p, region, weight, priority, maxSessions);
      pools, endpoints := pools[p := pool], endpoints[p := pool.Value()];
      poolObjects := poolObjects + {pool};
    }

    method PutBreaker(p: PoolName)
      requires Valid()
      modifies this`circuitBreakers, this`breakers, this`breakerObjects
      ensures Valid() && fresh(breakerObjects - old(breakerObjects))
      ensures breakers == old(breakers)[p := FRESH]
    {
      var breaker := new CircuitBreaker(DEFAULTS);
      circuitBreakers, breakers := circuitBreakers[p := breaker], breakers[p := breaker.Value()];
      breakerObjects := breakerObjects + {breaker};
    }

    method DropPool(p: PoolName)
      requires PoolsValid()
      modifies this`pools, this`endpoints
      ensures PoolsValid() && endpoints == old(endpoints) - {p}
    {
      pools, endpoints := pools - {p}, endpoints - {p};
    }

    method DropBreaker(p: PoolName)
      requires BreakersValid()
      modifies this`circuitBreakers, this`breakers
      ensures BreakersValid() && breakers == old(breakers) - {p}
    {
      circuitBreakers, breakers := circuitBreakers - {p}, breakers - {p};
    }

    /** The status, capacity and queue tests of _get_available_pools. */
    method HasRoom(p: PoolName) returns (fits: bool)
      requires PoolsValid() && p in pools
      ensures fits == Fits(endpoints[p])
    {
      var pool := pools[p];
      fits := pool.status in {Selection.Healthy, Selection.Degraded}
        && pool.currentSessions < pool.maxSessions && pool.queueDepth <= 50;
    }

    // -------------------------------------------------------------- calls

    method RegisterPool(p: PoolName, region: Region, weight: int, priority: int, maxSessions: int)
      requires Valid()
      modifies this
      ensures Valid() && fresh(poolObjects - old(poolObjects)) && fresh(breakerObjects - old(breakerObjects))
      ensures Model() == Register(old(Model()), p, NewEndpoint(region, weight, priority, maxSessions))
    {
      hide BreakersValid;
      if p !in pools {
        order := order + [p];
      }
      PutPool(p, region, weight, priority, maxSessions);
      PutBreaker(p);
    }

    method UnregisterPool(p: PoolName)
      requires Valid()
      modifies this
      ensures Valid() && poolObjects == old(poolObjects) && breakerObjects == old(breakerObjects)
      ensures Model() == Unregister(old(Model()), p)
    {
      order := Without(order, p);
      DropPool(p);
      DropBreaker(p);
    }

    method FilterTurn(now: real, i: nat, ghost start: Balancer, soFar: seq<PoolName>) returns (available: seq<PoolName>)
      requires Valid() && WellFormed(start) && endpoints == start.endpoints && order == start.order && i < |order|
      requires breakers == Scan(start, now, i).0 && soFar == Scan(start, now, i).1
      modifies this`breakers, breakerObjects
      ensures Valid()
      ensures breakers == Scan(start, now, i + 1).0 && available == Scan(start, now, i + 1).1
    {
      var p := order[i];
      ScanLeavesRest(start, now, i, i);
      ghost var before := breakers;
      var admitted := AskBreaker(p, now);
      var fits := HasRoom(p);
      ScanNext(start, now, i, before, soFar, OnAsk(DEFAULTS, before[p], now));
      available := if admitted && fits then soFar + [p] else soFar;
    }

    /** The filtering loop of _get_available_pools. A breaker is asked first, so one whose timeout has
        passed becomes half-open even if its pool does not fit. */
    method Filter(now: real, ghost start: Balancer) returns (available: seq<PoolName>)
      requires Valid() && WellFormed(start)
      requires order == start.order && endpoints == start.endpoints && breakers == start.breakers
      modifies this`breakers, breakerObjects
      ensures Valid()
      ensures breakers == Available(start, now).0 && available == Available(start, now).1
    {
      hide Scan;
      ScanNone(start, now);
      available := [];
      for i := 0 to |order|
        invariant Valid()
        invariant breakers == Scan(start, now, i).0 && available == Scan(start, now, i).1
      {
        available := FilterTurn(now, i, start, available);
      }
    }

    /** The region get_pool_for_session prefers, if geographic routing is on. */
    function Preferred(preferred: Option<Region>): Option<Region> {
      if geoRouting then preferred else None
    }

    /** The sort and the weighted draw. */
    method SelectFrom(available: seq<PoolName>, preferred: Option<Region>, now: real, uniform: real -> real, pick: nat,
                      ghost start: Balancer) returns (p: PoolName)
      requires PoolsValid() && WellFormed(start) && endpoints == start.endpoints
      requires available != [] && available == Available(start, now).1 && Selection.IsUniformDraw(uniform)
      ensures p in available && Chosen(start, if geoRouting then preferred else None, now, uniform, pick, p)
    {
      var snapshot := map q | q in pools :: pools[q].Value();
      assert snapshot == endpoints;
      ScanRoomy(start, now, |start.order|);
      var sorted := Sorted(snapshot, Preferred(preferred), available);
      var found, selected := Selection.SelectWeighted(Loads(snapshot, sorted), uniform, pick);
      p := sorted[selected];
      SelectionChooses(start, Preferred(preferred), now, uniform, pick, selected);
    }

    /** The selected pool is bound to the session and its counter grows. */
    method Count(id: Sid, p: PoolName, now: real, ghost start: Balancer, ghost available: seq<PoolName>)
      requires Valid() && WellFormed(start) && !Honoured(start, id, now) && p in pools && p in available
      requires affinities == Get(start.affinities, id, now).0 && order == start.order && endpoints == start.endpoints
      requires (breakers, available) == Available(start, now)
      modifies this`affinities, this`endpoints, pools[p]
      ensures Valid()
      ensures AssignsTo(start, id, now, Model(), Some(p))
    {
      hide Scan, WellFormed, Chosen, Assign;
      ghost var looked, asked := affinities, breakers;
      ghost var choice :| 0 <= choice < |available| && available[choice] == p;
      affinities := Set(affinities, id, p, now);
      ghost var selected := Model();
      AddSessions(p, 1);
      ScanIgnoresAffinities(start, looked, now, |order|);
      AssignParts(start, id, now, choice, looked, asked, available, selected);
    }

    method SelectAndCount(id: Sid, preferred: Option<Region>, now: real, uniform: real -> real, pick: nat,
                          ghost start: Balancer, available: seq<PoolName>) returns (p: PoolName)
      requires Valid() && WellFormed(start) && !Honoured(start, id, now) && available != []
      requires affinities == Get(start.affinities, id, now).0 && order == start.order && endpoints == start.endpoints
      requires (breakers, available) == Available(start, now) && Selection.IsUniformDraw(uniform)
      modifies this`affinities, this`endpoints, poolObjects
      ensures Valid()
      ensures AssignsTo(start, id, now, Model(), Some(p))
      ensures Chosen(start, Preferred(preferred), now, uniform, pick, p)
    {
      hide Scan, WellFormed, Chosen, Assign;
      ScanRoomy(start, now, |order|);
      p := SelectFrom(available, preferred, now, uniform, pick, start);
      Count(id, p, now, start, available);
    }

    /** The steps of get_pool_for_session that follow when no affinity is honoured. */
    method AssignNew(id: Sid, preferred: Option<Region>, now: real, uniform: real -> real, pick: nat,
                     ghost start: Balancer)
      returns (result: Option<PoolName>)
      requires Valid() && WellFormed(start) && !Honoured(start, id, now) && Selection.IsUniformDraw(uniform)
      requires affinities == Get(start.affinities, id, now).0 && order == start.order
      requires endpoints == start.endpoints && breakers == start.breakers
      modifies this`affinities, this`endpoints, this`breakers, poolObjects, breakerObjects
      ensures Valid()
      ensures AssignsTo(start, id, now, Model(), result)
      ensures result.Some? ==> Chosen(start, Preferred(preferred), now, uniform, pick, result.value)
    {
      hide Scan, WellFormed, Chosen, Assign;
      var available := Filter(now, start);
      if available == [] {
        NoneAvailable(start, id, now, affinities, breakers);
        return None;
      }
      var p := SelectAndCount(id, preferred, now, uniform, pick, start, available);
      return Some(p);
    }

    /** get_pool_for_session: an affinity that is honoured, or else a pool selected by the weighted draw,
        whose counter grows. */
    method GetPoolForSession(id: Sid, preferred: Option<Region>, now: real, uniform: real -> real, pick: nat)
      returns (result: Option<PoolName>)
      requires Valid() && WellFormed(Model()) && Selection.IsUniformDraw(uniform)
      modifies this`affinities, this`endpoints, this`breakers, poolObjects, breakerObjects
      ensures Valid()
      ensures AssignsTo(old(Model()), id, now, Model(), result)
      ensures result.Some? && !Honoured(old(Model()), id, now) ==>
        Chosen(old(Model()), if geoRouting then preferred else None, now, uniform, pick, result.value)
    {
      hide Scan, WellFormed, Chosen, Assign;
      ghost var start := Model();
      var (looked, found) := Get(affinities, id, now);
      affinities := looked;
      if found.Some? && found.value.pool in pools && pools[found.value.pool].status == Selection.Healthy {
        HonouredAssigns(start, id, now);
        return Some(found.value.pool);
      }
      assert !Honoured(start, id, now);
      result := AssignNew(id, preferred, now, uniform, pick, start);
    }

    /** _check_pool_health, from the moment the answer arrives. The endpoint may have been unregistered or
        replaced meanwhile: it is still written, and the breaker now under its name is told. Without a
        breaker the lookup raises, which counts as a failure unless a timeout is being handled. */
    method CheckPoolHealth(pool: PoolEndpoint, h: Health, now: real)
      requires Valid() && pool in poolObjects
      modifies this`endpoints, this`breakers, pool, breakerObjects
      ensures Valid()
      ensures pool.name in pools && pools[pool.name] == pool && pool.name in circuitBreakers ==>
        Model() == Check(old(Model()), pool.name, h, now)
      ensures !(pool.name in pools && pools[pool.name] == pool) ==>
        Model() == Tell(old(Model()), pool.name, h.Responded?, now)
      ensures pool.name in circuitBreakers || h.TimedOut? ==> pool.Value() == Observed(old(pool.Value()), h)
      ensures pool.name !in circuitBreakers && !h.TimedOut? ==>
        var seen := Observed(old(pool.Value()), h);
        pool.Value() == seen.(load := seen.load.(status := Selection.Unhealthy))
    {
      hide OnSuccess, OnFailure;
      ObservePool(pool, h);
      if pool.name in circuitBreakers {
        RecordOutcome(pool.name, h.Responded?, now);
      } else if !h.TimedOut? {
        ObservePool(pool, Health.Failed);
      }
    }

    /** release_session */
    method ReleaseSession(id: Sid, p: PoolName, now: real)
      requires Valid()
      modifies this`affinities, this`endpoints, poolObjects
      ensures Valid()
      ensures Model() == Release(old(Model()), id, p, now)
    {
      hide BreakersValid;
      if p in pools {
        AddSessions(p, -1);
      }
      affinities := Clear(affinities, id, now);
    }
  }
}
