# A model of the executor runtime

This project models the stateful runtime that hands out, routes and preserves executor sessions, and
proves what its operations keep over whole runs. Eight parts of the repository are covered.

* **Session manager and pool** (`executor/session.py`). A creation takes a permit from a plain semaphore,
  builds a sandbox outside the lock and registers the session; destroy, expiry and cleanup give permits
  back; a state store mirrors the sessions. `Sessions` holds the lock-held steps as values,
  `SessionRuns` their interleavings, `SessionMirror` the sequential calls with the state store,
  `SessionManager` and `SessionPool` the classes whose methods compute those steps, and `PoolRuns` the
  interleaved life of a pool.
* **Load balancer** (`k8s/controllers/load_balancer.py`). `CircuitBreaker` is the timed breaker,
  `Affinity` the cache over a Redis hash with one deadline, `Selection` the weighted choice in exact
  reals, `Capacity` the suspension between choosing and counting, `Balancer` and `Accounting` whole
  sequences of calls, `Routing` what its steps mean for the pools, `LoadBalancer` the classes.
* **Session persistence** (`k8s/controllers/session_persistence.py`). Files are write-through, metadata
  is write-behind. `Persistence` has the operations on a keyspace of strings, `PersistenceRuns` the
  refinement to plain maps over runs with crashes, `SessionListing` the key scan,
  `PersistenceManager` the class.
* **SHA-256 in the memory-ingest node** (`n8n/workflows-v3/01_memory_ingest.json`). `Fips180` is
  FIPS 180-4 on byte messages (sections 4.1.2, 4.2.2, 5.1.1, 5.3.3 and 6.2.2), with the constants
  *described* as fractions of roots of primes; `Primes` shows that the list of primes is the list of
  the first ones; `JsNumber` has the signed 32-bit operators of JavaScript over `Words`;
  `Sha256Constants` shows that the listed constants are those fractions; `Sha256Node` is the
  in-place code.
* **Audit hash chain** (`sql/20260220_audit_hardening.sql`). `AuditChain`, with the digest as an
  arbitrary function of fixed output length. No digest of fixed length is injective, so the commitment
  is stated as "agree, or here is a collision".
* **Tenant isolation** (`executor/api_server.py`). `Tenancy` has tenant resolution and the stages of a
  request, `TenantIsolation` the invariant over all runs, `ExecutorApi` the handlers as methods over
  the session manager class.
* **Workflow job parser** (`scripts/check_branch_protection_check_names.py`). `Lines` reads one line,
  `JobParser` says what the jobs of a file are, `JobScan` is the loop, `JobReading` reads a whole file
  through.
* **Session placement** (`k8s/controllers/operator.py`). `Placement` has first fit, handlers whose
  results are merged later, and the replica arithmetic.

A class that mirrors mutable state keeps ghost copies of what its objects hold; its methods equate the
new copy with a value-level function of the old one, and the run theorems are about those functions.

Where the code and its own words differ, the model follows the code:

* `k8s/README.md:342` says a breaker opens after five consecutive failures. The counter is a walk
  reflected at zero: it opens exactly when failures lead successes by the threshold in some window that
  ends now (`OpensExactlyOnExcess`), and no run of consecutive failures is needed
  (`OpensWithoutConsecutiveFailures`).
* `SessionPool.max_size` bounds the ids waiting in the pool, not the leases: `acquire` creates a session
  whenever the pool is empty, up to the manager's own limit (`LeasesExceedMaxSize`). It bounds the leases in
  every run exactly if the manager's limit is no larger, or nothing can be leased at all
  (`MaxSizeBoundsLeasesExactly`).
* `list_sessions` of the persistence manager skips every session whose id starts with `files`
  (`SessionKeyLooksLikeFiles`).
* `stop()` destroys sessions and leaves their records in the state store (`StopLeavesRecords`).
* A degraded pool may be selected but its affinities are not honoured, so one session that asks again is
  counted again and can fill the pool (`OneSessionFillsPool`).
* `parse_workflow_jobs` returns the last job twice when a top-level line follows the jobs block
  (`DuplicateExactly`).
* An audit row that is older than the newest one forks the chain (`LateRowForks`), and text may move
  between hashed columns unseen (`UncoveredChanges`).
* A session that has expired can be destroyed by any authenticated tenant (`ExpiredIsAnyones`).
* The operator computes `target_replicas` and does not apply it; `PendingFindsPod` says what would
  follow if as many pods were running.

## Model

| member | source | states |
|---|---|---|
| Sessions.DestroyOneMore | executor/session.py:433-459 | destroying a set of sessions one by one in any order gives one outcome: permits and counters grow by those that went, sessions whose sandbox refused stay, inactive |
| Sessions.DestroyExactly | executor/session.py:433-459 | a destruction takes its session and frees one permit, or leaves it inactive and counts an error when its sandbox raises; no other session is touched |
| Sessions.CleanupExactly | executor/session.py:494-511 | a cleanup destroys exactly the sessions idle for longer than their ttl whose sandbox does not raise and returns those; every other session is unchanged and no lookup at that instant is answered differently |
| Sessions.LookupExactly | executor/session.py:326-373 | a lookup finds exactly a registered, active session idle for at most its ttl and touches that one; it destroys one that is active but idle for longer, and otherwise does nothing |
| SessionRuns.StepConserves | executor/session.py:239-298 | every atomic step keeps permits + sessions + creations in flight, an overwriting registration losing one |
| SessionRuns.PermitConservation | executor/session.py:131 | over every interleaving, free permits + registered sessions + creations in flight + overwritten sessions equal the limit, and created - destroyed equals registered + overwritten |
| SessionRuns.LimitHolds | executor/session.py:239-298 | registered sessions and creations in flight never exceed the limit, permits never exceed their initial number, and they are exactly what is left free iff no registration overwrote another |
| SessionRuns.RefusedOnlyAtLimit | executor/session.py:239-256 | an acquisition is refused iff sessions, creations in flight and overwritten sessions fill the limit |
| SessionRuns.DistinctIdsNeverOverwrite | executor/session.py:265-276 | when no id is drawn twice nothing is overwritten, so conservation is exact |
| SessionRuns.ReusedCountsAllUses | executor/session.py:84-92 | sessions_reused is the sum of use_count over all sessions ever created |
| SessionRuns.ErrorsAreFailures | executor/session.py:288-511 | over every interleaving the error counter is the number of failed builds and refused destructions, and the expiry counter the number of overdue sessions that cleanups took out |
| SessionMirror.MirrorAgreement | executor/session.py:182-210 | at every instant of a sequential run a visible record belongs to a registered session and equals it up to the active flag unless stop() orphaned it, and every unexpired session has its record, the boundary instant excepted |
| SessionMirror.ExactMirror | executor/session.py:182-210 | in runs where no sandbox refuses to be destroyed and stop() is not called, a record still visible is exactly the payload of a registered session |
| SessionMirror.RunMirrors | executor/session.py:326-373 | every sequence of calls keeps records and sessions in agreement outside the orphans |
| SessionMirror.OnlyStopOrphans | executor/session.py:534-550 | without stop() no record is ever orphaned |
| SessionMirror.StopLeavesRecords | executor/session.py:534-550 | after every run, stop() leaves a visible record without a session iff the session was gone before or its sandbox did not raise; at the first stop() these are exactly the visible records of the sessions destroyed, and every destroyed session that had not expired leaves one, the boundary instant excepted |
| SessionMirror.CallsAreRun | executor/session.py:212-511 | every sequence of whole calls is one of the interleaved runs |
| SessionMirror.LimitOverCalls | executor/session.py:131 | so the session limit holds after every sequence of calls |
| SessionMirror.CreateAnswers | executor/session.py:236-298 | a creation is refused iff no permit is free and no overdue session lets itself be destroyed; with room it succeeds iff the sandbox can be built, and gives the permit back otherwise |
| SessionMirror.CreatedLives | executor/session.py:235-286 | the created session is what was asked for, found for exactly the requested ttl or the default if none or zero was requested; its record is visible for as long, at least one second |
| SessionMirror.LookupSaves | executor/session.py:326-373 | a lookup that finds its session saves it as it then is for another ttl, one that destroys it deletes its record, and no other record changes |
| SessionManager.SandboxSession.Touch | executor/session.py:89-92 | the session's last use becomes now and its use count grows by one, nothing else changes |
| SessionManager.SessionManager.constructor | executor/session.py:107-149 | a new manager has all permits, no sessions and no records |
| SessionManager.SessionManager.AcquirePermit | executor/session.py:239 | takes a permit iff one is free, without waiting |
| SessionManager.SessionManager.TakePermit | executor/session.py:236-253 | a permit, if need be after one cleanup of expired sessions and their records |
| SessionManager.SessionManager.CompleteCreation | executor/session.py:255-298 | with a permit: the session is registered, counted and saved, or the permit and an error are given back |
| SessionManager.SessionManager.CreateSession | executor/session.py:212-298 | the whole new state and result of create_session, an absent or zero ttl taking the default |
| SessionManager.SessionManager.PeekSession | executor/session.py:300-324 | finds exactly the registered, active, unexpired session and changes nothing |
| SessionManager.SessionManager.GetSession | executor/session.py:326-373 | a live session is touched, counted and saved; an expired one is destroyed with its record; anything else is not found |
| SessionManager.SessionManager.DestroyUnlocked | executor/session.py:433-459 | permit, map and counters after a destruction that succeeds, raises or finds nothing |
| SessionManager.SessionManager.DestroySession | executor/session.py:414-431 | the same with the record deleted exactly when the session went |
| SessionManager.SessionManager.CleanupExpired | executor/session.py:494-511 | the loop over the expired ids computes the cleanup step |
| SessionManager.SessionManager.CleanupRound | executor/session.py:515-528 | one round of the cleanup thread, records included |
| SessionManager.SessionManager.DestroyAll | executor/session.py:534-548 | the destruction loop gives the order-independent outcome |
| SessionManager.SessionManager.Stop | executor/session.py:534-550 | every session is destroyed and no record is deleted |
| PoolRuns.ExclusiveLeasing | executor/session.py:599-655 | over every interleaving with fresh ids and honest holders, pooled ids are distinct, disjoint from leased ids and at most max(min_size, max_size), and an id that a release is about to destroy is neither |
| PoolRuns.LeaseIsLiveAndExclusive | executor/session.py:611-636 | a pooled id that acquire hands out nobody else holds, and its session is registered, active and just touched, whatever expired in between |
| PoolRuns.NewLeaseIsLiveAndExclusive | executor/session.py:626-634 | what acquire creates when the pool is empty is in nobody's hands and not pooled, and its session is registered, active and unused |
| PoolRuns.SkippedHeadWasDead | executor/session.py:611-636 | a pooled id is skipped iff its session is not live at that instant, and then leaves the pool |
| PoolRuns.ReleasedExactly | executor/session.py:638-655 | a released id goes to the end of the pool iff its session is live and there is room; otherwise its session is destroyed, unless its sandbox raises |
| PoolRuns.PoolRunIsRun | executor/session.py:599-655 | every pool run is a session-manager run, so the session limit bounds it |
| PoolRuns.LeasesWithinLimit | executor/session.py:611-636 | in every run the leased ids whose session is registered number at most the manager's limit |
| PoolRuns.LeasesExceedMaxSize | executor/session.py:626-634 | for any distinct ids within the manager's limit some run has all of them leased and registered at once, whatever the positive max_size |
| PoolRuns.MaxSizeBoundsLeasesExactly | executor/session.py:626-634 | max_size bounds the live leases of every run iff it is at least the manager's limit, or it and min_size are zero |
| SessionPool.TakeHeadFinds | executor/session.py:611-628 | the loop of acquire stops at the first head that is live at the instant of its lookup, all before it being dead, and keeps the ids behind it, or empties the pool |
| SessionPool.SessionPool.Prewarm | executor/session.py:599-609 | one turn of the initialisation adds the id of a created session, or nothing |
| SessionPool.SessionPool.Acquire | executor/session.py:611-636 | terminates with the first live pooled session, or else a new one |
| SessionPool.SessionPool.Release | executor/session.py:638-655 | a live session goes back when there is room and no destruction was asked for, otherwise it is destroyed |
| CircuitBreaker.CircuitBreaker.RecordSuccess | k8s/controllers/load_balancer.py:106-116 | the breaker after a success |
| CircuitBreaker.CircuitBreaker.RecordFailure | k8s/controllers/load_balancer.py:118-128 | the breaker after a failure |
| CircuitBreaker.CircuitBreaker.CanExecute | k8s/controllers/load_balancer.py:130-142 | the answer, and half-open once the timeout has passed |
| CircuitBreaker.ReflectedWalk | k8s/controllers/load_balancer.py:106-128 | while closed, failure_count is the largest lead of failures over successes in any window of outcomes that ends now |
| CircuitBreaker.OpensExactlyOnExcess | k8s/controllers/load_balancer.py:118-128 | a failure opens the breaker iff in some window ending with it failures lead by the threshold |
| CircuitBreaker.OnlyFailuresOpen | k8s/controllers/load_balancer.py:106-142 | a closed breaker is opened by failures alone |
| CircuitBreaker.ConsecutiveFailuresOpen | k8s/controllers/load_balancer.py:118-128 | threshold-many failures in a row open it |
| CircuitBreaker.OpensWithoutConsecutiveFailures | k8s/controllers/load_balancer.py:106-128 | for every threshold of at least three some run opens it although no threshold-many failures are consecutive |
| CircuitBreaker.HalfOpenIsTrial | k8s/controllers/load_balancer.py:106-142 | in half-open the events since an admission, at least the timeout after the last failure, hold success_count successes and no failure |
| CircuitBreaker.RecoveryOverRuns | k8s/controllers/load_balancer.py:106-142 | every return to closed is from half-open, and takes an admission after the timeout and then exactly half_open_max_calls successes with no failure between |
| CircuitBreaker.CounterBounds | k8s/controllers/load_balancer.py:94-142 | closed keeps failure_count below the threshold, half-open keeps success_count below its maximum |
| CircuitBreaker.RefusesExactlyWhenEarly | k8s/controllers/load_balancer.py:130-142 | after every run a request is refused iff the breaker is open and the timeout since the last failure has not passed; a request admitted by an open breaker puts it on trial, no other changes it |
| Affinity.AffinityRefinesMap | k8s/controllers/load_balancer.py:450-497 | over every run with restarts a lookup is the latest unreleased binding with age at most the ttl, except exactly at the hash's deadline with an empty cache |
| Affinity.RunIsFaithful | k8s/controllers/load_balancer.py:479-497 | the hash deadline is never earlier than any entry's own expiry, over every run |
| Affinity.NeverStale | k8s/controllers/load_balancer.py:450-477 | whatever a lookup returns is the latest unreleased binding |
| Affinity.ExactWithoutRestart | k8s/controllers/load_balancer.py:450-511 | without restarts the lookup is the reference lookup with no exception |
| Selection.RankSorts | k8s/controllers/load_balancer.py:432-436 | ranking permutes the scored pools into descending order |
| Selection.IntervalsTile | k8s/controllers/load_balancer.py:438-446 | every r in [0, total] lies in the interval of some ranked pool, whatever the signs of the scores |
| Selection.IntervalsDisjoint | k8s/controllers/load_balancer.py:438-446 | and of one only |
| Selection.IntervalLength | k8s/controllers/load_balancer.py:438-446 | an interval is as long as its score |
| Selection.ZeroNeverDrawn | k8s/controllers/load_balancer.py:438-446 | with a positive total a pool whose score is not positive is never drawn |
| Selection.Draw | k8s/controllers/load_balancer.py:438-448 | the accumulating loop stops at the first sum that reaches r; for r in [0, total] that is the one interval that holds r, so the fall-through is not reached |
| Selection.SelectWeighted | k8s/controllers/load_balancer.py:406-448 | a pool is found iff there is one; it ranks among the top three and its rank is the one drawn, by its interval, by random.choice, or for a negative total by what the loop makes of the number |
| Selection.RankedScores | k8s/controllers/load_balancer.py:415-436 | ranked entries carry their pools' own scores, and scores of available pools are not negative |
| Selection.PositiveWeightsDrawable | k8s/controllers/load_balancer.py:415-448 | with positive weights every available pool among the top three has a non-empty interval |
| Selection.TopHasFewAbove | k8s/controllers/load_balancer.py:434-436 | fewer than three pools score strictly higher than a candidate |
| Selection.TopIsThree | k8s/controllers/load_balancer.py:434-436 | the candidates are the first three of the ranking, or all if there are fewer |
| Selection.RankedInOrder | k8s/controllers/load_balancer.py:432-434 | pools that score alike keep the order of the list |
| Selection.IdleScore | k8s/controllers/load_balancer.py:415-428 | an idle healthy pool that answered at once scores its weight |
| Selection.ScoreByRoom | k8s/controllers/load_balancer.py:415-416 | sessions take from the score in proportion to the room they take |
| Selection.ScoreByWeight | k8s/controllers/load_balancer.py:415-428 | the score is in proportion to the weight |
| Selection.ScoreByHealth | k8s/controllers/load_balancer.py:418-421 | a degraded pool keeps seven tenths of its score |
| Selection.ScoreByResponse | k8s/controllers/load_balancer.py:423-426 | the score falls with the response time t in milliseconds as 1000 / (t + 1000) |
| Selection.FewerSessionsScoreMore | k8s/controllers/load_balancer.py:415-428 | of two pools alike but for their sessions the one with fewer scores strictly more, and conversely |
| Selection.HalfDrawPicksBetter | k8s/controllers/load_balancer.py:432-446 | of two pools the better is drawn at half the total, wherever it stands in the list |
| Selection.PositiveRankDrawable | k8s/controllers/load_balancer.py:438-446 | with a positive total every candidate with a positive score is drawn by some number |
| Selection.EveryRankChosen | k8s/controllers/load_balancer.py:438-440 | with a total of zero every candidate is drawn by some choice |
| Capacity.CapacityUnderSuspension | k8s/controllers/load_balancer.py:346-362 | with at most n assignments suspended between choosing and counting, 0 <= current and current + suspended choices <= max + n - 1 in every reachable state |
| Capacity.SequentialCapIsExact | k8s/controllers/load_balancer.py:384-386 | one assignment at a time keeps every pool at or below its maximum |
| Capacity.OvershootAttained | k8s/controllers/load_balancer.py:346-362 | the bound is tight: some run reaches max + n - 1 |
| Balancer.AvailableExactly | k8s/controllers/load_balancer.py:368-404 | a pool is available iff its breaker admits the request and its status, capacity and queue fit |
| Balancer.ScanRoomy | k8s/controllers/load_balancer.py:384-402 | in every well-formed state an available pool has 0 <= current_sessions < max_sessions, so every division of the sort and of the scores is defined |
| Balancer.SortedSorts | k8s/controllers/load_balancer.py:394-402 | the sort permutes the available pools into the order of preferred region, priority and utilisation |
| Balancer.CandidatesSelectable | k8s/controllers/load_balancer.py:406-430 | over every run the candidates have room, and after registrations with no negative weight none of their scores is negative |
| Balancer.WeightlessOnlyAmongWeightless | k8s/controllers/load_balancer.py:406-448 | over every such run a pool of weight zero is chosen only when every available pool has weight zero |
| Balancer.PerformWellFormed | k8s/controllers/load_balancer.py:248-314 | every call keeps pools and breakers under the same names, each once |
| Balancer.RefusedExactly | k8s/controllers/load_balancer.py:338-366 | no pool is returned iff no affinity is honoured and no pool is available |
| Routing.AvailableMeans | k8s/controllers/load_balancer.py:364-389 | a pool is available iff it is registered, healthy or degraded, below its maximum, with a queue of at most fifty, and its breaker is not open or the last failure is thirty seconds old |
| Routing.AskedBreakers | k8s/controllers/load_balancer.py:368-382 | asking for pools changes exactly the open breakers whose thirty seconds have passed: each is on trial without a success |
| Routing.FoundInOrder | k8s/controllers/load_balancer.py:374-389 | available pools are found in the order of the dictionary |
| Routing.CandidatesInOrder | k8s/controllers/load_balancer.py:391-402 | candidates come in the preferred region first if one is asked for, then by rising priority number, then by rising share of room in use |
| Routing.FreshPool | k8s/controllers/load_balancer.py:248-296 | a newly registered pool is available at once iff it may hold a session, scores its weight and stands last in the dictionary or where its namesake stood |
| Routing.UnregisteredIsGone | k8s/controllers/load_balancer.py:298-314 | an unregistered pool is gone; the others stay in order and as available as before |
| Routing.CheckShows | k8s/controllers/load_balancer.py:536-582 | status, response time and queue after a check that is answered, rejected, timed out or fails; sessions and settings are never touched |
| Routing.FewFailingChecksPass | k8s/controllers/load_balancer.py:118-142 | up to four failing checks leave the availability of a pool with a closed breaker without failures to its status alone |
| Routing.FailingChecksExclude | k8s/controllers/load_balancer.py:118-142 | after every run, five failing checks in a row make a pool unavailable until thirty seconds after the last |
| Routing.TrialTakesThree | k8s/controllers/load_balancer.py:106-128 | on trial a breaker closes at the third successful check and opens again at the first failing one |
| LoadBalancer.GlobalLoadBalancer.RegisterPool | k8s/controllers/load_balancer.py:248-296 | a fresh endpoint and a fresh breaker under the name, also over an old registration |
| LoadBalancer.GlobalLoadBalancer.UnregisterPool | k8s/controllers/load_balancer.py:298-314 | the pool and its breaker are gone, affinities stay |
| LoadBalancer.GlobalLoadBalancer.Filter | k8s/controllers/load_balancer.py:368-392 | the filtering loop asks every breaker first and collects the available pools in order |
| LoadBalancer.GlobalLoadBalancer.SelectFrom | k8s/controllers/load_balancer.py:393-448 | the sort and the weighted draw pick one of the available pools, by its rank among the top three and its interval |
| LoadBalancer.GlobalLoadBalancer.GetPoolForSession | k8s/controllers/load_balancer.py:316-366 | the new state and answer: an honoured affinity changes no counter; otherwise the answer is the pool of the weighted draw over the available pools, bound to the session and counted once |
| LoadBalancer.GlobalLoadBalancer.CheckPoolHealth | k8s/controllers/load_balancer.py:536-582 | the answer, rejection, timeout or failure is written to the endpoint, registered or not, and told to the breaker now under its name; a missing breaker counts as a failure; sessions and affinities stay |
| LoadBalancer.GlobalLoadBalancer.ReleaseSession | k8s/controllers/load_balancer.py:499-511 | the named pool's counter falls, clamped at zero, and the affinity is cleared |
| Accounting.CountingKeepsExactly | k8s/controllers/load_balancer.py:346-366 | a counted assignment keeps counters equal to bindings iff the session was not bound to a registered pool |
| Accounting.RegisteringKeepsExactly | k8s/controllers/load_balancer.py:248-296 | a registration keeps counters equal to bindings iff no session is bound to the name |
| Accounting.ReleasingKeepsExactly | k8s/controllers/load_balancer.py:499-511 | a release keeps them equal iff it names the session's own registered pool, or is of no such session and names a pool that is unknown or that nobody is bound to |
| Accounting.HonouredExactly | k8s/controllers/load_balancer.py:338-344 | in time, an affinity is honoured iff the session is bound to a registered, healthy pool within the ttl |
| Accounting.KeepsExactlyWhenBenign | k8s/controllers/load_balancer.py:338-366 | after any run, one call keeps the counters equal to the bindings iff it is benign: the conditions above, with health, registration and age in place of the balancer's decision |
| Accounting.CountersAreBindings | k8s/controllers/load_balancer.py:338-366 | over every run that registers only unbound names, asks again only while the pool is registered and healthy and the binding within the ttl, and releases sessions from their own pools, each counter is the number of sessions bound to the pool |
| Accounting.CountersWhileBenign | k8s/controllers/load_balancer.py:338-366 | the same over every run of benign calls |
| Accounting.ClampNeverFires | k8s/controllers/load_balancer.py:499-504 | releasing a bound session from its pool never meets the clamp |
| Accounting.TotalIsBoundSessions | k8s/controllers/load_balancer.py:595-607 | total_sessions is the number of sessions bound to registered pools |
| Accounting.HoldersPartition | k8s/controllers/load_balancer.py:595-607 | counting the holders pool by pool counts every bound session once |
| Accounting.AffinitiesFollow | k8s/controllers/load_balancer.py:450-511 | the balancer's affinities and bindings are those of its affinity operations |
| Accounting.RepeatLookupChangesNothing | k8s/controllers/load_balancer.py:338-344 | a repeated lookup within the ttl, the pool being registered and healthy, returns the same pool and changes nothing |
| Accounting.UnhealthyPoolIsRecounted | k8s/controllers/load_balancer.py:338-361 | once its pool is not healthy a bound session is counted again and the counters stop being accurate |
| Accounting.OneSessionFillsPool | k8s/controllers/load_balancer.py:338-386 | in a run built for any n, one session that asks a degraded pool n times is counted n times: the counters are accurate iff n is at most one, and the pool is full iff n reaches its maximum |
| Persistence.KeysInjective | k8s/controllers/session_persistence.py:501-556 | equal session keys or equal file keys have equal ids |
| Persistence.KeysCollideExactly | k8s/controllers/session_persistence.py:501-556 | a session key equals a file key iff its id is the other id followed by `:files` |
| Persistence.SaveOneMore | k8s/controllers/session_persistence.py:573-582 | saving cached states one by one in any order gives one keyspace |
| Persistence.OrderIsIrrelevant | k8s/controllers/session_persistence.py:573-582 | saving the cached states in the order of the dictionary gives that one keyspace when each carries its own id |
| Persistence.UpdateSets | k8s/controllers/session_persistence.py:222-260 | an update sets exactly the attributes it gives and the last activity, in the cache alone, and fails iff the session is nowhere |
| Persistence.MigrateMoves | k8s/controllers/session_persistence.py:352-396 | a migration moves the session to the pod, and to the pool if one is named, notes where it came from and when, keeps the rest and saves it |
| Persistence.RestoreReads | k8s/controllers/session_persistence.py:398-436 | a restore puts the saved session with its stored files into the cache on the new pod, notes it, and saves nothing |
| PersistenceRuns.RunRefines | k8s/controllers/session_persistence.py:164-456 | over every run with crashes, restores and lapsed records the keyspace and cache mean one map of files and one of metadata |
| PersistenceRuns.GetFileIsLastAccepted | k8s/controllers/session_persistence.py:262-336 | get_file returns the last content add_file accepted for the path and nobody deleted, through any number of crashes and restores |
| PersistenceRuns.AddFileAccepts | k8s/controllers/session_persistence.py:280-302 | over every run a file is accepted iff it is not too large and its session is live in memory or saved |
| PersistenceRuns.CrashLosesNoFile | k8s/controllers/session_persistence.py:262-336 | a crash at any moment changes no answer of get_file |
| PersistenceRuns.ReloadIsLastSaved | k8s/controllers/session_persistence.py:501-527 | after a crash the session is what it was at its last save |
| PersistenceRuns.LookupIsCurrent | k8s/controllers/session_persistence.py:209-260 | between saves a lookup sees every update |
| PersistenceRuns.RestoreBringsFilesBack | k8s/controllers/session_persistence.py:398-436 | a restore brings every stored file of the session back into the cache |
| SessionListing.ListSessions | k8s/controllers/session_persistence.py:458-499 | the loop over the scanned keys returns, in key order, what each key contributes |
| SessionListing.SessionKeyLooksLikeFiles | k8s/controllers/session_persistence.py:474-484 | a session key is mistaken for a file key iff the id starts with `files` |
| SessionListing.ListingOverRuns | k8s/controllers/session_persistence.py:458-499 | over every run the listing holds exactly the saved, undeleted sessions that pass the filters and whose id does not start with `files` |
| SessionListing.ListedOnce | k8s/controllers/session_persistence.py:458-499 | over every run each session is listed once when the scan returns each key once |
| PersistenceManager.SessionPersistenceManager.GetSession | k8s/controllers/session_persistence.py:209-220 | the cached object, or a new one from the keyspace that is not put into the cache |
| PersistenceManager.SessionPersistenceManager.CreateSession | k8s/controllers/session_persistence.py:164-207 | cache and keyspace after a creation |
| PersistenceManager.SessionPersistenceManager.UpdateSession | k8s/controllers/session_persistence.py:222-260 | the attributes given, session id and files included, are set in the cache alone |
| PersistenceManager.SessionPersistenceManager.AddFile | k8s/controllers/session_persistence.py:262-302 | oversized files and unknown sessions are refused; otherwise the content is written through, and cached only for a cached session |
| PersistenceManager.SessionPersistenceManager.GetFile | k8s/controllers/session_persistence.py:304-336 | the cached content, else the stored one |
| PersistenceManager.SessionPersistenceManager.DeleteFile | k8s/controllers/session_persistence.py:338-350 | the file leaves cache and keyspace |
| PersistenceManager.SessionPersistenceManager.MigrateSession | k8s/controllers/session_persistence.py:352-396 | the new pod and pool are cached and saved at once |
| PersistenceManager.SessionPersistenceManager.RestoreSession | k8s/controllers/session_persistence.py:398-436 | the saved session is reloaded with all its files and its new pod |
| PersistenceManager.SessionPersistenceManager.DeleteSession | k8s/controllers/session_persistence.py:438-456 | cache entry, record and file hash are gone |
| PersistenceManager.SessionPersistenceManager.SaveAllSessions | k8s/controllers/session_persistence.py:573-582 | the loop saves every cached state in order under the id it carries, which is the snapshot when each carries its own |
| Sha256Node.Sha256Hex | n8n/workflows-v3/01_memory_ingest.json:81 | for every byte string of bit length below 2^53 the result is the digest of FIPS 180-4, printed as sixty-four hexadecimal characters that read back as its eight words |
| Sha256Node.PadBytes | n8n/workflows-v3/01_memory_ingest.json:81 | the push loop ends and pads as section 5.1.1 of FIPS 180-4 |
| Sha256Node.LengthFieldIsBigEndian | n8n/workflows-v3/01_memory_ingest.json:81 | the two 32-bit halves pushed byte by byte are the 64-bit big-endian length |
| Sha256Node.RightRotate | n8n/workflows-v3/01_memory_ingest.json:81 | shift-or over signed numbers is ROTR of the word |
| Sha256Node.JoinBytes | n8n/workflows-v3/01_memory_ingest.json:81 | four shifted and or-ed bytes reduced by `>>> 0` are the big-endian word |
| Sha256Node.FillSchedule | n8n/workflows-v3/01_memory_ingest.json:81 | the reused array holds the message schedule of the block |
| Sha256Node.Temporaries | n8n/workflows-v3/01_memory_ingest.json:81 | sums reduced by `>>> 0` are T1 and T2 modulo 2^32 |
| Sha256Node.CompressBlock | n8n/workflows-v3/01_memory_ingest.json:81 | the 64 rotations of the working locals are step 3 of section 6.2.2 |
| Sha256Node.AbsorbBlocks | n8n/workflows-v3/01_memory_ingest.json:81 | the outer loop leaves in `hash` the hash value after all blocks |
| Sha256Node.HexDigestInjective | n8n/workflows-v3/01_memory_ingest.json:81 | different digests have different hexadecimal forms |
| Sha256Node.HexDigestReads | n8n/workflows-v3/01_memory_ingest.json:81 | the printed digest is sixty-four hexadecimal characters whose groups of eight, read by character code in base sixteen, are the words H0 to H7 |
| Sha256Constants.ConstantsAreRoots | n8n/workflows-v3/01_memory_ingest.json:81 | all 64 round constants and 8 initial values are the root fractions of sections 4.2.2 and 5.3.3 |
| Primes.ListIsFirstPrimes | n8n/workflows-v3/01_memory_ingest.json:81 | the list behind the constants ascends and holds exactly the primes up to 311 |
| Fips180.Sha256Unique | n8n/workflows-v3/01_memory_ingest.json:81 | the standard's description determines one digest |
| Fips180.ZeroBitsAreLeast | n8n/workflows-v3/01_memory_ingest.json:81 | the padding uses the least number of zero bits that solves the equation of section 5.1.1 |
| Fips180.PadInverse | n8n/workflows-v3/01_memory_ingest.json:81 | the message is recovered from its padded form |
| Fips180.PadInjective | n8n/workflows-v3/01_memory_ingest.json:81 | so padding is injective |
| Words.BitwiseDigits | n8n/workflows-v3/01_memory_ingest.json:81 | And, Or and Xor act digit by digit as the boolean operations |
| Words.RotrDigits | n8n/workflows-v3/01_memory_ingest.json:81 | a right shift joined with a left shift by the rest is the circular shift: digit i of the result is digit i + n of the word, taken round its 32 positions |
| JsNumber.WordOfOperators | n8n/workflows-v3/01_memory_ingest.json:81 | the signed 32-bit operators act on words as the bitwise operations of the standard |
| JsNumber.WordOfSum | n8n/workflows-v3/01_memory_ingest.json:81 | sums of signed numbers are word sums modulo 2^32 |
| AuditChain.AuditTable.Newest | sql/20260220_audit_hardening.sql:38-42 | one of the rows with the latest created_at, none of an empty table |
| AuditChain.AuditTable.Insert | sql/20260220_audit_hardening.sql:33-68 | the row is appended with its link and seal, whatever hashes it brought |
| AuditChain.AuditTable.Change | sql/20260220_audit_hardening.sql:14-31 | the row-by-row rewriting of an UPDATE or DELETE is rolled back by the guard at the first row it touches: the table is unchanged, and the statement completes iff it touches no row |
| AuditChain.GuardKeepsTable | sql/20260220_audit_hardening.sql:14-31 | derived from the guard raising before every touched row: no statement changes the table, and it completes iff it touches no row |
| AuditChain.UnguardedUpdateChanges | sql/20260220_audit_hardening.sql:21-31 | without the guard an UPDATE of one row changes that row |
| AuditChain.InsertChainsExactly | sql/20260220_audit_hardening.sql:44 | an insert extends the chain iff the hash it links to is the last row's |
| AuditChain.SerialRunIsChain | sql/20260220_audit_hardening.sql:33-62 | serial inserts with increasing created_at and no supplied prev_hash build one verified chain over any unhashed rows, in every reachable table |
| AuditChain.AppendOnly | sql/20260220_audit_hardening.sql:14-31 | over every sequence of inserts, updates and deletions the table only grows at its end |
| AuditChain.LateRowForks | sql/20260220_audit_hardening.sql:38-44 | after a row older than the newest one the next row links to the same predecessor, and the table is a chain only if two rows hash alike |
| AuditChain.Commitment | sql/20260220_audit_hardening.sql:45-58 | two chains of one length that end in one hash agree at every index on link and hashed columns, or exhibit a collision of the digest |
| AuditChain.ShorterChainAbsorbsLink | sql/20260220_audit_hardening.sql:45-58 | equal lengths are needed: a chain of one row can end in the hash of a chain of two without a collision |
| AuditChain.UncoveredChanges | sql/20260220_audit_hardening.sql:45-58 | payload, reason and risk score may change, and text may move from actor to action, without breaking the chain |
| AuditChain.CoveredChangeIsFound | sql/20260220_audit_hardening.sql:45-58 | an altered row passes verification iff its hashed columns run together to the same text or collide |
| AuditChain.EveryColumnCounts | sql/20260220_audit_hardening.sql:45-58 | a change of any one of the eight hashed columns alone changes the hashed text, so it is found unless the digests collide |
| AuditChain.TextMovesAtEverySeam | sql/20260220_audit_hardening.sql:45-58 | text may move from the end of any hashed column to the start of the next without breaking the chain |
| Tenancy.ResolvesToCaller | executor/api_server.py:636-657 | with a key set a request resolves iff its header names a tenant and the body at most repeats it, and then to that tenant |
| Tenancy.BindsOwnTenant | executor/api_server.py:659-674 | with a key set binding succeeds iff the session's tenant is the caller's |
| Tenancy.ContextValidExactly | executor/api_server.py:570-618 | a tenancy context is valid iff tenant and scope are texts that are not blank, the same for subject and resource once stripped |
| TenantIsolation.OnlyOwnTenant | executor/api_server.py:927-1024 | in every run with a key set a request touches and runs code only in sessions of its own tenant, and destroys another tenant's session only if that session is already dead for good |
| TenantIsolation.ExpiredIsAnyones | executor/api_server.py:927-940 | a destroy request, the sandbox not refusing, removes a registered session iff its caller is authenticated and the session is either not live or the caller's own |
| TenantIsolation.TenantIsCreators | executor/api_server.py:904-912 | a step registers a session under the tenant of the request served, and never changes the tenant of another |
| TenantIsolation.RecordedAtCreation | executor/api_server.py:904-912 | every registered session was registered by a request of the tenant recorded for it |
| TenantIsolation.OnlyAdmittedRun | executor/api_server.py:783-801 | code runs, in a session or directly, and a session is created, only for a request that the policy allowed while it was served, or any when the policy is not enforced |
| TenantIsolation.PolicyAdmits | executor/api_server.py:783-801 | in every run the policy stops a request iff it is enforced and denies it, or the scope is blank |
| TenantIsolation.DirectRuns | executor/api_server.py:803-869 | a direct execution is run iff the header names a tenant, the body at most repeats it, the scope is not blank and the policy admits it |
| TenantIsolation.RunKeeps | executor/api_server.py:620-674 | the isolation invariant holds in every reachable state, cleanups interleaved anywhere |
| ExecutorApi.ExecutorHandler.HandleDestroySession | executor/api_server.py:927-956 | new state and status of a destroy request |
| ExecutorApi.ExecutorHandler.HandleSessionExecute | executor/api_server.py:958-1024 | new state and status of an execution: touched before the policy is asked, run only after it admits; 404 also when the sandbox's own error reads "not found or expired" |
| ExecutorApi.ExecutorHandler.HandleCreateSession | executor/api_server.py:871-925 | new state and status of a creation, the resolved tenant recorded |
| ExecutorApi.ExecutorHandler.BindForExecution | executor/api_server.py:965-982 | 403, 404 or the bound tenant, in the handler's order of checks |
| ExecutorApi.CreationContextValid | executor/api_server.py:570-618 | a creation's own tenancy context is never rejected: the policy alone decides |
| ExecutorApi.ServedDestroyIsRun | executor/api_server.py:927-956 | a served destroy request is a run of the isolation model |
| ExecutorApi.ServedExecuteIsRun | executor/api_server.py:958-1024 | so is a served execution |
| ExecutorApi.ServedCreateIsRun | executor/api_server.py:871-925 | so is a served creation |
| ExecutorApi.DestroyAnswers | executor/api_server.py:927-956 | when a destroy request is answered 200, 403 and 404, in terms of header, session and sandbox |
| ExecutorApi.ExecuteAnswers | executor/api_server.py:958-1024 | when an execution is answered 200 and 403, and otherwise 404: tenant, life at each of the three lookups, scope, policy and the sandbox decide |
| ExecutorApi.CreateAnswersRequest | executor/api_server.py:871-925 | when a creation is answered 200, 403 and otherwise 400, what it registers, and that nothing changes before the policy admits it |
| ExecutorApi.StripStrips | executor/api_server.py:620-625 | stripping strings is an instance of the abstract texts of the isolation results |
| Lines.StripInlineComment | scripts/check_branch_protection_check_names.py:50-65 | the loop cuts at the first unquoted `#` at the start or after a space, then trims |
| Lines.StrippingIsIdempotentPrefix | scripts/check_branch_protection_check_names.py:50-65 | stripping keeps a comment-free prefix, and stripping again changes nothing |
| Lines.StrippedIsBlank | scripts/check_branch_protection_check_names.py:50-65 | a line strips to a blank iff it is blank or only a comment |
| Lines.HashAfterBlankCuts | scripts/check_branch_protection_check_names.py:50-65 | a hash at the start of a line or after a blank cuts the line there |
| Lines.HashInWordStays | scripts/check_branch_protection_check_names.py:50-65 | a hash inside a word does not |
| Lines.HashInQuotesStays | scripts/check_branch_protection_check_names.py:50-65 | nor does one inside quotes |
| Lines.TrimTakesBlanks | scripts/check_branch_protection_check_names.py:50-85 | trimming takes the blanks from both ends and nothing else |
| Lines.EntrySplits | scripts/check_branch_protection_check_names.py:68-78 | a line is an entry iff more than blanks stand before its first colon; key and value are what stands on either side, trimmed |
| Lines.QuotesComeOff | scripts/check_branch_protection_check_names.py:81-85 | equal quotes around a scalar come off, with the blanks inside and outside |
| Lines.UnquotedStays | scripts/check_branch_protection_check_names.py:81-85 | any other scalar is only trimmed |
| JobParser.OnePairPerHeader | scripts/check_branch_protection_check_names.py:88-149 | the jobs of a block are one pair per job header in order, each named by the first `name` at the property indent of its own lines, else by its id |
| JobParser.HeadersAreAll | scripts/check_branch_protection_check_names.py:115-124 | the headers are all lines of the block that look like a job id at the indent of the first such line |
| JobScan.ParseWorkflowJobs | scripts/check_branch_protection_check_names.py:88-149 | from lines to pairs: nothing without a job header in the block, otherwise one pair per header in order, the k-th made from the k-th header and its own lines, and the last one again when a left-margin line closes the block |
| JobScan.PairsAreParsed | scripts/check_branch_protection_check_names.py:88-149 | a list is those pairs iff it is what the parser returns |
| JobScan.ScanFindsJobs | scripts/check_branch_protection_check_names.py:97-149 | the scanner's state determines exactly those jobs after every line |
| JobScan.DuplicateExactly | scripts/check_branch_protection_check_names.py:110-113 | the result is one pair per job iff no left-margin line closes a block that has a job |
| JobScan.InsertedLineIgnored | scripts/check_branch_protection_check_names.py:97-143 | inserting a blank line, a comment line, or a line nested deeper than an established property indent never changes the result |
| JobReading.JobIdExactly | scripts/check_branch_protection_check_names.py:115-117 | a text could declare a job iff it is a non-empty word of letters, digits, `_` and `-` with a colon behind it, blanks around the word aside |
| JobReading.TwoJobsRead | scripts/check_branch_protection_check_names.py:88-149 | a file with two jobs, whatever its texts, yields the first under its first name at the indent of its properties, quotes and comment gone and list items, deeper and later names ignored, or under its id if that name is empty, and the second under its id |
| Placement.GetSessionsOnPod | k8s/controllers/operator.py:646-664 | the names, each once, of the sessions whose status names the pod; none if the listing fails |
| Placement.FindPod | k8s/controllers/operator.py:510-517 | the search loop computes first fit over the listed pods |
| Placement.FirstFit | k8s/controllers/operator.py:623-641 | the first running pod with fewer than ten listed sessions, none iff no pod fits |
| Placement.PodLoadBound | k8s/controllers/operator.py:503-532 | with at most n handlers between choice and merge, sessions on a pod plus choices for it are at most ten, n - 1 and one per choice made blindly on the full pod |
| Placement.BlindExactly | k8s/controllers/operator.py:646-664 | a full pod is chosen iff its session listing failed |
| Placement.AtMostTenPerPod | k8s/controllers/operator.py:613-641 | one handler at a time and listings that succeed keep every pod at ten sessions |
| Placement.FailedListingsPileUp | k8s/controllers/operator.py:646-664 | with failing listings any number of sessions lands on one pod |
| Placement.RunConsistent | k8s/controllers/operator.py:555-571 | in every reachable state a status names a pod iff its session is active |
| Placement.CreationOutcome | k8s/controllers/operator.py:503-586 | a new session becomes active on the first pod that takes one more, waits when none does, and fails when the pods cannot be listed or its record not be stored |
| Placement.ReconcileOutcome | k8s/controllers/operator.py:612-643 | a waiting session becomes active on the first pod that takes one more and otherwise stays as it is; active and failed ones are left alone |
| Placement.TargetIsLeast | k8s/controllers/operator.py:706-714 | the target is the least number of pods within the bounds whose queues have room for all sessions |
| Placement.PendingFindsPod | k8s/controllers/operator.py:706-714 | with a queue depth of at most ten, the ceiling below the maximum and target_replicas pods running, a pending session always finds a pod |
| Placement.DeepQueueStarves | k8s/controllers/operator.py:706-714 | with a deeper queue, ten creations for every running pod and one more reach a state in which the target is met, every pod is full and a session waits |

## Left out

- Docker, Redis, Kubernetes, OPA and HTTP clients are maps and outcomes chosen from outside; Redis calls and state-store calls do not fail.
- Threads and clocks: lock-held sections are atomic steps that read one instant each, time is a real number that does not run backwards, and floating point is replaced by exact reals.
- SessionMirror.MirrorAgreement: calls run one at a time; the state-store writes that two threads make after releasing the lock may be reordered by the real system.
- SessionPool.SessionPool.Acquire: one acquisition at a time; the interleavings are in PoolRuns.
- PoolRuns.ExclusiveLeasing: the turns of one acquisition may be separated by other operations on the pool in the model, although the code holds the pool's lock across them; so the model has more runs than the code.
- Affinity.AffinityRefinesMap: one replica; the code gives several replicas no coherence.
- Balancer.CandidatesSelectable: pools enter by registration, with no session; `_load_pools`, which may restore a stored counter at the start, is not modelled, nor are the records of pools in Redis. Of `get_pool_stats` only the total is modelled.
- Balancer.AvailableExactly: the request for admission changes breakers of pools that are not chosen, as in the code; nothing is claimed about fairness between half-open pools.
- PersistenceRuns.GetFileIsLastAccepted: assumes colon-free ids, updates that set neither `files` nor `session_id`, file hashes younger than their 24 hours, and compression as an inverse pair; a snapshot is one step.
- PersistenceRuns.ReloadIsLastSaved: the lifetime given at creation lapses at any moment of the model's choosing, because later saves drop it; the base64 and JSON forms of a record are not modelled.
- Sha256Node.Sha256Hex: starts from the encoded bytes; the conversion of a string through `unescape(encodeURIComponent(...))` is not modelled.
- AuditChain.AuditTable.Change: TRUNCATE has no guard in the code and is not modelled; neither are superusers who drop triggers.
- AuditChain.Commitment: the text form of an instant is one function, so a change of the session's time zone between writing and checking is not modelled.
- TenantIsolation.OnlyOwnTenant: a key is set, as the server requires at its start (`executor/api_server.py:90-91`); requests are served one at a time, as `HTTPServer` does; sessions are handed out through this API alone; the API key comparison, request parsing, optional fields and the template lookup come before the modelled stages. A creation may retry its acquisition more often in the model than in the code.
- ExecutorApi.ExecutorHandler.HandleSessionExecute: the checks of `session_id`, `code` and `files` that answer 400 first are not modelled; of the sandbox's result only what decides the status is; cleanups between its steps are in TenantIsolation.
- JobScan.ParseWorkflowJobs: starts from the list of lines; reading the file and the other functions of the script are not modelled.
- Placement.PodLoadBound: a handler's returned fields are merged into the status of its session; retries of failed handlers, pods that vanish and the Redis record of a persistent session are not modelled.
- The Docker sandbox (`executor/sandbox.py`), its file transfer and path checks (`executor/filesystem.py`), the chart and HTML capture of `executor/interpreter.py` and the package cache (`executor/package_cache.py`) are not modelled; sessions see a sandbox only as something that is built or not and is destroyed or raises.
- The policy-bundle server apart from its audit insert, the web interface, the shell scripts, the metrics text and logging are not modelled.
