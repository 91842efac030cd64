/** Tenant isolation over every run of requests, cleanups and expiries. */
module TenantIsolation {
  import opened Options
  import opened Sessions
  import opened Tenancy

  /** Sessions are recorded under stripped tenants. */
  ghost predicate Recorded<T>(c: Config<T>, m: Manager<Meta<T>>) {
    forall id :: id in m.sessions ==> c.normal(m.sessions[id].info.tenant) == Some(m.sessions[id].info.tenant)
  }

  predicate Dead<M>(m: Manager<M>, id: Id, clock: real) {
    id in m.sessions ==> !m.sessions[id].active || Expired(m.sessions[id], clock)
  }

  predicate Owns<T(==)>(m: Manager<Meta<T>>, id: Id, caller: Option<T>) {
    id in m.sessions ==> caller == Some(m.sessions[id].info.tenant)
  }

  /** What the request being served has earned so far. */
  predicate Entitled<T(==)>(c: Config<T>, w: World<T>) {
    match w.stage
    case Idle => true
    case Destroying(id, caller, found) =>
      caller.Some? && if found then Owns(w.manager, id, caller) else Dead(w.manager, id, w.clock)
    case Getting(id, caller, tenant) => caller == Some(tenant) && Owns(w.manager, id, caller)
    case Judging(id, caller, tenant, _) => caller == Some(tenant) && Owns(w.manager, id, caller)
    case Executing(id, caller) => caller.Some? && Owns(w.manager, id, caller)
    case Proposing(caller, meta) => caller == Some(meta.tenant) && c.normal(meta.tenant) == caller
    case Creating(caller, meta) => caller == Some(meta.tenant) && c.normal(meta.tenant) == caller
    case Building(caller, meta) => caller == Some(meta.tenant) && c.normal(meta.tenant) == caller
    case Submitting(caller, tenant, _) => caller == Some(tenant)
    case RunningDirect(caller, tenant) => caller == Some(tenant)
  }

  ghost predicate Inv<T>(c: Config<T>, w: World<T>) {
    Recorded(c, w.manager) && Entitled(c, w)
  }

  // ---------------------------------------------------------------- what the manager's steps keep

  /** The sessions of `after` are sessions of `before`, none revived. */
  ghost predicate Keeps<M>(before: Manager<M>, after: Manager<M>) {
    forall id :: id in after.sessions ==>
      && id in before.sessions
      && after.sessions[id].info == before.sessions[id].info
      && after.sessions[id].ttl == before.sessions[id].ttl
      && (after.sessions[id].active ==> before.sessions[id].active)
  }

  ghost predicate KeepsUnused<M>(before: Manager<M>, after: Manager<M>) {
    && Keeps(before, after)
    && forall id :: id in after.sessions ==> after.sessions[id].lastUsed == before.sessions[id].lastUsed
  }

  lemma DestroyKeeps<M>(m: Manager<M>, id: Id, raises: bool)
    ensures KeepsUnused(m, Destroy(m, id, raises).0)
  {
  }

  lemma GetKeeps<M>(m: Manager<M>, id: Id, now: real, raises: bool)
    ensures Keeps(m, Get(m, id, now, raises).0)
  {
    DestroyKeeps(m, id, raises);
  }

  lemma CleanupKeeps<M>(m: Manager<M>, now: real, raising: set<Id>)
    ensures KeepsUnused(m, Cleanup(m, now, raising).0)
  {
  }

  lemma KeptOwner<T>(before: Manager<Meta<T>>, after: Manager<Meta<T>>, id: Id, caller: Option<T>)
    requires Keeps(before, after) && Owns(before, id, caller)
    ensures Owns(after, id, caller)
  {
  }

  lemma KeptDead<M>(before: Manager<M>, after: Manager<M>, id: Id, clock: real, later: real)
    requires KeepsUnused(before, after) && Dead(before, id, clock) && clock <= later
    ensures Dead(after, id, later)
  {
  }

  // ---------------------------------------------------------------- the invariant

  lemma AskDestroyKeeps<T>(c: Config<T>, w: World<T>, header: Option<T>, id: Id, now: real)
    requires c.keySet && Inv(c, w) && w.stage.Idle? && w.clock <= now
    ensures Inv(c, Step(c, w, AskDestroy(header, id, now)))
  {
    var found := Peek(w.manager, id, now);
    if found.Some? {
      BindsOwnTenant(c, header, found.value.info.tenant);
    }
  }

  lemma AskExecuteKeeps<T>(c: Config<T>, w: World<T>, header: Option<T>, id: Id, now: real)
    requires c.keySet && Inv(c, w) && w.stage.Idle? && w.clock <= now
    ensures Inv(c, Step(c, w, AskExecute(header, id, now)))
  {
    var found := Peek(w.manager, id, now);
    if found.Some? {
      BindsOwnTenant(c, header, found.value.info.tenant);
    }
  }

  lemma AskCreateKeeps<T(!new)>(c: Config<T>, w: World<T>, header: Option<T>, tenant: Field<T>, scope: Field<T>,
                                template: T)
    requires c.keySet && Strips(c.normal) && Inv(c, w) && w.stage.Idle?
    ensures Inv(c, Step(c, w, AskCreate(header, tenant, scope, template)))
  {
    ResolvesToCaller(c, header, tenant);
  }

  lemma AskDirectKeeps<T>(c: Config<T>, w: World<T>, header: Option<T>, tenant: Field<T>, scope: Field<T>)
    requires c.keySet && Inv(c, w) && w.stage.Idle?
    ensures Inv(c, Step(c, w, AskDirect(header, tenant, scope)))
  {
    ResolvesToCaller(c, header, tenant);
  }

  lemma CleanedKeeps<T>(c: Config<T>, w: World<T>, now: real, raising: set<Id>)
    requires Inv(c, w) && w.clock <= now
    ensures Inv(c, Step(c, w, Cleaned(now, raising)))
  {
    var after := Cleanup(w.manager, now, raising).0;
    CleanupKeeps(w.manager, now, raising);
    if w.stage.Destroying? && !w.stage.found {
      KeptDead(w.manager, after, w.stage.id, w.clock, now);
    } else if w.stage.Destroying? || w.stage.Getting? || w.stage.Judging? || w.stage.Executing? {
      KeptOwner(w.manager, after, w.stage.id, w.stage.caller);
    }
  }

  /** An event out of place only moves the clock. */
  lemma Unfitting<T>(c: Config<T>, w: World<T>, e: Event<T>)
    requires Inv(c, w) && Act(c, w, e) == w
    ensures Inv(c, Step(c, w, e))
  {
    var t := Time(e);
    if t.Some? && w.clock <= t.value && w.stage.Destroying? && !w.stage.found {
      KeptDead(w.manager, w.manager, w.stage.id, w.clock, t.value);
    }
  }

  lemma ServingKeeps<T>(c: Config<T>, w: World<T>, e: Event<T>)
    requires Inv(c, w) && (e.DoDestroy? || e.DoGet? || e.RunCode?)
    ensures Inv(c, Step(c, w, e))
  {
    var after := Step(c, w, e);
    if e.DoDestroy? && w.stage.Destroying? {
      DestroyKeeps(w.manager, w.stage.id, e.raises);
    } else if (e.DoGet? && w.stage.Getting?) || (e.RunCode? && w.stage.Executing?) {
      GetKeeps(w.manager, w.stage.id, e.now, e.raises);
      if after != w {
        KeptOwner(w.manager, after.manager, w.stage.id, w.stage.caller);
      }
    } else {
      Unfitting(c, w, e);
    }
  }

  lemma CreatingKeeps<T>(c: Config<T>, w: World<T>, e: Event<T>)
    requires Inv(c, w) && (e.DoAcquire? || e.DoRegister? || e.BuildFails? || e.DirectEnds?)
    ensures Inv(c, Step(c, w, e))
  {
    if Act(c, w, e) == w {
      Unfitting(c, w, e);
    }
  }

  lemma JudgeKeeps<T>(c: Config<T>, w: World<T>, allow: bool)
    requires Inv(c, w)
    ensures Inv(c, Step(c, w, Judge(allow)))
  {
  }

  lemma StepKeeps<T(!new)>(c: Config<T>, w: World<T>, e: Event<T>)
    requires c.keySet && Strips(c.normal) && Inv(c, w)
    ensures Inv(c, Step(c, w, e))
  {
    if Time(e).Some? && Time(e).value < w.clock {
    } else if e.Cleaned? {
      CleanedKeeps(c, w, e.now, e.raising);
    } else if e.Judge? {
      JudgeKeeps(c, w, e.allow);
    } else if e.DoDestroy? || e.DoGet? || e.RunCode? {
      ServingKeeps(c, w, e);
    } else if e.DoAcquire? || e.DoRegister? || e.BuildFails? || e.DirectEnds? {
      CreatingKeeps(c, w, e);
    } else if !w.stage.Idle? {
      Unfitting(c, w, e);
    } else if e.AskDestroy? {
      AskDestroyKeeps(c, w, e.header, e.id, e.now);
    } else if e.AskExecute? {
      AskExecuteKeeps(c, w, e.header, e.id, e.now);
    } else if e.AskCreate? {
      AskCreateKeeps(c, w, e.header, e.tenant, e.scope, e.template);
    } else {
      AskDirectKeeps(c, w, e.header, e.tenant, e.scope);
    }
  }

  lemma {:induction false} RunKeeps<T(!new)>(c: Config<T>, maxSessions: nat, es: seq<Event<T>>)
    requires c.keySet && Strips(c.normal)
    ensures Inv(c, Run(c, maxSessions, es))
  {
    if es != [] {
      RunKeeps(c, maxSessions, es[..|es| - 1]);
      StepKeeps(c, Run(c, maxSessions, es[..|es| - 1]), es[|es| - 1]);
    }
  }

  /** A request acts under a stripped tenant. */
  lemma {:induction false} CallersAreStripped<T(!new)>(c: Config<T>, maxSessions: nat, es: seq<Event<T>>)
    requires Strips(c.normal)
    ensures var stage := Run(c, maxSessions, es).stage;
      !stage.Idle? && stage.caller.Some? ==> c.normal(stage.caller.value) == stage.caller
  {
    if es != [] {
      CallersAreStripped(c, maxSessions, es[..|es| - 1]);
    }
  }

  // ---------------------------------------------------------------- isolation

  predicate RunsIn<T(==)>(w: World<T>, e: Event<T>, id: Id) {
    e.RunCode? && e.now >= w.clock && w.stage.Executing? && w.stage.id == id
      && Get(w.manager, id, e.now, e.raises).1.Found?
  }

  /** The next step touches the session, or runs code in it. */
  predicate Uses<T(==)>(w: World<T>, e: Event<T>, id: Id) {
    || (e.DoGet? && e.now >= w.clock && w.stage.Getting? && w.stage.id == id
        && Get(w.manager, id, e.now, e.raises).1.Found?)
    || RunsIn(w, e, id)
  }

  /** The next step asks the sandbox of the session to go. */
  predicate Destroys<T(==)>(w: World<T>, e: Event<T>, id: Id) {
    e.DoDestroy? && w.stage.Destroying? && w.stage.id == id && id in w.manager.sessions
  }

  predicate LiveAt<M>(m: Manager<M>, id: Id, now: real) {
    Peek(m, id, now).Some?
  }

  /** In every run with a key set, a request uses only sessions of its own tenant, and destroys a session
      of another tenant only if that session is already dead. */
  lemma {:induction false} OnlyOwnTenant<T(!new)>(c: Config<T>, maxSessions: nat, es: seq<Event<T>>, e: Event<T>,
                                                  id: Id)
    requires c.keySet && Strips(c.normal)
    ensures var w := Run(c, maxSessions, es);
      && (Uses(w, e, id) ==> w.stage.caller == Some(w.manager.sessions[id].info.tenant))
      && (Destroys(w, e, id) && LiveAt(w.manager, id, w.clock) ==>
            w.stage.caller == Some(w.manager.sessions[id].info.tenant))
      && (Destroys(w, e, id) && w.stage.caller != Some(w.manager.sessions[id].info.tenant) ==>
            !w.stage.found && forall later :: later >= w.clock ==> !LiveAt(w.manager, id, later))
  {
    RunKeeps(c, maxSessions, es);
  }

  /** The exception is real: once a session has expired, any authenticated tenant can destroy it. */
  lemma ExpiredIsAnyones<T>(c: Config<T>, w: World<T>, header: Option<T>, id: Id, now: real)
    requires c.keySet && w.stage.Idle? && w.clock <= now && id in w.manager.sessions
    ensures var after := Step(c, Step(c, w, AskDestroy(header, id, now)), DoDestroy(false));
      id !in after.manager.sessions <==>
        Caller(c, header).Some?
        && (!LiveAt(w.manager, id, now) || Caller(c, header) == c.normal(w.manager.sessions[id].info.tenant))
  {
    BindsOwnTenant(c, header, w.manager.sessions[id].info.tenant);
  }

  /** The tenant recorded for a session is that of the request that registered it, and no step changes it. */
  lemma {:induction false} TenantIsCreators<T(!new)>(c: Config<T>, maxSessions: nat, es: seq<Event<T>>, e: Event<T>,
                                                     id: Id)
    requires c.keySet && Strips(c.normal)
    requires id in Step(c, Run(c, maxSessions, es), e).manager.sessions
    ensures var w := Run(c, maxSessions, es);
      var recorded := Step(c, w, e).manager.sessions[id].info;
      if e.DoRegister? && w.stage.Building? && e.id == id && w.clock <= e.now then
        Some(recorded.tenant) == w.stage.caller
      else id in w.manager.sessions && recorded == w.manager.sessions[id].info
  {
    RunKeeps(c, maxSessions, es);
    var w := Run(c, maxSessions, es);
    if e.DoDestroy? && w.stage.Destroying? {
      DestroyKeeps(w.manager, w.stage.id, e.raises);
    } else if e.DoGet? && w.stage.Getting? {
      GetKeeps(w.manager, w.stage.id, e.now, e.raises);
    } else if e.RunCode? && w.stage.Executing? {
      GetKeeps(w.manager, w.stage.id, e.now, e.raises);
    } else if e.Cleaned? {
      CleanupKeeps(w.manager, e.now, e.raising);
    }
  }

  /** Every registered session was registered by a request of the tenant recorded for it. */
  lemma {:induction false} RecordedAtCreation<T(!new)>(c: Config<T>, maxSessions: nat, es: seq<Event<T>>, id: Id)
    returns (i: nat)
    requires c.keySet && Strips(c.normal) && id in Run(c, maxSessions, es).manager.sessions
    ensures i < |es| && es[i].DoRegister? && es[i].id == id
    ensures Run(c, maxSessions, es[..i]).stage.Building?
    ensures Run(c, maxSessions, es[..i]).stage.caller == Some(Run(c, maxSessions, es).manager.sessions[id].info.tenant)
  {
    var n := |es| - 1;
    var w, e := Run(c, maxSessions, es[..n]), es[n];
    TenantIsCreators(c, maxSessions, es[..n], e, id);
    if e.DoRegister? && w.stage.Building? && e.id == id && w.clock <= e.now {
      i := n;
    } else {
      i := RecordedAtCreation(c, maxSessions, es[..n], id);
      assert es[..n][..i] == es[..i];
    }
  }

  // ---------------------------------------------------------------- policy

  /** The request being served at the end of the run was admitted by the policy at step j: allowed, unless the
      policy is not enforced. */
  predicate Admitted<T(==)>(c: Config<T>, maxSessions: nat, es: seq<Event<T>>, j: nat) {
    && j < |es| && es[j].Judge? && (c.enforcing ==> es[j].allow)
    && !Run(c, maxSessions, es[..j]).stage.Idle?
    && forall k :: j < k <= |es| ==> !Run(c, maxSessions, es[..k]).stage.Idle?
  }

  predicate PastPolicy<T>(stage: Stage<T>) {
    stage.Executing? || stage.Creating? || stage.Building? || stage.RunningDirect?
  }

  /** Code runs, in a session or directly, and a session is created, only for a request that the policy
      admitted while it was served. */
  lemma {:induction false} OnlyAdmittedRun<T>(c: Config<T>, maxSessions: nat, es: seq<Event<T>>) returns (j: nat)
    requires PastPolicy(Run(c, maxSessions, es).stage)
    ensures Admitted(c, maxSessions, es, j)
  {
    var n := |es| - 1;
    var w := Run(c, maxSessions, es[..n]);
    assert es[..n + 1] == es;
    if PastPolicy(w.stage) {
      j := OnlyAdmittedRun(c, maxSessions, es[..n]);
      assert forall k :: j <= k <= n ==> es[..n][..k] == es[..k];
    } else {
      j := n;
    }
  }

  /** And a request that the policy allows, or any when it is not enforced, is not held up by it: its own tenant and
      scope are a valid context. */
  lemma PolicyAdmits<T(!new)>(c: Config<T>, maxSessions: nat, es: seq<Event<T>>, allow: bool)
    requires c.keySet && Strips(c.normal)
    requires var stage := Run(c, maxSessions, es).stage; stage.Proposing? || stage.Submitting? || stage.Judging?
    ensures var w := Run(c, maxSessions, es);
      var scope := if w.stage.Proposing? then w.stage.meta.scope else w.stage.scope;
      PastPolicy(Step(c, w, Judge(allow)).stage) <==> (c.enforcing ==> allow) && c.normal(scope).Some?
  {
    RunKeeps(c, maxSessions, es);
    CallersAreStripped(c, maxSessions, es);
  }

  /** A direct execution is run exactly for an authenticated caller whose body at most repeats its tenant, with a
      scope that is not blank, and whom the policy admits. */
  lemma DirectRuns<T(!new)>(c: Config<T>, w: World<T>, header: Option<T>, tenant: Field<T>, scope: Field<T>,
                            allow: bool)
    requires c.keySet && Strips(c.normal) && w.stage.Idle?
    ensures var judged := Step(c, Step(c, w, AskDirect(header, tenant, scope)), Judge(allow));
      && (judged.stage.RunningDirect? <==>
            && header.Some? && c.normal(header.value).Some?
            && (tenant.Missing? || Reads(c, tenant, c.normal(header.value).value))
            && scope.Text? && c.normal(scope.value).Some? && (c.enforcing ==> allow))
      && (!judged.stage.RunningDirect? ==> judged == w)
  {
    ResolvesToCaller(c, header, tenant);
  }
}
