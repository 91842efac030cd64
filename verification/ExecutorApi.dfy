/** The protected handlers of the executor API over the session manager. */
module ExecutorApi {
  import opened Options
  import opened Sessions
  import opened Tenancy
  import Mirror = SessionMirror
  import Managers = SessionManager
  import Lines

  // ---------------------------------------------------------------- what a handler does and answers

  /** Handlers answer 200, 400 for a malformed request or a failed creation, 403 and 404. */
  function ServeDestroy<T(==)>(c: Config<T>, h: Mirror.Host<Meta<T>>, header: Option<T>, id: Id, now: real,
                               raises: bool)
    : (Mirror.Host<Meta<T>>, int)
  {
    if AfterDestroyAsked(c, h.manager, header, id, now).Idle? then (h, 403)
    else
      var (after, destroyed) := Mirror.DestroySession(h, id, raises);
      (after, if destroyed then 200 else 404)
  }

  /** What comes from outside while an execution is served: three readings of the clock, the answer of
      the policy, and whether the sandbox's own result is an error that reads "not found or expired". */
  datatype Service = Service(peekAt: real, getAt: real, getSaveAt: real, getRaises: bool, allow: bool,
                             runAt: real, runSaveAt: real, runRaises: bool, readsMissing: bool)

  /** execute_in_session, and the status its result is given. */
  function RunIn<T>(h: Mirror.Host<Meta<T>>, id: Id, s: Service): (Mirror.Host<Meta<T>>, int) {
    var (ran, found) := Mirror.GetSession(h, id, s.runAt, s.runSaveAt, s.runRaises);
    (ran, if found.Some? && !s.readsMissing then 200 else 404)
  }

  /** The request after its tenant was bound to the session. */
  function ServeBound<T(==)>(c: Config<T>, h: Mirror.Host<Meta<T>>, id: Id, tenant: T, s: Service)
    : (Mirror.Host<Meta<T>>, int)
  {
    var (got, found) := Mirror.GetSession(h, id, s.getAt, s.getSaveAt, s.getRaises);
    if found.None? then (got, 404)
    else if !Permitted(c, tenant, found.value.info.scope, s.allow) then (got, 403)
    else RunIn(got, id, s)
  }

  function ServeExecute<T(==)>(c: Config<T>, h: Mirror.Host<Meta<T>>, header: Option<T>, id: Id, s: Service)
    : (Mirror.Host<Meta<T>>, int)
  {
    var stage := AfterExecuteAsked(c, h.manager, header, id, s.peekAt);
    if stage.Idle? then
      (h, if RequireContext(c, header).Accepted? && Peek(h.manager, id, s.peekAt).None? then 404 else 403)
    else ServeBound(c, h, id, stage.tenant, s)
  }

  function ServeCreate<T(==)>(c: Config<T>, h: Mirror.Host<Meta<T>>, header: Option<T>, tenant: Field<T>,
                              scope: Field<T>, template: T, allow: bool, request: Mirror.Creation<Meta<T>>)
    : (Mirror.Host<Meta<T>>, int)
  {
    var resolved := ResolveTenant(c, header, tenant);
    if scope.Missing? then (h, 400)
    else if resolved.Refused? then (h, resolved.status)
    else if RequireText(c, scope).Refused? then (h, 400)
    else if !Enforce(c, allow) then (h, 403)
    else
      var (after, result) := Mirror.Create(h, request.(info := Meta(resolved.value, scope.value, template)));
      (after, if result.Created? then 200 else 400)
  }

  // ---------------------------------------------------------------- served requests are runs

  lemma ServedDestroyIsRun<T>(c: Config<T>, w: World<T>, h: Mirror.Host<Meta<T>>, header: Option<T>, id: Id, now: real,
                              raises: bool)
    requires w.stage.Idle? && w.manager == h.manager && w.clock <= now
    ensures var after := Step(c, Step(c, w, AskDestroy(header, id, now)), DoDestroy(raises));
      after.stage.Idle? && after.manager == ServeDestroy(c, h, header, id, now, raises).0.manager
  {
  }

  lemma ServedGetIsRun<T>(c: Config<T>, asked: World<T>, h: Mirror.Host<Meta<T>>, s: Service)
    requires asked.stage.Getting? && asked.manager == h.manager && asked.clock <= s.getAt <= s.runAt
    ensures var (got, found) := Mirror.GetSession(h, asked.stage.id, s.getAt, s.getSaveAt, s.getRaises);
      var step := Step(c, asked, DoGet(s.getAt, s.getRaises));
      && step.manager == got.manager && step.clock == s.getAt
      && step.stage ==
         if found.Some? then Judging(asked.stage.id, asked.stage.caller, asked.stage.tenant, found.value.info.scope)
         else Idle
  {
  }

  lemma ServedExecuteIsRun<T>(c: Config<T>, w: World<T>, h: Mirror.Host<Meta<T>>, header: Option<T>, id: Id, s: Service)
    requires w.stage.Idle? && w.manager == h.manager && w.clock <= s.peekAt <= s.getAt <= s.runAt
    ensures var asked := Step(c, w, AskExecute(header, id, s.peekAt));
      var judged := Step(c, Step(c, asked, DoGet(s.getAt, s.getRaises)), Judge(s.allow));
      var after := Step(c, judged, RunCode(s.runAt, s.runRaises));
      after.stage.Idle? && after.manager == ServeExecute(c, h, header, id, s).0.manager
  {
    var asked := Step(c, w, AskExecute(header, id, s.peekAt));
    if asked.stage.Getting? {
      ServedGetIsRun(c, asked, h, s);
    }
  }

  /** A creation's own tenancy context is always valid: the policy alone decides. */
  lemma CreationContextValid<T(!new)>(c: Config<T>, header: Option<T>, tenant: Field<T>, scope: Field<T>, allow: bool)
    requires Strips(c.normal) && ResolveTenant(c, header, tenant).Accepted? && RequireText(c, scope).Accepted?
    ensures Permitted(c, ResolveTenant(c, header, tenant).value, scope.value, allow) <==> Enforce(c, allow)
  {
  }

  lemma AcquiredCreateIsRun<T>(c: Config<T>, w: World<T>, h: Mirror.Host<Meta<T>>, request: Mirror.Creation<Meta<T>>)
    requires w.stage.Building? && w.manager == h.manager && request.info == w.stage.meta
      && w.clock <= request.registerAt
    ensures var after := Step(c, w, if request.built then DoRegister(request.id, request.ttl, request.registerAt)
                                    else BuildFails);
      after.stage.Idle? && after.manager == Mirror.FinishCreate(h, request).0.manager
  {
  }

  /** create_session as steps: a failed acquisition cleans up and tries once more. */
  function PermitSteps<T(==)>(c: Config<T>, w: World<T>, cleanAt: real, raising: set<Id>): World<T> {
    var tried := Step(c, w, DoAcquire(false));
    if tried.stage.Creating? then Step(c, Step(c, tried, Cleaned(cleanAt, raising)), DoAcquire(true)) else tried
  }

  function CreationSteps<T(==)>(c: Config<T>, w: World<T>, request: Mirror.Creation<Meta<T>>): World<T> {
    Step(c, PermitSteps(c, w, request.cleanAt, request.raising),
         if request.built then DoRegister(request.id, request.ttl, request.registerAt) else BuildFails)
  }

  lemma PermitIsSteps<T>(c: Config<T>, w: World<T>, h: Mirror.Host<Meta<T>>, request: Mirror.Creation<Meta<T>>)
    requires w.stage.Creating? && w.manager == h.manager && w.clock <= request.cleanAt
    ensures var held := PermitSteps(c, w, request.cleanAt, request.raising);
      && held.manager == Mirror.TakePermit(h, request).0.manager && w.clock <= held.clock <= request.cleanAt
      && held.stage == if Mirror.TakePermit(h, request).1 then Building(w.stage.caller, w.stage.meta) else Idle
  {
    hide Cleanup;
  }

  lemma CreateIsSteps<T>(c: Config<T>, w: World<T>, h: Mirror.Host<Meta<T>>, request: Mirror.Creation<Meta<T>>)
    requires w.stage.Creating? && w.manager == h.manager && request.info == w.stage.meta
    requires w.clock <= request.cleanAt <= request.registerAt
    ensures CreationSteps(c, w, request).stage.Idle?
    ensures CreationSteps(c, w, request).manager == Mirror.Create(h, request).0.manager
  {
    PermitIsSteps(c, w, h, request);
    if Mirror.TakePermit(h, request).1 {
      AcquiredCreateIsRun(c, PermitSteps(c, w, request.cleanAt, request.raising), Mirror.TakePermit(h, request).0,
                          request);
    }
  }

  lemma ServedCreateIsRun<T(!new)>(c: Config<T>, w: World<T>, h: Mirror.Host<Meta<T>>, header: Option<T>,
                                   tenant: Field<T>, scope: Field<T>, template: T, allow: bool,
                                   request: Mirror.Creation<Meta<T>>)
    requires Strips(c.normal) && w.stage.Idle? && w.manager == h.manager
    requires w.clock <= request.cleanAt <= request.registerAt
    ensures var judged := Step(c, Step(c, w, AskCreate(header, tenant, scope, template)), Judge(allow));
      var served := ServeCreate(c, h, header, tenant, scope, template, allow, request);
      if judged.stage.Creating? then
        var after := CreationSteps(c, judged, request.(info := judged.stage.meta));
        after.stage.Idle? && after.manager == served.0.manager
      else judged.stage.Idle? && judged.manager == served.0.manager
  {
    var judged := Step(c, Step(c, w, AskCreate(header, tenant, scope, template)), Judge(allow));
    if ResolveTenant(c, header, tenant).Accepted? && RequireText(c, scope).Accepted? {
      CreationContextValid(c, header, tenant, scope, allow);
      if judged.stage.Creating? {
        CreateIsSteps(c, judged, h, request.(info := judged.stage.meta));
      }
    }
  }

  // ---------------------------------------------------------------- what a request is answered

  predicate LiveFor<T>(m: Manager<Meta<T>>, id: Id, now: real) {
    id in m.sessions && m.sessions[id].active && now - m.sessions[id].lastUsed <= m.sessions[id].ttl as real
  }

  predicate Authenticated<T>(c: Config<T>, header: Option<T>) {
    header.Some? && c.normal(header.value).Some?
  }

  /** The session's tenant is the one the header names. */
  predicate IsOwn<T(==)>(c: Config<T>, m: Manager<Meta<T>>, id: Id, header: Option<T>)
    requires Authenticated(c, header) && id in m.sessions
  {
    c.normal(m.sessions[id].info.tenant) == c.normal(header.value)
  }

  /** A destroy request is refused exactly without a tenant in its header, or for another tenant's live session;
      otherwise it succeeds exactly for a registered session whose sandbox does not raise, record and all. */
  lemma DestroyAnswers<T>(c: Config<T>, h: Mirror.Host<Meta<T>>, header: Option<T>, id: Id, now: real, raises: bool)
    requires c.keySet
    ensures var (after, status) := ServeDestroy(c, h, header, id, now, raises);
      var allowed := Authenticated(c, header) && (LiveFor(h.manager, id, now) ==> IsOwn(c, h.manager, id, header));
      && (status == 403 <==> !allowed)
      && (status == 200 <==> allowed && id in h.manager.sessions && !raises)
      && (status == 404 <==> allowed && !(id in h.manager.sessions && !raises))
      && (status == 403 ==> after == h)
      && (status == 200 ==> id !in after.manager.sessions && id !in after.store)
      && after.manager.sessions - {id} == h.manager.sessions - {id} && after.store - {id} == h.store - {id}
  {
    DestroyExactly(h.manager, id, raises);
  }

  /** An execution succeeds exactly for the tenant of a session that is found, found again and found once more to run
      in, with a scope that is not blank, the policy admitting it and the sandbox not reporting the session missing. */
  lemma ExecuteAnswers<T(!new)>(c: Config<T>, h: Mirror.Host<Meta<T>>, header: Option<T>, id: Id, s: Service)
    requires c.keySet && Strips(c.normal)
    ensures var status := ServeExecute(c, h, header, id, s).1;
      var bound := Authenticated(c, header) && LiveFor(h.manager, id, s.peekAt) && IsOwn(c, h.manager, id, header);
      var admitted := bound && LiveFor(h.manager, id, s.getAt)
        && c.normal(h.manager.sessions[id].info.scope).Some? && (c.enforcing ==> s.allow);
      && (status == 200 <==>
            admitted && s.runAt - s.getAt <= h.manager.sessions[id].ttl as real && !s.readsMissing)
      && (status == 403 <==>
            || !Authenticated(c, header)
            || (LiveFor(h.manager, id, s.peekAt) && !bound)
            || (bound && LiveFor(h.manager, id, s.getAt) && !admitted))
      && status in {200, 403, 404}
      && (!bound ==> ServeExecute(c, h, header, id, s).0 == h)
      && (status == 200 ==>
            var after := ServeExecute(c, h, header, id, s).0.manager.sessions;
            && id in after && after[id].lastUsed == s.runAt
            && after[id].useCount == h.manager.sessions[id].useCount + 2)
  {
    var got := Mirror.GetSession(h, id, s.getAt, s.getSaveAt, s.getRaises).0;
  }

  /** A creation succeeds exactly for a tenant in the header that the body at most repeats, with a scope that is not
      blank, the policy admitting it, room for a session and a sandbox that can be built; then it registers that
      session under that tenant. It is malformed without a scope or with a tenant that is no text, and forbidden
      without a tenant, with another's, or by the policy; then nothing changes. */
  lemma CreateAnswersRequest<T(!new)>(c: Config<T>, h: Mirror.Host<Meta<T>>, header: Option<T>, tenant: Field<T>,
                                      scope: Field<T>, template: T, allow: bool, request: Mirror.Creation<Meta<T>>)
    requires c.keySet && Strips(c.normal)
    ensures var (after, status) := ServeCreate(c, h, header, tenant, scope, template, allow, request);
      var resolved := Authenticated(c, header) && (tenant.Missing? || Reads(c, tenant, c.normal(header.value).value));
      var scoped := scope.Text? && c.normal(scope.value).Some?;
      var admitted := resolved && scoped && (c.enforcing ==> allow);
      var forbidden := !Authenticated(c, header) || (tenant.Text? && c.normal(tenant.value).Some? && !resolved)
        || (resolved && scoped && !admitted);
      && (status == 200 <==> admitted && request.built && Mirror.RoomFor(h.manager, request))
      && (status == 403 <==> !scope.Missing? && forbidden)
      && status in {200, 400, 403}
      && (!admitted ==> after == h)
      && (status == 200 ==>
            && request.id in after.manager.sessions
            && after.manager.sessions[request.id].info == Meta(c.normal(header.value).value, scope.value, template))
  {
    ResolvesToCaller(c, header, tenant);
    if ResolveTenant(c, header, tenant).Accepted? && scope.Text? {
      var made := request.(info := Meta(ResolveTenant(c, header, tenant).value, scope.value, template));
      Mirror.CreateAnswers(h, made);
      assert Mirror.RoomFor(h.manager, made) <==> Mirror.RoomFor(h.manager, request);
    }
  }

  // ---------------------------------------------------------------- the handlers

  class ExecutorHandler<T(==)> {
    const config: Config<T>
    const sessions: Managers.SessionManager<Meta<T>>

    constructor (config: Config<T>, sessions: Managers.SessionManager<Meta<T>>)
      ensures this.config == config && this.sessions == sessions
    {
      this.config, this.sessions := config, sessions;
    }

    /** _handle_destroy_session */
    method HandleDestroySession(header: Option<T>, id: Id, now: real, raises: bool) returns (status: int)
      requires sessions.Valid()
      modifies sessions, sessions.objects
      ensures sessions.Valid() && sessions.objects == old(sessions.objects)
      ensures sessions.Model() == ServeDestroy(config, old(sessions.Model()), header, id, now, raises).0
      ensures status == ServeDestroy(config, old(sessions.Model()), header, id, now, raises).1
    {
      if RequireContext(config, header).Refused? {
        return 403;
      }
      var session := sessions.PeekSession(id, now);
      if session.Some? {
        var bound := BindTenant(config, header, session.value.info.tenant);
        if bound.Refused? {
          return 403;
        }
      }
      var success := sessions.DestroySession(id, raises);
      status := if success then 200 else 404;
    }

    function NotBound(m: Manager<Meta<T>>, header: Option<T>, id: Id, now: real): int {
      if RequireContext(config, header).Accepted? && Peek(m, id, now).None? then 404 else 403
    }

    /** _handle_session_execute up to the binding. */
    method BindForExecution(header: Option<T>, id: Id, now: real) returns (bound: Outcome<T>)
      requires sessions.Valid()
      ensures AfterExecuteAsked(config, sessions.Core(), header, id, now)
           == if bound.Refused? then Idle else Getting(id, Caller(config, header), bound.value)
      ensures bound.Refused? ==> bound.status == NotBound(sessions.Core(), header, id, now)
    {
      if RequireContext(config, header).Refused? {
        return Refused(403);
      }
      var session := sessions.PeekSession(id, now);
      if session.None? {
        return Refused(404);
      }
      bound := BindTenant(config, header, session.value.info.tenant);
    }

    /** execute_in_session */
    method ExecuteInSession(id: Id, s: Service) returns (status: int)
      requires sessions.Valid()
      modifies sessions, sessions.objects
      ensures sessions.Valid() && sessions.objects == old(sessions.objects)
      ensures sessions.Model() == RunIn(old(sessions.Model()), id, s).0
      ensures status == RunIn(old(sessions.Model()), id, s).1
    {
      var found := sessions.GetSession(id, s.runAt, s.runSaveAt, s.runRaises);
      status := if found && !s.readsMissing then 200 else 404;
    }

    function ScopeOf(found: Option<Session<Meta<T>>>): Option<T> {
      if found.Some? then Some(found.value.info.scope) else None
    }

    method GetScope(id: Id, s: Service) returns (scope: Option<T>)
      requires sessions.Valid()
      modifies sessions, sessions.objects
      ensures sessions.Valid() && sessions.objects == old(sessions.objects)
      ensures sessions.Model() == Mirror.GetSession(old(sessions.Model()), id, s.getAt, s.getSaveAt, s.getRaises).0
      ensures scope == ScopeOf(Mirror.GetSession(old(sessions.Model()), id, s.getAt, s.getSaveAt, s.getRaises).1)
    {
      var found := sessions.GetSession(id, s.getAt, s.getSaveAt, s.getRaises);
      scope := if found then Some(sessions.sessions[id].info.scope) else None;
    }

    /** _handle_session_execute from get_session on. */
    method FinishExecution(id: Id, tenant: T, s: Service) returns (status: int)
      requires sessions.Valid()
      modifies sessions, sessions.objects
      ensures sessions.Valid() && sessions.objects == old(sessions.objects)
      ensures sessions.Model() == ServeBound(config, old(sessions.Model()), id, tenant, s).0
      ensures status == ServeBound(config, old(sessions.Model()), id, tenant, s).1
    {
      var scope := GetScope(id, s);
      if scope.None? {
        return 404;
      }
      if !Permitted(config, tenant, scope.value, s.allow) {
        return 403;
      }
      status := ExecuteInSession(id, s);
    }

    /** _handle_session_execute */
    method HandleSessionExecute(header: Option<T>, id: Id, s: Service) returns (status: int)
      requires sessions.Valid()
      modifies sessions, sessions.objects
      ensures sessions.Valid() && sessions.objects == old(sessions.objects)
      ensures sessions.Model() == ServeExecute(config, old(sessions.Model()), header, id, s).0
      ensures status == ServeExecute(config, old(sessions.Model()), header, id, s).1
      ensures config.enforcing && !s.allow ==> status != 200
    {
      var bound := BindForExecution(header, id, s.peekAt);
      if bound.Refused? {
        return bound.status;
      }
      status := FinishExecution(id, bound.value, s);
    }

    /** _handle_create_session, with the ttl already checked. */
    method HandleCreateSession(header: Option<T>, tenant: Field<T>, scope: Field<T>, template: T, allow: bool,
                               request: Mirror.Creation<Meta<T>>) returns (status: int)
      requires sessions.Valid() && request.ttl > 0
      modifies sessions, sessions.objects
      ensures sessions.Valid() && fresh(sessions.objects - old(sessions.objects))
      ensures sessions.Model()
        == ServeCreate(config, old(sessions.Model()), header, tenant, scope, template, allow, request).0
      ensures status == ServeCreate(config, old(sessions.Model()), header, tenant, scope, template, allow, request).1
      ensures config.enforcing && !allow ==> status != 200 && sessions.Model() == old(sessions.Model())
    {
      if scope.Missing? {
        return 400;
      }
      var resolved := ResolveTenant(config, header, tenant);
      if resolved.Refused? {
        return resolved.status;
      }
      if RequireText(config, scope).Refused? {
        return 400;
      }
      if !Enforce(config, allow) {
        return 403;
      }
      var meta := Meta(resolved.value, scope.value, template);
      var result := sessions.CreateSession(Some(request.ttl), request.(info := meta));
      status := if result.Created? then 200 else 400;
    }
  }

  // ---------------------------------------------------------------- texts

  /** str.strip, with None for a blank string. */
  function Strip(s: string): Option<string> {
    if Lines.Trim(s) == "" then None else Some(Lines.Trim(s))
  }

  lemma TrimOnce(s: string)
    ensures Lines.Trim(Lines.Trim(s)) == Lines.Trim(s)
  {
    var right := Lines.TrimRight(s);
    var t := Lines.TrimLeft(right);
    if t != "" {
      assert t[|t| - 1] == right[|right| - 1];
      assert Lines.TrimRight(t) == t;
    }
  }

  /** Strings are an instance of the texts the isolation results speak about. */
  lemma StripStrips()
    ensures Strips(Strip)
  {
    forall s: string
      ensures Strip(s).Some? ==> Strip(Strip(s).value) == Strip(s)
    {
      TrimOnce(s);
    }
  }
}
