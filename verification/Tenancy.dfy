/** Tenant resolution and binding in the executor API, and a request's way through its handler one
    lock-held step at a time. Texts are abstract: `normal` strips one and gives None for a blank one. */
module Tenancy {
  import opened Options
  import opened Sessions

  datatype Config<!T> = Config(keySet: bool, enforcing: bool, normal: T -> Option<T>)

  /** Stripping a stripped text changes nothing. */
  ghost predicate Strips<T(!new)>(normal: T -> Option<T>) {
    forall x :: normal(x).Some? ==> normal(normal(x).value) == normal(x)
  }

  /** A field of a JSON body. */
  datatype Field<+T> = Missing | NotText | Text(value: T)

  datatype Outcome<+T> = Accepted(value: T) | Refused(status: int)

  // ---------------------------------------------------------------- tenants

  function Caller<T>(c: Config<T>, header: Option<T>): Option<T> {
    if header.Some? then c.normal(header.value) else None
  }

  /** _require_authenticated_tenant_context for a protected action. */
  function RequireContext<T>(c: Config<T>, header: Option<T>): Outcome<Option<T>> {
    if c.keySet && Caller(c, header).None? then Refused(403) else Accepted(Caller(c, header))
  }

  function RequireText<T>(c: Config<T>, field: Field<T>): Outcome<T> {
    if field.Text? && c.normal(field.value).Some? then Accepted(field.value) else Refused(400)
  }

  /** _resolve_protected_tenant_id */
  function ResolveTenant<T(==)>(c: Config<T>, header: Option<T>, field: Field<T>): Outcome<T> {
    var context := RequireContext(c, header);
    if context.Refused? then Refused(context.status)
    else if context.value.None? then RequireText(c, field)
    else if field.Missing? then Accepted(context.value.value)
    else if RequireText(c, field).Refused? then Refused(400)
    else if c.normal(field.value) != context.value then Refused(403)
    else Accepted(context.value.value)
  }

  /** _bind_session_tenant_to_authenticated_caller */
  function BindTenant<T(==)>(c: Config<T>, header: Option<T>, tenant: T): Outcome<T> {
    var context := RequireContext(c, header);
    if context.Refused? then Refused(context.status)
    else if c.normal(tenant).None? then Refused(403)
    else if context.value.Some? && context.value != c.normal(tenant) then Refused(403)
    else Accepted(c.normal(tenant).value)
  }

  /** _validate_execution_tenancy_context */
  predicate ContextValid<T(==)>(c: Config<T>, subjectTenant: Field<T>, subjectScope: Field<T>,
                                resourceTenant: Field<T>, resourceScope: Field<T>)
  {
    && RequireText(c, subjectTenant).Accepted? && RequireText(c, subjectScope).Accepted?
    && RequireText(c, resourceTenant).Accepted? && RequireText(c, resourceScope).Accepted?
    && c.normal(subjectTenant.value) == c.normal(resourceTenant.value)
    && c.normal(subjectScope.value) == c.normal(resourceScope.value)
  }

  /** The field is a text that strips to t. */
  predicate Reads<T(==)>(c: Config<T>, field: Field<T>, t: T) {
    field.Text? && c.normal(field.value) == Some(t)
  }

  /** PolicyClient.enforce */
  predicate Enforce<T>(c: Config<T>, allow: bool) {
    c.enforcing ==> allow
  }

  /** _evaluate_policy and _enforce_or_respond for a request whose subject and resource are one tenant's. */
  predicate Permitted<T(==)>(c: Config<T>, tenant: T, scope: T, allow: bool) {
    ContextValid(c, Text(tenant), Text(scope), Text(tenant), Text(scope)) && Enforce(c, allow)
  }

  /** With a key set, a request acts as the tenant of its header and as no other: the body may only repeat it. */
  lemma ResolvesToCaller<T>(c: Config<T>, header: Option<T>, field: Field<T>)
    requires c.keySet
    ensures ResolveTenant(c, header, field).Accepted?
      <==> Caller(c, header).Some? && (field.Missing? || (field.Text? && c.normal(field.value) == Caller(c, header)))
    ensures ResolveTenant(c, header, field).Accepted? ==>
      Some(ResolveTenant(c, header, field).value) == Caller(c, header)
  {
  }

  /** A tenancy context is valid exactly when tenant and scope are texts that are not blank, the same for subject
      and resource once stripped. */
  lemma ContextValidExactly<T>(c: Config<T>, subjectTenant: Field<T>, subjectScope: Field<T>, resourceTenant: Field<T>,
                               resourceScope: Field<T>)
    ensures ContextValid(c, subjectTenant, subjectScope, resourceTenant, resourceScope) <==>
      exists tenant, scope :: Reads(c, subjectTenant, tenant) && Reads(c, resourceTenant, tenant)
                              && Reads(c, subjectScope, scope) && Reads(c, resourceScope, scope)
  {
    if ContextValid(c, subjectTenant, subjectScope, resourceTenant, resourceScope) {
      var tenant, scope := c.normal(subjectTenant.value).value, c.normal(subjectScope.value).value;
      assert Reads(c, subjectTenant, tenant) && Reads(c, resourceTenant, tenant);
      assert Reads(c, subjectScope, scope) && Reads(c, resourceScope, scope);
    }
  }

  /** With a key set, binding succeeds exactly for the session's own tenant. */
  lemma BindsOwnTenant<T>(c: Config<T>, header: Option<T>, tenant: T)
    requires c.keySet
    ensures BindTenant(c, header, tenant).Accepted?
      <==> Caller(c, header).Some? && Caller(c, header) == c.normal(tenant)
    ensures BindTenant(c, header, tenant).Accepted? ==> Some(BindTenant(c, header, tenant).value) == Caller(c, header)
  {
  }

  // ---------------------------------------------------------------- one request at a time

  datatype Meta<T> = Meta(tenant: T, scope: T, template: T)

  /** How far the request being served has come; the server serves one at a time. `caller` is the
      tenant of its header. */
  datatype Stage<T> =
    | Idle
    | Destroying(id: Id, caller: Option<T>, found: bool)      // peeked, and bound if found
    | Getting(id: Id, caller: Option<T>, tenant: T)           // peeked and bound
    | Judging(id: Id, caller: Option<T>, tenant: T, scope: T) // got and touched
    | Executing(id: Id, caller: Option<T>)                    // past the policy
    | Proposing(caller: Option<T>, meta: Meta<T>)             // a creation before the policy
    | Creating(caller: Option<T>, meta: Meta<T>)              // past the policy
    | Building(caller: Option<T>, meta: Meta<T>)              // holds a permit
    | Submitting(caller: Option<T>, tenant: T, scope: T)      // a direct execution before the policy
    | RunningDirect(caller: Option<T>, tenant: T)             // past the policy, in a sandbox of its own

  datatype World<T> = World(manager: Manager<Meta<T>>, stage: Stage<T>, clock: real)

  datatype Event<T> =
    | AskDestroy(header: Option<T>, id: Id, now: real)
    | DoDestroy(raises: bool)
    | AskExecute(header: Option<T>, id: Id, now: real)
    | DoGet(now: real, raises: bool)
    | Judge(allow: bool)
    | RunCode(now: real, raises: bool)
    | AskCreate(header: Option<T>, tenant: Field<T>, scope: Field<T>, template: T)
    | DoAcquire(last: bool)
    | DoRegister(id: Id, ttl: int, now: real)
    | BuildFails
    | AskDirect(header: Option<T>, tenant: Field<T>, scope: Field<T>)
    | DirectEnds
    | Cleaned(now: real, raising: set<Id>)

  function Begin<T>(maxSessions: nat): World<T> {
    World(Start(maxSessions), Idle, 0.0)
  }

  function Time<T>(e: Event<T>): Option<real> {
    match e
    case AskDestroy(_, _, now) => Some(now)
    case AskExecute(_, _, now) => Some(now)
    case DoGet(now, _) => Some(now)
    case RunCode(now, _) => Some(now)
    case DoRegister(_, _, now) => Some(now)
    case Cleaned(now, _) => Some(now)
    case _ => None
  }

  /** _handle_destroy_session up to the peek and the binding. */
  function AfterDestroyAsked<T(==)>(c: Config<T>, m: Manager<Meta<T>>, header: Option<T>, id: Id, now: real): Stage<T> {
    var found := Peek(m, id, now);
    if RequireContext(c, header).Refused? then Idle
    else if found.Some? && BindTenant(c, header, found.value.info.tenant).Refused? then Idle
    else Destroying(id, Caller(c, header), found.Some?)
  }

  /** _handle_session_execute up to the peek and the binding. */
  function AfterExecuteAsked<T(==)>(c: Config<T>, m: Manager<Meta<T>>, header: Option<T>, id: Id, now: real): Stage<T> {
    var found := Peek(m, id, now);
    if RequireContext(c, header).Refused? || found.None? then Idle
    else
      var bound := BindTenant(c, header, found.value.info.tenant);
      if bound.Refused? then Idle else Getting(id, Caller(c, header), bound.value)
  }

  /** _handle_create_session and _handle_execute up to the policy. */
  function AfterCreateAsked<T(==)>(c: Config<T>, header: Option<T>, tenant: Field<T>, scope: Field<T>, template: T)
    : Stage<T>
  {
    var resolved := ResolveTenant(c, header, tenant);
    if resolved.Refused? || RequireText(c, scope).Refused? then Idle
    else Proposing(Caller(c, header), Meta(resolved.value, scope.value, template))
  }

  function AfterDirectAsked<T(==)>(c: Config<T>, header: Option<T>, tenant: Field<T>, scope: Field<T>): Stage<T> {
    var resolved := ResolveTenant(c, header, tenant);
    if resolved.Refused? || RequireText(c, scope).Refused? then Idle
    else Submitting(Caller(c, header), resolved.value, scope.value)
  }

  /** The tenancy context and the policy's answer. */
  function AfterPolicy<T(==)>(c: Config<T>, stage: Stage<T>, allow: bool): Stage<T> {
    match stage
    case Judging(id, caller, tenant, scope) =>
      if Permitted(c, tenant, scope, allow) then Executing(id, caller) else Idle
    case Proposing(caller, meta) =>
      if Permitted(c, meta.tenant, meta.scope, allow) then Creating(caller, meta) else Idle
    case Submitting(caller, tenant, scope) =>
      if Permitted(c, tenant, scope, allow) then RunningDirect(caller, tenant) else Idle
    case _ => stage
  }

  function AfterGet<T>(id: Id, caller: Option<T>, tenant: T, found: Lookup<Meta<T>>): Stage<T> {
    if found.Found? then Judging(id, caller, tenant, found.session.info.scope) else Idle
  }

  /** An event that does not fit the stage of the request leaves the world alone. */
  function Act<T(==)>(c: Config<T>, w: World<T>, e: Event<T>): World<T> {
    match e
    case AskDestroy(header, id, now) =>
      if w.stage.Idle? then w.(stage := AfterDestroyAsked(c, w.manager, header, id, now)) else w
    case DoDestroy(raises) =>
      if w.stage.Destroying? then w.(manager := Destroy(w.manager, w.stage.id, raises).0, stage := Idle) else w
    case AskExecute(header, id, now) =>
      if w.stage.Idle? then w.(stage := AfterExecuteAsked(c, w.manager, header, id, now)) else w
    case DoGet(now, raises) =>
      if w.stage.Getting? then
        var (m, found) := Get(w.manager, w.stage.id, now, raises);
        w.(manager := m, stage := AfterGet(w.stage.id, w.stage.caller, w.stage.tenant, found))
      else w
    case Judge(allow) => w.(stage := AfterPolicy(c, w.stage, allow))
    case RunCode(now, raises) =>
      if w.stage.Executing? then w.(manager := Get(w.manager, w.stage.id, now, raises).0, stage := Idle) else w
    case AskCreate(header, tenant, scope, template) =>
      if w.stage.Idle? then w.(stage := AfterCreateAsked(c, header, tenant, scope, template)) else w
    case DoAcquire(last) =>
      if w.stage.Creating? then
        var (m, ok) := Acquire(w.manager);
        w.(manager := m, stage := if ok then Building(w.stage.caller, w.stage.meta) else if last then Idle else w.stage)
      else w
    case DoRegister(id, ttl, now) =>
      if w.stage.Building? then
        w.(manager := Register(w.manager, id, NewSession(w.stage.meta, ttl, now)), stage := Idle)
      else w
    case BuildFails => if w.stage.Building? then w.(manager := GiveUp(w.manager), stage := Idle) else w
    case AskDirect(header, tenant, scope) =>
      if w.stage.Idle? then w.(stage := AfterDirectAsked(c, header, tenant, scope)) else w
    case DirectEnds => if w.stage.RunningDirect? then w.(stage := Idle) else w
    case Cleaned(now, raising) => w.(manager := Cleanup(w.manager, now, raising).0)
  }

  /** The clock does not run backwards. */
  function Step<T(==)>(c: Config<T>, w: World<T>, e: Event<T>): World<T> {
    var t := Time(e);
    if t.Some? && t.value < w.clock then w
    else Act(c, w, e).(clock := if t.Some? then t.value else w.clock)
  }

  function Run<T(==)>(c: Config<T>, maxSessions: nat, es: seq<Event<T>>): World<T> {
    if es == [] then Begin(maxSessions) else Step(c, Run(c, maxSessions, es[..|es| - 1]), es[|es| - 1])
  }
}
