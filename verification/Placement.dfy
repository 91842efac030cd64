/** The Kubernetes operator's placement of executor sessions on pods, and the replica count it computes. */
module Placement {
  import opened Options

  type Name(==,!new)

  datatype Phase = Unset | Pending | Active | Failed

  datatype Status = Status(phase: Phase, podName: Option<Name>)

  datatype Session = Session(name: Name, status: Status)

  datatype Pod = Pod(name: Name, running: bool)

  const MAX_SESSIONS_PER_POD := 10

  // ---------------------------------------------------------------- placing one session

  function OnPod(sessions: map<Name, Status>, pod: Name): set<Name> {
    set s | s in sessions && sessions[s].podName == Some(pod)
  }

  /** A listing of the namespace: every session once, in any order. */
  ghost predicate Lists(items: seq<Session>, sessions: map<Name, Status>) {
    && (forall i, j :: 0 <= i < j < |items| ==> items[i].name != items[j].name)
    && (forall i :: 0 <= i < |items| ==> items[i].name in sessions && sessions[items[i].name] == items[i].status)
    && forall s :: s in sessions ==> exists i :: 0 <= i < |items| && items[i].name == s
  }

  lemma CountIsCardinality(names: seq<Name>, there: set<Name>)
    requires forall i, j :: 0 <= i < j < |names| ==> names[i] != names[j]
    requires forall s :: s in there <==> s in names
    ensures |names| == |there|
  {
    if names == [] {
      assert there == {};
    } else {
      var last := names[|names| - 1];
      assert names == names[..|names| - 1] + [last];
      CountIsCardinality(names[..|names| - 1], there - {last});
    }
  }

  /** get_sessions_on_pod: a listing that fails counts as a pod without sessions. */
  method GetSessionsOnPod(listing: Option<seq<Session>>, pod: Name, ghost sessions: map<Name, Status>)
    returns (names: seq<Name>)
    requires listing.Some? ==> Lists(listing.value, sessions)
    ensures |names| == if listing.Some? then |OnPod(sessions, pod)| else 0
    ensures forall s :: s in names <==> listing.Some? && s in OnPod(sessions, pod)
  {
    names := [];
    if listing.None? {
      return;
    }
    var items := listing.value;
    for i := 0 to |items|
      invariant forall s :: s in names ==>
        exists k :: 0 <= k < i && items[k].name == s && items[k].status.podName == Some(pod)
      invariant forall k :: 0 <= k < i && items[k].status.podName == Some(pod) ==> items[k].name in names
      invariant forall j, k :: 0 <= j < k < |names| ==> names[j] != names[k]
    {
      if items[i].status.podName == Some(pod) {
        ghost var before := names;
        names := names + [items[i].name];
        assert forall s :: s in before ==> s in names;
      }
    }
    CountIsCardinality(names, OnPod(sessions, pod));
  }

  /** `failing` are the pods whose session listing failed. */
  predicate Fits(sessions: map<Name, Status>, pod: Pod, failing: set<Name>) {
    pod.running && (pod.name in failing || |OnPod(sessions, pod.name)| < MAX_SESSIONS_PER_POD)
  }

  function FirstFit(sessions: map<Name, Status>, pods: seq<Pod>, failing: set<Name>): (found: Option<Name>)
    ensures found.None? <==> forall i :: 0 <= i < |pods| ==> !Fits(sessions, pods[i], failing)
    ensures found.Some? ==>
      exists i :: 0 <= i < |pods| && pods[i].name == found.value && Fits(sessions, pods[i], failing)
         && forall j :: 0 <= j < i ==> !Fits(sessions, pods[j], failing)
  {
    if pods == [] then None
    else if Fits(sessions, pods[0], failing) then
      Some(pods[0].name)
    else
      var rest := FirstFit(sessions, pods[1..], failing);
      assert forall i :: 0 < i < |pods| ==> pods[i] == pods[1..][i - 1];
      rest
  }

  /** The search of both handlers. */
  method FindPod(pods: seq<Pod>, items: seq<Session>, failing: set<Name>, ghost sessions: map<Name, Status>)
    returns (found: Option<Name>)
    requires Lists(items, sessions)
    ensures found == FirstFit(sessions, pods, failing)
  {
    found := None;
    for i := 0 to |pods|
      invariant FirstFit(sessions, pods, failing) == FirstFit(sessions, pods[i..], failing)
    {
      assert pods[i..][0] == pods[i] && pods[i..][1..] == pods[i + 1..];
      if pods[i].running {
        var names := GetSessionsOnPod(if pods[i].name in failing then None else Some(items), pods[i].name, sessions);
        if |names| < MAX_SESSIONS_PER_POD {
          return Some(pods[i].name);
        }
      }
    }
  }

  // ---------------------------------------------------------------- handlers

  /** What a handler returns, to be merged into the status of its session. */
  datatype Result = Assign(pod: Name) | Queue | Fail | Nothing

  /** What the cluster answers while a handler runs. */
  datatype Answers = Answers(pods: Option<seq<Pod>>, failing: set<Name>, storeFails: bool)

  function OnCreate(sessions: map<Name, Status>, a: Answers): Result {
    if a.pods.None? then Fail
    else
      var found := FirstFit(sessions, a.pods.value, a.failing);
      if found.None? then Queue else if a.storeFails then Fail else Assign(found.value)
  }

  function OnReconcile(sessions: map<Name, Status>, phase: Phase, a: Answers): Result {
    if !phase.Pending? || a.pods.None? then Nothing
    else
      var found := FirstFit(sessions, a.pods.value, a.failing);
      if found.None? then Nothing else Assign(found.value)
  }

  function Handle(sessions: map<Name, Status>, s: Name, a: Answers): Result
    requires s in sessions
  {
    if sessions[s].phase.Unset? then OnCreate(sessions, a) else OnReconcile(sessions, sessions[s].phase, a)
  }

  function Merge(status: Status, r: Result): Status {
    match r
    case Assign(pod) => Status(Active, Some(pod))
    case Queue => status.(phase := Pending)
    case Fail => status.(phase := Failed)
    case Nothing => status
  }

  // ---------------------------------------------------------------- runs

  /** `deciding` holds the handlers that chose but whose result is not yet in the status. */
  datatype World = World(sessions: map<Name, Status>, deciding: map<Name, Result>)

  datatype Event =
    | Submitted(session: Name)
    | Decided(session: Name, answers: Answers)
    | Merged(session: Name)
    | Deleted(session: Name)

  const EMPTY := World(map[], map[])

  /** n is the number of handlers that may be between their choice and its merge; handlers of one
      session do not overlap. */
  predicate Decides(n: nat, w: World, e: Event) {
    e.Decided? && e.session in w.sessions && e.session !in w.deciding && |w.deciding| < n
  }

  function Step(n: nat, w: World, e: Event): World {
    match e
    case Submitted(s) =>
      if s in w.sessions || s in w.deciding then w else w.(sessions := w.sessions[s := Status(Unset, None)])
    case Decided(s, a) =>
      if Decides(n, w, e) then w.(deciding := w.deciding[s := Handle(w.sessions, s, a)]) else w
    case Merged(s) =>
      if s !in w.deciding then w
      else World(if s in w.sessions then w.sessions[s := Merge(w.sessions[s], w.deciding[s])] else w.sessions,
                 w.deciding - {s})
    case Deleted(s) => w.(sessions := w.sessions - {s})
  }

  function RunFrom(n: nat, w: World, es: seq<Event>): World {
    if es == [] then w else Step(n, RunFrom(n, w, es[..|es| - 1]), es[|es| - 1])
  }

  /** The choice fell on `pod` although it was full, its listing having failed. */
  predicate Blind(n: nat, w: World, e: Event, pod: Name) {
    && Decides(n, w, e)
    && Handle(w.sessions, e.session, e.answers) == Assign(pod)
    && |OnPod(w.sessions, pod)| >= MAX_SESSIONS_PER_POD
  }

  function BlindChoices(n: nat, es: seq<Event>, pod: Name): nat {
    if es == [] then 0
    else
      var before := es[..|es| - 1];
      BlindChoices(n, before, pod) + if Blind(n, RunFrom(n, EMPTY, before), es[|es| - 1], pod) then 1 else 0
  }

  /** The sessions on the pod or about to be. */
  function Held(w: World, pod: Name): set<Name> {
    OnPod(w.sessions, pod) + set s | s in w.deciding && w.deciding[s] == Assign(pod)
  }

  lemma DecisionHolds(n: nat, w: World, e: Event, pod: Name)
    requires Decides(n, w, e)
    ensures Handle(w.sessions, e.session, e.answers) == Assign(pod) ==>
      Held(Step(n, w, e), pod) == Held(w, pod) + {e.session}
    ensures Handle(w.sessions, e.session, e.answers) != Assign(pod) ==> Held(Step(n, w, e), pod) == Held(w, pod)
  {
  }

  lemma SubsetSize<T>(a: set<T>, b: set<T>)
    requires a <= b
    ensures |a| <= |b|
  {
    assert b == a + (b - a);
  }

  lemma RoomLeft(n: nat, w: World, pod: Name)
    requires |OnPod(w.sessions, pod)| < MAX_SESSIONS_PER_POD && |w.deciding| < n
    ensures |Held(w, pod)| < MAX_SESSIONS_PER_POD + n - 1
  {
    assert |w.deciding.Keys| == |w.deciding|;
    SubsetSize(Held(w, pod) - OnPod(w.sessions, pod), w.deciding.Keys);
    SubsetSize(Held(w, pod), OnPod(w.sessions, pod) + (Held(w, pod) - OnPod(w.sessions, pod)));
  }

  lemma DecisionKeeps(n: nat, w: World, e: Event, pod: Name, blind: nat)
    requires Decides(n, w, e) && |Held(w, pod)| <= MAX_SESSIONS_PER_POD + n - 1 + blind
    ensures |Held(Step(n, w, e), pod)| <= MAX_SESSIONS_PER_POD + n - 1 + blind + if Blind(n, w, e, pod) then 1 else 0
  {
    DecisionHolds(n, w, e, pod);
    if |OnPod(w.sessions, pod)| < MAX_SESSIONS_PER_POD {
      RoomLeft(n, w, pod);
    }
  }

  lemma SubmittedHolds(n: nat, w: World, s: Name, pod: Name)
    ensures Held(Step(n, w, Submitted(s)), pod) <= Held(w, pod)
  {
  }

  lemma MergedHolds(n: nat, w: World, s: Name, pod: Name)
    ensures Held(Step(n, w, Merged(s)), pod) <= Held(w, pod)
  {
  }

  lemma DeletedHolds(n: nat, w: World, s: Name, pod: Name)
    ensures Held(Step(n, w, Deleted(s)), pod) <= Held(w, pod)
  {
  }

  lemma OthersKeep(n: nat, w: World, e: Event, pod: Name)
    requires !Decides(n, w, e)
    ensures |Held(Step(n, w, e), pod)| <= |Held(w, pod)|
  {
    hide Held;
    match e {
      case Submitted(s) => SubmittedHolds(n, w, s, pod);
      case Decided(s, a) => assert Step(n, w, e) == w;
      case Merged(s) => MergedHolds(n, w, s, pod);
      case Deleted(s) => DeletedHolds(n, w, s, pod);
    }
    SubsetSize(Held(Step(n, w, e), pod), Held(w, pod));
  }

  /** In every reachable state a pod holds, counting choices not yet merged, at most ten sessions, one
      more per other handler in flight, and one more per choice made on a failed listing of the full pod. */
  lemma {:induction false} PodLoadBound(n: nat, es: seq<Event>, pod: Name)
    requires n > 0
    ensures |Held(RunFrom(n, EMPTY, es), pod)| <= MAX_SESSIONS_PER_POD + n - 1 + BlindChoices(n, es, pod)
  {
    if es == [] {
      assert Held(EMPTY, pod) == {};
    } else {
      var before, e := es[..|es| - 1], es[|es| - 1];
      PodLoadBound(n, before, pod);
      var w := RunFrom(n, EMPTY, before);
      if Decides(n, w, e) {
        DecisionKeeps(n, w, e, pod, BlindChoices(n, before, pod));
      } else {
        OthersKeep(n, w, e, pod);
      }
    }
  }

  /** A full pod is chosen exactly when it is the first that fits and its listing failed. */
  lemma BlindExactly(n: nat, w: World, e: Event, pod: Name)
    requires Decides(n, w, e) && Handle(w.sessions, e.session, e.answers) == Assign(pod)
    ensures Blind(n, w, e, pod) <==> pod in e.answers.failing && |OnPod(w.sessions, pod)| >= MAX_SESSIONS_PER_POD
  {
    assert FirstFit(w.sessions, e.answers.pods.value, e.answers.failing) == Some(pod);
  }

  predicate ListingsSucceed(es: seq<Event>) {
    forall i :: 0 <= i < |es| && es[i].Decided? ==> es[i].answers.failing == {}
  }

  lemma {:induction false} NoBlindChoices(n: nat, es: seq<Event>, pod: Name)
    requires ListingsSucceed(es)
    ensures BlindChoices(n, es, pod) == 0
  {
    if es != [] {
      var before, e := es[..|es| - 1], es[|es| - 1];
      NoBlindChoices(n, before, pod);
      var w := RunFrom(n, EMPTY, before);
      if Decides(n, w, e) && Handle(w.sessions, e.session, e.answers) == Assign(pod) {
        BlindExactly(n, w, e, pod);
      }
    }
  }

  /** With one handler at a time and listings that succeed, no pod ever has more than ten sessions. */
  lemma AtMostTenPerPod(es: seq<Event>, pod: Name)
    requires ListingsSucceed(es)
    ensures |OnPod(RunFrom(1, EMPTY, es).sessions, pod)| <= MAX_SESSIONS_PER_POD
  {
    PodLoadBound(1, es, pod);
    NoBlindChoices(1, es, pod);
    var w := RunFrom(1, EMPTY, es);
    SubsetSize(OnPod(w.sessions, pod), Held(w, pod));
  }

  /** A session created while the listings fail. */
  function UnlistedCreation(s: Name, pod: Name): seq<Event> {
    [Submitted(s), Decided(s, Answers(Some([Pod(pod, true)]), {pod}, false)), Merged(s)]
  }

  function Unlisted(names: seq<Name>, pod: Name): seq<Event> {
    if names == [] then []
    else Unlisted(names[..|names| - 1], pod) + UnlistedCreation(names[|names| - 1], pod)
  }

  lemma RunOneMore(n: nat, es: seq<Event>, e: Event)
    ensures RunFrom(n, EMPTY, es + [e]) == Step(n, RunFrom(n, EMPTY, es), e)
  {
    assert (es + [e])[..|es|] == es;
  }

  lemma RunThree(n: nat, es: seq<Event>, a: Event, b: Event, c: Event)
    ensures RunFrom(n, EMPTY, es + [a, b, c]) == Step(n, Step(n, Step(n, RunFrom(n, EMPTY, es), a), b), c)
  {
    assert es + [a, b, c] == es + [a] + [b] + [c];
    RunOneMore(n, es + [a] + [b], c);
    RunOneMore(n, es + [a], b);
    RunOneMore(n, es, a);
  }

  lemma UnlistedPlacement(w: World, s: Name, pod: Name)
    requires w.deciding == map[] && s !in w.sessions
    ensures var a := Answers(Some([Pod(pod, true)]), {pod}, false);
      Step(1, Step(1, Step(1, w, Submitted(s)), Decided(s, a)), Merged(s))
        == World(w.sessions[s := Status(Active, Some(pod))], map[])
  {
    var a := Answers(Some([Pod(pod, true)]), {pod}, false);
    var submitted := Step(1, w, Submitted(s));
    assert Fits(submitted.sessions, a.pods.value[0], a.failing);
    assert FirstFit(submitted.sessions, a.pods.value, a.failing) == Some(pod);
    assert Handle(submitted.sessions, s, a) == Assign(pod);
  }

  function NameSet(names: seq<Name>): set<Name> {
    set s | s in names
  }

  predicate PiledUp(w: World, names: set<Name>, pod: Name) {
    w.deciding == map[] && w.sessions.Keys == names && OnPod(w.sessions, pod) == names
  }

  lemma UnlistedStep(es: seq<Event>, names: set<Name>, s: Name, pod: Name)
    requires PiledUp(RunFrom(1, EMPTY, es), names, pod) && s !in names
    ensures PiledUp(RunFrom(1, EMPTY, es + UnlistedCreation(s, pod)), names + {s}, pod)
  {
    var w := RunFrom(1, EMPTY, es);
    RunThree(1, es, Submitted(s), Decided(s, Answers(Some([Pod(pod, true)]), {pod}, false)), Merged(s));
    UnlistedPlacement(w, s, pod);
  }

  lemma {:induction false} UnlistedPileUp(names: seq<Name>, pod: Name)
    requires forall i, j :: 0 <= i < j < |names| ==> names[i] != names[j]
    ensures PiledUp(RunFrom(1, EMPTY, Unlisted(names, pod)), NameSet(names), pod)
  {
    if names != [] {
      var before, s := names[..|names| - 1], names[|names| - 1];
      UnlistedPileUp(before, pod);
      assert names == before + [s] && s !in NameSet(before);
      assert NameSet(names) == NameSet(before) + {s};
      UnlistedStep(Unlisted(before, pod), NameSet(before), s, pod);
    }
  }

  /** Without listings the cap means nothing: any number of sessions lands on one pod. */
  lemma FailedListingsPileUp(names: seq<Name>, pod: Name)
    requires forall i, j :: 0 <= i < j < |names| ==> names[i] != names[j]
    ensures |OnPod(RunFrom(1, EMPTY, Unlisted(names, pod)).sessions, pod)| == |names|
  {
    UnlistedPileUp(names, pod);
    CountIsCardinality(names, NameSet(names));
  }

  // ---------------------------------------------------------------- replicas

  function Max(a: int, b: int): int {
    if a >= b then a else b
  }

  function Min(a: int, b: int): int {
    if a <= b then a else b
  }

  function InPhase(sessions: map<Name, Status>, phase: Phase): set<Name> {
    set s | s in sessions && sessions[s].phase == phase
  }

  function Ceiling(count: int, depth: int): int
    requires depth > 0
  {
    (count + depth - 1) / depth
  }

  /** target_replicas: the sessions of the namespace over the queue depth per pod, rounded up and clamped. */
  function TargetReplicas(sessions: map<Name, Status>, depth: int, minimum: int, maximum: int): int
    requires depth > 0
  {
    Max(minimum, Min(maximum, Ceiling(|InPhase(sessions, Active)| + |InPhase(sessions, Pending)|, depth)))
  }

  /** A status names a pod exactly when its session is active, and the sessions being decided are not. */
  ghost predicate Consistent(w: World) {
    && (forall s :: s in w.sessions ==> (w.sessions[s].podName.Some? <==> w.sessions[s].phase.Active?))
    && forall s :: s in w.deciding && s in w.sessions ==> !w.sessions[s].phase.Active? || w.deciding[s].Nothing?
  }

  lemma {:induction false} RunConsistent(n: nat, es: seq<Event>)
    ensures Consistent(RunFrom(n, EMPTY, es))
  {
    if es != [] {
      RunConsistent(n, es[..|es| - 1]);
    }
  }

  function RunningPods(pods: seq<Pod>): set<Name> {
    set i | 0 <= i < |pods| && pods[i].running :: pods[i].name
  }

  /** Full pods hold ten sessions each, all of them active. */
  lemma {:induction false} FullPodsHoldTen(sessions: map<Name, Status>, pods: set<Name>, on: set<Name>)
    requires forall p :: p in pods ==> |OnPod(sessions, p)| >= MAX_SESSIONS_PER_POD
    requires on == set s | s in sessions && sessions[s].podName.Some? && sessions[s].podName.value in pods
    ensures |on| >= MAX_SESSIONS_PER_POD * |pods|
    decreases |pods|
  {
    if pods != {} {
      var p :| p in pods;
      var rest := on - OnPod(sessions, p);
      assert rest == set s | s in sessions && sessions[s].podName.Some? && sessions[s].podName.value in pods - {p};
      FullPodsHoldTen(sessions, pods - {p}, rest);
      assert on == rest + OnPod(sessions, p);
    }
  }

  lemma CancelFactor(a: int, b: int, factor: int)
    requires factor > 0 && a * factor < b * factor
    ensures a < b
  {
    assert b <= a ==> (a - b) * factor >= 0;
  }

  lemma CeilingBounds(count: int, depth: int)
    requires depth > 0
    ensures count <= Ceiling(count, depth) * depth <= count + depth - 1
  {
  }

  lemma CeilingExceeds(count: int, depth: int, pods: int)
    requires 1 <= depth <= MAX_SESSIONS_PER_POD && count > MAX_SESSIONS_PER_POD * pods && pods >= 0
    ensures Ceiling(count, depth) > pods
  {
    CeilingBounds(count, depth);
    assert pods * (MAX_SESSIONS_PER_POD - depth) >= 0;
    CancelFactor(pods, Ceiling(count, depth), depth);
  }

  lemma CeilingReached(count: int, depth: int, pods: int)
    requires depth > MAX_SESSIONS_PER_POD && count == MAX_SESSIONS_PER_POD * pods + 1 && pods > 0
    ensures Ceiling(count, depth) <= pods
  {
    CeilingBounds(count, depth);
    assert pods * (depth - MAX_SESSIONS_PER_POD) >= pods * 1;
    assert (pods + 1) * depth == pods * depth + depth;
    CancelFactor(Ceiling(count, depth), pods + 1, depth);
  }

  /** In every reachable state with a queue depth of at most ten and enough room below the maximum: if
      the target number of pods is running, a pending session finds one with capacity. */
  lemma PendingFindsPod(n: nat, es: seq<Event>, pods: seq<Pod>, depth: int, minimum: int, maximum: int)
    requires 1 <= depth <= MAX_SESSIONS_PER_POD
    requires var sessions := RunFrom(n, EMPTY, es).sessions;
      && InPhase(sessions, Pending) != {}
      && Ceiling(|InPhase(sessions, Active)| + |InPhase(sessions, Pending)|, depth) <= maximum
      && |RunningPods(pods)| >= TargetReplicas(sessions, depth, minimum, maximum)
    ensures FirstFit(RunFrom(n, EMPTY, es).sessions, pods, {}).Some?
  {
    var sessions := RunFrom(n, EMPTY, es).sessions;
    var running := RunningPods(pods);
    if FirstFit(sessions, pods, {}).None? {
      RunConsistent(n, es);
      assert forall p :: p in running ==>
        exists i :: 0 <= i < |pods| && pods[i].running && pods[i].name == p && !Fits(sessions, pods[i], {});
      var on := set s | s in sessions && sessions[s].podName.Some? && sessions[s].podName.value in running;
      FullPodsHoldTen(sessions, running, on);
      SubsetSize(on, InPhase(sessions, Active));
      CeilingExceeds(|InPhase(sessions, Active)| + |InPhase(sessions, Pending)|, depth, |running|);
    }
  }

  /** With a deeper queue the target is met although every running pod is full and a session waits. */
  lemma DeepQueueMeetsTarget(sessions: map<Name, Status>, pods: seq<Pod>, depth: int, minimum: int, maximum: int)
    requires depth > MAX_SESSIONS_PER_POD && RunningPods(pods) != {} && minimum <= |RunningPods(pods)|
    requires |InPhase(sessions, Active)| == MAX_SESSIONS_PER_POD * |RunningPods(pods)|
      && |InPhase(sessions, Pending)| == 1
    ensures TargetReplicas(sessions, depth, minimum, maximum) <= |RunningPods(pods)|
  {
    CeilingReached(|InPhase(sessions, Active)| + 1, depth, |RunningPods(pods)|);
  }

  lemma TimesDepth(a: int, b: int, depth: int)
    requires a <= b && depth > 0
    ensures a * depth <= b * depth
  {
    assert (b - a) * depth >= 0;
  }

  /** The target is the least number of pods, within its bounds, whose queues have room for all sessions. */
  lemma TargetIsLeast(sessions: map<Name, Status>, depth: int, minimum: int, maximum: int)
    requires depth > 0 && minimum <= maximum
    ensures var target := TargetReplicas(sessions, depth, minimum, maximum);
      var count := |InPhase(sessions, Active)| + |InPhase(sessions, Pending)|;
      && minimum <= target <= maximum
      && (target < maximum ==> target * depth >= count)
      && (target > minimum ==> (target - 1) * depth < count)
  {
    var count := |InPhase(sessions, Active)| + |InPhase(sessions, Pending)|;
    var target := TargetReplicas(sessions, depth, minimum, maximum);
  }

  // ---------------------------------------------------------------- what the handlers do

  /** The pod takes one more session as far as its listing tells: it runs, and its listing failed or has fewer than
      ten. */
  predicate TakesMore(sessions: map<Name, Status>, pod: Pod, failing: set<Name>) {
    pod.running && (pod.name !in failing ==> |set s | s in sessions && sessions[s].podName == Some(pod.name)| < 10)
  }

  /** The pod is the first of the list that takes one more. */
  ghost predicate FirstToTake(sessions: map<Name, Status>, pods: seq<Pod>, failing: set<Name>, pod: Name) {
    exists i :: && 0 <= i < |pods| && pods[i].name == pod && TakesMore(sessions, pods[i], failing)
                && forall j :: 0 <= j < i ==> !TakesMore(sessions, pods[j], failing)
  }

  ghost predicate NoneTakes(sessions: map<Name, Status>, pods: seq<Pod>, failing: set<Name>) {
    forall i :: 0 <= i < |pods| ==> !TakesMore(sessions, pods[i], failing)
  }

  lemma FirstFitTakes(sessions: map<Name, Status>, pods: seq<Pod>, failing: set<Name>)
    ensures var found := FirstFit(sessions, pods, failing);
      && (found.None? <==> NoneTakes(sessions, pods, failing))
      && (found.Some? ==> FirstToTake(sessions, pods, failing, found.value))
  {
    forall pod: Pod ensures TakesMore(sessions, pod, failing) <==> Fits(sessions, pod, failing) {
      assert OnPod(sessions, pod.name) == set s | s in sessions && sessions[s].podName == Some(pod.name);
    }
    var found := FirstFit(sessions, pods, failing);
    if found.Some? {
      var i :| && 0 <= i < |pods| && pods[i].name == found.value && Fits(sessions, pods[i], failing)
               && forall j :: 0 <= j < i ==> !Fits(sessions, pods[j], failing);
      assert TakesMore(sessions, pods[i], failing);
    }
  }

  /** A handler's round for one session, from its decision to the merge of what it returned. */
  function Round(n: nat, w: World, s: Name, a: Answers): World {
    Step(n, Step(n, w, Decided(s, a)), Merged(s))
  }

  /** A new session becomes active on the first pod that takes one more, waits when none does, and fails when the
      pods cannot be listed or its record cannot be stored. */
  lemma CreationOutcome(n: nat, w: World, s: Name, a: Answers)
    requires Decides(n, w, Decided(s, a)) && w.sessions[s] == Status(Unset, None)
    ensures s in Round(n, w, s, a).sessions
    ensures var after := Round(n, w, s, a).sessions[s];
      && (a.pods.None? ==> after == Status(Failed, None))
      && (a.pods.Some? && NoneTakes(w.sessions, a.pods.value, a.failing) ==> after == Status(Pending, None))
      && (a.pods.Some? && !NoneTakes(w.sessions, a.pods.value, a.failing) ==>
            if a.storeFails then after == Status(Failed, None)
            else after.phase.Active? && after.podName.Some?
                 && FirstToTake(w.sessions, a.pods.value, a.failing, after.podName.value))
  {
    if a.pods.Some? {
      FirstFitTakes(w.sessions, a.pods.value, a.failing);
    }
  }

  /** A waiting session becomes active on the first pod that takes one more, and waits on when none does or the pods
      cannot be listed. A session that is active or has failed is left alone. */
  lemma ReconcileOutcome(n: nat, w: World, s: Name, a: Answers)
    requires Decides(n, w, Decided(s, a)) && !w.sessions[s].phase.Unset?
    ensures s in Round(n, w, s, a).sessions
    ensures var before, after := w.sessions[s], Round(n, w, s, a).sessions[s];
      if before.phase.Pending? && a.pods.Some? && !NoneTakes(w.sessions, a.pods.value, a.failing) then
        after.phase.Active? && after.podName.Some?
        && FirstToTake(w.sessions, a.pods.value, a.failing, after.podName.value)
      else after == before
  {
    if a.pods.Some? {
      FirstFitTakes(w.sessions, a.pods.value, a.failing);
    }
  }

  /** No other session is touched. */
  lemma RoundTouchesOne(n: nat, w: World, s: Name, a: Answers)
    requires Decides(n, w, Decided(s, a))
    ensures Round(n, w, s, a).sessions - {s} == w.sessions - {s} && Round(n, w, s, a).deciding == w.deciding
  {
  }

  // ---------------------------------------------------------------- filling the pods

  /** A session created while the listings succeed. */
  function Creation(s: Name, pods: seq<Pod>): seq<Event> {
    [Submitted(s), Decided(s, Answers(Some(pods), {}, false)), Merged(s)]
  }

  function Creations(names: seq<Name>, pods: seq<Pod>): seq<Event> {
    if names == [] then [] else Creations(names[..|names| - 1], pods) + Creation(names[|names| - 1], pods)
  }

  lemma {:induction false} FirstFitSame(a: map<Name, Status>, b: map<Name, Status>, pods: seq<Pod>)
    requires forall p :: OnPod(a, p) == OnPod(b, p)
    ensures FirstFit(a, pods, {}) == FirstFit(b, pods, {})
  {
    if pods != [] {
      assert Fits(a, pods[0], {}) <==> Fits(b, pods[0], {});
      FirstFitSame(a, b, pods[1..]);
    }
  }

  /** What a creation leaves in the status of its session. */
  function Placed(sessions: map<Name, Status>, pods: seq<Pod>): Status {
    var found := FirstFit(sessions, pods, {});
    if found.Some? then Status(Active, found) else Status(Pending, None)
  }

  lemma CreationPlaces(w: World, s: Name, pods: seq<Pod>)
    requires w.deciding == map[] && s !in w.sessions
    ensures Step(1, Step(1, Step(1, w, Submitted(s)), Decided(s, Answers(Some(pods), {}, false))), Merged(s))
         == World(w.sessions[s := Placed(w.sessions, pods)], map[])
  {
    var a := Answers(Some(pods), {}, false);
    var submitted := Step(1, w, Submitted(s));
    FirstFitSame(w.sessions, submitted.sessions, pods);
    var r := Handle(submitted.sessions, s, a);
    assert r == OnCreate(submitted.sessions, a);
    assert Merge(Status(Unset, None), r) == Placed(w.sessions, pods);
    var decided := Step(1, submitted, Decided(s, a));
    assert decided == World(submitted.sessions, map[s := r]);
    assert map[s := r] - {s} == map[];
  }

  ghost predicate AllOn(sessions: map<Name, Status>, running: set<Name>) {
    forall s :: s in sessions ==>
      sessions[s].phase.Active? && sessions[s].podName.Some? && sessions[s].podName.value in running
  }

  ghost predicate AtMostTen(sessions: map<Name, Status>, running: set<Name>) {
    forall p :: p in running ==> |OnPod(sessions, p)| <= MAX_SESSIONS_PER_POD
  }

  /** The given sessions are active on running pods, at most ten on each. */
  ghost predicate Filled(w: World, names: set<Name>, pods: seq<Pod>) {
    && w.deciding == map[] && w.sessions.Keys == names
    && AllOn(w.sessions, RunningPods(pods)) && AtMostTen(w.sessions, RunningPods(pods))
  }

  lemma FirstFitIsRunning(sessions: map<Name, Status>, pods: seq<Pod>)
    ensures var found := FirstFit(sessions, pods, {});
      && (found.Some? ==> found.value in RunningPods(pods) && |OnPod(sessions, found.value)| < MAX_SESSIONS_PER_POD)
      && (found.None? <==> forall p :: p in RunningPods(pods) ==> |OnPod(sessions, p)| >= MAX_SESSIONS_PER_POD)
  {
    var found := FirstFit(sessions, pods, {});
    if found.None? {
      forall p | p in RunningPods(pods) ensures |OnPod(sessions, p)| >= MAX_SESSIONS_PER_POD {
        var i :| 0 <= i < |pods| && pods[i].running && pods[i].name == p;
        assert !Fits(sessions, pods[i], {});
      }
    } else {
      var i :| 0 <= i < |pods| && pods[i].name == found.value && Fits(sessions, pods[i], {});
      assert pods[i].name in RunningPods(pods);
    }
  }

  lemma RoomExists(w: World, names: set<Name>, pods: seq<Pod>)
    requires Filled(w, names, pods) && |names| < MAX_SESSIONS_PER_POD * |RunningPods(pods)|
    ensures FirstFit(w.sessions, pods, {}).Some?
  {
    FirstFitIsRunning(w.sessions, pods);
    if FirstFit(w.sessions, pods, {}).None? {
      var on := set s | s in w.sessions && w.sessions[s].podName.Some?
        && w.sessions[s].podName.value in RunningPods(pods);
      FullPodsHoldTen(w.sessions, RunningPods(pods), on);
      SubsetSize(on, names);
    }
  }

  lemma OneMoreOnPod(sessions: map<Name, Status>, s: Name, pod: Name, p: Name)
    requires s !in sessions
    ensures var after := sessions[s := Status(Active, Some(pod))];
      OnPod(after, p) == if p == pod then OnPod(sessions, p) + {s} else OnPod(sessions, p)
  {
  }

  lemma OneMoreFits(sessions: map<Name, Status>, running: set<Name>, s: Name, pod: Name)
    requires AllOn(sessions, running) && AtMostTen(sessions, running) && s !in sessions
    requires pod in running && |OnPod(sessions, pod)| < MAX_SESSIONS_PER_POD
    ensures var after := sessions[s := Status(Active, Some(pod))];
      AllOn(after, running) && AtMostTen(after, running)
  {
    var after := sessions[s := Status(Active, Some(pod))];
    forall p | p in running
      ensures |OnPod(after, p)| <= MAX_SESSIONS_PER_POD
    {
      OneMoreOnPod(sessions, s, pod, p);
    }
  }

  lemma RoomForOneMore(w: World, names: set<Name>, s: Name, pods: seq<Pod>)
    requires Filled(w, names, pods) && s !in names && |names| < MAX_SESSIONS_PER_POD * |RunningPods(pods)|
    ensures Filled(World(w.sessions[s := Placed(w.sessions, pods)], map[]), names + {s}, pods)
  {
    hide RunningPods, AllOn, AtMostTen;
    RoomExists(w, names, pods);
    FirstFitIsRunning(w.sessions, pods);
    OneMoreFits(w.sessions, RunningPods(pods), s, FirstFit(w.sessions, pods, {}).value);
  }

  lemma OneMoreCreation(es: seq<Event>, s: Name, pods: seq<Pod>)
    requires RunFrom(1, EMPTY, es).deciding == map[] && s !in RunFrom(1, EMPTY, es).sessions
    ensures var w := RunFrom(1, EMPTY, es);
      RunFrom(1, EMPTY, es + Creation(s, pods)) == World(w.sessions[s := Placed(w.sessions, pods)], map[])
  {
    RunThree(1, es, Submitted(s), Decided(s, Answers(Some(pods), {}, false)), Merged(s));
    CreationPlaces(RunFrom(1, EMPTY, es), s, pods);
  }

  lemma {:induction false} PodsHoldAtMost(sessions: map<Name, Status>, pods: set<Name>, on: set<Name>)
    requires forall p :: p in pods ==> |OnPod(sessions, p)| <= MAX_SESSIONS_PER_POD
    requires on == set s | s in sessions && sessions[s].podName.Some? && sessions[s].podName.value in pods
    ensures |on| <= MAX_SESSIONS_PER_POD * |pods|
    decreases |pods|
  {
    if pods == {} {
      assert on == {};
    } else {
      var p :| p in pods;
      var rest := on - OnPod(sessions, p);
      assert rest == set s | s in sessions && sessions[s].podName.Some? && sessions[s].podName.value in pods - {p};
      PodsHoldAtMost(sessions, pods - {p}, rest);
      assert on == rest + OnPod(sessions, p);
    }
  }

  /** Ten sessions for every running pod leave no room. */
  lemma FilledIsFull(w: World, names: set<Name>, pods: seq<Pod>, p: Name)
    requires Filled(w, names, pods) && |names| == MAX_SESSIONS_PER_POD * |RunningPods(pods)| && p in RunningPods(pods)
    ensures |OnPod(w.sessions, p)| == MAX_SESSIONS_PER_POD
  {
    var others := RunningPods(pods) - {p};
    var rest := names - OnPod(w.sessions, p);
    assert rest == set s | s in w.sessions && w.sessions[s].podName.Some? && w.sessions[s].podName.value in others;
    PodsHoldAtMost(w.sessions, others, rest);
    assert names == rest + OnPod(w.sessions, p);
  }

  lemma CreationFills(es: seq<Event>, names: set<Name>, s: Name, pods: seq<Pod>)
    requires Filled(RunFrom(1, EMPTY, es), names, pods) && s !in names
    requires |names| < MAX_SESSIONS_PER_POD * |RunningPods(pods)|
    ensures Filled(RunFrom(1, EMPTY, es + Creation(s, pods)), names + {s}, pods)
  {
    hide RunningPods, Placed, AllOn, AtMostTen;
    OneMoreCreation(es, s, pods);
    RoomForOneMore(RunFrom(1, EMPTY, es), names, s, pods);
  }

  lemma LastName(names: seq<Name>)
    requires names != [] && forall i, j :: 0 <= i < j < |names| ==> names[i] != names[j]
    ensures var before, s := names[..|names| - 1], names[|names| - 1];
      names == before + [s] && s !in NameSet(before) && NameSet(names) == NameSet(before) + {s}
  {
    var before, s := names[..|names| - 1], names[|names| - 1];
    assert names == before + [s];
    assert NameSet(names) == NameSet(before) + {s};
  }

  lemma {:induction false} CreationsFill(names: seq<Name>, pods: seq<Pod>)
    requires forall i, j :: 0 <= i < j < |names| ==> names[i] != names[j]
    requires |names| <= MAX_SESSIONS_PER_POD * |RunningPods(pods)|
    ensures Filled(RunFrom(1, EMPTY, Creations(names, pods)), NameSet(names), pods) && |NameSet(names)| == |names|
  {
    CountIsCardinality(names, NameSet(names));
    if names == [] {
      assert NameSet(names) == {};
    } else {
      hide Filled, Creation, NameSet, RunningPods;
      var before, s := names[..|names| - 1], names[|names| - 1];
      LastName(names);
      CreationsFill(before, pods);
      CreationFills(Creations(before, pods), NameSet(before), s, pods);
    }
  }

  lemma WaitingSession(w: World, names: set<Name>, s: Name, pods: seq<Pod>)
    requires Filled(w, names, pods) && s !in names && |names| == MAX_SESSIONS_PER_POD * |RunningPods(pods)|
    ensures var after := w.sessions[s := Placed(w.sessions, pods)];
      && FirstFit(after, pods, {}).None?
      && InPhase(after, Active) == names && InPhase(after, Pending) == {s}
  {
    forall p | p in RunningPods(pods) ensures |OnPod(w.sessions, p)| >= MAX_SESSIONS_PER_POD {
      FilledIsFull(w, names, pods, p);
    }
    FirstFitIsRunning(w.sessions, pods);
    var after := w.sessions[s := Status(Pending, None)];
    FirstFitSame(w.sessions, after, pods);
  }

  lemma WaitingReached(es: seq<Event>, names: set<Name>, s: Name, pods: seq<Pod>)
    requires Filled(RunFrom(1, EMPTY, es), names, pods) && s !in names
    requires |names| == MAX_SESSIONS_PER_POD * |RunningPods(pods)|
    ensures var sessions := RunFrom(1, EMPTY, es + Creation(s, pods)).sessions;
      FirstFit(sessions, pods, {}).None? && InPhase(sessions, Active) == names && InPhase(sessions, Pending) == {s}
  {
    hide RunningPods, Placed, AllOn, AtMostTen;
    OneMoreCreation(es, s, pods);
    WaitingSession(RunFrom(1, EMPTY, es), names, s, pods);
  }

  /** A deeper queue breaks it: ten creations for every running pod and one more reach a state in which the
      target number of pods is running, every one is full, and a session waits without finding a pod. */
  lemma {:induction false} DeepQueueStarves(names: seq<Name>, pods: seq<Pod>, depth: int, minimum: int, maximum: int)
    requires depth > MAX_SESSIONS_PER_POD && RunningPods(pods) != {} && minimum <= |RunningPods(pods)|
    requires forall i, j :: 0 <= i < j < |names| ==> names[i] != names[j]
    requires |names| == MAX_SESSIONS_PER_POD * |RunningPods(pods)| + 1
    ensures var sessions := RunFrom(1, EMPTY, Creations(names, pods)).sessions;
      && InPhase(sessions, Pending) == {names[|names| - 1]}
      && TargetReplicas(sessions, depth, minimum, maximum) <= |RunningPods(pods)|
      && FirstFit(sessions, pods, {}).None?
  {
    hide RunningPods, NameSet, RunFrom, Creation;
    var before, s := names[..|names| - 1], names[|names| - 1];
    LastName(names);
    CreationsFill(before, pods);
    WaitingReached(Creations(before, pods), NameSet(before), s, pods);
    DeepQueueMeetsTarget(RunFrom(1, EMPTY, Creations(names, pods)).sessions, pods, depth, minimum, maximum);
  }
}
