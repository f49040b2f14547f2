/**
 All controllers, all idlers and the API's status requests together. Each world run, seen
 from one namespace, is a run of that namespace's idler machine, so what is proved about
 every idler run holds for every tenant of every world run.
 */
module World {
  import opened Wrappers
  import opened Model
  import opened BuildTracking
  import opened IdlerSpec
  import opened IdlerMachine
  import opened Registry
  import opened Tenant
  import opened DisabledUsers
  import opened Lineage
  import opened Effects
  import opened Channel

  /** Settings shared by all idlers. */
  datatype Settings = Settings(cfg: Config, checkInterval: int)

  /** `unknown`: each controller's own set. The other two parts are shared. */
  datatype World = World(idlers: map<string, Sys>, unknown: map<nat, set<string>>, disabled: set<string>)

  const EMPTY_WORLD := World(map[], map[], {})

  datatype Action =
    | WatchBuild(ctrl: nat, b: Build, answer: Result<InfoList>, at: Time)
    | WatchDc(ctrl: nat, dc: DeploymentConfig, answer: Result<InfoList>, at: Time)
    | Request(status: UserStatus)
    | Local(ns: string, step: Label)

  predicate IsEvent(a: Action) {
    a.WatchBuild? || a.WatchDc?
  }

  predicate Lists(w: World, ctrl: nat, ns: string) {
    ctrl in w.unknown && ns in w.unknown[ctrl]
  }

  /** Handlers' reads are part of the watch actions; the rest of an idler's steps are local. */
  predicate CanAct(w: World, a: Action) {
    a.Local? ==>
      && a.ns in w.idlers && !a.step.BuildEvent? && !a.step.DcEvent?
      && Enabled(w.idlers[a.ns], a.step)
  }

  function ResolutionOf(w: World, ctrl: nat, ns: string, answer: Result<InfoList>): Resolution {
    Resolve(ns in w.idlers, Lists(w, ctrl, ns), answer)
  }

  function CreateIfNotExist(st: Settings, w: World, ctrl: nat, ns: string, answer: Result<InfoList>, at: Time): World {
    match ResolutionOf(w, ctrl, ns, answer)
    case Stranger =>
      w.(unknown := w.unknown[ctrl := (if ctrl in w.unknown then w.unknown[ctrl] else {}) + {ns}])
    case Create(id) =>
      w.(idlers := w.idlers[ns := NewSys(NewUser(id, ns), st.checkInterval, at)])
    case _ => w
  }

  /** What a handler does once the namespace has an idler. */
  function Handle(st: Settings, w: World, ns: string, l: Label): (r: World)
    requires l.BuildEvent? || l.DcEvent?
    ensures r.idlers.Keys == w.idlers.Keys && r.unknown == w.unknown && r.disabled == w.disabled
  {
    if ns !in w.idlers || w.idlers[ns].loop.core.user.name in w.disabled then w
    else w.(idlers := w.idlers[ns := Step(st.cfg, w.idlers[ns], l)])
  }

  /** Some idlers known to the shared map may have been created by another controller. */
  function Act(st: Settings, w: World, a: Action): World
    requires CanAct(w, a)
  {
    match a
    case WatchBuild(ctrl, b, answer, at) =>
      if WatchedBuild(b) then
        Handle(st, CreateIfNotExist(st, w, ctrl, b.namespace, answer, at), b.namespace, BuildEvent(b))
      else w
    case WatchDc(ctrl, dc, answer, at) =>
      if WatchedDc(dc) then
        var ns := TenantNamespace(dc);
        Handle(st, CreateIfNotExist(st, w, ctrl, ns, answer, at), ns, DcEvent(dc.status))
      else w
    case Request(status) => w.(disabled := DisabledUsers.Apply(w.disabled, status))
    case Local(ns, l) => w.(idlers := w.idlers[ns := Step(st.cfg, w.idlers[ns], l)])
  }

  predicate CanRun(st: Settings, w: World, acts: seq<Action>)
    decreases |acts|
  {
    acts == [] || (CanAct(w, acts[0]) && CanRun(st, Act(st, w, acts[0]), acts[1..]))
  }

  function Run(st: Settings, w: World, acts: seq<Action>): World
    requires CanRun(st, w, acts)
    decreases |acts|
  {
    if acts == [] then w else Run(st, Act(st, w, acts[0]), acts[1..])
  }

  // ---------- one tenant's view ----------

  /** The namespace an action concerns, if any. */
  function Concerns(a: Action): Option<string> {
    match a
    case WatchBuild(_, b, _, _) => if WatchedBuild(b) then Some(b.namespace) else None
    case WatchDc(_, dc, _, _) => if WatchedDc(dc) then Some(TenantNamespace(dc)) else None
    case Request(_) => None
    case Local(ns, _) => Some(ns)
  }

  /** The label by which an action reaches a namespace's idler. */
  function LabelOf(a: Action): Label
    requires !a.Request?
  {
    match a
    case WatchBuild(_, b, _, _) => BuildEvent(b)
    case WatchDc(_, dc, _, _) => DcEvent(dc.status)
    case Local(_, l) => l
  }

  /** What an action is to the idler of `ns`, which exists: one label or nothing. */
  function Seen(w: World, a: Action, ns: string): seq<Label>
    requires ns in w.idlers
  {
    if Concerns(a) == Some(ns) && (a.Local? || w.idlers[ns].loop.core.user.name !in w.disabled) then [LabelOf(a)] else []
  }

  lemma SeenStep(st: Settings, w: World, a: Action, ns: string)
    requires CanAct(w, a) && ns in w.idlers
    ensures ns in Act(st, w, a).idlers
    ensures ValidRun(st.cfg, w.idlers[ns], Seen(w, a, ns))
    ensures Act(st, w, a).idlers[ns] == Exec(st.cfg, w.idlers[ns], Seen(w, a, ns))
  {
    var ls := Seen(w, a, ns);
    if ls != [] {
      assert ls == [ls[0]] && ls[1..] == [];
    }
  }

  function History(st: Settings, w: World, acts: seq<Action>, ns: string): seq<Label>
    requires CanRun(st, w, acts) && ns in w.idlers
    decreases |acts|
  {
    if acts == [] then []
    else
      SeenStep(st, w, acts[0], ns);
      Seen(w, acts[0], ns) + History(st, Act(st, w, acts[0]), acts[1..], ns)
  }

  /**
   Projection: once a namespace has an idler, that idler is never replaced, and a world run
   is for it the run of its own machine under the actions that concern it.
   */
  lemma {:induction false} Projection(st: Settings, w: World, acts: seq<Action>, ns: string)
    requires CanRun(st, w, acts) && ns in w.idlers
    ensures ns in Run(st, w, acts).idlers
    ensures ValidRun(st.cfg, w.idlers[ns], History(st, w, acts, ns))
    ensures Run(st, w, acts).idlers[ns] == Exec(st.cfg, w.idlers[ns], History(st, w, acts, ns))
    decreases |acts|
  {
    if acts != [] {
      SeenStep(st, w, acts[0], ns);
      var w' := Act(st, w, acts[0]);
      Projection(st, w', acts[1..], ns);
      RunJoin(st.cfg, w.idlers[ns], Seen(w, acts[0], ns), History(st, w', acts[1..], ns));
    }
  }

  ghost predicate GrownVia(st: Settings, s: Sys, ns: string, id: string, at: Time, ls: seq<Label>) {
    var born := NewSys(NewUser(id, ns), st.checkInterval, at);
    ValidRun(st.cfg, born, ls) && Exec(st.cfg, born, ls) == s
  }

  /** The state of an idler is that of a fresh one of its namespace after some run of its machine. */
  ghost predicate GrownFrom(st: Settings, s: Sys, ns: string) {
    exists id: string, at: Time, ls: seq<Label> :: GrownVia(st, s, ns, id, at, ls)
  }

  lemma {:induction false} Genealogy(st: Settings, w: World, acts: seq<Action>)
    requires CanRun(st, w, acts)
    requires forall ns :: ns in w.idlers ==> GrownFrom(st, w.idlers[ns], ns)
    ensures forall ns :: ns in Run(st, w, acts).idlers ==> GrownFrom(st, Run(st, w, acts).idlers[ns], ns)
    decreases |acts|
  {
    if acts != [] {
      var w' := Act(st, w, acts[0]);
      forall ns | ns in w'.idlers ensures GrownFrom(st, w'.idlers[ns], ns) {
        GenealogyStep(st, w, acts[0], ns);
      }
      Genealogy(st, w', acts[1..]);
    }
  }

  /** An idler comes into being for the namespace of an event, with the tenant's id, and may see that event at once. */
  lemma Birth(st: Settings, w: World, a: Action, ns: string)
    requires CanAct(w, a) && ns !in w.idlers && ns in Act(st, w, a).idlers
    ensures IsEvent(a) && a.answer.Ok? && a.answer.value.data != []
    ensures var born := NewSys(NewUser(a.answer.value.data[0].id, ns), st.checkInterval, a.at);
            && Enabled(born, LabelOf(a))
            && Act(st, w, a).idlers[ns] == if ns in w.disabled then born else Step(st.cfg, born, LabelOf(a))
  {
  }

  lemma GenealogyStep(st: Settings, w: World, a: Action, ns: string)
    requires CanAct(w, a) && ns in Act(st, w, a).idlers
    requires ns in w.idlers ==> GrownFrom(st, w.idlers[ns], ns)
    ensures GrownFrom(st, Act(st, w, a).idlers[ns], ns)
  {
    var after := Act(st, w, a).idlers[ns];
    if ns in w.idlers {
      var id: string, at: Time, ls: seq<Label> :| GrownVia(st, w.idlers[ns], ns, id, at, ls);
      SeenStep(st, w, a, ns);
      RunJoin(st.cfg, NewSys(NewUser(id, ns), st.checkInterval, at), ls, Seen(w, a, ns));
      assert GrownVia(st, after, ns, id, at, ls + Seen(w, a, ns));
    } else {
      Birth(st, w, a, ns);
      var id := a.answer.value.data[0].id;
      BornGrows(st, ns, id, a.at, LabelOf(a));
    }
  }

  lemma BornGrows(st: Settings, ns: string, id: string, at: Time, l: Label)
    requires Enabled(NewSys(NewUser(id, ns), st.checkInterval, at), l)
    ensures GrownFrom(st, NewSys(NewUser(id, ns), st.checkInterval, at), ns)
    ensures GrownFrom(st, Step(st.cfg, NewSys(NewUser(id, ns), st.checkInterval, at), l), ns)
  {
    var born := NewSys(NewUser(id, ns), st.checkInterval, at);
    assert [l][1..] == [];
    assert GrownVia(st, born, ns, id, at, []);
    assert GrownVia(st, Step(st.cfg, born, l), ns, id, at, [l]);
  }

  /** The world in which action `k` of a run is taken. */
  function WorldAt(st: Settings, w: World, acts: seq<Action>, k: nat): (r: World)
    requires k < |acts| && CanRun(st, w, acts)
    ensures CanAct(r, acts[k])
    decreases k
  {
    if k == 0 then w else WorldAt(st, Act(st, w, acts[0]), acts[1..], k - 1)
  }

  /** Action `k` of the run brings the idler of the namespace into being. */
  ghost predicate CreatedBy(st: Settings, w: World, acts: seq<Action>, k: int, ns: string)
    requires CanRun(st, w, acts)
  {
    0 <= k < |acts| && ns !in WorldAt(st, w, acts, k).idlers && Grants(WorldAt(st, w, acts, k), acts[k], ns)
  }

  /** All snapshots in play are of this tenant: the namespace's name, and the id the answer to action `k` gave. */
  ghost predicate IsTenantOf(st: Settings, w: World, acts: seq<Action>, k: int, ns: string, s: Sys)
    requires CanRun(st, w, acts)
  {
    && CreatedBy(st, w, acts, k, ns)
    && AllBelongTo(s, ns, acts[k].answer.value.data[0].id)
  }

  lemma BornBelongs(st: Settings, ns: string, id: string, at: Time, l: Label)
    requires Enabled(NewSys(NewUser(id, ns), st.checkInterval, at), l)
    ensures AllBelongTo(NewSys(NewUser(id, ns), st.checkInterval, at), ns, id)
    ensures AllBelongTo(Step(st.cfg, NewSys(NewUser(id, ns), st.checkInterval, at), l), ns, id)
  {
    var born := NewSys(NewUser(id, ns), st.checkInterval, at);
    OneLabel(st.cfg, born, l);
    IdentityKept(st.cfg, born, [l], ns, id);
  }

  lemma BirthIdentity(st: Settings, w: World, a: Action, ns: string)
    requires CanAct(w, a) && ns !in w.idlers && ns in Act(st, w, a).idlers
    ensures Grants(w, a, ns)
    ensures AllBelongTo(Act(st, w, a).idlers[ns], ns, a.answer.value.data[0].id)
  {
    AppearsInStep(st, w, a, ns);
    Birth(st, w, a, ns);
    BornBelongs(st, ns, a.answer.value.data[0].id, a.at, LabelOf(a));
  }

  lemma {:induction false} IdentityByAnswer(st: Settings, w: World, acts: seq<Action>, ns: string)
    requires CanRun(st, w, acts) && ns !in w.idlers && ns in Run(st, w, acts).idlers
    ensures exists k :: IsTenantOf(st, w, acts, k, ns, Run(st, w, acts).idlers[ns])
    decreases |acts|
  {
    var w', rest := Act(st, w, acts[0]), acts[1..];
    if ns in w'.idlers {
      BirthIdentity(st, w, acts[0], ns);
      Projection(st, w', rest, ns);
      IdentityKept(st.cfg, w'.idlers[ns], History(st, w', rest, ns), ns, acts[0].answer.value.data[0].id);
      assert IsTenantOf(st, w, acts, 0, ns, Run(st, w, acts).idlers[ns]);
    } else {
      IdentityByAnswer(st, w', rest, ns);
      var k :| IsTenantOf(st, w', rest, k, ns, Run(st, w', rest).idlers[ns]);
      assert IsTenantOf(st, w, acts, k + 1, ns, Run(st, w, acts).idlers[ns]);
    }
  }

  /**
   Tenant isolation: in every reachable world each snapshot held by, queued for or on its
   way to the idler of a namespace carries that namespace's name, and the id of the first
   tenant in the answer that brought the idler into being.
   */
  lemma TenantIsolation(st: Settings, acts: seq<Action>, ns: string)
    requires CanRun(st, EMPTY_WORLD, acts) && ns in Run(st, EMPTY_WORLD, acts).idlers
    ensures exists k :: IsTenantOf(st, EMPTY_WORLD, acts, k, ns, Run(st, EMPTY_WORLD, acts).idlers[ns])
  {
    IdentityByAnswer(st, EMPTY_WORLD, acts, ns);
  }

  /** The watch filters: other builds and other namespaces change nothing, these concern their tenant. */
  lemma WatchFilters(st: Settings, w: World, a: Action, ns: string)
    requires CanAct(w, a)
    ensures a.WatchBuild? && a.b.strategy != "JenkinsPipeline" ==> Act(st, w, a) == w
    ensures a.WatchBuild? && a.b.strategy == "JenkinsPipeline" ==> Concerns(a) == Some(a.b.namespace)
    ensures a.WatchDc? && (forall tenant: string :: a.dc.namespace != tenant + "-jenkins") ==> Act(st, w, a) == w
    ensures a.WatchDc? && a.dc.namespace == ns + "-jenkins" ==> Concerns(a) == Some(ns)
  {
    if a.WatchDc? {
      NamespaceRoundTrip(a.dc, ns);
    }
  }

  function BuildFor(a: Action, ns: string): seq<Build> {
    if a.WatchBuild? && Concerns(a) == Some(ns) then [a.b] else []
  }

  /** The build events watched for a namespace, oldest first. */
  function BuildsFor(acts: seq<Action>, ns: string): seq<Build> {
    if acts == [] then [] else BuildFor(acts[0], ns) + BuildsFor(acts[1..], ns)
  }

  lemma StemsFromMore(s: Sys, events: seq<Build>, more: seq<Build>)
    requires AllStemFrom(s, events) && |more| <= 1
    ensures AllStemFrom(s, events + more)
  {
    forall u | InPlay(s, u) ensures StemsFrom(BuildsOf(u), events + more) {
      if more == [] {
        assert events + more == events;
      } else {
        assert more == [more[0]];
        StemsFromLater(BuildsOf(u), events, more[0]);
      }
    }
  }

  lemma LineageOfBirth(st: Settings, w: World, a: Action, ns: string, past: seq<Build>)
    requires CanAct(w, a) && ns !in w.idlers && ns in Act(st, w, a).idlers
    ensures AllStemFrom(Act(st, w, a).idlers[ns], past + BuildFor(a, ns))
  {
    Birth(st, w, a, ns);
    var born, seen := NewSys(NewUser(a.answer.value.data[0].id, ns), st.checkInterval, a.at), BuildFor(a, ns);
    forall u | InPlay(born, u) ensures StemsFrom(BuildsOf(u), past) {
      assert IsSubsequence([], past) && Fold(INITIAL_BUILDS, []) == BuildsOf(u);
    }
    if ns in w.disabled {
      StemsFromMore(born, past, seen);
    } else {
      LineageStep(st.cfg, born, LabelOf(a), past);
      assert BuildsSeen([LabelOf(a)]) == seen;
    }
  }

  lemma LineageOfAct(st: Settings, w: World, a: Action, ns: string, past: seq<Build>)
    requires CanAct(w, a) && ns in w.idlers && AllStemFrom(w.idlers[ns], past)
    ensures ns in Act(st, w, a).idlers && AllStemFrom(Act(st, w, a).idlers[ns], past + BuildFor(a, ns))
  {
    var ls, seen := Seen(w, a, ns), BuildFor(a, ns);
    SeenStep(st, w, a, ns);
    SnapshotLineage(st.cfg, w.idlers[ns], ls, past);
    if ls == [] {
      assert past + BuildsSeen(ls) == past;
      StemsFromMore(Act(st, w, a).idlers[ns], past, seen);
    } else {
      assert ls == [LabelOf(a)];
      assert BuildsSeen(ls) == seen;
    }
  }

  lemma LineageStepInWorld(st: Settings, w: World, a: Action, ns: string, past: seq<Build>)
    requires CanAct(w, a)
    requires ns in w.idlers ==> AllStemFrom(w.idlers[ns], past)
    ensures ns in Act(st, w, a).idlers ==> AllStemFrom(Act(st, w, a).idlers[ns], past + BuildFor(a, ns))
  {
    if ns in w.idlers {
      LineageOfAct(st, w, a, ns, past);
    } else if ns in Act(st, w, a).idlers {
      LineageOfBirth(st, w, a, ns, past);
    }
  }

  /**
   Snapshot lineage in the whole system: in every reachable world the builds of every
   snapshot in play for a namespace are what some of the build events watched for that
   namespace, in order, leave behind. No other tenant's events, deployment configs, drops,
   checks or requests fabricate or alter a build.
   */
  lemma {:induction false} WorldLineage(st: Settings, w: World, acts: seq<Action>, ns: string, past: seq<Build>)
    requires CanRun(st, w, acts)
    requires ns in w.idlers ==> AllStemFrom(w.idlers[ns], past)
    ensures ns in Run(st, w, acts).idlers ==> AllStemFrom(Run(st, w, acts).idlers[ns], past + BuildsFor(acts, ns))
    decreases |acts|
  {
    if acts == [] {
      assert past + [] == past;
    } else {
      var w', seen := Act(st, w, acts[0]), BuildFor(acts[0], ns);
      LineageStepInWorld(st, w, acts[0], ns, past);
      assert seen + BuildsFor(acts[1..], ns) == BuildsFor(acts, ns);
      assert (past + seen) + BuildsFor(acts[1..], ns) == past + BuildsFor(acts, ns);
      WorldLineage(st, w', acts[1..], ns, past + seen);
    }
  }

  /** An action leaves every idler alone that it does not concern. */
  lemma ActsOnOne(st: Settings, w: World, a: Action, ns: string)
    requires CanAct(w, a) && ns in w.idlers && Concerns(a) != Some(ns)
    ensures ns in Act(st, w, a).idlers && Act(st, w, a).idlers[ns] == w.idlers[ns]
  {
    SeenStep(st, w, a, ns);
  }

  /**
   Every call made in a reachable world goes to the Jenkins namespace of the idler that
   makes it, which is the namespace of the deployment configs the idler is told about, and the
   toggle was on for the id of the tenant.
   */
  lemma CallsStayHome(st: Settings, acts: seq<Action>, a: Action, call: Call)
    requires CanRun(st, EMPTY_WORLD, acts) && a.Local? && CanAct(Run(st, EMPTY_WORLD, acts), a)
    requires call in StepCalls(st.cfg, Run(st, EMPTY_WORLD, acts).idlers[a.ns], a.step)
    ensures call.namespace == JenkinsNamespace(a.ns)
    ensures forall dc :: WatchedDc(dc) && TenantNamespace(dc) == a.ns ==> call.namespace == dc.namespace
    ensures exists k :: CreatedBy(st, EMPTY_WORLD, acts, k, a.ns)
                        && a.step.sig.env.enabled(acts[k].answer.value.data[0].id) == Ok(true)
  {
    var s := Run(st, EMPTY_WORLD, acts).idlers[a.ns];
    TenantIsolation(st, acts, a.ns);
    var k :| IsTenantOf(st, EMPTY_WORLD, acts, k, a.ns, s);
    CheckedInPlay(s, a.step);
    var c := CheckedAt(s, a.step);
    CheckGuard(st.cfg, c, a.step.sig.env);
    var calls := StepCalls(st.cfg, s, a.step);
    var i :| 0 <= i < |calls| && calls[i] == call;
    forall dc | WatchedDc(dc) && TenantNamespace(dc) == a.ns ensures call.namespace == dc.namespace {
      NamespaceRoundTrip(dc, a.ns);
    }
  }

  /** In every reachable world no snapshot reports a finished build as active, and no channel overflows. */
  lemma TenantInvariant(st: Settings, acts: seq<Action>, ns: string)
    requires CanRun(st, EMPTY_WORLD, acts) && ns in Run(st, EMPTY_WORLD, acts).idlers
    ensures forall u :: InPlay(Run(st, EMPTY_WORLD, acts).idlers[ns], u) ==> Consistent(BuildsOf(u))
    ensures |Run(st, EMPTY_WORLD, acts).idlers[ns].loop.queue| <= BUFFER_SIZE
    ensures CountersCapped(st.cfg, Run(st, EMPTY_WORLD, acts).idlers[ns].loop.core)
  {
    var s := Run(st, EMPTY_WORLD, acts).idlers[ns];
    Genealogy(st, EMPTY_WORLD, acts);
    var id: string, at: Time, ls: seq<Label> :| GrownVia(st, s, ns, id, at, ls);
    forall u | InPlay(s, u) ensures Consistent(BuildsOf(u)) {
      SnapshotInvariant(st.cfg, id, ns, st.checkInterval, at, ls, u);
    }
    ChannelIsFifo(st.cfg, NewSys(NewUser(id, ns), st.checkInterval, at), ls);
    RetryCaps(st.cfg, NewSys(NewUser(id, ns), st.checkInterval, at), ls, IdleOp);
  }

  /** The retry budget of one tenant in any further run of a reachable world, whatever the other tenants do. */
  lemma TenantBudget(st: Settings, acts: seq<Action>, more: seq<Action>, ns: string, op: ScaleOp)
    requires CanRun(st, EMPTY_WORLD, acts) && ns in Run(st, EMPTY_WORLD, acts).idlers
    requires CanRun(st, Run(st, EMPTY_WORLD, acts), more)
    ensures var w := Run(st, EMPTY_WORLD, acts);
            var ls := History(st, w, more, ns);
            && ValidRun(st.cfg, w.idlers[ns], ls)
            && CountOp(Calls(st.cfg, w.idlers[ns], ls), op)
               <= Budget(|st.cfg.services|, Cap(st.cfg), Resets(ls), Attempts(w.idlers[ns].loop.core, op))
  {
    var w := Run(st, EMPTY_WORLD, acts);
    TenantInvariant(st, acts, ns);
    Projection(st, w, more, ns);
    RetryCaps(st.cfg, w.idlers[ns], History(st, w, more, ns), op);
  }

  // ---------- memoised lookups ----------

  /** The action makes controller `ctrl` ask the tenant service about `ns`. */
  predicate Asks(w: World, a: Action, ctrl: nat, ns: string) {
    && Concerns(a) == Some(ns)
    && IsEvent(a) && a.ctrl == ctrl
    && AsksTenant(ns in w.idlers, Lists(w, ctrl, ns))
  }

  predicate Known(w: World, ctrl: nat, ns: string) {
    ns in w.idlers || Lists(w, ctrl, ns)
  }

  lemma CreateOutcome(st: Settings, w: World, ctrl: nat, ns: string, answer: Result<InfoList>, at: Time)
    requires AsksTenant(ns in w.idlers, Lists(w, ctrl, ns))
    ensures var w' := CreateIfNotExist(st, w, ctrl, ns, answer, at);
            if Conclusive(answer) then
              if answer.value.data == [] then w'.idlers == w.idlers && Lists(w', ctrl, ns)
              else w'.idlers.Keys == w.idlers.Keys + {ns} && w'.unknown == w.unknown
            else w' == w
  {
  }

  /** What one lookup leaves behind: exactly one new entry after a conclusive answer, none otherwise. */
  lemma LookupOutcome(st: Settings, w: World, a: Action, ctrl: nat, ns: string)
    requires CanAct(w, a) && Asks(w, a, ctrl, ns)
    ensures var w' := Act(st, w, a);
            if Conclusive(a.answer) then
              if a.answer.value.data == [] then w'.idlers == w.idlers && Lists(w', ctrl, ns)
              else w'.idlers.Keys == w.idlers.Keys + {ns} && w'.unknown == w.unknown
            else w' == w
  {
    CreateOutcome(st, w, ctrl, ns, a.answer, a.at);
    assert Act(st, w, a) == Handle(st, CreateIfNotExist(st, w, ctrl, ns, a.answer, a.at), ns, LabelOf(a));
  }

  lemma AnsweredIsKnown(st: Settings, w: World, a: Action, ctrl: nat, ns: string)
    requires CanAct(w, a) && Asks(w, a, ctrl, ns) && Conclusive(a.answer)
    ensures Known(Act(st, w, a), ctrl, ns)
  {
    LookupOutcome(st, w, a, ctrl, ns);
    assert ns in Act(st, w, a).idlers <==> ns in Act(st, w, a).idlers.Keys;
  }

  lemma KnownStep(st: Settings, w: World, a: Action, ctrl: nat, ns: string)
    requires CanAct(w, a) && Known(w, ctrl, ns)
    ensures Known(Act(st, w, a), ctrl, ns)
  {
  }

  lemma {:induction false} KnownLater(st: Settings, w: World, acts: seq<Action>, k: nat, ctrl: nat, ns: string)
    requires k < |acts| && CanRun(st, w, acts) && Known(w, ctrl, ns)
    ensures Known(WorldAt(st, w, acts, k), ctrl, ns)
    decreases k
  {
    if k > 0 {
      KnownStep(st, w, acts[0], ctrl, ns);
      KnownLater(st, Act(st, w, acts[0]), acts[1..], k - 1, ctrl, ns);
    }
  }

  lemma AskedFirst(st: Settings, w: World, acts: seq<Action>, j: nat, ctrl: nat, ns: string)
    requires 0 < j < |acts| && CanRun(st, w, acts)
    requires Asks(w, acts[0], ctrl, ns) && Conclusive(acts[0].answer)
    ensures Known(WorldAt(st, w, acts, j), ctrl, ns)
  {
    AnsweredIsKnown(st, w, acts[0], ctrl, ns);
    KnownLater(st, Act(st, w, acts[0]), acts[1..], j - 1, ctrl, ns);
  }

  lemma {:induction false} KnownOnceAsked(st: Settings, w: World, acts: seq<Action>, i: nat, j: nat,
                                          ctrl: nat, ns: string)
    requires i < j < |acts| && CanRun(st, w, acts)
    requires Asks(WorldAt(st, w, acts, i), acts[i], ctrl, ns) && Conclusive(acts[i].answer)
    ensures Known(WorldAt(st, w, acts, j), ctrl, ns)
    decreases i
  {
    if i == 0 {
      AskedFirst(st, w, acts, j, ctrl, ns);
    } else {
      assert acts[i] == acts[1..][i - 1];
      KnownOnceAsked(st, Act(st, w, acts[0]), acts[1..], i - 1, j - 1, ctrl, ns);
    }
  }

  /** After a conclusive answer a controller never asks about the namespace again. */
  lemma AskedOnce(st: Settings, w: World, acts: seq<Action>, i: nat, j: nat, ctrl: nat, ns: string)
    requires i < j < |acts| && CanRun(st, w, acts)
    requires Asks(WorldAt(st, w, acts, i), acts[i], ctrl, ns) && Conclusive(acts[i].answer)
    ensures !Asks(WorldAt(st, w, acts, j), acts[j], ctrl, ns)
  {
    KnownOnceAsked(st, w, acts, i, j, ctrl, ns);
  }

  /** The action tells a controller that has not listed the namespace about it, and of its tenant. */
  predicate Grants(w: World, a: Action, ns: string) {
    && Concerns(a) == Some(ns) && IsEvent(a)
    && !Lists(w, a.ctrl, ns)
    && Conclusive(a.answer) && a.answer.value.data != []
  }

  lemma CreatesExactly(st: Settings, w: World, ctrl: nat, n: string, answer: Result<InfoList>, at: Time, ns: string)
    requires ns !in w.idlers
    ensures ns in CreateIfNotExist(st, w, ctrl, n, answer, at).idlers.Keys
            <==> n == ns && !Lists(w, ctrl, ns) && Conclusive(answer) && answer.value.data != []
  {
  }

  lemma AppearsInStep(st: Settings, w: World, a: Action, ns: string)
    requires CanAct(w, a) && ns !in w.idlers
    ensures ns in Act(st, w, a).idlers <==> Grants(w, a, ns)
  {
    ActFrame(st, w, a);
    if IsEvent(a) && Concerns(a).Some? {
      CreatesExactly(st, w, a.ctrl, Concerns(a).value, a.answer, a.at, ns);
    }
    assert ns in Act(st, w, a).idlers <==> ns in Act(st, w, a).idlers.Keys;
  }

  /**
   Exactly when an idler appears: some controller that has not listed the namespace hears of
   it and is given a tenant.
   */
  lemma {:induction false} AppearsExactly(st: Settings, w: World, acts: seq<Action>, ns: string)
    requires CanRun(st, w, acts) && ns !in w.idlers
    ensures ns in Run(st, w, acts).idlers
            <==> exists k: nat :: k < |acts| && Grants(WorldAt(st, w, acts, k), acts[k], ns)
    decreases |acts|
  {
    if acts != [] {
      var w', rest := Act(st, w, acts[0]), acts[1..];
      assert WorldAt(st, w, acts, 0) == w;
      assert forall k: nat :: k < |rest| ==>
          rest[k] == acts[k + 1] && WorldAt(st, w', rest, k) == WorldAt(st, w, acts, k + 1);
      AppearsInStep(st, w, acts[0], ns);
      if ns in w'.idlers {
        Projection(st, w', rest, ns);
      } else {
        AppearsExactly(st, w', rest, ns);
        if k: nat :| k < |acts| && Grants(WorldAt(st, w, acts, k), acts[k], ns) {
          assert k > 0 && Grants(WorldAt(st, w', rest, k - 1), rest[k - 1], ns);
        }
      }
    }
  }

  lemma ListsStep(st: Settings, w: World, a: Action, ctrl: nat, ns: string)
    requires CanAct(w, a) && Lists(w, ctrl, ns)
    ensures Lists(Act(st, w, a), ctrl, ns)
  {
    ActFrame(st, w, a);
  }

  lemma {:induction false} ListsLater(st: Settings, w: World, acts: seq<Action>, k: nat, ctrl: nat, ns: string)
    requires k < |acts| && CanRun(st, w, acts) && Lists(w, ctrl, ns)
    ensures Lists(WorldAt(st, w, acts, k), ctrl, ns)
    decreases k
  {
    if k > 0 {
      ListsStep(st, w, acts[0], ctrl, ns);
      ListsLater(st, Act(st, w, acts[0]), acts[1..], k - 1, ctrl, ns);
    }
  }

  /**
   An answer that carries errors and no tenant is taken for a conclusive one, and the
   controller lists the namespace as unknown. From then on an idler for it appears exactly if
   another controller that has not listed it hears of it and is given a tenant; whatever the
   first controller hears and would be answered, it never helps.
   */
  lemma ErrorAnswerBansNamespace(st: Settings, w: World, a: Action, acts: seq<Action>, ctrl: nat, ns: string)
    requires CanAct(w, a) && Asks(w, a, ctrl, ns)
    requires a.answer.Ok? && a.answer.value.errors != []
    requires a.answer.value.totalCount <= 1 && a.answer.value.data == []
    requires CanRun(st, Act(st, w, a), acts)
    ensures ns in Run(st, Act(st, w, a), acts).idlers
            <==> exists k: nat :: && k < |acts| && Grants(WorldAt(st, Act(st, w, a), acts, k), acts[k], ns)
                                  && acts[k].ctrl != ctrl
  {
    var w' := Act(st, w, a);
    LookupOutcome(st, w, a, ctrl, ns);
    AppearsExactly(st, w', acts, ns);
    forall k: nat | k < |acts| && Grants(WorldAt(st, w', acts, k), acts[k], ns) ensures acts[k].ctrl != ctrl {
      ListsLater(st, w', acts, k, ctrl, ns);
    }
  }

  /** What an action does to the two maps and the set, apart from moving idlers on. */
  lemma ActFrame(st: Settings, w: World, a: Action)
    requires CanAct(w, a)
    ensures Act(st, w, a).disabled == if a.Request? then DisabledUsers.Apply(w.disabled, a.status) else w.disabled
    ensures Concerns(a).Some? && IsEvent(a) ==>
              var created := CreateIfNotExist(st, w, a.ctrl, Concerns(a).value, a.answer, a.at);
              Act(st, w, a).idlers.Keys == created.idlers.Keys && Act(st, w, a).unknown == created.unknown
    ensures Concerns(a).None? || a.Local? ==>
              Act(st, w, a).idlers.Keys == w.idlers.Keys && Act(st, w, a).unknown == w.unknown
  {
  }

  // ---------- disabled users ----------

  function RequestsIn(acts: seq<Action>): seq<UserStatus> {
    if acts == [] then []
    else (if acts[0].Request? then [acts[0].status] else []) + RequestsIn(acts[1..])
  }

  lemma {:induction false} DisabledByRequests(st: Settings, w: World, acts: seq<Action>)
    requires CanRun(st, w, acts)
    ensures Run(st, w, acts).disabled == ApplyAll(w.disabled, RequestsIn(acts))
    decreases |acts|
  {
    if acts != [] {
      var w' := Act(st, w, acts[0]);
      ActFrame(st, w, acts[0]);
      DisabledByRequests(st, w', acts[1..]);
      if acts[0].Request? {
        assert RequestsIn(acts)[0] == acts[0].status && RequestsIn(acts)[1..] == RequestsIn(acts[1..]);
      } else {
        assert RequestsIn(acts) == RequestsIn(acts[1..]);
      }
    }
  }

  /** In any run of the world a user is disabled as the last request mentioning it says. */
  lemma DisabledInRun(st: Settings, acts: seq<Action>, user: string)
    requires CanRun(st, EMPTY_WORLD, acts)
    ensures var rs := RequestsIn(acts);
            user in Run(st, EMPTY_WORLD, acts).disabled
            <==> LastMention(rs, user) >= 0
                 && user in rs[LastMention(rs, user)].disable && user !in rs[LastMention(rs, user)].enable
  {
    DisabledByRequests(st, EMPTY_WORLD, acts);
    DisabledHistory({}, RequestsIn(acts), user);
  }

  lemma DisabledStep(st: Settings, w: World, a: Action, ns: string, id: string)
    requires CanAct(w, a) && ns in w.idlers && ns in w.disabled && AllBelongTo(w.idlers[ns], ns, id)
    requires a.Request? ==> ns !in a.status.enable
    ensures var w' := Act(st, w, a);
            ns in w'.idlers && ns in w'.disabled && AllBelongTo(w'.idlers[ns], ns, id)
    ensures forall l :: l in Seen(w, a, ns) ==> !l.BuildEvent? && !l.DcEvent?
  {
    SeenStep(st, w, a, ns);
    IdentityKept(st.cfg, w.idlers[ns], Seen(w, a, ns), ns, id);
    ActFrame(st, w, a);
    assert InPlay(w.idlers[ns], w.idlers[ns].loop.core.user);
  }

  /**
   While a tenant stays disabled no build or deployment config event reaches its idler;
   only snapshots already under way, timer checks and resets go on.
   */
  lemma {:induction false} DisabledHearsNothing(st: Settings, w: World, acts: seq<Action>, ns: string, id: string)
    requires CanRun(st, w, acts) && ns in w.idlers && ns in w.disabled
    requires AllBelongTo(w.idlers[ns], ns, id)
    requires forall r :: r in RequestsIn(acts) ==> ns !in r.enable
    ensures forall l :: l in History(st, w, acts, ns) ==> !l.BuildEvent? && !l.DcEvent?
    decreases |acts|
  {
    if acts != [] {
      if acts[0].Request? {
        assert RequestsIn(acts)[0] == acts[0].status;
      }
      DisabledStep(st, w, acts[0], ns, id);
      assert forall r :: r in RequestsIn(acts[1..]) ==> r in RequestsIn(acts);
      DisabledHearsNothing(st, Act(st, w, acts[0]), acts[1..], ns, id);
    }
  }

  /** A run that hears no event offers no snapshot. */
  lemma {:induction false} NothingOffered(cfg: Config, s: Sys, ls: seq<Label>)
    requires ValidRun(cfg, s, ls)
    requires forall l :: l in ls ==> !l.BuildEvent? && !l.DcEvent?
    ensures RunTraffic(cfg, s, ls).offered == []
    decreases |ls|
  {
    if ls != [] {
      assert ls[0] in ls;
      assert forall l :: l in ls[1..] ==> l in ls;
      NothingOffered(cfg, Step(cfg, s, ls[0]), ls[1..]);
    }
  }

  /** An idler that no snapshot was ever on the way to. */
  predicate Untouched(s: Sys, ns: string) {
    Quiet(s) && s.loop.core.user.name == ns && BuildsOf(s.loop.core.user) == INITIAL_BUILDS
  }

  lemma UntouchedStep(st: Settings, w: World, a: Action, ns: string)
    requires CanAct(w, a) && ns in w.disabled
    requires ns in w.idlers ==> Untouched(w.idlers[ns], ns)
    ensures ns in Act(st, w, a).idlers ==> Untouched(Act(st, w, a).idlers[ns], ns)
  {
    if ns in w.idlers {
      SeenStep(st, w, a, ns);
      var ls := Seen(w, a, ns);
      if ls != [] {
        assert ls == [a.step];
        OneLabel(st.cfg, w.idlers[ns], a.step);
        if IsCheck(a.step) {
          CheckEditsLittle(st.cfg, CheckedAt(w.idlers[ns], a.step), a.step.sig.env);
        }
      }
    } else if ns in Act(st, w, a).idlers {
      Birth(st, w, a, ns);
    }
  }

  lemma {:induction false} StaysUntouched(st: Settings, w: World, acts: seq<Action>, ns: string)
    requires CanRun(st, w, acts) && ns in w.disabled
    requires ns in w.idlers ==> Untouched(w.idlers[ns], ns)
    requires forall r :: r in RequestsIn(acts) ==> ns !in r.enable
    ensures ns in Run(st, w, acts).idlers ==> Untouched(Run(st, w, acts).idlers[ns], ns)
    decreases |acts|
  {
    if acts != [] {
      if acts[0].Request? {
        assert RequestsIn(acts)[0] == acts[0].status;
      }
      UntouchedStep(st, w, acts[0], ns);
      ActFrame(st, w, acts[0]);
      assert forall r :: r in RequestsIn(acts[1..]) ==> r in RequestsIn(acts);
      StaysUntouched(st, Act(st, w, acts[0]), acts[1..], ns);
    }
  }

  /**
   In any reachable world, while a tenant stays disabled nothing is enqueued for it: an idler
   it has is offered no snapshot beyond the sends already begun, and an idler created
   meanwhile has none under way and still holds the initial builds.
   */
  lemma DisabledEnqueuesNothing(st: Settings, acts: seq<Action>, more: seq<Action>, ns: string)
    requires CanRun(st, EMPTY_WORLD, acts) && CanRun(st, Run(st, EMPTY_WORLD, acts), more)
    requires ns in Run(st, EMPTY_WORLD, acts).disabled
    requires forall r :: r in RequestsIn(more) ==> ns !in r.enable
    ensures var w := Run(st, EMPTY_WORLD, acts);
            if ns in w.idlers then
              var ls := History(st, w, more, ns);
              ValidRun(st.cfg, w.idlers[ns], ls) && RunTraffic(st.cfg, w.idlers[ns], ls).offered == []
            else ns in Run(st, w, more).idlers ==> Untouched(Run(st, w, more).idlers[ns], ns)
  {
    var w := Run(st, EMPTY_WORLD, acts);
    if ns in w.idlers {
      TenantIsolation(st, acts, ns);
      var k :| IsTenantOf(st, EMPTY_WORLD, acts, k, ns, w.idlers[ns]);
      var id := acts[k].answer.value.data[0].id;
      Projection(st, w, more, ns);
      DisabledHearsNothing(st, w, more, ns, id);
      NothingOffered(st.cfg, w.idlers[ns], History(st, w, more, ns));
    } else {
      StaysUntouched(st, w, more, ns);
    }
  }
}
