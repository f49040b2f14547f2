/**
 The entities the idler reasons about: builds, deployment configs and the user snapshot
 (internal/model). Times are whole nanoseconds counted from Go's zero `time.Time`, so
 `IsZero` is a comparison with 0.
 */
module Model {
  import opened Wrappers

  type Time = int

  const ZERO_TIME: Time := 0
  const TWO_SECONDS: int := 2_000_000_000
  const JENKINS_NAMESPACE_SUFFIX := "-jenkins"
  const AVAILABLE_CONDITION := "Available"

  /** In the source an integer enumeration; `Level` is the integer. */
  datatype PodState = PodStateUnknown | PodIdled | PodStarting | PodRunning {
    function Level(): int {
      match this
      case PodStateUnknown => 0
      case PodIdled => 1
      case PodStarting => 2
      case PodRunning => 3
    }
  }

  datatype Build = Build(
    name: string, namespace: string, strategy: string,
    phase: string, start: Time, completion: Time)

  const EMPTY_BUILD := Build("", "", "", "", ZERO_TIME, ZERO_TIME)
  const CLEARED_BUILD := EMPTY_BUILD.(phase := "New")

  const PHASES: map<string, int> :=
    map["Finished" := 0, "Complete" := 0, "Failed" := 0, "Cancelled" := 0,
        "Pending" := 1, "New" := 1, "Running" := 1]

  /** Reading a Go map at a missing key gives 0, so an unlisted phase is not active. */
  predicate IsActive(b: Build): (active: bool)
    ensures active <==> b.phase in {"Pending", "New", "Running"}
  {
    (if b.phase in PHASES then PHASES[b.phase] else 0) == 1
  }

  datatype IdleStatus = IdleStatus(timestamp: Time, success: bool, reason: string)

  datatype User = User(
    name: string, id: string, activeBuild: Build, doneBuild: Build,
    jenkinsLastUpdate: Time, idleStatus: IdleStatus)
  {
    predicate HasActiveBuilds() { |activeBuild.name| > 0 }

    predicate HasCompletedBuilds() { |doneBuild.name| > 0 }

    predicate HasBuilds() { HasActiveBuilds() || HasCompletedBuilds() }
  }

  function NewUser(id: string, name: string): User {
    User(name, id, CLEARED_BUILD, EMPTY_BUILD, ZERO_TIME, IdleStatus(ZERO_TIME, false, ""))
  }

  function JenkinsNamespace(ns: string): string {
    ns + JENKINS_NAMESPACE_SUFFIX
  }

  // ---------- deployment configs ----------

  datatype DCCondition = DCCondition(kind: string, lastUpdateTime: Time, status: string)

  datatype DCStatus = DCStatus(replicas: int, readyReplicas: int, conditions: seq<DCCondition>)

  datatype DeploymentConfig = DeploymentConfig(namespace: string, status: DCStatus)

  /** The first condition of the given kind. */
  function FirstOfKind(cs: seq<DCCondition>, kind: string): Option<DCCondition> {
    if cs == [] then None
    else if cs[0].kind == kind then Some(cs[0])
    else FirstOfKind(cs[1..], kind)
  }

  method GetByType(s: DCStatus, kind: string) returns (r: Option<DCCondition>)
    ensures r == FirstOfKind(s.conditions, kind)
    ensures r.None? <==> forall j :: 0 <= j < |s.conditions| ==> s.conditions[j].kind != kind
    ensures r.Some? ==> exists i ::
              && 0 <= i < |s.conditions| && r.value == s.conditions[i] && r.value.kind == kind
              && forall j :: 0 <= j < i ==> s.conditions[j].kind != kind
  {
    for i := 0 to |s.conditions|
      invariant forall j :: 0 <= j < i ==> s.conditions[j].kind != kind
      invariant FirstOfKind(s.conditions, kind) == FirstOfKind(s.conditions[i..], kind)
    {
      if s.conditions[i].kind == kind {
        return Some(s.conditions[i]);
      }
    }
    return None;
  }

  /** `FirstOfKind` is the entry with the kind that no other such entry precedes. */
  lemma {:induction false} FirstOfKindIs(cs: seq<DCCondition>, kind: string, i: nat)
    requires i <= |cs| && forall j :: 0 <= j < i ==> cs[j].kind != kind
    requires i < |cs| ==> cs[i].kind == kind
    ensures FirstOfKind(cs, kind) == if i < |cs| then Some(cs[i]) else None
  {
    if 0 < i {
      FirstOfKindIs(cs[1..], kind, i - 1);
    }
  }

  /** `strconv.ParseBool`. */
  function ParseBool(s: string): Option<bool> {
    if s in ["1", "t", "T", "true", "TRUE", "True"] then Some(true)
    else if s in ["0", "f", "F", "false", "FALSE", "False"] then Some(false)
    else None
  }

  /** How the client reads the pod state off a deployment config. */
  function StateOf(s: DCStatus): PodState {
    if s.replicas == 0 then PodIdled
    else if s.readyReplicas == 0 then PodStarting
    else PodRunning
  }

  // ---------- watch filters and namespaces ----------

  const BUILD_TYPE := "JenkinsPipeline"

  /** `strings.HasSuffix`. */
  predicate HasSuffix(s: string, suffix: string) {
    |s| >= |suffix| && s[|s| - |suffix|..] == suffix
  }

  predicate WatchedBuild(b: Build) { b.strategy == BUILD_TYPE }

  predicate WatchedDc(dc: DeploymentConfig) { HasSuffix(dc.namespace, JENKINS_NAMESPACE_SUFFIX) }

  /** The tenant namespace a watched deployment config belongs to. */
  function TenantNamespace(dc: DeploymentConfig): string
    requires WatchedDc(dc)
  {
    dc.namespace[..|dc.namespace| - |JENKINS_NAMESPACE_SUFFIX|]
  }

  /**
   The slice taken by the deployment config handler and the suffix appended by the idler
   undo each other, in both directions. The namespaces are those that end in "-jenkins".
   */
  lemma NamespaceRoundTrip(dc: DeploymentConfig, ns: string)
    ensures WatchedDc(dc) ==> JenkinsNamespace(TenantNamespace(dc)) == dc.namespace
    ensures dc.namespace == JenkinsNamespace(ns) ==> WatchedDc(dc) && TenantNamespace(dc) == ns
    ensures JenkinsNamespace(ns) == ns + "-jenkins"
    ensures WatchedDc(dc) <==> exists tenant: string :: dc.namespace == tenant + "-jenkins"
  {
    if WatchedDc(dc) {
      var n := |dc.namespace| - |JENKINS_NAMESPACE_SUFFIX|;
      assert dc.namespace == dc.namespace[..n] + dc.namespace[n..];
      assert dc.namespace == dc.namespace[..n] + "-jenkins";
    }
    if dc.namespace == JenkinsNamespace(ns) {
      assert dc.namespace[|ns|..] == JENKINS_NAMESPACE_SUFFIX;
      assert dc.namespace[..|ns|] == ns;
    }
    if tenant: string :| dc.namespace == tenant + "-jenkins" {
      assert dc.namespace[|tenant|..] == "-jenkins";
    }
  }
}
