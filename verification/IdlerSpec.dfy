/**
 What one idler does with a user snapshot, as functions of its state and of the answers of
 the outside world (internal/idler/user_idler.go).
 */
module IdlerSpec {
  import opened Wrappers
  import opened Model
  import opened ConditionEval

  const JENKINS_SERVICES: seq<string> := ["jenkins"]
  const BUFFER_SIZE: nat := 10

  /** The idler's fixed settings. */
  datatype Config = Config(maxRetries: int, services: seq<string>, conditions: map<string, Condition>)

  /** The installed conditions, see `createWatchConditions`. */
  ghost predicate Watches(cfg: Config, idleAfter: int, idleLongBuild: int) {
    cfg.conditions == WatchConditions(idleAfter, idleLongBuild)
  }

  /** The fields of the idler a check may change. */
  datatype Core = Core(user: User, idleAttempts: int, unIdleAttempts: int)

  datatype ScaleOp = IdleOp | UnIdleOp

  /** A request to the OpenShift client, and whether it succeeded. */
  datatype Call = Call(op: ScaleOp, namespace: string, service: string, ok: bool)

  datatype Failure =
    | FeatureLookup(msg: string)
    | FailedConditions
    | StateLookup(msg: string)
    | CapacityLookup(msg: string)
    | ClusterFull
    | ScaleFailed(msg: string)

  /**
   Everything a check learns from outside: the feature toggle for a user id, each condition's
   reading of the clock, the pod state and the cluster capacity for a namespace, the client's
   reply per service, and the clock readings for `jenkinsLastUpdate` and for the status time
   stamp.
   */
  datatype Env = Env(
    enabled: string -> Result<bool>, clock: string -> Time, state: string -> Result<PodState>,
    capacity: string -> Result<bool>, reply: string -> Option<string>, write: Time, stamp: Time)

  datatype Outcome = Outcome(core: Core, calls: seq<Call>, err: Option<Failure>)

  /** The service loop: it stops at the first error. */
  function ServiceCalls(op: ScaleOp, ns: string, services: seq<string>, reply: string -> Option<string>): seq<Call> {
    if services == [] then []
    else if reply(services[0]).Some? then [Call(op, ns, services[0], false)]
    else [Call(op, ns, services[0], true)] + ServiceCalls(op, ns, services[1..], reply)
  }

  function FirstFailure(services: seq<string>, reply: string -> Option<string>): Option<Failure> {
    if services == [] then None
    else match reply(services[0])
      case Some(msg) => Some(ScaleFailed(msg))
      case None => FirstFailure(services[1..], reply)
  }

  function DoIdle(cfg: Config, c: Core, env: Env): Outcome {
    if c.idleAttempts >= cfg.maxRetries then Outcome(c, [], None)
    else match env.state(JenkinsNamespace(c.user.name))
      case Err(msg) => Outcome(c, [], Some(StateLookup(msg)))
      case Ok(state) =>
        if state.Level() <= PodIdled.Level() then Outcome(c, [], None)
        else Outcome(
               c.(idleAttempts := c.idleAttempts + 1),
               ServiceCalls(IdleOp, JenkinsNamespace(c.user.name), cfg.services, env.reply),
               FirstFailure(cfg.services, env.reply))
  }

  function DoUnIdle(cfg: Config, c: Core, env: Env): Outcome {
    if c.unIdleAttempts >= cfg.maxRetries then Outcome(c, [], None)
    else match env.state(JenkinsNamespace(c.user.name))
      case Err(msg) => Outcome(c, [], Some(StateLookup(msg)))
      case Ok(state) =>
        if state != PodIdled then Outcome(c, [], None)
        else match env.capacity(JenkinsNamespace(c.user.name))
          case Err(msg) => Outcome(c, [], Some(CapacityLookup(msg)))
          case Ok(true) => Outcome(c, [], Some(ClusterFull))
          case Ok(false) =>
            var calls := ServiceCalls(UnIdleOp, JenkinsNamespace(c.user.name), cfg.services, env.reply);
            var err := FirstFailure(cfg.services, env.reply);
            var tried := c.(unIdleAttempts := c.unIdleAttempts + 1);
            if err.None? && c.user.jenkinsLastUpdate == ZERO_TIME then
              Outcome(tried.(user := c.user.(jenkinsLastUpdate := env.write)), calls, None)
            else
              Outcome(tried, calls, err)
  }

  function Stamped(o: Outcome, stamp: Time, reason: string): Outcome {
    if o.err.Some? then o
    else o.(core := o.core.(user := o.core.user.(idleStatus := IdleStatus(stamp, true, reason))))
  }

  function CheckVerdicts(cfg: Config, c: Core, env: Env): map<string, Verdict> {
    Verdicts(cfg.conditions, c.user, env.clock)
  }

  function CheckIdle(cfg: Config, c: Core, env: Env): Outcome {
    match env.enabled(c.user.id)
    case Err(msg) => Outcome(c, [], Some(FeatureLookup(msg)))
    case Ok(false) => Outcome(c, [], None)
    case Ok(true) =>
      var vs := CheckVerdicts(cfg, c, env);
      if AnyError(vs) then Outcome(c, [], Some(FailedConditions))
      else match Strongest(vs)
        case Idle => Stamped(DoIdle(cfg, c, env), env.stamp, "Successfully idled")
        case UnIdle => Stamped(DoUnIdle(cfg, c, env), env.stamp, "Successfully un-idled")
        case NoAction => Outcome(c, [], None)
  }

  // ---------- the loop ----------

  /** `time.After` delivers once; nothing but a received user arms it again. */
  datatype Timer = Armed(due: Time) | Spent

  datatype Loop = Loop(core: Core, queue: seq<User>, interval: int, timer: Timer, stopped: bool)

  function NewLoop(u: User, interval: int, start: Time): Loop {
    Loop(Core(u, 0, 0), [], interval, Armed(start + interval), false)
  }

  /** The cases of the select statement. `at` is when the case's timer operation happens. */
  datatype Signal =
    | Received(env: Env, at: Time)
    | TimerFired(env: Env, at: Time)
    | TickerFired
    | Cancelled

  predicate Ready(l: Loop, sig: Signal) {
    && !l.stopped
    && match sig
       case Received(_, _) => |l.queue| > 0
       case TimerFired(_, at) => l.timer.Armed? && at >= l.timer.due
       case TickerFired => true
       case Cancelled => true
  }

  /** A signal that makes the idler check. */
  predicate Checks(sig: Signal) {
    sig.Received? || sig.TimerFired?
  }

  /** The state a check starts from: a received user has already replaced the held one. */
  function Checked(l: Loop, sig: Signal): Core
    requires Ready(l, sig)
  {
    if sig.Received? then l.core.(user := l.queue[0]) else l.core
  }

  function Serve(cfg: Config, l: Loop, sig: Signal): Loop
    requires Ready(l, sig)
  {
    match sig
    case Received(env, at) =>
      l.(core := CheckIdle(cfg, Checked(l, sig), env).core, queue := l.queue[1..], timer := Armed(at + l.interval))
    case TimerFired(env, at) =>
      l.(core := CheckIdle(cfg, Checked(l, sig), env).core, timer := Spent)
    case TickerFired =>
      l.(core := l.core.(idleAttempts := 0, unIdleAttempts := 0))
    case Cancelled =>
      l.(stopped := true)
  }

  function ServeCalls(cfg: Config, l: Loop, sig: Signal): seq<Call>
    requires Ready(l, sig)
  {
    if Checks(sig) then CheckIdle(cfg, Checked(l, sig), sig.env).calls else []
  }

  /** The loop interleaved with other goroutines' completed channel sends. */
  datatype Turn = Arrives(u: User) | Serves(sig: Signal)

  predicate CanTurn(l: Loop, t: Turn) {
    match t
    case Arrives(_) => |l.queue| < BUFFER_SIZE
    case Serves(sig) => Ready(l, sig)
  }

  function TakeTurn(cfg: Config, l: Loop, t: Turn): Loop
    requires CanTurn(l, t)
  {
    match t
    case Arrives(u) => l.(queue := l.queue + [u])
    case Serves(sig) => Serve(cfg, l, sig)
  }

  function TurnCalls(cfg: Config, l: Loop, t: Turn): seq<Call>
    requires CanTurn(l, t)
  {
    if t.Serves? then ServeCalls(cfg, l, t.sig) else []
  }

  predicate Feasible(cfg: Config, l: Loop, turns: seq<Turn>)
    decreases |turns|
  {
    turns == [] || (CanTurn(l, turns[0]) && Feasible(cfg, TakeTurn(cfg, l, turns[0]), turns[1..]))
  }

  function RunLoop(cfg: Config, l: Loop, turns: seq<Turn>): Loop
    requires Feasible(cfg, l, turns)
    decreases |turns|
  {
    if turns == [] then l else RunLoop(cfg, TakeTurn(cfg, l, turns[0]), turns[1..])
  }

  /** The loop has stopped exactly if it had before or is cancelled on the way. */
  lemma {:induction false} StoppedByCancel(cfg: Config, l: Loop, turns: seq<Turn>)
    requires Feasible(cfg, l, turns)
    ensures RunLoop(cfg, l, turns).stopped <==> l.stopped || Serves(Cancelled) in turns
    decreases |turns|
  {
    if turns != [] {
      assert turns == [turns[0]] + turns[1..];
      StoppedByCancel(cfg, TakeTurn(cfg, l, turns[0]), turns[1..]);
    }
  }

  function RunCalls(cfg: Config, l: Loop, turns: seq<Turn>): seq<Call>
    requires Feasible(cfg, l, turns)
    decreases |turns|
  {
    if turns == [] then []
    else TurnCalls(cfg, l, turns[0]) + RunCalls(cfg, TakeTurn(cfg, l, turns[0]), turns[1..])
  }
}
