/** When the idler scales Jenkins down or up, how often, and in what order. */
module Effects {
  import opened Wrappers
  import opened Model
  import opened ConditionEval
  import opened IdlerSpec
  import opened IdlerMachine

  // ---------- the guard of every call ----------

  predicate HasOp(calls: seq<Call>, op: ScaleOp) {
    exists c | c in calls :: c.op == op
  }

  /** The toggle is asked about the user's id, the client and the tenant service about the Jenkins namespace. */
  function EnabledFor(c: Core, env: Env): Result<bool> {
    env.enabled(c.user.id)
  }

  function PodOf(c: Core, env: Env): Result<PodState> {
    env.state(c.user.name + "-jenkins")
  }

  function CapacityOf(c: Core, env: Env): Result<bool> {
    env.capacity(c.user.name + "-jenkins")
  }

  /** The pod state a check is told. */
  function PodAt(s: Sys, l: Label): Result<PodState>
    requires Enabled(s, l) && IsCheck(l)
  {
    PodOf(CheckedAt(s, l), l.sig.env)
  }

  /** A check may ask to scale down only if all of this holds. */
  predicate MayIdle(cfg: Config, c: Core, env: Env) {
    var vs := CheckVerdicts(cfg, c, env);
    && EnabledFor(c, env) == Ok(true)
    && !AnyError(vs)
    && !Says(vs, UnIdle) && Says(vs, Idle)
    && PodOf(c, env).Ok? && PodOf(c, env).value in {PodStarting, PodRunning}
    && c.idleAttempts < cfg.maxRetries
  }

  /** A check may ask to scale up only if all of this holds. */
  predicate MayUnIdle(cfg: Config, c: Core, env: Env) {
    var vs := CheckVerdicts(cfg, c, env);
    && EnabledFor(c, env) == Ok(true)
    && !AnyError(vs)
    && Says(vs, UnIdle)
    && PodOf(c, env) == Ok(PodIdled)
    && CapacityOf(c, env) == Ok(false)
    && c.unIdleAttempts < cfg.maxRetries
  }

  /**
   The requests of one service loop: one per service, in order, up to and including the
   first that fails.
   */
  ghost predicate OneLoop(calls: seq<Call>, op: ScaleOp, ns: string, services: seq<string>, env: Env) {
    && |calls| <= |services|
    && (services != [] ==> calls != [])
    && (forall i :: 0 <= i < |calls| ==>
          calls[i] == Call(op, ns, services[i], env.reply(services[i]).None?))
    && (forall i :: 0 <= i < |calls| - 1 ==> calls[i].ok)
    && (|calls| < |services| ==> calls != [] && !calls[|calls| - 1].ok)
  }

  lemma {:induction false} ServiceCallsAreOneLoop(op: ScaleOp, ns: string, services: seq<string>, env: Env)
    ensures OneLoop(ServiceCalls(op, ns, services, env.reply), op, ns, services, env)
    ensures FirstFailure(services, env.reply).None?
            <==> forall c :: c in ServiceCalls(op, ns, services, env.reply) ==> c.ok
    ensures var calls, failure := ServiceCalls(op, ns, services, env.reply), FirstFailure(services, env.reply);
            failure.Some? ==>
              && calls != [] && env.reply(calls[|calls| - 1].service).Some?
              && failure.value == ScaleFailed(env.reply(calls[|calls| - 1].service).value)
  {
    if services != [] {
      ServiceCallsAreOneLoop(op, ns, services[1..], env);
      var rest := ServiceCalls(op, ns, services[1..], env.reply);
      if env.reply(services[0]).None? {
        var all := ServiceCalls(op, ns, services, env.reply);
        assert all == [Call(op, ns, services[0], true)] + rest;
        forall i | 0 <= i < |all| ensures all[i] == Call(op, ns, services[i], env.reply(services[i]).None?) {
          if i > 0 { assert all[i] == rest[i - 1]; }
        }
        forall i | 0 <= i < |all| - 1 ensures all[i].ok {
          if i > 0 { assert all[i] == rest[i - 1]; }
        }
      }
    }
  }

  lemma IdleGuard(cfg: Config, c: Core, env: Env)
    ensures var o := DoIdle(cfg, c, env);
            var go := && PodOf(c, env) in {Ok(PodStarting), Ok(PodRunning)}
                      && c.idleAttempts < cfg.maxRetries;
            && (go ==> OneLoop(o.calls, IdleOp, JenkinsNamespace(c.user.name), cfg.services, env))
            && (!go ==> o.calls == [])
            && o.core == c.(idleAttempts := c.idleAttempts + if go then 1 else 0)
  {
    ServiceCallsAreOneLoop(IdleOp, JenkinsNamespace(c.user.name), cfg.services, env);
  }

  lemma UnIdleGuard(cfg: Config, c: Core, env: Env)
    ensures var o := DoUnIdle(cfg, c, env);
            var go := && PodOf(c, env) == Ok(PodIdled) && CapacityOf(c, env) == Ok(false)
                      && c.unIdleAttempts < cfg.maxRetries;
            && (go ==> OneLoop(o.calls, UnIdleOp, JenkinsNamespace(c.user.name), cfg.services, env))
            && (!go ==> o.calls == [])
            && o.core == c.(user := o.core.user, unIdleAttempts := c.unIdleAttempts + if go then 1 else 0)
  {
    ServiceCallsAreOneLoop(UnIdleOp, JenkinsNamespace(c.user.name), cfg.services, env);
  }

  /**
   The guard of one check, in both directions: it runs the idle service loop exactly when
   idling is allowed, the un-idle loop exactly when un-idling is allowed, never both, and
   otherwise makes no request. Attempts count the loops run.
   */
  lemma CheckGuard(cfg: Config, c: Core, env: Env)
    ensures var o := CheckIdle(cfg, c, env);
            var ns := JenkinsNamespace(c.user.name);
            && !(MayIdle(cfg, c, env) && MayUnIdle(cfg, c, env))
            && (MayIdle(cfg, c, env) ==> OneLoop(o.calls, IdleOp, ns, cfg.services, env))
            && (MayUnIdle(cfg, c, env) ==> OneLoop(o.calls, UnIdleOp, ns, cfg.services, env))
            && (!MayIdle(cfg, c, env) && !MayUnIdle(cfg, c, env) ==> o.calls == [])
            && o.core.idleAttempts == c.idleAttempts + (if MayIdle(cfg, c, env) then 1 else 0)
            && o.core.unIdleAttempts == c.unIdleAttempts + (if MayUnIdle(cfg, c, env) then 1 else 0)
  {
    IdleGuard(cfg, c, env);
    UnIdleGuard(cfg, c, env);
  }

  /** When a check reports an error: exactly when an answer it needs is missing, or a call fails. */
  lemma CheckErrors(cfg: Config, c: Core, env: Env)
    ensures var o := CheckIdle(cfg, c, env);
            var vs := CheckVerdicts(cfg, c, env);
            var on := EnabledFor(c, env) == Ok(true);
            var wantsUp := on && !AnyError(vs) && Says(vs, UnIdle) && c.unIdleAttempts < cfg.maxRetries;
            var wantsDown := && on && !AnyError(vs) && !Says(vs, UnIdle) && Says(vs, Idle)
                             && c.idleAttempts < cfg.maxRetries;
            o.err.Some? <==>
              || EnabledFor(c, env).Err?
              || (on && AnyError(vs))
              || ((wantsUp || wantsDown) && PodOf(c, env).Err?)
              || (wantsUp && PodOf(c, env) == Ok(PodIdled) && CapacityOf(c, env) != Ok(false))
              || exists call :: call in o.calls && !call.ok
  {
    var ns := JenkinsNamespace(c.user.name);
    ServiceCallsAreOneLoop(IdleOp, ns, cfg.services, env);
    ServiceCallsAreOneLoop(UnIdleOp, ns, cfg.services, env);
  }

  /** The last of some calls failed, with this answer. */
  ghost predicate EndsInFailure(calls: seq<Call>, env: Env, msg: string) {
    calls != [] && !calls[|calls| - 1].ok && env.reply(calls[|calls| - 1].service) == Some(msg)
  }

  lemma IdleErrorKinds(cfg: Config, c: Core, env: Env, msg: string)
    ensures var o, wanted := DoIdle(cfg, c, env), c.idleAttempts < cfg.maxRetries;
            && (o.err == Some(StateLookup(msg)) <==> wanted && PodOf(c, env) == Err(msg))
            && (o.err == Some(ScaleFailed(msg)) <==> EndsInFailure(o.calls, env, msg))
            && (o.err.Some? ==> o.err.value.StateLookup? || o.err.value.ScaleFailed?)
  {
    ServiceCallsAreOneLoop(IdleOp, JenkinsNamespace(c.user.name), cfg.services, env);
  }

  lemma UnIdleErrorKinds(cfg: Config, c: Core, env: Env, msg: string)
    ensures var o, wanted := DoUnIdle(cfg, c, env), c.unIdleAttempts < cfg.maxRetries;
            var idled := wanted && PodOf(c, env) == Ok(PodIdled);
            && (o.err == Some(StateLookup(msg)) <==> wanted && PodOf(c, env) == Err(msg))
            && (o.err == Some(CapacityLookup(msg)) <==> idled && CapacityOf(c, env) == Err(msg))
            && (o.err == Some(ClusterFull) <==> idled && CapacityOf(c, env) == Ok(true))
            && (o.err == Some(ScaleFailed(msg)) <==> EndsInFailure(o.calls, env, msg))
            && (o.err.Some? ==> !o.err.value.FeatureLookup? && !o.err.value.FailedConditions?)
  {
    ServiceCallsAreOneLoop(UnIdleOp, JenkinsNamespace(c.user.name), cfg.services, env);
  }

  /** Which error a check reports: each kind exactly in its case, with the words of the failed answer. */
  lemma CheckErrorKinds(cfg: Config, c: Core, env: Env, msg: string)
    ensures var o := CheckIdle(cfg, c, env);
            var vs := CheckVerdicts(cfg, c, env);
            var on := EnabledFor(c, env) == Ok(true) && !AnyError(vs);
            var wantsUp := on && Says(vs, UnIdle) && c.unIdleAttempts < cfg.maxRetries;
            var wantsDown := on && !Says(vs, UnIdle) && Says(vs, Idle) && c.idleAttempts < cfg.maxRetries;
            var idled := wantsUp && PodOf(c, env) == Ok(PodIdled);
            && (o.err == Some(FeatureLookup(msg)) <==> EnabledFor(c, env) == Err(msg))
            && (o.err == Some(FailedConditions) <==> EnabledFor(c, env) == Ok(true) && AnyError(vs))
            && (o.err == Some(StateLookup(msg)) <==> (wantsUp || wantsDown) && PodOf(c, env) == Err(msg))
            && (o.err == Some(CapacityLookup(msg)) <==> idled && CapacityOf(c, env) == Err(msg))
            && (o.err == Some(ClusterFull) <==> idled && CapacityOf(c, env) == Ok(true))
            && (o.err == Some(ScaleFailed(msg)) <==> EndsInFailure(o.calls, env, msg))
  {
    IdleErrorKinds(cfg, c, env, msg);
    UnIdleErrorKinds(cfg, c, env, msg);
  }

  /** A check dates a last update that is zero exactly if it runs the un-idle loop and no call fails. */
  lemma DatedExactly(cfg: Config, c: Core, env: Env)
    ensures var o := CheckIdle(cfg, c, env);
            var dates := && c.user.jenkinsLastUpdate == 0 && MayUnIdle(cfg, c, env)
                         && forall call :: call in o.calls ==> call.ok;
            o.core.user.jenkinsLastUpdate == if dates then env.write else c.user.jenkinsLastUpdate
  {
    ServiceCallsAreOneLoop(UnIdleOp, JenkinsNamespace(c.user.name), cfg.services, env);
  }

  /**
   The recorded status is no proof of a call: a check that decides to act and meets no error
   records success, also when it skipped the call. No other check touches the status.
   */
  lemma StatusRecordsDecision(cfg: Config, c: Core, env: Env)
    ensures var o := CheckIdle(cfg, c, env);
            var vs := CheckVerdicts(cfg, c, env);
            o.core.user.idleStatus ==
              if EnabledFor(c, env) == Ok(true) && !AnyError(vs) && o.err.None? && Strongest(vs) != NoAction then
                IdleStatus(env.stamp, true,
                           if Strongest(vs) == Idle then "Successfully idled" else "Successfully un-idled")
              else c.user.idleStatus
    ensures c.idleAttempts >= cfg.maxRetries && c.unIdleAttempts >= cfg.maxRetries
            && EnabledFor(c, env) == Ok(true) && !AnyError(CheckVerdicts(cfg, c, env))
            && Strongest(CheckVerdicts(cfg, c, env)) != NoAction
            ==> CheckIdle(cfg, c, env).calls == [] && CheckIdle(cfg, c, env).core.user.idleStatus.success
  {
  }

  /** The guard over every run: no call is made outside it, and none for another namespace. */
  lemma EffectGuard(cfg: Config, s: Sys, ls: seq<Label>, k: nat, call: Call)
    requires k < |ls| && ValidRun(cfg, s, ls)
    requires call in StepCalls(cfg, At(cfg, s, ls, k), ls[k])
    ensures IsCheck(ls[k])
    ensures var c := CheckedAt(At(cfg, s, ls, k), ls[k]);
            && call.namespace == JenkinsNamespace(c.user.name)
            && call.service in cfg.services
            && (call.op == IdleOp ==> MayIdle(cfg, c, ls[k].sig.env))
            && (call.op == UnIdleOp ==> MayUnIdle(cfg, c, ls[k].sig.env))
  {
    var c := CheckedAt(At(cfg, s, ls, k), ls[k]);
    CheckGuard(cfg, c, ls[k].sig.env);
    var calls := StepCalls(cfg, At(cfg, s, ls, k), ls[k]);
    var i :| 0 <= i < |calls| && calls[i] == call;
  }

  // ---------- retry caps ----------

  function CountOp(calls: seq<Call>, op: ScaleOp): nat {
    if calls == [] then 0 else (if calls[0].op == op then 1 else 0) + CountOp(calls[1..], op)
  }

  lemma {:induction false} CountOpAppend(a: seq<Call>, b: seq<Call>, op: ScaleOp)
    ensures CountOp(a + b, op) == CountOp(a, op) + CountOp(b, op)
  {
    if a == [] {
      assert a + b == b;
    } else {
      assert (a + b)[1..] == a[1..] + b;
      CountOpAppend(a[1..], b, op);
    }
  }

  lemma {:induction false} CountOpBound(calls: seq<Call>, op: ScaleOp)
    ensures CountOp(calls, op) <= |calls|
    ensures !HasOp(calls, op) ==> CountOp(calls, op) == 0
  {
    if calls != [] {
      CountOpBound(calls[1..], op);
      if !HasOp(calls, op) {
        assert calls[0] in calls;
        assert forall c :: c in calls[1..] ==> c in calls;
      }
    }
  }

  function Cap(cfg: Config): nat {
    if cfg.maxRetries > 0 then cfg.maxRetries else 0
  }

  predicate CountersCapped(cfg: Config, c: Core) {
    0 <= c.idleAttempts <= Cap(cfg) && 0 <= c.unIdleAttempts <= Cap(cfg)
  }

  function Attempts(c: Core, op: ScaleOp): int {
    if op == IdleOp then c.idleAttempts else c.unIdleAttempts
  }

  /** Resets of the counters in a run. */
  function Resets(ls: seq<Label>): nat {
    if ls == [] then 0 else (if ls[0] == Select(TickerFired) then 1 else 0) + Resets(ls[1..])
  }

  lemma CheckCap(cfg: Config, c: Core, env: Env, op: ScaleOp)
    requires CountersCapped(cfg, c)
    ensures var o := CheckIdle(cfg, c, env);
            && CountersCapped(cfg, o.core)
            && Attempts(c, op) <= Attempts(o.core, op) <= Attempts(c, op) + 1
            && CountOp(o.calls, op) <= if Attempts(o.core, op) == Attempts(c, op) then 0 else |cfg.services|
  {
    CheckGuard(cfg, c, env);
    var calls := CheckIdle(cfg, c, env).calls;
    CountOpBound(calls, op);
    if HasOp(calls, op) {
      var call :| call in calls && call.op == op;
      var i :| 0 <= i < |calls| && calls[i] == call;
    }
  }

  /** Calls of one kind made by one label, against the attempts it uses up. */
  lemma StepCap(cfg: Config, s: Sys, l: Label, op: ScaleOp)
    requires Enabled(s, l) && CountersCapped(cfg, s.loop.core)
    ensures CountersCapped(cfg, Step(cfg, s, l).loop.core)
    ensures var before, after := Attempts(s.loop.core, op), Attempts(Step(cfg, s, l).loop.core, op);
            if l == Select(TickerFired) then after == 0 && StepCalls(cfg, s, l) == []
            else
              && before <= after <= before + 1
              && CountOp(StepCalls(cfg, s, l), op) <= if after == before then 0 else |cfg.services|
  {
    if IsCheck(l) {
      CheckCap(cfg, CheckedAt(s, l), l.sig.env, op);
    }
  }

  /** What is left of the calls of `r` more periods when `a` attempts of this one are spent. */
  function Budget(n: nat, m: nat, r: nat, a: int): int {
    n * (m * (r + 1) - a)
  }

  lemma BudgetSpent(n: nat, m: nat, r: nat, a: int, a': int, now: nat, later: nat)
    requires a <= a' <= a + 1
    requires now <= (if a' == a then 0 else n) && later <= Budget(n, m, r, a')
    ensures now + later <= Budget(n, m, r, a)
  {
    if a' == a + 1 {
      assert n * (m * (r + 1) - a) == n * (m * (r + 1) - a') + n;
    }
  }

  lemma BudgetRenewed(n: nat, m: nat, r: nat, a: int)
    requires a <= m
    ensures Budget(n, m, 0, a) >= 0
    ensures Budget(n, m, r, 0) <= Budget(n, m, r + 1, a)
  {
    assert m * (r + 2) == m * (r + 1) + m;
    assert n * (m * (r + 1) + (m - a)) == n * (m * (r + 1)) + n * (m - a);
  }

  /**
   Retry caps over a whole run: the counters stay within the cap, and the calls of either
   kind number at most services * (cap * (resets + 1) - attempts already used).
   */
  lemma {:induction false} RetryCaps(cfg: Config, s: Sys, ls: seq<Label>, op: ScaleOp)
    requires ValidRun(cfg, s, ls) && CountersCapped(cfg, s.loop.core)
    ensures CountersCapped(cfg, Exec(cfg, s, ls).loop.core)
    ensures CountOp(Calls(cfg, s, ls), op)
            <= Budget(|cfg.services|, Cap(cfg), Resets(ls), Attempts(s.loop.core, op))
    decreases |ls|
  {
    var n, m, a := |cfg.services|, Cap(cfg), Attempts(s.loop.core, op);
    if ls == [] {
      BudgetRenewed(n, m, 0, a);
    } else {
      var s' := Step(cfg, s, ls[0]);
      StepCap(cfg, s, ls[0], op);
      RetryCaps(cfg, s', ls[1..], op);
      var now, later := CountOp(StepCalls(cfg, s, ls[0]), op), CountOp(Calls(cfg, s', ls[1..]), op);
      CountOpAppend(StepCalls(cfg, s, ls[0]), Calls(cfg, s', ls[1..]), op);
      if ls[0] == Select(TickerFired) {
        BudgetRenewed(n, m, Resets(ls[1..]), a);
      } else {
        BudgetSpent(n, m, Resets(ls[1..]), a, Attempts(s'.loop.core, op), now, later);
      }
    }
  }

  /** Between two resets at most the cap of attempts of either kind are made. */
  lemma {:induction false} AttemptsBetweenResets(cfg: Config, s: Sys, ls: seq<Label>, op: ScaleOp)
    requires ValidRun(cfg, s, ls) && CountersCapped(cfg, s.loop.core) && Resets(ls) == 0
    ensures Attempts(s.loop.core, op) <= Attempts(Exec(cfg, s, ls).loop.core, op) <= Cap(cfg)
    decreases |ls|
  {
    if ls != [] {
      StepCap(cfg, s, ls[0], op);
      AttemptsBetweenResets(cfg, Step(cfg, s, ls[0]), ls[1..], op);
    }
  }

  // ---------- alternation ----------

  /** Jenkins' scale after some requests: a failed request leaves it alone. */
  function ScaleAfter(up: bool, calls: seq<Call>): bool
    decreases |calls|
  {
    if calls == [] then up
    else ScaleAfter(if calls[0].ok then calls[0].op == UnIdleOp else up, calls[1..])
  }

  /** The state the client reads off a deployment config whose replicas are the scale `up`. */
  ghost predicate ReadsScale(state: PodState, up: bool) {
    exists s: DCStatus :: state == StateOf(s) && (s.replicas != 0 <==> up)
  }

  /** Only this idler scales Jenkins, and every state it is told is read off the scale of that moment. */
  ghost predicate StateIsFaithful(cfg: Config, s: Sys, ls: seq<Label>, up: bool)
    requires ValidRun(cfg, s, ls)
    decreases |ls|
  {
    || ls == []
    || (&& (IsCheck(ls[0]) && PodAt(s, ls[0]).Ok? ==> ReadsScale(PodAt(s, ls[0]).value, up))
        && StateIsFaithful(cfg, Step(cfg, s, ls[0]), ls[1..], ScaleAfter(up, StepCalls(cfg, s, ls[0]))))
  }

  function Succeeded(calls: seq<Call>): seq<ScaleOp> {
    if calls == [] then [] else (if calls[0].ok then [calls[0].op] else []) + Succeeded(calls[1..])
  }

  lemma {:induction false} SucceededAppend(a: seq<Call>, b: seq<Call>)
    ensures Succeeded(a + b) == Succeeded(a) + Succeeded(b)
  {
    if a == [] {
      assert a + b == b;
    } else {
      var first := if a[0].ok then [a[0].op] else [];
      assert (a + b)[0] == a[0] && (a + b)[1..] == a[1..] + b;
      SucceededAppend(a[1..], b);
      assert first + (Succeeded(a[1..]) + Succeeded(b)) == (first + Succeeded(a[1..])) + Succeeded(b);
    }
  }

  /** Down first if Jenkins is up, up first if it is down, and then by turns. */
  predicate ByTurns(ops: seq<ScaleOp>, up: bool) {
    ops == [] || (ops[0] == (if up then IdleOp else UnIdleOp) && ByTurns(ops[1..], !up))
  }

  lemma {:induction false} ByTurnsAlternates(ops: seq<ScaleOp>, up: bool)
    requires ByTurns(ops, up)
    ensures forall i :: 0 <= i < |ops| - 1 ==> ops[i] != ops[i + 1]
  {
    if ops != [] {
      ByTurnsAlternates(ops[1..], !up);
      forall i | 0 <= i < |ops| - 1 ensures ops[i] != ops[i + 1] {
        if i > 0 { assert ops[i] == ops[1..][i - 1] && ops[i + 1] == ops[1..][i]; }
      }
    }
  }

  /** The check runs a service loop, and the client grants its one request. */
  predicate Scaling(cfg: Config, c: Core, env: Env)
    requires |cfg.services| == 1
  {
    (MayIdle(cfg, c, env) || MayUnIdle(cfg, c, env)) && env.reply(cfg.services[0]).None?
  }

  /** Only this idler scales Jenkins, and whenever it does so with success it was told the scale of that moment. */
  ghost predicate ToldTruthWhenScaling(cfg: Config, s: Sys, ls: seq<Label>, up: bool)
    requires |cfg.services| == 1 && ValidRun(cfg, s, ls)
    decreases |ls|
  {
    || ls == []
    || (&& (IsCheck(ls[0]) && Scaling(cfg, CheckedAt(s, ls[0]), ls[0].sig.env) ==>
              ReadsScale(PodAt(s, ls[0]).value, up))
        && ToldTruthWhenScaling(cfg, Step(cfg, s, ls[0]), ls[1..], ScaleAfter(up, StepCalls(cfg, s, ls[0]))))
  }

  lemma ReadsScaleExactly(state: PodState, up: bool)
    ensures ReadsScale(state, up) <==> state != PodStateUnknown && (state == PodIdled <==> !up)
  {
    assert StateOf(DCStatus(0, 0, [])) == PodIdled;
    assert StateOf(DCStatus(1, 0, [])) == PodStarting;
    assert StateOf(DCStatus(1, 1, [])) == PodRunning;
  }

  /** Jenkins is idled, starting or running by the deployment config's replicas, and by those that are ready. */
  lemma StateByReplicas(s: DCStatus)
    ensures StateOf(s) == PodIdled <==> s.replicas == 0
    ensures StateOf(s) == PodStarting <==> s.replicas != 0 && s.readyReplicas == 0
    ensures StateOf(s) == PodRunning <==> s.replicas != 0 && s.readyReplicas != 0
  {
  }

  lemma SingleServiceStep(cfg: Config, s: Sys, l: Label, up: bool)
    requires Enabled(s, l) && |cfg.services| == 1
    ensures var calls := StepCalls(cfg, s, l);
            if IsCheck(l) && Scaling(cfg, CheckedAt(s, l), l.sig.env) then
              && PodAt(s, l).Ok?
              && (Succeeded(calls) == [if up then IdleOp else UnIdleOp] <==> ReadsScale(PodAt(s, l).value, up))
              && |Succeeded(calls)| == 1 && ScaleAfter(up, calls) == (Succeeded(calls)[0] == UnIdleOp)
            else Succeeded(calls) == [] && ScaleAfter(up, calls) == up
  {
    var calls := StepCalls(cfg, s, l);
    if IsCheck(l) {
      CheckGuard(cfg, CheckedAt(s, l), l.sig.env);
      if calls != [] {
        var first := if calls[0].ok then [calls[0].op] else [];
        assert calls == [calls[0]] && calls[1..] == [];
        assert Succeeded(calls) == first + Succeeded(calls[1..]) == first;
        ReadsScaleExactly(PodAt(s, l).value, up);
      }
    }
  }

  /**
   Alternation over whole runs, exactly: with one service and this idler the only actor,
   successful scale-downs and scale-ups strictly alternate, beginning with the one Jenkins'
   scale calls for, if and only if every check that scales with success was told the truth.
   What other checks are told does not matter.
   */
  lemma {:induction false} Alternation(cfg: Config, s: Sys, ls: seq<Label>, up: bool)
    requires |cfg.services| == 1 && ValidRun(cfg, s, ls)
    ensures ByTurns(Succeeded(Calls(cfg, s, ls)), up) <==> ToldTruthWhenScaling(cfg, s, ls, up)
    decreases |ls|
  {
    if ls != [] {
      var s', calls := Step(cfg, s, ls[0]), StepCalls(cfg, s, ls[0]);
      var rest := Succeeded(Calls(cfg, s', ls[1..]));
      SingleServiceStep(cfg, s, ls[0], up);
      Alternation(cfg, s', ls[1..], ScaleAfter(up, calls));
      SucceededAppend(calls, Calls(cfg, s', ls[1..]));
      if Succeeded(calls) == [] {
        assert [] + rest == rest;
      } else {
        assert (Succeeded(calls) + rest)[0] == Succeeded(calls)[0] && (Succeeded(calls) + rest)[1..] == rest;
      }
    }
  }

  /** Being told the truth by every check is enough. */
  lemma FaithfulIsEnough(cfg: Config, s: Sys, ls: seq<Label>, up: bool)
    requires |cfg.services| == 1 && ValidRun(cfg, s, ls) && StateIsFaithful(cfg, s, ls, up)
    ensures ByTurns(Succeeded(Calls(cfg, s, ls)), up)
  {
    FaithfulTellsTruth(cfg, s, ls, up);
    Alternation(cfg, s, ls, up);
  }

  lemma {:induction false} FaithfulTellsTruth(cfg: Config, s: Sys, ls: seq<Label>, up: bool)
    requires |cfg.services| == 1 && ValidRun(cfg, s, ls) && StateIsFaithful(cfg, s, ls, up)
    ensures ToldTruthWhenScaling(cfg, s, ls, up)
    decreases |ls|
  {
    if ls != [] {
      FaithfulTellsTruth(cfg, Step(cfg, s, ls[0]), ls[1..], ScaleAfter(up, StepCalls(cfg, s, ls[0])));
    }
  }

  /**
   A lie that breaks alternation: while the state still reads idled after a scale-up, as the source
   warns it may, a second check scales up again.
   */
  lemma LaggingStateScalesUpTwice(cfg: Config, s: Sys, env: Env, at: Time)
    requires !s.loop.stopped && |s.loop.queue| == 2 && cfg.services == JENKINS_SERVICES
    requires env.reply("jenkins").None?
    requires forall u :: u in s.loop.queue ==> MayUnIdle(cfg, s.loop.core.(user := u), env)
    requires s.loop.core.unIdleAttempts + 1 < cfg.maxRetries
    ensures var ls := [Select(Received(env, at)), Select(Received(env, at))];
            && ValidRun(cfg, s, ls)
            && Succeeded(Calls(cfg, s, ls)) == [UnIdleOp, UnIdleOp]
  {
    var l := Select(Received(env, at));
    var ls := [l, l];
    var s1 := Step(cfg, s, l);
    assert ls[1..] == [l] && [l][1..] == [];
    assert MayUnIdle(cfg, s.loop.core.(user := s.loop.queue[0]), env);
    assert MayUnIdle(cfg, s.loop.core.(user := s.loop.queue[1]), env);
    CheckGuard(cfg, CheckedAt(s, l), env);
    assert CheckVerdicts(cfg, CheckedAt(s1, l), env)
           == CheckVerdicts(cfg, s.loop.core.(user := s.loop.queue[1]), env);
    CheckGuard(cfg, CheckedAt(s1, l), env);
    var c1, c2 := StepCalls(cfg, s, l), StepCalls(cfg, s1, l);
    assert c1 == [c1[0]] && c1[1..] == [] && c2 == [c2[0]] && c2[1..] == [];
    assert Calls(cfg, s1, [l]) == c2 + [] == c2;
    assert ValidRun(cfg, s1, [l]);
    SucceededAppend(c1, c2);
  }
}
