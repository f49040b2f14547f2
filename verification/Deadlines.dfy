/** How long Jenkins is kept alive, and how long it is protected. */
module Deadlines {
  import opened Wrappers
  import opened Model
  import opened ConditionEval
  import opened BuildTracking
  import opened IdlerSpec
  import opened IdlerMachine
  import opened Effects

  ghost predicate NoAvailableReport(ls: seq<Label>) {
    forall l :: l in ls && l.DcEvent? ==> !ReportsAvailable(l.s)
  }

  ghost predicate NoBuildEvent(ls: seq<Label>) {
    forall l :: l in ls ==> !l.BuildEvent?
  }

  lemma CheckReadings(cfg: Config, idleAfter: int, idleLongBuild: int, c: Core, env: Env)
    requires Watches(cfg, idleAfter, idleLongBuild)
    ensures var vs := CheckVerdicts(cfg, c, env);
            && !AnyError(vs)
            && Strongest(vs) == WatchAction(idleAfter, idleLongBuild, c.user, env.clock("dc"), env.clock("build"))
  {
    WatchVerdicts(idleAfter, idleLongBuild, c.user, env.clock);
  }

  lemma WithoutAvailableReport(u: User, s: DCStatus)
    requires !ReportsAvailable(s) && TrackDc(u, s).Some?
    ensures TrackDc(u, s).value == u
  {
  }

  // ---------- the keep-alive horizon ----------

  /** A bounded snapshot: its builds expire by `builds`, its last update is at most `updated`. */
  predicate Bounded(idleAfter: int, idleLongBuild: int, u: User, builds: Time, updated: Time) {
    && BuildsExpireBy(idleAfter, idleLongBuild, u, builds)
    && (u.jenkinsLastUpdate == ZERO_TIME || u.jenkinsLastUpdate <= updated)
  }

  ghost predicate AllBounded(idleAfter: int, idleLongBuild: int, s: Sys, builds: Time, updated: Time) {
    forall u :: InPlay(s, u) ==> Bounded(idleAfter, idleLongBuild, u, builds, updated)
  }

  /** A check writes the last update at most `delay` after its build condition read the clock. */
  ghost predicate Prompt(ls: seq<Label>, delay: int) {
    forall l :: l in ls && IsCheck(l) ==> l.sig.env.write <= l.sig.env.clock("build") + delay
  }

  lemma CheckKeepsBounded(cfg: Config, idleAfter: int, idleLongBuild: int, c: Core, env: Env,
                          builds: Time, updated: Time, delay: int)
    requires Watches(cfg, idleAfter, idleLongBuild)
    requires Bounded(idleAfter, idleLongBuild, c.user, builds, updated)
    requires env.write <= env.clock("build") + delay && builds + delay <= updated
    ensures Bounded(idleAfter, idleLongBuild, CheckIdle(cfg, c, env).core.user, builds, updated)
  {
    CheckReadings(cfg, idleAfter, idleLongBuild, c, env);
  }

  lemma {:induction false} StaysBounded(cfg: Config, idleAfter: int, idleLongBuild: int, s: Sys, ls: seq<Label>,
                                        builds: Time, updated: Time, delay: int)
    requires Watches(cfg, idleAfter, idleLongBuild)
    requires ValidRun(cfg, s, ls) && NoBuildEvent(ls) && NoAvailableReport(ls) && Prompt(ls, delay)
    requires AllBounded(idleAfter, idleLongBuild, s, builds, updated) && builds + delay <= updated
    ensures AllBounded(idleAfter, idleLongBuild, Exec(cfg, s, ls), builds, updated)
    decreases |ls|
  {
    if ls != [] {
      var l, s' := ls[0], Step(cfg, s, ls[0]);
      assert l in ls;
      assert forall x :: x in ls[1..] ==> x in ls;
      forall u | InPlay(s', u) ensures Bounded(idleAfter, idleLongBuild, u, builds, updated) {
        InPlayAfter(cfg, s, l, u);
        if IsCheck(l) && u == CheckIdle(cfg, CheckedAt(s, l), l.sig.env).core.user {
          CheckedInPlay(s, l);
          CheckKeepsBounded(cfg, idleAfter, idleLongBuild, CheckedAt(s, l), l.sig.env, builds, updated, delay);
        } else if Offered(s, l) == Some(u) {
          assert InPlay(s, s.loop.core.user);
          WithoutAvailableReport(s.loop.core.user, l.s);
        }
      }
      StaysBounded(cfg, idleAfter, idleLongBuild, s', ls[1..], builds, updated, delay);
    }
  }

  /** A check of a bounded snapshot that reads the clock past the bounds wants to idle. */
  lemma PastTheBounds(cfg: Config, idleAfter: int, idleLongBuild: int, c: Core, env: Env, builds: Time, updated: Time)
    requires Watches(cfg, idleAfter, idleLongBuild) && idleAfter >= 0 && builds <= updated
    requires Bounded(idleAfter, idleLongBuild, c.user, builds, updated)
    requires env.clock("dc") > updated + idleAfter && env.clock("build") > updated + idleAfter
    ensures !AnyError(CheckVerdicts(cfg, c, env)) && Strongest(CheckVerdicts(cfg, c, env)) == Idle
    ensures !HasOp(CheckIdle(cfg, c, env).calls, UnIdleOp)
    ensures MayIdle(cfg, c, env) <==>
              && EnabledFor(c, env) == Ok(true) && PodOf(c, env) in {Ok(PodStarting), Ok(PodRunning)}
              && c.idleAttempts < cfg.maxRetries
  {
    CheckReadings(cfg, idleAfter, idleLongBuild, c, env);
    CheckGuard(cfg, c, env);
  }

  /**
   The keep-alive horizon. Let `builds` bound the deadlines of every snapshot in play and
   `updated` its last updates (and `builds` plus the delay of a check). In any run without
   build events and without reports of Jenkins being available, every check whose readings
   are later than `updated + idleAfter` decides to idle and asks for no un-idling, although
   earlier checks may have moved the last update and stale snapshots may have zeroed it.
   */
  lemma KeepAliveHorizon(cfg: Config, idleAfter: int, idleLongBuild: int, s: Sys, ls: seq<Label>,
                         builds: Time, updated: Time, delay: int, k: nat)
    requires Watches(cfg, idleAfter, idleLongBuild) && idleAfter >= 0 && delay >= 0
    requires ValidRun(cfg, s, ls) && NoBuildEvent(ls) && NoAvailableReport(ls) && Prompt(ls, delay)
    requires AllBounded(idleAfter, idleLongBuild, s, builds, updated) && builds + delay <= updated
    requires k < |ls| && IsCheck(ls[k])
    requires ls[k].sig.env.clock("dc") > updated + idleAfter && ls[k].sig.env.clock("build") > updated + idleAfter
    ensures var c, env := CheckedAt(At(cfg, s, ls, k), ls[k]), ls[k].sig.env;
            && !AnyError(CheckVerdicts(cfg, c, env))
            && Strongest(CheckVerdicts(cfg, c, env)) == Idle
            && !HasOp(StepCalls(cfg, At(cfg, s, ls, k), ls[k]), UnIdleOp)
            && (MayIdle(cfg, c, env) <==>
                  && EnabledFor(c, env) == Ok(true) && PodOf(c, env) in {Ok(PodStarting), Ok(PodRunning)}
                  && c.idleAttempts < cfg.maxRetries)
  {
    var before := At(cfg, s, ls, k);
    RunSplit(cfg, s, ls, k);
    assert forall x :: x in ls[..k] ==> x in ls;
    StaysBounded(cfg, idleAfter, idleLongBuild, s, ls[..k], builds, updated, delay);
    CheckedInPlay(before, ls[k]);
    PastTheBounds(cfg, idleAfter, idleLongBuild, CheckedAt(before, ls[k]), ls[k].sig.env, builds, updated);
  }

  // ---------- the protection window ----------

  /** Every snapshot in play was last updated at or after `t`. */
  ghost predicate UpdatedSince(s: Sys, t: Time) {
    forall u :: InPlay(s, u) ==> u.jenkinsLastUpdate >= t
  }

  lemma StaysUpdated(cfg: Config, s: Sys, l: Label, t: Time)
    requires t > ZERO_TIME && UpdatedSince(s, t)
    requires Enabled(s, l) && (l.DcEvent? ==> !ReportsAvailable(l.s))
    ensures UpdatedSince(Step(cfg, s, l), t)
  {
    forall u | InPlay(Step(cfg, s, l), u) ensures u.jenkinsLastUpdate >= t {
      InPlayAfter(cfg, s, l, u);
      assert InPlay(s, s.loop.core.user);
      if IsCheck(l) {
        CheckedInPlay(s, l);
        CheckEditsLittle(cfg, CheckedAt(s, l), l.sig.env);
      } else if l.DcEvent? && Offered(s, l) == Some(u) {
        WithoutAvailableReport(s.loop.core.user, l.s);
      }
    }
  }

  /**
   For scaling down: the dc condition reads the clock no later than `t`. For scaling up: both
   conditions read it later than `t`.
   */
  predicate InWindow(op: ScaleOp, env: Env, t: Time) {
    if op == IdleOp then env.clock("dc") <= t else env.clock("dc") > t && env.clock("build") > t
  }

  predicate ScalesNow(cfg: Config, s: Sys, l: Label, op: ScaleOp, t: Time) {
    && Enabled(s, l) && IsCheck(l)
    && InWindow(op, l.sig.env, t)
    && HasOp(StepCalls(cfg, s, l), op)
  }

  /** Following the labels from `s` comes upon a check in the window that asks for the operation. */
  predicate Scales(cfg: Config, s: Sys, ls: seq<Label>, op: ScaleOp, t: Time)
    decreases |ls|
  {
    && ls != []
    && Enabled(s, ls[0])
    && (ScalesNow(cfg, s, ls[0], op, t) || Scales(cfg, Step(cfg, s, ls[0]), ls[1..], op, t))
  }

  lemma {:induction false} ScalesAtTheEnd(cfg: Config, s: Sys, ls: seq<Label>, l: Label, op: ScaleOp, t: Time)
    requires ValidRun(cfg, s, ls) && ScalesNow(cfg, Exec(cfg, s, ls), l, op, t)
    ensures Scales(cfg, s, ls + [l], op, t)
    decreases |ls|
  {
    if ls == [] {
      assert ls + [l] == [l];
    } else {
      assert (ls + [l])[1..] == ls[1..] + [l];
      ScalesAtTheEnd(cfg, Step(cfg, s, ls[0]), ls[1..], l, op, t);
    }
  }

  /**
   No run without reports of Jenkins being available scales down at a dc reading up to
   `until`, whatever builds arrive and however the steps interleave.
   */
  ghost predicate Protected(cfg: Config, s: Sys, until: Time) {
    forall ls: seq<Label> :: NoAvailableReport(ls) ==> !Scales(cfg, s, ls, IdleOp, until)
  }

  lemma UpdatedDoesNotIdle(cfg: Config, idleAfter: int, idleLongBuild: int, s: Sys, t: Time, l: Label)
    requires Watches(cfg, idleAfter, idleLongBuild)
    requires t > ZERO_TIME && UpdatedSince(s, t)
    ensures !ScalesNow(cfg, s, l, IdleOp, t + idleAfter)
  {
    if Enabled(s, l) && IsCheck(l) {
      CheckedInPlay(s, l);
      CheckReadings(cfg, idleAfter, idleLongBuild, CheckedAt(s, l), l.sig.env);
      CheckGuard(cfg, CheckedAt(s, l), l.sig.env);
    }
  }

  lemma {:induction false} UpdatedNeverIdles(cfg: Config, idleAfter: int, idleLongBuild: int, s: Sys, t: Time,
                                             until: Time, ls: seq<Label>)
    requires Watches(cfg, idleAfter, idleLongBuild)
    requires t > ZERO_TIME && UpdatedSince(s, t) && NoAvailableReport(ls) && until == t + idleAfter
    ensures !Scales(cfg, s, ls, IdleOp, until)
    decreases |ls|
  {
    if ls != [] && Enabled(s, ls[0]) {
      assert ls[0] in ls;
      assert forall x :: x in ls[1..] ==> x in ls;
      UpdatedDoesNotIdle(cfg, idleAfter, idleLongBuild, s, t, ls[0]);
      StaysUpdated(cfg, s, ls[0], t);
      UpdatedNeverIdles(cfg, idleAfter, idleLongBuild, Step(cfg, s, ls[0]), t, until, ls[1..]);
    }
  }

  lemma ProtectedUntil(cfg: Config, idleAfter: int, idleLongBuild: int, s: Sys, t: Time, until: Time)
    requires Watches(cfg, idleAfter, idleLongBuild)
    requires t > ZERO_TIME && UpdatedSince(s, t) && until == t + idleAfter
    ensures Protected(cfg, s, until)
  {
    forall ls: seq<Label> | NoAvailableReport(ls) ensures !Scales(cfg, s, ls, IdleOp, until) {
      UpdatedNeverIdles(cfg, idleAfter, idleLongBuild, s, t, until, ls);
    }
  }

  lemma UpdatedIsProtected(cfg: Config, idleAfter: int, idleLongBuild: int, s: Sys, t: Time)
    requires Watches(cfg, idleAfter, idleLongBuild)
    requires t > ZERO_TIME && UpdatedSince(s, t)
    ensures Protected(cfg, s, t + idleAfter)
  {
    ProtectedUntil(cfg, idleAfter, idleLongBuild, s, t, t + idleAfter);
  }

  /** A check whose scale-ups all succeed dates a zero last update. */
  lemma ScaleUpDates(cfg: Config, c: Core, env: Env)
    requires c.user.jenkinsLastUpdate == ZERO_TIME
    requires HasOp(CheckIdle(cfg, c, env).calls, UnIdleOp)
    requires forall call :: call in CheckIdle(cfg, c, env).calls ==> call.ok
    ensures CheckIdle(cfg, c, env).core.user.jenkinsLastUpdate == env.write
  {
    var calls := CheckIdle(cfg, c, env).calls;
    CheckGuard(cfg, c, env);
    var call :| call in calls && call.op == UnIdleOp;
    var i :| 0 <= i < |calls| && calls[i] == call;
    assert MayUnIdle(cfg, c, env);
    DatedExactly(cfg, c, env);
  }

  lemma AloneIsUpdated(s: Sys, t: Time)
    requires s.loop.queue == [] && s.pending == [] && s.loop.core.user.jenkinsLastUpdate >= t
    ensures UpdatedSince(s, t)
  {
  }

  lemma CheckStep(cfg: Config, s: Sys, l: Label)
    requires Enabled(s, l) && IsCheck(l)
    ensures StepCalls(cfg, s, l) == CheckIdle(cfg, CheckedAt(s, l), l.sig.env).calls
    ensures Step(cfg, s, l).loop.core == CheckIdle(cfg, CheckedAt(s, l), l.sig.env).core
  {
  }

  /**
   The protection window: after a check that scaled Jenkins up from a zero last update with
   no other snapshot under way, Jenkins is not scaled down until `idleAfter` past the time
   the check wrote, whatever build events arrive and however they interleave.
   */
  lemma ProtectionWindow(cfg: Config, idleAfter: int, idleLongBuild: int, s: Sys, l: Label)
    requires Watches(cfg, idleAfter, idleLongBuild)
    requires Enabled(s, l) && IsCheck(l) && l.sig.env.write > ZERO_TIME
    requires CheckedAt(s, l).user.jenkinsLastUpdate == ZERO_TIME
    requires HasOp(StepCalls(cfg, s, l), UnIdleOp) && forall c :: c in StepCalls(cfg, s, l) ==> c.ok
    requires Step(cfg, s, l).loop.queue == [] && Step(cfg, s, l).pending == []
    ensures Step(cfg, s, l).loop.core.user.jenkinsLastUpdate == l.sig.env.write
    ensures Protected(cfg, Step(cfg, s, l), l.sig.env.write + idleAfter)
  {
    var c, env, s' := CheckedAt(s, l), l.sig.env, Step(cfg, s, l);
    CheckStep(cfg, s, l);
    ScaleUpDates(cfg, c, env);
    AloneIsUpdated(s', env.write);
    UpdatedIsProtected(cfg, idleAfter, idleLongBuild, s', env.write);
  }
}
