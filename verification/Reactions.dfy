/** What events lead to: from a build or deployment config event to the requests of the check it causes. */
module Reactions {
  import opened Wrappers
  import opened Model
  import opened ConditionEval
  import opened BuildTracking
  import opened IdlerSpec
  import opened IdlerMachine
  import opened Effects
  import opened Lineage
  import opened Deadlines

  /** An event is handled, its snapshot sent and received, and the check made, with nothing in between. */
  function Reaction(event: Label, env: Env, at: Time): seq<Label> {
    [event, Deliver(0), Select(Received(env, at))]
  }

  lemma HandledAtOnce(cfg: Config, s: Sys, event: Label, v: User, env: Env, at: Time)
    requires Quiet(s) && !s.loop.stopped && (event.BuildEvent? || event.DcEvent?)
    requires Offered(s, event) == Some(v)
    ensures var ls := Reaction(event, env, at);
            var o := CheckIdle(cfg, s.loop.core.(user := v), env);
            && ValidRun(cfg, s, ls)
            && Calls(cfg, s, ls) == o.calls
            && Quiet(Exec(cfg, s, ls)) && Exec(cfg, s, ls).loop.core == o.core
  {
    var ls := Reaction(event, env, at);
    var sent := Step(cfg, s, event);
    var queued := Step(cfg, sent, Deliver(0));
    assert sent.pending == [v] && queued.pending == [] && queued.loop.queue == [v];
    assert ls[1..] == [Deliver(0), ls[2]] && ls[1..][1..] == [ls[2]] && ls[1..][1..][1..] == [];
    assert ValidRun(cfg, queued, [ls[2]]);
    var calls := StepCalls(cfg, queued, ls[2]);
    assert Calls(cfg, queued, [ls[2]]) == calls + [] == calls;
    assert Calls(cfg, sent, ls[1..]) == [] + calls == calls;
    assert Calls(cfg, s, ls) == [] + calls == calls;
    OneLabel(cfg, queued, ls[2]);
    assert Exec(cfg, s, ls) == Exec(cfg, queued, [ls[2]]);
  }

  // ---------- build events ----------

  /**
   A named build the snapshot does not know yet in this phase. If active, it is not the build
   last finished; if finished, no other build is active.
   */
  predicate NewsOf(u: User, b: Build) {
    && b.name != ""
    && if b.phase in {"Pending", "New", "Running"} then
         (u.activeBuild.name != b.name || u.activeBuild.phase != b.phase) && b.name != u.doneBuild.name
       else
         (u.doneBuild.name != b.name || u.doneBuild.phase != b.phase) && u.activeBuild.name in {"", b.name}
  }

  /** At `now` the build of an event speaks for keeping Jenkins up. */
  predicate BuildWants(idleAfter: int, idleLongBuild: int, b: Build, now: Time) {
    if b.phase in {"Pending", "New", "Running"} then
      now <= b.start + idleLongBuild && (b.phase == "New" ==> b.completion - b.start <= 2_000_000_000)
    else
      b.phase != "Cancelled" && now <= b.completion + idleAfter
  }

  /**
   After the event Jenkins is wanted exactly if the build of the event, at its own times, or
   the last update speaks for it.
   */
  lemma NewsDecides(idleAfter: int, idleLongBuild: int, u: User, b: Build, dcNow: Time, buildNow: Time)
    requires NewsOf(u, b)
    ensures TrackBuild(u, b) == Some(TrackUser(u, b))
    ensures WatchAction(idleAfter, idleLongBuild, TrackUser(u, b), dcNow, buildNow)
            == if BuildWants(idleAfter, idleLongBuild, b, buildNow)
                  || (u.jenkinsLastUpdate != 0 && dcNow <= u.jenkinsLastUpdate + idleAfter)
               then UnIdle else Idle
  {
    BuildSent(u, b);
    DecisionTable(idleAfter, idleLongBuild, TrackUser(u, b), dcNow);
    DecisionTable(idleAfter, idleLongBuild, TrackUser(u, b), buildNow);
  }

  /**
   From a build event to the requests: a quiet idler that hears of a new build scales Jenkins
   up exactly if the build or the last update wants it, Jenkins is idled, the cluster has room
   and attempts remain; it scales Jenkins down exactly if neither wants it, Jenkins is up and
   attempts remain; and else it makes no request.
   */
  lemma BuildEventReaction(cfg: Config, idleAfter: int, idleLongBuild: int, s: Sys, b: Build, env: Env, at: Time)
    requires Watches(cfg, idleAfter, idleLongBuild)
    requires Quiet(s) && !s.loop.stopped && NewsOf(s.loop.core.user, b)
    ensures var c, ls := s.loop.core, Reaction(BuildEvent(b), env, at);
            var ns := c.user.name + "-jenkins";
            var on := env.enabled(c.user.id) == Ok(true);
            var wanted := || BuildWants(idleAfter, idleLongBuild, b, env.clock("build"))
                          || (c.user.jenkinsLastUpdate != 0
                              && env.clock("dc") <= c.user.jenkinsLastUpdate + idleAfter);
            var up := && on && wanted && env.state(ns) == Ok(PodIdled) && env.capacity(ns) == Ok(false)
                      && c.unIdleAttempts < cfg.maxRetries;
            var down := && on && !wanted && env.state(ns) in {Ok(PodStarting), Ok(PodRunning)}
                        && c.idleAttempts < cfg.maxRetries;
            && ValidRun(cfg, s, ls)
            && (up ==> OneLoop(Calls(cfg, s, ls), UnIdleOp, ns, cfg.services, env))
            && (down ==> OneLoop(Calls(cfg, s, ls), IdleOp, ns, cfg.services, env))
            && (!up && !down ==> Calls(cfg, s, ls) == [])
  {
    var v := TrackUser(s.loop.core.user, b);
    var c := s.loop.core.(user := v);
    BuildSent(s.loop.core.user, b);
    NewsDecides(idleAfter, idleLongBuild, s.loop.core.user, b, env.clock("dc"), env.clock("build"));
    HandledAtOnce(cfg, s, BuildEvent(b), v, env, at);
    CheckReadings(cfg, idleAfter, idleLongBuild, c, env);
    CheckGuard(cfg, c, env);
  }

  // ---------- deployment config events ----------

  /** A check keeps a last update there is, and does not scale down within `idleAfter` of it. */
  lemma DatedCheck(cfg: Config, idleAfter: int, idleLongBuild: int, c: Core, env: Env)
    requires Watches(cfg, idleAfter, idleLongBuild) && c.user.jenkinsLastUpdate != 0
    ensures CheckIdle(cfg, c, env).core.user.jenkinsLastUpdate == c.user.jenkinsLastUpdate
    ensures env.clock("dc") <= c.user.jenkinsLastUpdate + idleAfter ==> !HasOp(CheckIdle(cfg, c, env).calls, IdleOp)
  {
    CheckEditsLittle(cfg, c, env);
    CheckReadings(cfg, idleAfter, idleLongBuild, c, env);
    CheckGuard(cfg, c, env);
  }

  /** A report of Jenkins being available, once received, leaves nothing older in play. */
  lemma ReportArrives(cfg: Config, idleAfter: int, idleLongBuild: int, s: Sys, status: DCStatus, i: int,
                      env: Env, at: Time)
    requires Watches(cfg, idleAfter, idleLongBuild)
    requires Quiet(s) && !s.loop.stopped
    requires TellsAvailability(status, i) && status.conditions[i].status in YES
    requires status.conditions[i].lastUpdateTime > 0
    ensures var ls, t := Reaction(DcEvent(status), env, at), status.conditions[i].lastUpdateTime;
            && ValidRun(cfg, s, ls)
            && Exec(cfg, s, ls).loop.core.user.jenkinsLastUpdate == t
            && UpdatedSince(Exec(cfg, s, ls), t)
            && (env.clock("dc") <= t + idleAfter ==> !HasOp(Calls(cfg, s, ls), IdleOp))
  {
    var ls, t := Reaction(DcEvent(status), env, at), status.conditions[i].lastUpdateTime;
    var v := s.loop.core.user.(jenkinsLastUpdate := t);
    AvailabilitySent(s.loop.core.user, status);
    HandledAtOnce(cfg, s, DcEvent(status), v, env, at);
    DatedCheck(cfg, idleAfter, idleLongBuild, s.loop.core.(user := v), env);
    AloneIsUpdated(Exec(cfg, s, ls), t);
  }

  /**
   From a report of Jenkins being available to its protection: once a quiet idler has handled
   it, the last update is the time of the report, the check makes no scale-down while that is
   not longer ago than `idleAfter`, and from then on, up to that moment, no run without
   further reports scales Jenkins down, whatever builds arrive.
   */
  lemma ReportProtects(cfg: Config, idleAfter: int, idleLongBuild: int, s: Sys, status: DCStatus, i: int,
                       env: Env, at: Time, until: Time)
    requires Watches(cfg, idleAfter, idleLongBuild)
    requires Quiet(s) && !s.loop.stopped
    requires TellsAvailability(status, i) && status.conditions[i].status in YES
    requires status.conditions[i].lastUpdateTime > 0 && until == status.conditions[i].lastUpdateTime + idleAfter
    ensures var ls := Reaction(DcEvent(status), env, at);
            && ValidRun(cfg, s, ls)
            && Exec(cfg, s, ls).loop.core.user.jenkinsLastUpdate == status.conditions[i].lastUpdateTime
            && (env.clock("dc") <= until ==> !HasOp(Calls(cfg, s, ls), IdleOp))
            && Protected(cfg, Exec(cfg, s, ls), until)
  {
    ReportArrives(cfg, idleAfter, idleLongBuild, s, status, i, env, at);
    var after := Exec(cfg, s, Reaction(DcEvent(status), env, at));
    ProtectedUntil(cfg, idleAfter, idleLongBuild, after, status.conditions[i].lastUpdateTime, until);
  }

  // ---------- the first scale-up of a fresh idler ----------

  /** A check that runs the un-idle loop, and every call of it succeeds. */
  predicate ScalesUp(cfg: Config, s: Sys, l: Label)
    requires Enabled(s, l)
  {
    IsCheck(l) && MayUnIdle(cfg, CheckedAt(s, l), l.sig.env) && forall c :: c in StepCalls(cfg, s, l) ==> c.ok
  }

  ghost predicate AllUndated(s: Sys) {
    forall u :: InPlay(s, u) ==> u.jenkinsLastUpdate == 0
  }

  lemma UndatedStep(cfg: Config, s: Sys, l: Label)
    requires Enabled(s, l) && AllUndated(s)
    requires !ScalesUp(cfg, s, l) && (l.DcEvent? ==> !ReportsAvailable(l.s))
    ensures AllUndated(Step(cfg, s, l))
  {
    forall u | InPlay(Step(cfg, s, l), u) ensures u.jenkinsLastUpdate == 0 {
      InPlayAfter(cfg, s, l, u);
      assert InPlay(s, s.loop.core.user);
      if IsCheck(l) {
        CheckedInPlay(s, l);
        DatedExactly(cfg, CheckedAt(s, l), l.sig.env);
      } else if l.DcEvent? && Offered(s, l) == Some(u) {
        WithoutAvailableReport(s.loop.core.user, l.s);
      }
    }
  }

  /** No label of the run scales up with success. */
  predicate NoneScalesUp(cfg: Config, s: Sys, ls: seq<Label>)
    requires ValidRun(cfg, s, ls)
    decreases |ls|
  {
    ls == [] || (!ScalesUp(cfg, s, ls[0]) && NoneScalesUp(cfg, Step(cfg, s, ls[0]), ls[1..]))
  }

  lemma {:induction false} StaysUndated(cfg: Config, s: Sys, ls: seq<Label>)
    requires ValidRun(cfg, s, ls) && NoneScalesUp(cfg, s, ls) && NoAvailableReport(ls) && AllUndated(s)
    ensures AllUndated(Exec(cfg, s, ls))
    decreases |ls|
  {
    if ls != [] {
      assert ls[0] in ls;
      assert forall l :: l in ls[1..] ==> l in ls;
      UndatedStep(cfg, s, ls[0]);
      StaysUndated(cfg, Step(cfg, s, ls[0]), ls[1..]);
    }
  }

  /**
   In any run of a fresh idler without reports of Jenkins being available, no snapshot has a
   last update until the first successful scale-up, and that one writes it.
   */
  lemma FirstScaleUpDates(cfg: Config, id: string, ns: string, interval: int, start: Time, ls: seq<Label>, l: Label)
    requires ValidRun(cfg, NewSys(NewUser(id, ns), interval, start), ls) && NoAvailableReport(ls)
    requires NoneScalesUp(cfg, NewSys(NewUser(id, ns), interval, start), ls)
    requires Enabled(Exec(cfg, NewSys(NewUser(id, ns), interval, start), ls), l)
    requires ScalesUp(cfg, Exec(cfg, NewSys(NewUser(id, ns), interval, start), ls), l)
    ensures AllUndated(Exec(cfg, NewSys(NewUser(id, ns), interval, start), ls))
    ensures var s := Exec(cfg, NewSys(NewUser(id, ns), interval, start), ls);
            Step(cfg, s, l).loop.core.user.jenkinsLastUpdate == l.sig.env.write
  {
    var born := NewSys(NewUser(id, ns), interval, start);
    StaysUndated(cfg, born, ls);
    var s := Exec(cfg, born, ls);
    CheckedInPlay(s, l);
    CheckStep(cfg, s, l);
    DatedExactly(cfg, CheckedAt(s, l), l.sig.env);
  }
}
