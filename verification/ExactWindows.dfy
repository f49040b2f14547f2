/**
 The exact extent of the two windows of `Deadlines`, seen from a present moment `now`:
 beyond them some run whose clock goes on from `now` and never back does what the window
 rules out.
 */
module ExactWindows {
  import opened Wrappers
  import opened Model
  import opened ConditionEval
  import opened BuildTracking
  import opened IdlerSpec
  import opened IdlerMachine
  import opened RunClock
  import opened Effects
  import opened Scenarios
  import opened Deadlines

  // ---------- the protection window, exactly ----------

  /** `Protected`, for the runs that can still happen at `now`. */
  ghost predicate ProtectedFrom(cfg: Config, s: Sys, now: Time, until: Time) {
    forall ls: seq<Label> :: NoAvailableReport(ls) && Timely(ls, now) ==> !Scales(cfg, s, ls, IdleOp, until)
  }

  /** Once the clock is past the window no check falls into it. */
  lemma {:induction false} WindowOver(cfg: Config, s: Sys, ls: seq<Label>, now: Time, until: Time)
    requires Timely(ls, now) && now > until
    ensures !Scales(cfg, s, ls, IdleOp, until)
    decreases |ls|
  {
    if ls != [] && Enabled(s, ls[0]) {
      if IsCheck(ls[0]) {
        assert ls[0].sig.env.clock("dc") <= ls[0].sig.env.write;
      }
      WindowOver(cfg, Step(cfg, s, ls[0]), ls[1..], Later(ls[0], now), until);
    }
  }

  /** A check that finds Jenkins running and everything in order. */
  function RunningEnv(now: Time): Env {
    QuietEnv(now).(enabled := (id: string) => Ok(true), state := (ns: string) => Ok(PodRunning))
  }

  function Waning(now: Time): Label {
    Select(Received(RunningEnv(now), now))
  }

  /** An event that leaves the user with nothing but a cancelled build. */
  function Cancellation(u: User): Build {
    var name := if u.activeBuild.name != "" then u.activeBuild.name else u.doneBuild.name + "x";
    Build(name, "", BUILD_TYPE, "Cancelled", ZERO_TIME, ZERO_TIME)
  }

  lemma CancellationIdles(idleAfter: int, idleLongBuild: int, u: User, t: Time)
    requires u.jenkinsLastUpdate < t && t > ZERO_TIME
    ensures var w := TrackUser(u, Cancellation(u));
            && Sends(BuildsOf(u), Cancellation(u))
            && WatchAction(idleAfter, idleLongBuild, w, t + idleAfter, t + idleAfter) == Idle
  {
    assert !IsActive(Cancellation(u));
  }

  /** A queued snapshot that both conditions let go is scaled down when received. */
  lemma LastCheckIdles(cfg: Config, idleAfter: int, idleLongBuild: int, s: Sys, w: User, t: Time)
    requires Watches(cfg, idleAfter, idleLongBuild) && cfg.services != []
    requires !s.loop.stopped && s.loop.queue == [w] && s.loop.core.idleAttempts < cfg.maxRetries
    requires WatchAction(idleAfter, idleLongBuild, w, t, t) == Idle
    ensures ScalesNow(cfg, s, Waning(t), IdleOp, t)
  {
    var l := Waning(t);
    var c := CheckedAt(s, l);
    CheckReadings(cfg, idleAfter, idleLongBuild, c, RunningEnv(t));
    CheckGuard(cfg, c, RunningEnv(t));
    assert MayIdle(cfg, c, RunningEnv(t));
    var calls := StepCalls(cfg, s, l);
    assert calls[0] in calls && calls[0].op == IdleOp;
  }

  lemma StaysUnreported(ls: seq<Label>, more: seq<Label>, b: Build, now: Time)
    requires AllHarmless(ls, now)
    requires forall l :: l in more ==> IdleAt(l, now) && (l == BuildEvent(b) || (!l.BuildEvent? && !l.DcEvent?))
    ensures NoAvailableReport(ls + more) && Timely(ls + more, now) && Present(ls + more, now) == now
  {
    AtOnce(ls + more, now);
  }

  lemma EndsTheProtection(cfg: Config, s: Sys, ls: seq<Label>, last: Label, now: Time, until: Time)
    requires ValidRun(cfg, s, ls) && NoAvailableReport(ls + [last]) && Timely(ls + [last], now)
    requires ScalesNow(cfg, Exec(cfg, s, ls), last, IdleOp, until)
    ensures !ProtectedFrom(cfg, s, now, until)
  {
    ScalesAtTheEnd(cfg, s, ls, last, IdleOp, until);
  }

  /** A held snapshot older than `t` can be followed by one alone in the channel that wants Jenkins down. */
  lemma CancelAlone(cfg: Config, idleAfter: int, idleLongBuild: int, s: Sys, ls: seq<Label>,
                    now: Time, t: Time, until: Time)
    returns (run: seq<Label>, w: User)
    requires ValidRun(cfg, s, ls) && AllHarmless(ls, now) && !Exec(cfg, s, ls).loop.stopped
    requires Exec(cfg, s, ls).loop.core.user.jenkinsLastUpdate < t && t > ZERO_TIME
    requires until == t + idleAfter && now <= until
    ensures ValidRun(cfg, s, run)
    ensures NoAvailableReport(run) && Timely(run, now) && Present(run, now) == now
    ensures var after := Exec(cfg, s, run).loop;
            !after.stopped && after.core.idleAttempts == 0 && after.queue == [w]
    ensures WatchAction(idleAfter, idleLongBuild, w, until, until) == Idle
  {
    var v := Exec(cfg, s, ls).loop.core.user;
    var b := Cancellation(v);
    w := TrackUser(v, b);
    CancellationIdles(idleAfter, idleLongBuild, v, t);
    var more := QueueAlone(cfg, s, ls, BuildEvent(b), now);
    run := ls + more;
    StaysUnreported(ls, more, b, now);
  }

  /** With such a snapshot alone in the channel the protection is over. */
  lemma QueuedEndsIt(cfg: Config, idleAfter: int, idleLongBuild: int, s: Sys, run: seq<Label>, w: User,
                     now: Time, until: Time)
    requires Watches(cfg, idleAfter, idleLongBuild) && cfg.maxRetries > 0 && cfg.services != []
    requires ValidRun(cfg, s, run)
    requires var after := Exec(cfg, s, run).loop;
             !after.stopped && after.core.idleAttempts == 0 && after.queue == [w]
    requires WatchAction(idleAfter, idleLongBuild, w, until, until) == Idle
    requires NoAvailableReport(run) && Timely(run, now) && Present(run, now) <= until
    ensures !ProtectedFrom(cfg, s, now, until)
  {
    TimelyExtend(run, Waning(until), now);
    LastCheckIdles(cfg, idleAfter, idleLongBuild, Exec(cfg, s, run), w, until);
    EndsTheProtection(cfg, s, run, Waning(until), now, until);
  }

  /** A held snapshot older than `t` lets a run scale down at `t + idleAfter`, if that is yet to come. */
  lemma StaleIdles(cfg: Config, idleAfter: int, idleLongBuild: int, s: Sys, ls: seq<Label>, now: Time, t: Time)
    requires Watches(cfg, idleAfter, idleLongBuild) && cfg.maxRetries > 0 && cfg.services != []
    requires ValidRun(cfg, s, ls) && AllHarmless(ls, now) && !Exec(cfg, s, ls).loop.stopped
    requires Exec(cfg, s, ls).loop.core.user.jenkinsLastUpdate < t && t > ZERO_TIME && now <= t + idleAfter
    ensures !ProtectedFrom(cfg, s, now, t + idleAfter)
  {
    var run, w := CancelAlone(cfg, idleAfter, idleLongBuild, s, ls, now, t, t + idleAfter);
    QueuedEndsIt(cfg, idleAfter, idleLongBuild, s, run, w, now, t + idleAfter);
  }

  /**
   The exact extent of the protection: at `now` a live idler is protected until
   `t + idleAfter` if and only if that moment has passed, or every snapshot in play, held,
   queued or still being sent, was last updated at or after `t`.
   */
  lemma ProtectedExactly(cfg: Config, idleAfter: int, idleLongBuild: int, s: Sys, now: Time, t: Time)
    requires Watches(cfg, idleAfter, idleLongBuild) && cfg.maxRetries > 0 && cfg.services != []
    requires !s.loop.stopped && t > ZERO_TIME
    ensures ProtectedFrom(cfg, s, now, t + idleAfter) <==> now > t + idleAfter || UpdatedSince(s, t)
  {
    var until := t + idleAfter;
    if now > until {
      forall ls: seq<Label> | NoAvailableReport(ls) && Timely(ls, now) ensures !Scales(cfg, s, ls, IdleOp, until) {
        WindowOver(cfg, s, ls, now, until);
      }
    } else if UpdatedSince(s, t) {
      UpdatedIsProtected(cfg, idleAfter, idleLongBuild, s, t);
    } else {
      var v :| InPlay(s, v) && v.jenkinsLastUpdate < t;
      var ls := BringToHand(cfg, s, v, now);
      StaleIdles(cfg, idleAfter, idleLongBuild, s, ls, now, t);
    }
  }

  // ---------- the horizon, exactly ----------

  /**
   At `now` the snapshot can no longer wake Jenkins after `t`: its deadline is over by then,
   or already, and a check can no longer date it, or not late enough, or to no avail. A check
   writes at most `delay` after it read the clock.
   */
  predicate Lapsed(idleAfter: int, idleLongBuild: int, delay: int, u: User, now: Time, t: Time) {
    var until := KeepAliveUntil(idleAfter, idleLongBuild, u);
    until.Some? ==>
      && (until.value <= t || until.value < now)
      && (u.jenkinsLastUpdate == ZERO_TIME ==>
            until.value < now || until.value + delay + idleAfter <= t || idleAfter < 0)
  }

  ghost predicate AllLapsed(idleAfter: int, idleLongBuild: int, delay: int, s: Sys, now: Time, t: Time) {
    forall u :: InPlay(s, u) ==> Lapsed(idleAfter, idleLongBuild, delay, u, now, t)
  }

  /** No build event, no report of Jenkins being available, no check slower than `delay`. */
  ghost predicate Uneventful(ls: seq<Label>, delay: int) {
    NoBuildEvent(ls) && NoAvailableReport(ls) && Prompt(ls, delay)
  }

  /** No uneventful run that can still happen at `now` scales up with both readings later than `t`. */
  ghost predicate AsleepFrom(cfg: Config, s: Sys, delay: int, now: Time, t: Time) {
    forall ls: seq<Label> :: Uneventful(ls, delay) && Timely(ls, now) ==> !Scales(cfg, s, ls, UnIdleOp, t)
  }

  lemma CheckKeepsLapsed(cfg: Config, idleAfter: int, idleLongBuild: int, delay: int, c: Core, env: Env,
                         now: Time, t: Time)
    requires Watches(cfg, idleAfter, idleLongBuild)
    requires Lapsed(idleAfter, idleLongBuild, delay, c.user, now, t)
    requires now <= env.clock("build") <= env.write <= env.clock("build") + delay
    ensures Lapsed(idleAfter, idleLongBuild, delay, CheckIdle(cfg, c, env).core.user, env.write, t)
  {
    CheckReadings(cfg, idleAfter, idleLongBuild, c, env);
  }

  lemma StaysLapsed(cfg: Config, idleAfter: int, idleLongBuild: int, delay: int, s: Sys, l: Label,
                    now: Time, t: Time)
    requires Watches(cfg, idleAfter, idleLongBuild)
    requires Enabled(s, l) && Uneventful([l], delay) && (IsCheck(l) ==> OnTime(l.sig, now))
    requires AllLapsed(idleAfter, idleLongBuild, delay, s, now, t)
    ensures now <= Later(l, now)
    ensures AllLapsed(idleAfter, idleLongBuild, delay, Step(cfg, s, l), Later(l, now), t)
  {
    assert l in [l];
    if IsCheck(l) {
      assert now <= l.sig.env.clock("build") <= l.sig.env.write;
    }
    forall u | InPlay(Step(cfg, s, l), u) ensures Lapsed(idleAfter, idleLongBuild, delay, u, Later(l, now), t) {
      InPlayAfter(cfg, s, l, u);
      if IsCheck(l) && u == CheckIdle(cfg, CheckedAt(s, l), l.sig.env).core.user {
        CheckedInPlay(s, l);
        CheckKeepsLapsed(cfg, idleAfter, idleLongBuild, delay, CheckedAt(s, l), l.sig.env, now, t);
      } else if Offered(s, l) == Some(u) {
        assert InPlay(s, s.loop.core.user);
        WithoutAvailableReport(s.loop.core.user, l.s);
      }
    }
  }

  lemma LapsedDoesNotWake(cfg: Config, idleAfter: int, idleLongBuild: int, delay: int, s: Sys, l: Label,
                          now: Time, t: Time)
    requires Watches(cfg, idleAfter, idleLongBuild)
    requires AllLapsed(idleAfter, idleLongBuild, delay, s, now, t) && (IsCheck(l) ==> OnTime(l.sig, now))
    ensures !ScalesNow(cfg, s, l, UnIdleOp, t)
  {
    if Enabled(s, l) && IsCheck(l) {
      CheckedInPlay(s, l);
      CheckReadings(cfg, idleAfter, idleLongBuild, CheckedAt(s, l), l.sig.env);
      CheckGuard(cfg, CheckedAt(s, l), l.sig.env);
    }
  }

  lemma {:induction false} LapsedNeverWakes(cfg: Config, idleAfter: int, idleLongBuild: int, delay: int,
                                            s: Sys, ls: seq<Label>, now: Time, t: Time)
    requires Watches(cfg, idleAfter, idleLongBuild)
    requires AllLapsed(idleAfter, idleLongBuild, delay, s, now, t) && Uneventful(ls, delay) && Timely(ls, now)
    ensures !Scales(cfg, s, ls, UnIdleOp, t)
    decreases |ls|
  {
    if ls != [] && Enabled(s, ls[0]) {
      assert ls[0] in ls;
      assert forall x :: x in ls[1..] ==> x in ls;
      LapsedDoesNotWake(cfg, idleAfter, idleLongBuild, delay, s, ls[0], now, t);
      StaysLapsed(cfg, idleAfter, idleLongBuild, delay, s, ls[0], now, t);
      LapsedNeverWakes(cfg, idleAfter, idleLongBuild, delay, Step(cfg, s, ls[0]), ls[1..], Later(ls[0], now), t);
    }
  }

  /** A check that finds Jenkins idled, room on the cluster, and takes `delay` to write. */
  function IdledEnv(reading: Time, delay: int): Env {
    QuietEnv(reading).(enabled := (id: string) => Ok(true), write := reading + delay, stamp := reading + delay)
  }

  function Waking(reading: Time, delay: int): Label {
    Select(Received(IdledEnv(reading, delay), reading + delay))
  }

  lemma StaysUneventful(ls: seq<Label>, more: seq<Label>, reading: Time, delay: int, start: Time, now: Time)
    requires Uneventful(ls, delay) && delay >= 0 && now <= reading
    requires Timely(ls, start) && Present(ls, start) == now
    requires forall l :: l in more ==> IdleAt(l, now) && (l == UNAVAILABLE || (!l.BuildEvent? && !l.DcEvent?))
    ensures var all := ls + more + [Waking(reading, delay)];
            Uneventful(all, delay) && Timely(all, start) && Present(all, start) == reading + delay
  {
    AtOnce(more, now);
    TimelyJoin(ls, more, start);
    TimelyExtend(ls + more, Waking(reading, delay), start);
    assert !ReportsAvailable(UNAVAILABLE.s) by {
      assert FirstOfKind(UNAVAILABLE.s.conditions, AVAILABLE_CONDITION) == Some(UNAVAILABLE.s.conditions[0]);
    }
  }

  /** A queued snapshot that still wants Jenkins up scales it up when received, and is dated. */
  lemma QueuedWakes(cfg: Config, idleAfter: int, idleLongBuild: int, s: Sys, v: User,
                    reading: Time, delay: int, t: Time)
    requires Watches(cfg, idleAfter, idleLongBuild) && cfg.services != []
    requires !s.loop.stopped && s.loop.queue == [v] && s.loop.core.unIdleAttempts < cfg.maxRetries
    requires WatchAction(idleAfter, idleLongBuild, v, reading, reading) == UnIdle
    ensures var l := Waking(reading, delay);
            && Enabled(s, l)
            && (reading > t ==> ScalesNow(cfg, s, l, UnIdleOp, t))
            && (v.jenkinsLastUpdate == ZERO_TIME ==>
                  var v' := Step(cfg, s, l).loop.core.user;
                  v' == v.(jenkinsLastUpdate := reading + delay, idleStatus := v'.idleStatus))
  {
    var env, l := IdledEnv(reading, delay), Waking(reading, delay);
    var c := CheckedAt(s, l);
    CheckReadings(cfg, idleAfter, idleLongBuild, c, env);
    CheckGuard(cfg, c, env);
    assert MayUnIdle(cfg, c, env);
    var calls := StepCalls(cfg, s, l);
    assert calls[0] in calls && calls[0].op == UnIdleOp;
    CheckStep(cfg, s, l);
    CheckEditsLittle(cfg, c, env);
    if v.jenkinsLastUpdate == ZERO_TIME {
      ScaleUpDates(cfg, c, env);
    }
  }

  /** A held snapshot can still wake Jenkins at any reading from the present up to its deadline. */
  lemma WantedWakes(cfg: Config, idleAfter: int, idleLongBuild: int, delay: int, s: Sys, ls: seq<Label>,
                    start: Time, reading: Time, t: Time)
    requires Watches(cfg, idleAfter, idleLongBuild) && cfg.maxRetries > 0 && cfg.services != [] && delay >= 0
    requires ValidRun(cfg, s, ls) && Uneventful(ls, delay) && Timely(ls, start) && !Exec(cfg, s, ls).loop.stopped
    requires t < reading && Present(ls, start) <= reading
    requires var until := KeepAliveUntil(idleAfter, idleLongBuild, Exec(cfg, s, ls).loop.core.user);
             until.Some? && reading <= until.value
    ensures !AsleepFrom(cfg, s, delay, start, t)
  {
    var now, v := Present(ls, start), Exec(cfg, s, ls).loop.core.user;
    UnavailableCopies(Exec(cfg, s, ls));
    var more := QueueAlone(cfg, s, ls, UNAVAILABLE, now);
    SingleDeadline(idleAfter, idleLongBuild, v, reading);
    QueuedWakes(cfg, idleAfter, idleLongBuild, Exec(cfg, s, ls + more), v, reading, delay, t);
    ScalesAtTheEnd(cfg, s, ls + more, Waking(reading, delay), UnIdleOp, t);
    StaysUneventful(ls, more, reading, delay, start, now);
  }

  /** A held snapshot without a last update can be given one as late as its deadline allows, if that is yet to come. */
  lemma DateLate(cfg: Config, idleAfter: int, idleLongBuild: int, delay: int, s: Sys, ls: seq<Label>, start: Time)
    returns (longer: seq<Label>)
    requires Watches(cfg, idleAfter, idleLongBuild) && cfg.maxRetries > 0 && cfg.services != [] && delay >= 0
    requires ValidRun(cfg, s, ls) && Uneventful(ls, delay) && Timely(ls, start) && !Exec(cfg, s, ls).loop.stopped
    requires var v := Exec(cfg, s, ls).loop.core.user;
             var until := KeepAliveUntil(idleAfter, idleLongBuild, v);
             v.jenkinsLastUpdate == ZERO_TIME && until.Some? && Present(ls, start) <= until.value
    ensures ValidRun(cfg, s, longer) && Uneventful(longer, delay) && !Exec(cfg, s, longer).loop.stopped
    ensures var v, v' := Exec(cfg, s, ls).loop.core.user, Exec(cfg, s, longer).loop.core.user;
            var until := KeepAliveUntil(idleAfter, idleLongBuild, v).value;
            && Timely(longer, start) && Present(longer, start) == until + delay
            && v' == v.(jenkinsLastUpdate := until + delay, idleStatus := v'.idleStatus)
  {
    var now, v := Present(ls, start), Exec(cfg, s, ls).loop.core.user;
    var until := KeepAliveUntil(idleAfter, idleLongBuild, v).value;
    UnavailableCopies(Exec(cfg, s, ls));
    var more := QueueAlone(cfg, s, ls, UNAVAILABLE, now);
    SingleDeadline(idleAfter, idleLongBuild, v, until);
    QueuedWakes(cfg, idleAfter, idleLongBuild, Exec(cfg, s, ls + more), v, until, delay, until);
    RunExtend(cfg, s, ls + more, Waking(until, delay));
    StaysUneventful(ls, more, until, delay, start, now);
    longer := ls + more + [Waking(until, delay)];
  }

  /** A snapshot in play that has not lapsed by `t` lets some run wake Jenkins after it. */
  lemma UnlapsedWakes(cfg: Config, idleAfter: int, idleLongBuild: int, delay: int, s: Sys, v: User, now: Time, t: Time)
    requires Watches(cfg, idleAfter, idleLongBuild) && cfg.maxRetries > 0 && cfg.services != []
    requires !s.loop.stopped && delay >= 0 && ZERO_TIME < now
    requires InPlay(s, v) && !Lapsed(idleAfter, idleLongBuild, delay, v, now, t)
    ensures !AsleepFrom(cfg, s, delay, now, t)
  {
    var ls := BringToHand(cfg, s, v, now);
    AtOnce(ls, now);
    var until := KeepAliveUntil(idleAfter, idleLongBuild, v).value;
    if until > t && until >= now {
      WantedWakes(cfg, idleAfter, idleLongBuild, delay, s, ls, now, if t < now then now else t + 1, t);
    } else {
      ls := DateLate(cfg, idleAfter, idleLongBuild, delay, s, ls, now);
      var reading := if t + 1 < until + delay then until + delay else t + 1;
      WantedWakes(cfg, idleAfter, idleLongBuild, delay, s, ls, now, reading, t);
    }
  }

  /**
   The exact horizon: at `now`, no uneventful run wakes a live idler's Jenkins after `t` if
   and only if every snapshot in play has lapsed by `t`, counting what checks can still write.
   */
  lemma AsleepExactly(cfg: Config, idleAfter: int, idleLongBuild: int, delay: int, s: Sys, now: Time, t: Time)
    requires Watches(cfg, idleAfter, idleLongBuild) && cfg.maxRetries > 0 && cfg.services != []
    requires !s.loop.stopped && delay >= 0 && ZERO_TIME < now
    ensures AsleepFrom(cfg, s, delay, now, t) <==> AllLapsed(idleAfter, idleLongBuild, delay, s, now, t)
  {
    if AllLapsed(idleAfter, idleLongBuild, delay, s, now, t) {
      forall ls: seq<Label> | Uneventful(ls, delay) && Timely(ls, now) ensures !Scales(cfg, s, ls, UnIdleOp, t) {
        LapsedNeverWakes(cfg, idleAfter, idleLongBuild, delay, s, ls, now, t);
      }
    } else {
      var v :| InPlay(s, v) && !Lapsed(idleAfter, idleLongBuild, delay, v, now, t);
      UnlapsedWakes(cfg, idleAfter, idleLongBuild, delay, s, v, now, t);
    }
  }
}
