/** The idler object of one tenant (internal/idler/user_idler.go). */
module UserIdlers {
  import opened Wrappers
  import opened Model
  import opened ConditionEval
  import Spec = IdlerSpec

  method CreateWatchConditions(idleAfter: int, idleLongBuild: int) returns (c: Conditions)
    ensures fresh(c) && c.conditions == WatchConditions(idleAfter, idleLongBuild)
  {
    c := new Conditions();
    c.Add("dc", NewDCCondition(idleAfter));
    c.Add("build", NewBuildCondition(idleAfter, idleLongBuild));
  }

  class UserIdler {
    const maxRetries: int
    const services: seq<string>
    const conditions: Conditions
    var idleAttempts: int
    var unIdleAttempts: int
    var userChan: seq<User>
    var user: User
    /** Every request this idler has made to the OpenShift client. */
    ghost var calls: seq<Spec.Call>

    constructor (user: User, maxRetries: int, idleAfter: int, idleLongBuild: int)
      ensures fresh(conditions) && conditions.conditions == WatchConditions(idleAfter, idleLongBuild)
      ensures this.maxRetries == maxRetries && services == ["jenkins"]
      ensures Core() == Spec.Core(user, 0, 0) && userChan == [] && calls == []
    {
      var cs := CreateWatchConditions(idleAfter, idleLongBuild);
      this.maxRetries, this.services, this.conditions := maxRetries, Spec.JENKINS_SERVICES, cs;
      this.idleAttempts, this.unIdleAttempts := 0, 0;
      this.user, this.userChan := user, [];
      calls := [];
    }

    function Cfg(): Spec.Config
      reads conditions
    {
      Spec.Config(maxRetries, services, conditions.conditions)
    }

    function Core(): Spec.Core
      reads this
    {
      Spec.Core(user, idleAttempts, unIdleAttempts)
    }

    /** `sendUserToIdler` with nobody receiving meanwhile: a full channel drops the snapshot. */
    method Send(u: User) returns (accepted: bool)
      modifies this`userChan
      ensures accepted <==> |old(userChan)| < 10
      ensures userChan == if accepted then old(userChan) + [u] else old(userChan)
    {
      accepted := |userChan| < Spec.BUFFER_SIZE;
      if accepted {
        userChan := userChan + [u];
      }
    }

    /** One pass of the service loop shared by idling and un-idling. */
    method ScaleServices(op: Spec.ScaleOp, env: Spec.Env) returns (err: Option<Spec.Failure>)
      modifies this`calls
      ensures err == Spec.FirstFailure(services, env.reply)
      ensures calls == old(calls) + Spec.ServiceCalls(op, JenkinsNamespace(user.name), services, env.reply)
    {
      var ns := JenkinsNamespace(user.name);
      for i := 0 to |services|
        invariant Spec.FirstFailure(services, env.reply) == Spec.FirstFailure(services[i..], env.reply)
        invariant calls + Spec.ServiceCalls(op, ns, services[i..], env.reply)
                  == old(calls) + Spec.ServiceCalls(op, ns, services, env.reply)
      {
        var reply := env.reply(services[i]);
        calls := calls + [Spec.Call(op, ns, services[i], reply.None?)];
        if reply.Some? {
          return Some(Spec.ScaleFailed(reply.value));
        }
      }
      return None;
    }

    method DoIdle(env: Spec.Env) returns (err: Option<Spec.Failure>)
      modifies this`idleAttempts, this`calls
      ensures var o := Spec.DoIdle(Cfg(), old(Core()), env);
              Core() == o.core && err == o.err && calls == old(calls) + o.calls
    {
      if idleAttempts >= maxRetries {
        return None;
      }
      match env.state(JenkinsNamespace(user.name)) {
        case Err(msg) =>
          return Some(Spec.StateLookup(msg));
        case Ok(state) =>
          if state.Level() <= PodIdled.Level() {
            return None;
          }
      }
      idleAttempts := idleAttempts + 1;
      err := ScaleServices(Spec.IdleOp, env);
    }

    method DoUnIdle(env: Spec.Env) returns (err: Option<Spec.Failure>)
      modifies this`unIdleAttempts, this`user, this`calls
      ensures var o := Spec.DoUnIdle(Cfg(), old(Core()), env);
              Core() == o.core && err == o.err && calls == old(calls) + o.calls
    {
      if unIdleAttempts >= maxRetries {
        return None;
      }
      match env.state(JenkinsNamespace(user.name)) {
        case Err(msg) =>
          return Some(Spec.StateLookup(msg));
        case Ok(state) =>
          if state != PodIdled {
            return None;
          }
      }
      match env.capacity(JenkinsNamespace(user.name)) {
        case Err(msg) =>
          return Some(Spec.CapacityLookup(msg));
        case Ok(clusterFull) =>
          if clusterFull {
            return Some(Spec.ClusterFull);
          }
      }
      unIdleAttempts := unIdleAttempts + 1;
      err := ScaleServices(Spec.UnIdleOp, env);
      if err.Some? {
        return;
      }
      if user.jenkinsLastUpdate == ZERO_TIME {
        user := user.(jenkinsLastUpdate := env.write);
      }
    }

    method CheckIdle(env: Spec.Env) returns (err: Option<Spec.Failure>)
      modifies this`idleAttempts, this`unIdleAttempts, this`user, this`calls
      ensures var o := Spec.CheckIdle(Cfg(), old(Core()), env);
              Core() == o.core && err == o.err && calls == old(calls) + o.calls
    {
      match env.enabled(user.id) {
        case Err(msg) =>
          return Some(Spec.FeatureLookup(msg));
        case Ok(enabled) =>
          if !enabled {
            return None;
          }
      }
      var action, errors := conditions.Eval(user, env.clock);
      if !errors.Empty() {
        return Some(Spec.FailedConditions);
      }
      err := None;
      if action == Idle {
        err := DoIdle(env);
        if err.None? {
          user := user.(idleStatus := IdleStatus(env.stamp, true, "Successfully idled"));
        }
      } else if action == UnIdle {
        err := DoUnIdle(env);
        if err.None? {
          user := user.(idleStatus := IdleStatus(env.stamp, true, "Successfully un-idled"));
        }
      }
    }

    method ResetCounters()
      modifies this`idleAttempts, this`unIdleAttempts
      ensures idleAttempts == 0 && unIdleAttempts == 0
    {
      idleAttempts, unIdleAttempts := 0, 0;
    }

    /** One case of the select statement; `timer` belongs to the loop. */
    method Select(interval: int, timer: Spec.Timer, sig: Spec.Signal) returns (timer': Spec.Timer, stopped: bool)
      requires Spec.Ready(Spec.Loop(Core(), userChan, interval, timer, false), sig)
      modifies this`idleAttempts, this`unIdleAttempts, this`user, this`calls, this`userChan
      ensures var l := Spec.Loop(old(Core()), old(userChan), interval, timer, false);
              && Spec.Loop(Core(), userChan, interval, timer', stopped) == Spec.Serve(Cfg(), l, sig)
              && calls == old(calls) + Spec.ServeCalls(Cfg(), l, sig)
    {
      timer', stopped := timer, false;
      match sig {
        case Cancelled =>
          stopped := true;
        case Received(env, at) =>
          user, userChan := userChan[0], userChan[1..];
          var _ := CheckIdle(env);
          timer' := Spec.Armed(at + interval);
        case TimerFired(env, at) =>
          timer' := Spec.Spent;
          var _ := CheckIdle(env);
        case TickerFired =>
          ResetCounters();
      }
    }

    /**
     The select loop, driven by a schedule that says which case is taken next and when
     another goroutine's send completes. After cancellation only sends remain. `cancelled`
     says whether the loop has called its cancel function.
     */
    method Run(interval: int, start: Time, schedule: seq<Spec.Turn>) returns (cancelled: bool)
      requires Spec.Feasible(Cfg(), Spec.Loop(Core(), userChan, interval, Spec.Armed(start + interval), false), schedule)
      modifies this`idleAttempts, this`unIdleAttempts, this`user, this`calls, this`userChan
      ensures var l := Spec.Loop(old(Core()), old(userChan), interval, Spec.Armed(start + interval), false);
              && Core() == Spec.RunLoop(Cfg(), l, schedule).core
              && userChan == Spec.RunLoop(Cfg(), l, schedule).queue
              && calls == old(calls) + Spec.RunCalls(Cfg(), l, schedule)
      ensures cancelled <==> Spec.Serves(Spec.Cancelled) in schedule
    {
      var timer := Spec.Armed(start + interval);
      cancelled := false;
      ghost var cfg := Cfg();
      ghost var l := Spec.Loop(Core(), userChan, interval, timer, cancelled);
      ghost var now := l;
      Spec.StoppedByCancel(cfg, l, schedule);
      for i := 0 to |schedule|
        invariant now == Spec.Loop(Core(), userChan, interval, timer, cancelled)
        invariant Spec.Feasible(cfg, now, schedule[i..])
        invariant Spec.RunLoop(cfg, now, schedule[i..]) == Spec.RunLoop(cfg, l, schedule)
        invariant calls + Spec.RunCalls(cfg, now, schedule[i..]) == old(calls) + Spec.RunCalls(cfg, l, schedule)
      {
        assert schedule[i..][0] == schedule[i] && schedule[i..][1..] == schedule[i + 1..];
        ghost var sofar, rest := calls, Spec.RunCalls(cfg, Spec.TakeTurn(cfg, now, schedule[i]), schedule[i + 1..]);
        match schedule[i] {
          case Arrives(u) =>
            userChan := userChan + [u];
          case Serves(sig) =>
            timer, cancelled := Select(interval, timer, sig);
        }
        assert sofar + (Spec.TurnCalls(cfg, now, schedule[i]) + rest) == calls + rest;
        now := Spec.TakeTurn(cfg, now, schedule[i]);
      }
    }
  }
}
