/** The idle timer fires once per arming, and only a received snapshot arms it. */
module IdleTimer {
  import opened Model
  import opened IdlerSpec
  import opened IdlerMachine

  function Fires(ls: seq<Label>): nat {
    if ls == [] then 0
    else (if ls[0].Select? && ls[0].sig.TimerFired? then 1 else 0) + Fires(ls[1..])
  }

  function Receives(ls: seq<Label>): nat {
    if ls == [] then 0
    else (if ls[0].Select? && ls[0].sig.Received? then 1 else 0) + Receives(ls[1..])
  }

  function Charge(s: Sys): nat {
    if s.loop.timer.Armed? then 1 else 0
  }

  /**
   One-shot bound for any run from any state: timer checks never outnumber the receives by
   more than the charge the timer starts with. With no receive in the run at most one timer
   check happens, and from a fresh idler at most one more than the receives.
   */
  lemma {:induction false} OneShot(cfg: Config, s: Sys, ls: seq<Label>)
    requires ValidRun(cfg, s, ls)
    ensures Fires(ls) + Charge(Exec(cfg, s, ls)) <= Receives(ls) + Charge(s)
    decreases |ls|
  {
    if ls != [] {
      OneShot(cfg, Step(cfg, s, ls[0]), ls[1..]);
    }
  }

  /** A timer check can happen next, sooner or later. */
  ghost predicate TimerCheckPossible(s: Sys) {
    exists env: Env, at: Time :: Enabled(s, Select(TimerFired(env, at)))
  }

  /** Whether the labels leave the timer armed: what counts is the last receive or timer check. */
  function LeavesArmed(ls: seq<Label>, armed: bool): bool {
    if ls == [] then armed
    else
      var l := ls[|ls| - 1];
      if l.Select? && l.sig.Received? then true
      else if l.Select? && l.sig.TimerFired? then false
      else LeavesArmed(ls[..|ls| - 1], armed)
  }

  lemma {:induction false} ArmedExactly(cfg: Config, s: Sys, ls: seq<Label>)
    requires ValidRun(cfg, s, ls)
    ensures Exec(cfg, s, ls).loop.timer.Armed? == LeavesArmed(ls, s.loop.timer.Armed?)
    decreases |ls|
  {
    if ls != [] {
      var n := |ls| - 1;
      assert ls == ls[..n] + [ls[n]];
      RunSplit(cfg, s, ls, n);
      assert ls[n..] == [ls[n]] && ls[n..][1..] == [];
      ArmedExactly(cfg, s, ls[..n]);
      OneLabel(cfg, Exec(cfg, s, ls[..n]), ls[n]);
    }
  }

  /**
   After any run a live idler has another timer check to come exactly if its last receive is
   later than its last timer check, or neither happened and the timer was armed at the start.
   */
  lemma TimerCheckPossibleExactly(cfg: Config, s: Sys, ls: seq<Label>, env: Env)
    requires ValidRun(cfg, s, ls) && !Exec(cfg, s, ls).loop.stopped
    ensures TimerCheckPossible(Exec(cfg, s, ls)) <==> LeavesArmed(ls, s.loop.timer.Armed?)
  {
    var s' := Exec(cfg, s, ls);
    ArmedExactly(cfg, s, ls);
    if s'.loop.timer.Armed? {
      assert Enabled(s', Select(TimerFired(env, s'.loop.timer.due)));
    }
  }

  /** The latest time at which the labels armed the timer, `start` if they never did. */
  function LastArmed(ls: seq<Label>, start: Time): Time {
    if ls == [] then start
    else
      var l := ls[|ls| - 1];
      if l.Select? && l.sig.Received? then l.sig.at else LastArmed(ls[..|ls| - 1], start)
  }

  lemma {:induction false} TimerTracksArming(cfg: Config, s: Sys, ls: seq<Label>, start: Time)
    requires ValidRun(cfg, s, ls)
    requires s.loop.timer.Armed? ==> s.loop.timer.due == start + s.loop.interval
    ensures var l := Exec(cfg, s, ls).loop;
            && l.interval == s.loop.interval
            && (l.timer.Armed? ==> l.timer.due == LastArmed(ls, start) + l.interval)
    decreases |ls|
  {
    if ls != [] {
      var n := |ls| - 1;
      RunSplit(cfg, s, ls, n);
      assert ls[n..] == [ls[n]] && ls[n..][1..] == [];
      TimerTracksArming(cfg, s, ls[..n], start);
      var mid := Exec(cfg, s, ls[..n]);
      assert Exec(cfg, mid, [ls[n]]) == Step(cfg, mid, ls[n]);
    }
  }

  /**
   Exactly when a timer check can happen, over any run of a fresh idler: it is live, the last
   receive is later than the last timer check or neither happened, and the interval has passed
   since that receive or else since the start.
   */
  lemma TimerCheckExactly(cfg: Config, u: User, interval: int, start: Time, ls: seq<Label>, env: Env, at: Time)
    requires ValidRun(cfg, NewSys(u, interval, start), ls)
    ensures var s := Exec(cfg, NewSys(u, interval, start), ls);
            Enabled(s, Select(TimerFired(env, at))) <==>
              !s.loop.stopped && LeavesArmed(ls, true) && at >= LastArmed(ls, start) + interval
  {
    ArmedExactly(cfg, NewSys(u, interval, start), ls);
    TimerTracksArming(cfg, NewSys(u, interval, start), ls, start);
  }

  /** Between two timer checks a snapshot is received; none comes early. */
  lemma TimerChecksSpaced(cfg: Config, s: Sys, ls: seq<Label>, start: Time, k: nat)
    requires ValidRun(cfg, s, ls) && k < |ls| && ls[k].Select? && ls[k].sig.TimerFired?
    requires s.loop.timer.Armed? ==> s.loop.timer.due == start + s.loop.interval
    ensures ls[k].sig.at >= LastArmed(ls[..k], start) + s.loop.interval
    ensures forall j :: k < j < |ls| && ls[j].Select? && ls[j].sig.TimerFired? ==> Receives(ls[k + 1..j]) >= 1
  {
    var before := At(cfg, s, ls, k);
    RunSplit(cfg, s, ls, k);
    TimerTracksArming(cfg, s, ls[..k], start);
    forall j | k < j < |ls| && ls[j].Select? && ls[j].sig.TimerFired?
      ensures Receives(ls[k + 1..j]) >= 1
    {
      var tail := ls[k..];
      assert tail[0] == ls[k] && tail[1..] == ls[k + 1..];
      var spent := Step(cfg, before, ls[k]);
      var rest := ls[k + 1..];
      var m := j - (k + 1);
      var armed := At(cfg, spent, rest, m);
      RunSplit(cfg, spent, rest, m);
      assert rest[m] == ls[j] && rest[..m] == ls[k + 1..j];
      OneShot(cfg, spent, rest[..m]);
    }
  }
}
