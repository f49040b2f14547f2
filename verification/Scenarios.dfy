/** Runs that bring a chosen snapshot into an idler's hands, all at one moment. */
module Scenarios {
  import opened Wrappers
  import opened Seqs
  import opened Model
  import opened BuildTracking
  import opened IdlerSpec
  import opened IdlerMachine
  import opened RunClock

  /** A check that learns the feature is off does nothing. */
  function QuietEnv(now: Time): Env {
    Env((id: string) => Ok(false), (name: string) => now, (ns: string) => Ok(PodIdled), (ns: string) => Ok(false),
        (service: string) => None, now, now)
  }

  /** If a check at all, then one that does nothing, at `now`. */
  ghost predicate IdleAt(l: Label, now: Time) {
    IsCheck(l) ==> l == Select(Received(QuietEnv(now), now))
  }

  /** No event, and no check but such. */
  ghost predicate AllHarmless(ls: seq<Label>, now: Time) {
    forall l :: l in ls ==> !l.BuildEvent? && !l.DcEvent? && IdleAt(l, now)
  }

  lemma {:induction false} AtOnce(ls: seq<Label>, now: Time)
    requires forall l :: l in ls ==> IdleAt(l, now)
    ensures Timely(ls, now) && Present(ls, now) == now
  {
    if ls != [] {
      assert ls[0] in ls;
      assert forall l :: l in ls[1..] ==> l in ls;
      AtOnce(ls[1..], now);
    }
  }

  function Discarding(n: nat, now: Time): seq<Label> {
    seq(n, i => Select(Received(QuietEnv(now), now)))
  }

  /** Receiving `n` snapshots with the feature off brings the last of them into the user's place. */
  lemma {:induction false} ReceiveQuietly(cfg: Config, s: Sys, n: nat, now: Time)
    requires !s.loop.stopped && n <= |s.loop.queue|
    ensures AllHarmless(Discarding(n, now), now) && ValidRun(cfg, s, Discarding(n, now))
    ensures var s' := Exec(cfg, s, Discarding(n, now));
            && s'.loop.queue == s.loop.queue[n..] && s'.pending == s.pending && !s'.loop.stopped
            && s'.loop.core == if n == 0 then s.loop.core else s.loop.core.(user := s.loop.queue[n - 1])
    decreases n
  {
    if n > 0 {
      var ls := Discarding(n, now);
      assert ls[1..] == Discarding(n - 1, now);
      var s1 := Step(cfg, s, ls[0]);
      assert s1.loop.queue == s.loop.queue[1..];
      ReceiveQuietly(cfg, s1, n - 1, now);
      assert s.loop.queue[1..][n - 1..] == s.loop.queue[n..];
    }
  }

  /** Emptying the channel with the feature off. */
  lemma Empty(cfg: Config, s: Sys, ls: seq<Label>, now: Time) returns (more: seq<Label>)
    requires ValidRun(cfg, s, ls) && !Exec(cfg, s, ls).loop.stopped
    ensures AllHarmless(more, now) && ValidRun(cfg, s, ls + more)
    ensures var before, after := Exec(cfg, s, ls), Exec(cfg, s, ls + more);
            && after.loop.queue == [] && after.pending == before.pending && !after.loop.stopped
            && after.loop.core == before.loop.core.(user := after.loop.core.user)
  {
    var mid := Exec(cfg, s, ls);
    more := Discarding(|mid.loop.queue|, now);
    ReceiveQuietly(cfg, mid, |mid.loop.queue|, now);
    RunJoin(cfg, s, ls, more);
  }

  /** Any snapshot in play can become the held user. */
  lemma BringToHand(cfg: Config, s: Sys, v: User, now: Time) returns (ls: seq<Label>)
    requires !s.loop.stopped && InPlay(s, v)
    ensures AllHarmless(ls, now) && ValidRun(cfg, s, ls)
    ensures var s' := Exec(cfg, s, ls); !s'.loop.stopped && s'.loop.core.user == v
  {
    if v == s.loop.core.user {
      ls := [];
    } else if v in s.loop.queue {
      var i :| 0 <= i < |s.loop.queue| && s.loop.queue[i] == v;
      ls := Discarding(i + 1, now);
      ReceiveQuietly(cfg, s, i + 1, now);
    } else {
      var i :| 0 <= i < |s.pending| && s.pending[i] == v;
      ls := Empty(cfg, s, [], now);
      assert [] + ls == ls;
      ls := ReceiveOne(cfg, s, ls, i, now);
    }
  }

  /** With the channel empty, a pending snapshot is delivered and received. */
  lemma ReceiveOne(cfg: Config, s: Sys, ls: seq<Label>, i: nat, now: Time) returns (longer: seq<Label>)
    requires ValidRun(cfg, s, ls) && AllHarmless(ls, now)
    requires !Exec(cfg, s, ls).loop.stopped && Exec(cfg, s, ls).loop.queue == [] && i < |Exec(cfg, s, ls).pending|
    ensures AllHarmless(longer, now) && ValidRun(cfg, s, longer)
    ensures var before, after := Exec(cfg, s, ls), Exec(cfg, s, longer);
            && !after.loop.stopped && after.loop.queue == [] && after.pending == Without(before.pending, i)
            && after.loop.core.user == before.pending[i]
  {
    var l := Select(Received(QuietEnv(now), now));
    RunExtend(cfg, s, ls, Deliver(i));
    RunExtend(cfg, s, ls + [Deliver(i)], l);
    longer := ls + [Deliver(i)] + [l];
  }

  /** A deployment config event that reports Jenkins unavailable: the held user is sent as it is. */
  const UNAVAILABLE := DcEvent(DCStatus(0, 0, [DCCondition(AVAILABLE_CONDITION, ZERO_TIME, "false")]))

  lemma UnavailableCopies(s: Sys)
    ensures Offered(s, UNAVAILABLE) == Some(s.loop.core.user)
    ensures !ReportsAvailable(UNAVAILABLE.s)
  {
    var cs := UNAVAILABLE.s.conditions;
    assert FirstOfKind(cs, AVAILABLE_CONDITION) == Some(cs[0]);
  }

  /** After fresh counters and an event the edited snapshot is pending, last of all. */
  lemma OfferFresh(cfg: Config, s: Sys, ls: seq<Label>, event: Label) returns (longer: seq<Label>)
    requires ValidRun(cfg, s, ls) && !Exec(cfg, s, ls).loop.stopped
    requires event.BuildEvent? || event.DcEvent?
    requires Offered(Exec(cfg, s, ls), event).Some?
    ensures longer == ls + [Select(TickerFired)] + [event] && ValidRun(cfg, s, longer)
    ensures var before, after := Exec(cfg, s, ls), Exec(cfg, s, longer);
            && !after.loop.stopped && after.loop.core.idleAttempts == after.loop.core.unIdleAttempts == 0
            && after.pending == before.pending + [Offered(before, event).value]
  {
    var tick := Select(TickerFired);
    RunExtend(cfg, s, ls, tick);
    RunExtend(cfg, s, ls + [tick], event);
    longer := ls + [tick] + [event];
  }

  /**
   The held user's snapshot after an event, alone in the channel of a live idler with fresh
   counters. Apart from the event all labels are harmless.
   */
  lemma QueueAlone(cfg: Config, s: Sys, ls: seq<Label>, event: Label, now: Time) returns (more: seq<Label>)
    requires ValidRun(cfg, s, ls) && !Exec(cfg, s, ls).loop.stopped
    requires event.BuildEvent? || event.DcEvent?
    requires Offered(Exec(cfg, s, ls), event).Some?
    ensures ValidRun(cfg, s, ls + more)
    ensures forall l :: l in more ==> IdleAt(l, now) && (l == event || (!l.BuildEvent? && !l.DcEvent?))
    ensures var after := Exec(cfg, s, ls + more).loop;
            && !after.stopped && after.core.idleAttempts == after.core.unIdleAttempts == 0
            && after.queue == [Offered(Exec(cfg, s, ls), event).value]
  {
    var begun := OfferFresh(cfg, s, ls, event);
    var p := |Exec(cfg, s, begun).pending| - 1;
    var drain := Empty(cfg, s, begun, now);
    RunExtend(cfg, s, begun + drain, Deliver(p));
    more := [Select(TickerFired)] + [event] + drain + [Deliver(p)];
    assert ls + more == begun + drain + [Deliver(p)];
  }
}
