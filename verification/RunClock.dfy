/** Runs whose clock never goes back. */
module RunClock {
  import opened Model
  import opened IdlerSpec
  import opened IdlerMachine

  /**
   The readings of a check in the order they are taken, none before `now`: a timer fires,
   the conditions read the clock, the last update is written, the status is stamped, and
   after a received snapshot the timer is armed.
   */
  ghost predicate OnTime(sig: Signal, now: Time)
    requires Checks(sig)
  {
    var start := if sig.TimerFired? then sig.at else now;
    && now <= start
    && (forall name :: start <= sig.env.clock(name) <= sig.env.write)
    && sig.env.write <= sig.env.stamp
    && (sig.Received? ==> sig.env.stamp <= sig.at)
  }

  /** The present after a label. */
  function Later(l: Label, now: Time): Time {
    if !IsCheck(l) then now else if l.sig.Received? then l.sig.at else l.sig.env.stamp
  }

  ghost predicate Timely(ls: seq<Label>, now: Time)
    decreases |ls|
  {
    ls == [] || ((IsCheck(ls[0]) ==> OnTime(ls[0].sig, now)) && Timely(ls[1..], Later(ls[0], now)))
  }

  /** The present after a run that starts at `now`. */
  function Present(ls: seq<Label>, now: Time): Time
    decreases |ls|
  {
    if ls == [] then now else Present(ls[1..], Later(ls[0], now))
  }

  lemma {:induction false} TimelyJoin(first: seq<Label>, second: seq<Label>, now: Time)
    requires Timely(first, now) && Timely(second, Present(first, now))
    ensures Timely(first + second, now)
    ensures Present(first + second, now) == Present(second, Present(first, now))
    decreases |first|
  {
    if first == [] {
      assert first + second == second;
    } else {
      assert (first + second)[1..] == first[1..] + second;
      TimelyJoin(first[1..], second, Later(first[0], now));
    }
  }

  lemma TimelyExtend(ls: seq<Label>, l: Label, now: Time)
    requires Timely(ls, now) && (IsCheck(l) ==> OnTime(l.sig, Present(ls, now)))
    ensures Timely(ls + [l], now) && Present(ls + [l], now) == Later(l, Present(ls, now))
  {
    assert [l][1..] == [];
    TimelyJoin(ls, [l], now);
  }
}
