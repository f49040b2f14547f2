/** Cancelling an idler stops it, nothing else does, and it is final. */
module Shutdown {
  import opened IdlerSpec
  import opened IdlerMachine

  const CANCEL := Select(Cancelled)

  /** Over any run the loop is stopped exactly if it was at the start or was cancelled on the way. */
  lemma {:induction false} StoppedExactly(cfg: Config, s: Sys, ls: seq<Label>)
    requires ValidRun(cfg, s, ls)
    ensures Exec(cfg, s, ls).loop.stopped <==> s.loop.stopped || CANCEL in ls
    decreases |ls|
  {
    if ls != [] {
      assert ls == [ls[0]] + ls[1..];
      StoppedExactly(cfg, Step(cfg, s, ls[0]), ls[1..]);
    }
  }

  /** A stopped loop takes no signal, so its state stays and it makes no call, whatever still arrives. */
  lemma {:induction false} StoppedForGood(cfg: Config, s: Sys, ls: seq<Label>)
    requires ValidRun(cfg, s, ls) && s.loop.stopped
    ensures forall l :: l in ls ==> !l.Select?
    ensures Exec(cfg, s, ls).loop == s.loop.(queue := Exec(cfg, s, ls).loop.queue)
    ensures Calls(cfg, s, ls) == []
    decreases |ls|
  {
    if ls != [] {
      assert ls == [ls[0]] + ls[1..];
      StoppedForGood(cfg, Step(cfg, s, ls[0]), ls[1..]);
    }
  }

  /**
   Shutdown: a live idler can be cancelled at any time, and after that, whatever events and
   sends still follow, it takes no signal, checks nothing and makes no call.
   */
  lemma CancelIsFinal(cfg: Config, s: Sys, ls: seq<Label>, k: nat)
    requires ValidRun(cfg, s, ls) && k < |ls|
    ensures Enabled(At(cfg, s, ls, k), CANCEL) <==> !(s.loop.stopped || CANCEL in ls[..k])
    ensures ls[k] == CANCEL ==>
              var after := Step(cfg, At(cfg, s, ls, k), CANCEL);
              && after.loop == At(cfg, s, ls, k).loop.(stopped := true)
              && (forall sig :: !Enabled(after, Select(sig)))
              && (forall j :: k < j < |ls| ==> !ls[j].Select?)
              && Exec(cfg, s, ls).loop == after.loop.(queue := Exec(cfg, s, ls).loop.queue)
              && ValidRun(cfg, after, ls[k + 1..]) && Calls(cfg, after, ls[k + 1..]) == []
  {
    var before := At(cfg, s, ls, k);
    RunSplit(cfg, s, ls, k);
    StoppedExactly(cfg, s, ls[..k]);
    if ls[k] == CANCEL {
      assert ls[k..][0] == CANCEL && ls[k..][1..] == ls[k + 1..];
      StoppedForGood(cfg, Step(cfg, before, CANCEL), ls[k + 1..]);
      forall j | k < j < |ls| ensures !ls[j].Select? {
        assert ls[j] == ls[k + 1..][j - k - 1];
      }
    }
  }
}
