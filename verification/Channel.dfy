/** What becomes of the snapshots handed to the channel. */
module Channel {
  import opened Seqs
  import opened Model
  import opened IdlerSpec
  import opened IdlerMachine

  /** Snapshots offered by handlers, accepted by the channel, given up, and received. */
  datatype Traffic = Traffic(offered: seq<User>, accepted: seq<User>, dropped: seq<User>, received: seq<User>) {
    function Then(t: Traffic): Traffic {
      Traffic(offered + t.offered, accepted + t.accepted, dropped + t.dropped, received + t.received)
    }
  }

  function StepTraffic(s: Sys, l: Label): Traffic
    requires Enabled(s, l)
  {
    var none := Traffic([], [], [], []);
    match l
    case Deliver(i) => none.(accepted := [s.pending[i]])
    case Discard(i) => none.(dropped := [s.pending[i]])
    case Select(sig) => if sig.Received? then none.(received := [s.loop.queue[0]]) else none
    case _ => if Offered(s, l).Some? then none.(offered := [Offered(s, l).value]) else none
  }

  function RunTraffic(cfg: Config, s: Sys, ls: seq<Label>): Traffic
    requires ValidRun(cfg, s, ls)
    decreases |ls|
  {
    if ls == [] then Traffic([], [], [], [])
    else StepTraffic(s, ls[0]).Then(RunTraffic(cfg, Step(cfg, s, ls[0]), ls[1..]))
  }

  lemma StepConserves(cfg: Config, s: Sys, l: Label)
    requires Enabled(s, l) && |s.loop.queue| <= BUFFER_SIZE
    ensures var s', t := Step(cfg, s, l), StepTraffic(s, l);
            && |s'.loop.queue| <= BUFFER_SIZE
            && s.loop.queue + t.accepted == t.received + s'.loop.queue
            && multiset(s.pending) + multiset(t.offered)
               == multiset(t.accepted) + multiset(t.dropped) + multiset(s'.pending)
  {
    if l.Deliver? || l.Discard? {
      WithoutOne(s.pending, l.i);
    }
  }

  lemma JoinOrder(q0: seq<User>, a1: seq<User>, a2: seq<User>, r1: seq<User>, r2: seq<User>,
                  q1: seq<User>, q2: seq<User>)
    requires q0 + a1 == r1 + q1 && q1 + a2 == r2 + q2
    ensures q0 + (a1 + a2) == (r1 + r2) + q2
  {
    assert q0 + (a1 + a2) == (q0 + a1) + a2;
    assert (r1 + q1) + a2 == r1 + (q1 + a2);
    assert r1 + (r2 + q2) == (r1 + r2) + q2;
  }

  /**
   The channel never exceeds its capacity, and what was queued or accepted is what was
   received followed by what is still queued, in order.
   */
  lemma {:induction false} ChannelIsFifo(cfg: Config, s: Sys, ls: seq<Label>)
    requires ValidRun(cfg, s, ls) && |s.loop.queue| <= BUFFER_SIZE
    ensures |Exec(cfg, s, ls).loop.queue| <= BUFFER_SIZE
    ensures s.loop.queue + RunTraffic(cfg, s, ls).accepted
            == RunTraffic(cfg, s, ls).received + Exec(cfg, s, ls).loop.queue
    decreases |ls|
  {
    if ls != [] {
      var mid := Step(cfg, s, ls[0]);
      StepConserves(cfg, s, ls[0]);
      ChannelIsFifo(cfg, mid, ls[1..]);
      var t1, t2 := StepTraffic(s, ls[0]), RunTraffic(cfg, mid, ls[1..]);
      JoinOrder(s.loop.queue, t1.accepted, t2.accepted, t1.received, t2.received,
                mid.loop.queue, Exec(cfg, s, ls).loop.queue);
    }
  }

  /**
   Room in the channel over any run from an empty one: a send can be completed exactly while
   fewer than ten accepted snapshots are still to be received, and given up exactly when there
   are ten. So the tenth snapshot is accepted with nobody receiving, and the eleventh dropped.
   */
  lemma RoomForTen(cfg: Config, s: Sys, ls: seq<Label>, i: nat)
    requires ValidRun(cfg, s, ls) && s.loop.queue == []
    ensures var t, s' := RunTraffic(cfg, s, ls), Exec(cfg, s, ls);
            var waiting := |t.accepted| - |t.received|;
            && 0 <= waiting <= 10
            && (Enabled(s', Deliver(i)) <==> i < |s'.pending| && waiting < 10)
            && (Enabled(s', Discard(i)) <==> i < |s'.pending| && waiting == 10)
  {
    ChannelIsFifo(cfg, s, ls);
    var t := RunTraffic(cfg, s, ls);
    assert |[] + t.accepted| == |t.received + Exec(cfg, s, ls).loop.queue|;
  }

  lemma JoinBags(p0: multiset<User>, p1: multiset<User>, p2: multiset<User>, o1: multiset<User>, o2: multiset<User>,
                 a1: multiset<User>, a2: multiset<User>, d1: multiset<User>, d2: multiset<User>)
    requires p0 + o1 == a1 + d1 + p1 && p1 + o2 == a2 + d2 + p2
    ensures p0 + (o1 + o2) == (a1 + a2) + (d1 + d2) + p2
  {
    assert p0 + (o1 + o2) == (p0 + o1) + o2;
    assert (a1 + d1 + p1) + o2 == (a1 + d1) + (p1 + o2);
  }

  /** Every snapshot offered is accepted, dropped or still on its way, and none twice. */
  lemma {:induction false} SendsConserved(cfg: Config, s: Sys, ls: seq<Label>)
    requires ValidRun(cfg, s, ls) && |s.loop.queue| <= BUFFER_SIZE
    ensures multiset(s.pending) + multiset(RunTraffic(cfg, s, ls).offered)
            == multiset(RunTraffic(cfg, s, ls).accepted) + multiset(RunTraffic(cfg, s, ls).dropped)
               + multiset(Exec(cfg, s, ls).pending)
    decreases |ls|
  {
    if ls != [] {
      var mid := Step(cfg, s, ls[0]);
      StepConserves(cfg, s, ls[0]);
      SendsConserved(cfg, mid, ls[1..]);
      var t1, t2 := StepTraffic(s, ls[0]), RunTraffic(cfg, mid, ls[1..]);
      JoinBags(multiset(s.pending), multiset(mid.pending), multiset(Exec(cfg, s, ls).pending),
               multiset(t1.offered), multiset(t2.offered), multiset(t1.accepted), multiset(t2.accepted),
               multiset(t1.dropped), multiset(t2.dropped));
    }
  }

  /** Giving a snapshot up changes nothing but the list of unfinished sends. */
  lemma DropChangesNothing(cfg: Config, s: Sys, i: nat)
    requires Enabled(s, Discard(i))
    ensures Step(cfg, s, Discard(i)).loop == s.loop
    ensures StepCalls(cfg, s, Discard(i)) == []
    ensures multiset(Step(cfg, s, Discard(i)).pending) == multiset(s.pending) - multiset{s.pending[i]}
  {
    WithoutOne(s.pending, i);
  }
}
