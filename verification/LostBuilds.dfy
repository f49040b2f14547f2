/** Which builds an idler can end up with, exactly. */
module LostBuilds {
  import opened Model
  import opened BuildTracking
  import opened IdlerSpec
  import opened IdlerMachine
  import opened Lineage
  import opened Deadlines
  import opened Scenarios

  /** A run without build events after which nothing is under way and the idler holds the builds. */
  ghost predicate EndsWith(cfg: Config, s: Sys, ls: seq<Label>, bs: Builds) {
    && ValidRun(cfg, s, ls) && NoBuildEvent(ls)
    && Quiet(Exec(cfg, s, ls))
    && BuildsOf(Exec(cfg, s, ls).loop.core.user) == bs
  }

  ghost predicate CanEndWith(cfg: Config, s: Sys, bs: Builds) {
    exists ls: seq<Label> :: EndsWith(cfg, s, ls, bs)
  }

  /** Whatever still happens without build events, the idler ends up with these builds. */
  ghost predicate Settles(cfg: Config, s: Sys, bs: Builds) {
    forall other: Builds :: CanEndWith(cfg, s, other) ==> other == bs
  }

  ghost predicate InPlayBuilds(s: Sys, bs: Builds) {
    exists u :: InPlay(s, u) && BuildsOf(u) == bs
  }

  lemma NoNewBuilds(cfg: Config, s: Sys, l: Label, u: User)
    requires Enabled(s, l) && !l.BuildEvent? && InPlay(Step(cfg, s, l), u)
    ensures InPlayBuilds(s, BuildsOf(u))
  {
    InPlayAfter(cfg, s, l, u);
    assert InPlay(s, s.loop.core.user);
    if IsCheck(l) {
      CheckedInPlay(s, l);
      CheckEditsLittle(cfg, CheckedAt(s, l), l.sig.env);
    }
  }

  lemma {:induction false} BuildsInPlayStay(cfg: Config, s: Sys, ls: seq<Label>, u: User)
    requires ValidRun(cfg, s, ls) && NoBuildEvent(ls) && InPlay(Exec(cfg, s, ls), u)
    ensures InPlayBuilds(s, BuildsOf(u))
    decreases |ls|
  {
    if ls != [] {
      assert ls[0] in ls;
      assert forall l :: l in ls[1..] ==> l in ls;
      BuildsInPlayStay(cfg, Step(cfg, s, ls[0]), ls[1..], u);
      var v :| InPlay(Step(cfg, s, ls[0]), v) && BuildsOf(v) == BuildsOf(u);
      NoNewBuilds(cfg, s, ls[0], v);
    }
  }

  /** With the channel empty, all pending snapshots are received, the last one last. */
  lemma {:induction false} FlushPending(cfg: Config, s: Sys, ls: seq<Label>, now: Time) returns (longer: seq<Label>)
    requires ValidRun(cfg, s, ls) && AllHarmless(ls, now)
    requires var m := Exec(cfg, s, ls); !m.loop.stopped && m.loop.queue == [] && m.pending != []
    ensures ValidRun(cfg, s, longer) && AllHarmless(longer, now) && Quiet(Exec(cfg, s, longer))
    ensures var m := Exec(cfg, s, ls); Exec(cfg, s, longer).loop.core.user == m.pending[|m.pending| - 1]
    decreases |Exec(cfg, s, ls).pending|
  {
    longer := ReceiveOne(cfg, s, ls, 0, now);
    if |Exec(cfg, s, ls).pending| > 1 {
      longer := FlushPending(cfg, s, longer, now);
    }
  }

  /** A held snapshot can be copied and then be the last to arrive. */
  lemma HeldCanArriveLast(cfg: Config, s: Sys, now: Time) returns (ls: seq<Label>)
    requires !s.loop.stopped
    ensures EndsWith(cfg, s, ls, BuildsOf(s.loop.core.user))
  {
    UnavailableCopies(s);
    OneLabel(cfg, s, UNAVAILABLE);
    var copied := Step(cfg, s, UNAVAILABLE);
    assert copied.pending[|copied.pending| - 1] == s.loop.core.user;
    var rest := Empty(cfg, copied, [], now);
    assert [] + rest == rest;
    rest := FlushPending(cfg, copied, rest, now);
    RunJoin(cfg, s, [UNAVAILABLE], rest);
    ls := [UNAVAILABLE] + rest;
  }

  lemma InPlayCanArriveLast(cfg: Config, s: Sys, u: User, now: Time) returns (ls: seq<Label>)
    requires !s.loop.stopped && InPlay(s, u)
    ensures EndsWith(cfg, s, ls, BuildsOf(u))
  {
    var first := BringToHand(cfg, s, u, now);
    var second := HeldCanArriveLast(cfg, Exec(cfg, s, first), now);
    RunJoin(cfg, s, first, second);
    ls := first + second;
  }

  /**
   The builds a live idler can end up with once no more build events come are exactly the
   builds of the snapshots in play: the held one, the queued ones and those still being sent.
   */
  lemma EndsExactly(cfg: Config, s: Sys, bs: Builds)
    requires !s.loop.stopped
    ensures CanEndWith(cfg, s, bs) <==> InPlayBuilds(s, bs)
  {
    if CanEndWith(cfg, s, bs) {
      var ls :| EndsWith(cfg, s, ls, bs);
      BuildsInPlayStay(cfg, s, ls, Exec(cfg, s, ls).loop.core.user);
    }
    if InPlayBuilds(s, bs) {
      var u :| InPlay(s, u) && BuildsOf(u) == bs;
      var ls := InPlayCanArriveLast(cfg, s, u, ZERO_TIME);
    }
  }

  /** Builds are kept for certain exactly when every snapshot in play carries them. */
  lemma SettlesExactly(cfg: Config, s: Sys, bs: Builds)
    requires !s.loop.stopped
    ensures Settles(cfg, s, bs) <==> forall u :: InPlay(s, u) ==> BuildsOf(u) == bs
  {
    forall other: Builds ensures CanEndWith(cfg, s, other) <==> InPlayBuilds(s, other) {
      EndsExactly(cfg, s, other);
    }
    if Settles(cfg, s, bs) {
      forall u | InPlay(s, u) ensures BuildsOf(u) == bs {
        assert InPlayBuilds(s, BuildsOf(u));
      }
    }
  }

  /**
   From any live state, quiet or not, a build event that changes the held builds can still be
   lost, and can still be kept: later events other than builds decide.
   */
  lemma ChangeIsOpen(cfg: Config, s: Sys, b: Build)
    requires !s.loop.stopped && Track(BuildsOf(s.loop.core.user), b) != BuildsOf(s.loop.core.user)
    ensures var s', held := Step(cfg, s, BuildEvent(b)), BuildsOf(s.loop.core.user);
            CanEndWith(cfg, s', held) && CanEndWith(cfg, s', Track(held, b)) && !Settles(cfg, s', Track(held, b))
  {
    var s', u := Step(cfg, s, BuildEvent(b)), s.loop.core.user;
    assert s'.pending[|s'.pending| - 1] == TrackUser(u, b);
    assert InPlay(s', u) && InPlay(s', TrackUser(u, b));
    EndsExactly(cfg, s', BuildsOf(u));
    EndsExactly(cfg, s', Track(BuildsOf(u), b));
  }
}
