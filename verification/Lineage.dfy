/** Where the builds in a snapshot come from, over whole runs of one idler. */
module Lineage {
  import opened Wrappers
  import opened Model
  import opened BuildTracking
  import opened IdlerSpec
  import opened IdlerMachine

  /** The build events handled in a run, oldest first. */
  function BuildsSeen(ls: seq<Label>): seq<Build> {
    if ls == [] then []
    else (if ls[0].BuildEvent? then [ls[0].b] else []) + BuildsSeen(ls[1..])
  }

  ghost predicate AllStemFrom(s: Sys, events: seq<Build>) {
    forall u :: InPlay(s, u) ==> StemsFrom(BuildsOf(u), events)
  }

  lemma LineageStep(cfg: Config, s: Sys, l: Label, past: seq<Build>)
    requires Enabled(s, l) && AllStemFrom(s, past)
    ensures AllStemFrom(Step(cfg, s, l), past + BuildsSeen([l]))
  {
    var seen := past + BuildsSeen([l]);
    assert BuildsSeen([l]) == if l.BuildEvent? then [l.b] else [];
    forall u | InPlay(s, u) ensures StemsFrom(BuildsOf(u), seen) {
      if l.BuildEvent? {
        StemsFromLater(BuildsOf(u), past, l.b);
      } else {
        assert seen == past;
      }
    }
    forall u | InPlay(Step(cfg, s, l), u) ensures StemsFrom(BuildsOf(u), seen) {
      InPlayAfter(cfg, s, l, u);
      if Offered(s, l) == Some(u) {
        assert InPlay(s, s.loop.core.user);
        if l.BuildEvent? {
          StemsFromLater(BuildsOf(s.loop.core.user), past, l.b);
        }
      } else if !InPlay(s, u) {
        CheckedInPlay(s, l);
        CheckEditsLittle(cfg, CheckedAt(s, l), l.sig.env);
      }
    }
  }

  /**
   Snapshot lineage: in every reachable state, under any interleaving of handlers, sends,
   drops, receives and checks, the builds of each snapshot in play are what some of the
   handled build events, in order, leave behind.
   */
  lemma {:induction false} SnapshotLineage(cfg: Config, s: Sys, ls: seq<Label>, past: seq<Build>)
    requires ValidRun(cfg, s, ls) && AllStemFrom(s, past)
    ensures AllStemFrom(Exec(cfg, s, ls), past + BuildsSeen(ls))
    decreases |ls|
  {
    if ls == [] {
      assert past + [] == past;
    } else {
      LineageStep(cfg, s, ls[0], past);
      assert BuildsSeen([ls[0]]) + BuildsSeen(ls[1..]) == BuildsSeen(ls);
      assert (past + BuildsSeen([ls[0]])) + BuildsSeen(ls[1..]) == past + BuildsSeen(ls);
      SnapshotLineage(cfg, Step(cfg, s, ls[0]), ls[1..], past + BuildsSeen([ls[0]]));
    }
  }

  lemma FreshLineage(id: string, ns: string, interval: int, start: Time)
    ensures AllStemFrom(NewSys(NewUser(id, ns), interval, start), [])
  {
    forall u | InPlay(NewSys(NewUser(id, ns), interval, start), u) ensures StemsFrom(BuildsOf(u), []) {
      assert IsSubsequence([], []) && Fold(INITIAL_BUILDS, []) == BuildsOf(u);
    }
  }

  /**
   In every state reachable from a fresh idler, each snapshot in play records an active
   build with an active phase and a done build without one, and never the same build as both.
   */
  lemma SnapshotInvariant(cfg: Config, id: string, ns: string, interval: int, start: Time, ls: seq<Label>, u: User)
    requires ValidRun(cfg, NewSys(NewUser(id, ns), interval, start), ls)
    requires InPlay(Exec(cfg, NewSys(NewUser(id, ns), interval, start), ls), u)
    ensures IsActive(u.activeBuild) && !IsActive(u.doneBuild)
    ensures u.activeBuild.name == u.doneBuild.name ==> u.activeBuild.name == "" && u.doneBuild.name == ""
  {
    FreshLineage(id, ns, interval, start);
    SnapshotLineage(cfg, NewSys(NewUser(id, ns), interval, start), ls, []);
    assert [] + BuildsSeen(ls) == BuildsSeen(ls);
    var part :| IsSubsequence(part, BuildsSeen(ls)) && Fold(INITIAL_BUILDS, part) == BuildsOf(u);
    FoldKeepsConsistent(INITIAL_BUILDS, part);
  }

  // ---------- identity ----------

  ghost predicate AllBelongTo(s: Sys, name: string, id: string) {
    forall u :: InPlay(s, u) ==> u.name == name && u.id == id
  }

  lemma {:induction false} IdentityKept(cfg: Config, s: Sys, ls: seq<Label>, name: string, id: string)
    requires ValidRun(cfg, s, ls) && AllBelongTo(s, name, id)
    ensures AllBelongTo(Exec(cfg, s, ls), name, id)
    decreases |ls|
  {
    if ls != [] {
      var s' := Step(cfg, s, ls[0]);
      forall u | InPlay(s', u) ensures u.name == name && u.id == id {
        InPlayAfter(cfg, s, ls[0], u);
        assert InPlay(s, s.loop.core.user);
        if IsCheck(ls[0]) {
          CheckedInPlay(s, ls[0]);
          CheckEditsLittle(cfg, CheckedAt(s, ls[0]), ls[0].sig.env);
        }
      }
      IdentityKept(cfg, s', ls[1..], name, id);
    }
  }

  // ---------- the channel drained between events ----------

  predicate Quiet(s: Sys) {
    s.loop.queue == [] && s.pending == []
  }

  /** Handlers only read the user when no snapshot is on its way. */
  predicate Drained(cfg: Config, s: Sys, ls: seq<Label>)
    requires ValidRun(cfg, s, ls)
    decreases |ls|
  {
    || ls == []
    || (&& (ls[0].BuildEvent? || ls[0].DcEvent? ==> Quiet(s))
        && Drained(cfg, Step(cfg, s, ls[0]), ls[1..]))
  }

  predicate AtMostOneUnderway(s: Sys) {
    |s.loop.queue| + |s.pending| <= 1
  }

  /** The builds of the snapshot on its way, or else of the held user. */
  function Newest(s: Sys): Builds {
    if s.pending != [] then BuildsOf(s.pending[|s.pending| - 1])
    else if s.loop.queue != [] then BuildsOf(s.loop.queue[|s.loop.queue| - 1])
    else BuildsOf(s.loop.core.user)
  }

  lemma DrainedStep(cfg: Config, s: Sys, l: Label)
    requires Enabled(s, l) && AtMostOneUnderway(s)
    requires l.BuildEvent? || l.DcEvent? ==> Quiet(s)
    ensures AtMostOneUnderway(Step(cfg, s, l))
    ensures Newest(Step(cfg, s, l)) == Fold(Newest(s), BuildsSeen([l]))
  {
    assert BuildsSeen([l]) == if l.BuildEvent? then [l.b] else [];
    if l.BuildEvent? {
      assert [] + [l.b] == [l.b];
      FoldSnoc(Newest(s), [], l.b);
    }
    if IsCheck(l) {
      CheckEditsLittle(cfg, CheckedAt(s, l), l.sig.env);
    }
  }

  lemma {:induction false} DrainedNewest(cfg: Config, s: Sys, ls: seq<Label>)
    requires ValidRun(cfg, s, ls) && Drained(cfg, s, ls) && AtMostOneUnderway(s)
    ensures Newest(Exec(cfg, s, ls)) == Fold(Newest(s), BuildsSeen(ls))
    decreases |ls|
  {
    if ls != [] {
      DrainedStep(cfg, s, ls[0]);
      DrainedNewest(cfg, Step(cfg, s, ls[0]), ls[1..]);
      FoldSeen(Newest(s), ls);
    }
  }

  lemma FoldSeen(bs: Builds, ls: seq<Label>)
    requires ls != []
    ensures Fold(Fold(bs, BuildsSeen([ls[0]])), BuildsSeen(ls[1..])) == Fold(bs, BuildsSeen(ls))
  {
    assert [ls[0]][1..] == [];
    assert BuildsSeen([ls[0]]) + BuildsSeen(ls[1..]) == BuildsSeen(ls);
    FoldAppend(bs, BuildsSeen([ls[0]]), BuildsSeen(ls[1..]));
  }

  /**
   When the channel is drained between events no build event is lost: a quiet fresh idler
   holds exactly the builds that the closed form of the whole history names.
   */
  lemma DrainedHistory(cfg: Config, id: string, ns: string, interval: int, start: Time, ls: seq<Label>)
    requires ValidRun(cfg, NewSys(NewUser(id, ns), interval, start), ls)
    requires Drained(cfg, NewSys(NewUser(id, ns), interval, start), ls)
    requires Quiet(Exec(cfg, NewSys(NewUser(id, ns), interval, start), ls))
    ensures var u := Exec(cfg, NewSys(NewUser(id, ns), interval, start), ls).loop.core.user;
            && Key(u.doneBuild) == LatestDone(BuildsSeen(ls))
            && Key(u.activeBuild) == LatestActive(BuildsSeen(ls))
  {
    DrainedNewest(cfg, NewSys(NewUser(id, ns), interval, start), ls);
    HistoryClosedForm(BuildsSeen(ls));
  }

  /**
   Without draining a build event can be lost for good: a deployment config event handled
   before the build's snapshot is received carries the old builds, and arrives last.
   */
  lemma StaleSnapshotLosesBuild(cfg: Config, s: Sys, b: Build, status: DCStatus, e1: Env, e2: Env, at: Time)
    requires Quiet(s) && !s.loop.stopped
    requires Track(BuildsOf(s.loop.core.user), b) != BuildsOf(s.loop.core.user)
    requires TrackDc(s.loop.core.user, status).Some?
    ensures var ls := [BuildEvent(b), DcEvent(status), Deliver(0), Deliver(0),
                       Select(Received(e1, at)), Select(Received(e2, at))];
            && ValidRun(cfg, s, ls)
            && Quiet(Exec(cfg, s, ls))
            && BuildsOf(Exec(cfg, s, ls).loop.core.user) == BuildsOf(s.loop.core.user)
  {
    var first := BothUnderway(cfg, s, b, status);
    var mid := Exec(cfg, s, first);
    var l1, l2 := Select(Received(e1, at)), Select(Received(e2, at));
    RunExtend(cfg, s, first, l1);
    RunExtend(cfg, s, first + [l1], l2);
    CheckEditsLittle(cfg, CheckedAt(Exec(cfg, s, first + [l1]), l2), e2);
    assert first + [l1] + [l2] == [BuildEvent(b), DcEvent(status), Deliver(0), Deliver(0), l1, l2];
  }

  lemma BothUnderway(cfg: Config, s: Sys, b: Build, status: DCStatus) returns (ls: seq<Label>)
    requires Quiet(s)
    requires Track(BuildsOf(s.loop.core.user), b) != BuildsOf(s.loop.core.user)
    requires TrackDc(s.loop.core.user, status).Some?
    ensures ls == [BuildEvent(b), DcEvent(status), Deliver(0), Deliver(0)] && ValidRun(cfg, s, ls)
    ensures var u := s.loop.core.user;
            Exec(cfg, s, ls) == s.(loop := s.loop.(queue := [TrackUser(u, b), TrackDc(u, status).value]))
  {
    var v, w := TrackUser(s.loop.core.user, b), TrackDc(s.loop.core.user, status).value;
    OneLabel(cfg, s, BuildEvent(b));
    RunExtend(cfg, s, [BuildEvent(b)], DcEvent(status));
    ls := [BuildEvent(b), DcEvent(status)];
    assert ls == [BuildEvent(b)] + [DcEvent(status)];
    var mid := Exec(cfg, s, ls);
    assert mid.pending == [v, w];
    DeliverBoth(cfg, mid);
    RunJoin(cfg, s, ls, [Deliver(0), Deliver(0)]);
    ls := ls + [Deliver(0), Deliver(0)];
  }

  lemma DeliverBoth(cfg: Config, s: Sys)
    requires s.loop.queue == [] && |s.pending| == 2
    ensures var ls := [Deliver(0), Deliver(0)];
            ValidRun(cfg, s, ls) && Exec(cfg, s, ls) == Sys(s.loop.(queue := s.pending), [])
  {
    var one := Step(cfg, s, Deliver(0));
    OneLabel(cfg, s, Deliver(0));
    RunExtend(cfg, s, [Deliver(0)], Deliver(0));
    assert [Deliver(0)] + [Deliver(0)] == [Deliver(0), Deliver(0)];
    assert one.pending == [s.pending[1]];
    assert Step(cfg, one, Deliver(0)).loop.queue == s.pending;
  }
}
