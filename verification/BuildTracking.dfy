/**
 How build and deployment config events edit a user snapshot
 (internal/openshift/controller.go, the bodies of HandleBuild and HandleDeploymentConfig
 between reading the user and sending it), and what a history of events leaves behind.
 */
module BuildTracking {
  import opened Wrappers
  import opened Model

  datatype Builds = Builds(active: Build, done: Build)

  const INITIAL_BUILDS := Builds(CLEARED_BUILD, EMPTY_BUILD)

  function BuildsOf(u: User): Builds {
    Builds(u.activeBuild, u.doneBuild)
  }

  /** What the handler compares; "the only change" in most events is a timestamp. */
  function Key(b: Build): (string, string) {
    (b.name, b.phase)
  }

  /** The recorded builds before the clean-up of a finished active build. */
  function Recorded(bs: Builds, b: Build): Builds {
    if IsActive(b) then
      if Key(bs.active) != Key(b) then bs.(active := b) else bs
    else
      if Key(bs.done) != Key(b) then bs.(done := b) else bs
  }

  function Track(bs: Builds, b: Build): Builds {
    var r := Recorded(bs, b);
    if r.active.name == r.done.name then r.(active := CLEARED_BUILD) else r
  }

  /** Whether the handler sends the edited snapshot to the idler. */
  predicate Sends(bs: Builds, b: Build) {
    var r := Recorded(bs, b);
    || Key(if IsActive(b) then bs.active else bs.done) != Key(b)
    || r.active.name == r.done.name
  }

  function TrackUser(u: User, b: Build): User {
    var bs := Track(BuildsOf(u), b);
    u.(activeBuild := bs.active, doneBuild := bs.done)
  }

  /** The snapshot sent for a build event. None: nothing is sent. */
  function TrackBuild(u: User, b: Build): Option<User> {
    if Sends(BuildsOf(u), b) then Some(TrackUser(u, b)) else None
  }

  /** The snapshot sent for a deployment config event. None: nothing is sent. */
  function TrackDc(u: User, s: DCStatus): Option<User> {
    match FirstOfKind(s.conditions, AVAILABLE_CONDITION)
    case None => None
    case Some(c) =>
      match ParseBool(c.status)
      case None => None
      case Some(true) => Some(u.(jenkinsLastUpdate := c.lastUpdateTime))
      case Some(false) => Some(u)
  }

  /** An event that reports Jenkins available, and so may move `jenkinsLastUpdate`. */
  predicate ReportsAvailable(s: DCStatus) {
    var c := FirstOfKind(s.conditions, AVAILABLE_CONDITION);
    c.Some? && ParseBool(c.value.status) == Some(true)
  }

  /** The availability of the deployment config is reported, but is neither true nor false. */
  predicate Unparsable(s: DCStatus) {
    var c := FirstOfKind(s.conditions, AVAILABLE_CONDITION);
    c.Some? && ParseBool(c.value.status).None?
  }

  // ---------- what is sent, field by field ----------

  const YES: set<string> := {"1", "t", "T", "true", "TRUE", "True"}
  const NO: set<string> := {"0", "f", "F", "false", "FALSE", "False"}

  /** Entry `i` of the status is the first that tells about availability. */
  predicate TellsAvailability(s: DCStatus, i: int) {
    && 0 <= i < |s.conditions| && s.conditions[i].kind == "Available"
    && forall j :: 0 <= j < i ==> s.conditions[j].kind != "Available"
  }

  /**
   What a deployment config event sends: if its first "Available" entry reads as true, the
   held user with the time of that entry as last update and nothing else changed; if it reads
   as false, the held user; if it reads as neither or is missing, nothing.
   */
  lemma AvailabilitySent(u: User, s: DCStatus)
    ensures forall i :: TellsAvailability(s, i) ==>
              var c := s.conditions[i];
              && (c.status in YES ==> TrackDc(u, s) == Some(u.(jenkinsLastUpdate := c.lastUpdateTime)))
              && (c.status in NO ==> TrackDc(u, s) == Some(u))
              && (c.status !in YES + NO ==> TrackDc(u, s) == None)
              && (ReportsAvailable(s) <==> c.status in YES)
              && (Unparsable(s) <==> c.status !in YES + NO)
    ensures (forall c :: c in s.conditions ==> c.kind != "Available") ==>
              TrackDc(u, s) == None && !ReportsAvailable(s) && !Unparsable(s)
  {
    forall i | TellsAvailability(s, i) ensures FirstOfKind(s.conditions, "Available") == Some(s.conditions[i]) {
      FirstOfKindIs(s.conditions, "Available", i);
    }
    if forall c :: c in s.conditions ==> c.kind != "Available" {
      FirstOfKindIs(s.conditions, "Available", |s.conditions|);
    }
  }

  /**
   What a build event does to the snapshot. A build whose name or phase is news on its side is
   recorded as it is, times and all, and sent; a known one leaves the record as it is. In
   either case an active build that has the name of the done build is cleared, which is sent
   too. Nothing else in the snapshot changes.
   */
  lemma BuildSent(u: User, b: Build)
    ensures var active := b.phase in {"Pending", "New", "Running"};
            var known := if active then u.activeBuild else u.doneBuild;
            var news := known.name != b.name || known.phase != b.phase;
            var a, d := if active && news then b else u.activeBuild, if !active && news then b else u.doneBuild;
            TrackBuild(u, b) ==
              if news || a.name == d.name then
                Some(User(u.name, u.id, if a.name == d.name then Build("", "", "", "New", 0, 0) else a, d,
                          u.jenkinsLastUpdate, u.idleStatus))
              else None
  {
  }

  // ---------- invariant ----------

  /** The recorded done build is never also reported as active. */
  predicate Consistent(bs: Builds) {
    && IsActive(bs.active)
    && !IsActive(bs.done)
    && (bs.active.name == bs.done.name ==> bs.active.name == "")
  }

  lemma TrackKeepsConsistent(bs: Builds, b: Build)
    requires Consistent(bs)
    ensures Consistent(Track(bs, b))
  {
    assert IsActive(CLEARED_BUILD);
  }

  // ---------- replay ----------

  /**
   Handling an event a second time changes no build. It wakes the idler again exactly when
   both recorded names are empty, or the event reports the recorded done build as active.
   */
  lemma ReplayIdempotent(bs: Builds, b: Build)
    ensures var once := Track(bs, b);
            && Track(once, b) == once
            && (Sends(once, b) <==>
                || (once.active.name == "" && once.done.name == "")
                || (IsActive(b) && b.name == once.done.name))
  {
  }

  // ---------- histories ----------

  /** The builds left by a history of events, oldest first. */
  function Fold(bs: Builds, events: seq<Build>): Builds {
    if events == [] then bs
    else Track(Fold(bs, events[..|events| - 1]), events[|events| - 1])
  }

  lemma FoldSnoc(bs: Builds, events: seq<Build>, b: Build)
    ensures Fold(bs, events + [b]) == Track(Fold(bs, events), b)
  {
    assert (events + [b])[..|events|] == events;
  }

  lemma {:induction false} FoldAppend(bs: Builds, first: seq<Build>, second: seq<Build>)
    ensures Fold(bs, first + second) == Fold(Fold(bs, first), second)
    decreases |second|
  {
    if second == [] {
      assert first + second == first;
    } else {
      var n := |second| - 1;
      FoldAppend(bs, first, second[..n]);
      assert (first + second)[..|first| + n] == first + second[..n];
    }
  }

  lemma {:induction false} FoldKeepsConsistent(bs: Builds, events: seq<Build>)
    requires Consistent(bs)
    ensures Consistent(Fold(bs, events))
  {
    if events != [] {
      FoldKeepsConsistent(bs, events[..|events| - 1]);
      TrackKeepsConsistent(Fold(bs, events[..|events| - 1]), events[|events| - 1]);
    }
  }

  /** A history whose every event is delivered `times[i]` more times right after. */
  function Repeated(events: seq<Build>, times: seq<nat>): seq<Build>
    requires |events| == |times|
  {
    if events == [] then []
    else
      var n := |events| - 1;
      Repeated(events[..n], times[..n]) + seq(times[n] + 1, _ => events[n])
  }

  lemma {:induction false} FoldOneRepeated(bs: Builds, b: Build, n: nat)
    ensures Fold(bs, seq(n + 1, _ => b)) == Track(bs, b)
  {
    var all := seq(n + 1, _ => b);
    if n == 0 {
      assert all == [] + [b];
      FoldSnoc(bs, [], b);
    } else {
      assert all == seq(n, _ => b) + [b];
      FoldSnoc(bs, seq(n, _ => b), b);
      FoldOneRepeated(bs, b, n - 1);
      ReplayIdempotent(bs, b);
    }
  }

  /** Repeated delivery of events is invisible: the history leaves the same builds. */
  lemma {:induction false} RepeatsInvisible(bs: Builds, events: seq<Build>, times: seq<nat>)
    requires |events| == |times|
    ensures Fold(bs, Repeated(events, times)) == Fold(bs, events)
  {
    if events != [] {
      var n := |events| - 1;
      RepeatsInvisible(bs, events[..n], times[..n]);
      FoldAppend(bs, Repeated(events[..n], times[..n]), seq(times[n] + 1, _ => events[n]));
      FoldOneRepeated(Fold(bs, events[..n]), events[n], times[n]);
    }
  }

  /** Index of the most recent event that is active (or is not), or -1. */
  function Latest(events: seq<Build>, active: bool): (i: int)
    ensures -1 <= i < |events|
    ensures i >= 0 ==> IsActive(events[i]) == active
    ensures forall j :: i < j < |events| ==> IsActive(events[j]) != active
  {
    if events == [] then -1
    else if IsActive(events[|events| - 1]) == active then |events| - 1
    else Latest(events[..|events| - 1], active)
  }

  lemma LatestSnoc(events: seq<Build>, b: Build, active: bool)
    ensures Latest(events + [b], active) == if IsActive(b) == active then |events| else Latest(events, active)
  {
    assert (events + [b])[..|events|] == events;
  }

  /** (name, phase) of the most recent event that was not active. */
  function LatestDone(events: seq<Build>): (string, string) {
    var i := Latest(events, false);
    if i < 0 then ("", "") else Key(events[i])
  }

  /** At or after event `i` the most recently finished build had the name of event `i`. */
  ghost predicate FinishedSince(events: seq<Build>, i: nat)
    requires i < |events|
  {
    exists k :: i < k <= |events| && LatestDone(events[..k]).0 == events[i].name
  }

  lemma FinishedSinceSnoc(events: seq<Build>, b: Build, i: nat)
    requires i < |events|
    ensures FinishedSince(events + [b], i)
            <==> FinishedSince(events, i) || LatestDone(events + [b]).0 == events[i].name
  {
    var longer := events + [b];
    assert longer[..|longer|] == longer;
    forall k | 0 <= k <= |events| ensures longer[..k] == events[..k] {}
    if FinishedSince(events, i) {
      var k :| i < k <= |events| && LatestDone(events[..k]).0 == events[i].name;
      assert LatestDone(longer[..k]).0 == longer[i].name;
    }
    if LatestDone(longer).0 == events[i].name {
      assert LatestDone(longer[..|longer|]).0 == longer[i].name;
    }
  }

  /** One event, seen through keys only. */
  lemma TrackKeys(bs: Builds, b: Build)
    ensures var active := if IsActive(b) then Key(b) else Key(bs.active);
            var done := if IsActive(b) then Key(bs.done) else Key(b);
            && Key(Track(bs, b).done) == done
            && Key(Track(bs, b).active) == if active.0 == done.0 then ("", "New") else active
  {
  }

  /** (name, phase) of the active build according to the history. */
  ghost function LatestActive(events: seq<Build>): (string, string) {
    var i := Latest(events, true);
    if i < 0 || FinishedSince(events, i) then ("", "New") else Key(events[i])
  }

  lemma LatestDoneSnoc(events: seq<Build>, b: Build)
    ensures LatestDone(events + [b]) == if IsActive(b) then LatestDone(events) else Key(b)
  {
    LatestSnoc(events, b, false);
  }

  lemma LatestActiveSnoc(events: seq<Build>, b: Build)
    ensures var active := if IsActive(b) then Key(b) else LatestActive(events);
            LatestActive(events + [b])
            == if active.0 == LatestDone(events + [b]).0 then ("", "New") else active
  {
    LatestSnoc(events, b, true);
    var longer := events + [b];
    if IsActive(b) {
      assert longer[..|longer|] == longer;
      assert FinishedSince(longer, |events|) <==> LatestDone(longer[..|longer|]).0 == b.name;
    } else if Latest(events, true) >= 0 {
      FinishedSinceSnoc(events, b, Latest(events, true));
    }
  }

  /**
   The closed form of a history: the done build is that of the latest event that is not
   active; the active build is that of the latest active event, unless that build has been
   reported finished at or after it, and then it is the cleared build.
   */
  lemma {:induction false} HistoryClosedForm(events: seq<Build>)
    ensures Key(Fold(INITIAL_BUILDS, events).done) == LatestDone(events)
    ensures Key(Fold(INITIAL_BUILDS, events).active) == LatestActive(events)
  {
    if events != [] {
      var before, b := events[..|events| - 1], events[|events| - 1];
      assert events == before + [b];
      HistoryClosedForm(before);
      TrackKeys(Fold(INITIAL_BUILDS, before), b);
      LatestDoneSnoc(before, b);
      LatestActiveSnoc(before, b);
    }
  }

  /**
   Event `j` begins the last unbroken stretch of its side, active or not: the events after it
   on that side have its name and phase, the one before has not, or was reported finished
   before event `j`. An active stretch also ends when its build is reported finished.
   */
  ghost predicate BeginsStretch(events: seq<Build>, j: int, active: bool) {
    && 0 <= j < |events| && IsActive(events[j]) == active
    && (forall k :: j < k < |events| && IsActive(events[k]) == active ==> Key(events[k]) == Key(events[j]))
    && (active ==> !FinishedSince(events, j))
    && var p := Latest(events[..j], active);
       p < 0 || Key(events[p]) != Key(events[j]) || (active && FinishedSince(events[..j], p))
  }

  /** The build is the event that began the last unbroken stretch. */
  ghost predicate IsStretch(events: seq<Build>, b: Build, active: bool) {
    exists j :: BeginsStretch(events, j, active) && b == events[j]
  }

  lemma StretchGoesOn(events: seq<Build>, b: Build, held: Build, active: bool)
    requires IsStretch(events, held, active)
    requires IsActive(b) == active ==> Key(b) == Key(held)
    requires active ==> LatestDone(events + [b]).0 != held.name
    ensures IsStretch(events + [b], held, active)
  {
    var j :| BeginsStretch(events, j, active) && held == events[j];
    assert (events + [b])[..j] == events[..j];
    FinishedSinceSnoc(events, b, j);
    assert BeginsStretch(events + [b], j, active);
  }

  lemma StretchBegins(events: seq<Build>, b: Build)
    requires Key(b) != if IsActive(b) then LatestActive(events) else LatestDone(events)
    requires IsActive(b) ==> LatestDone(events + [b]).0 != b.name
    ensures IsStretch(events + [b], b, IsActive(b))
  {
    var longer := events + [b];
    assert longer[..|events|] == events && longer[..|longer|] == longer;
    assert BeginsStretch(longer, |events|, IsActive(b));
  }

  lemma RecordedDone(events: seq<Build>, b: Build, held: Build)
    requires Key(held) == LatestDone(events) && (held == EMPTY_BUILD || IsStretch(events, held, false))
    ensures var done := if !IsActive(b) && Key(held) != Key(b) then b else held;
            done == EMPTY_BUILD || IsStretch(events + [b], done, false)
  {
    if !IsActive(b) && Key(b) != Key(held) {
      StretchBegins(events, b);
    } else if held != EMPTY_BUILD {
      StretchGoesOn(events, b, held, false);
    }
  }

  lemma RecordedActive(events: seq<Build>, b: Build, held: Build)
    requires Key(held) == LatestActive(events) && (held == CLEARED_BUILD || IsStretch(events, held, true))
    ensures var active := if IsActive(b) && Key(held) != Key(b) then b else held;
            || active.name == LatestDone(events + [b]).0
            || active == CLEARED_BUILD
            || IsStretch(events + [b], active, true)
  {
    if IsActive(b) && Key(b) != Key(held) {
      if LatestDone(events + [b]).0 != b.name {
        StretchBegins(events, b);
      }
    } else if held != CLEARED_BUILD && LatestDone(events + [b]).0 != held.name {
      StretchGoesOn(events, b, held, true);
    }
  }

  /**
   Histories, whole builds: what is recorded is what the history began with, or one of the
   handled events itself, times and all: the one that began the last unbroken stretch of its
   side. Later events with the same name and phase leave no trace. By the closed form of the
   keys the first case is left only to builds without a name.
   */
  lemma {:induction false} RecordedEvents(events: seq<Build>)
    ensures var bs := Fold(INITIAL_BUILDS, events);
            && (bs.done == Build("", "", "", "", 0, 0) || IsStretch(events, bs.done, false))
            && (bs.active == Build("", "", "", "New", 0, 0) || IsStretch(events, bs.active, true))
            && (bs.done.name == "" <==> LatestDone(events).0 == "")
            && (bs.active.name == "" <==> LatestActive(events).0 == "")
  {
    HistoryClosedForm(events);
    if events != [] {
      var before, b := events[..|events| - 1], events[|events| - 1];
      assert events == before + [b];
      RecordedEvents(before);
      HistoryClosedForm(before);
      RecordedDone(before, b, Fold(INITIAL_BUILDS, before).done);
      RecordedActive(before, b, Fold(INITIAL_BUILDS, before).active);
    }
  }

  // ---------- provenance: histories with events missing ----------

  /** `a` is obtained from `b` by leaving elements out. */
  predicate IsSubsequence(a: seq<Build>, b: seq<Build>) {
    if a == [] then true
    else if b == [] then false
    else
      || (a[|a| - 1] == b[|b| - 1] && IsSubsequence(a[..|a| - 1], b[..|b| - 1]))
      || IsSubsequence(a, b[..|b| - 1])
  }

  lemma SubsequenceSnoc(a: seq<Build>, b: seq<Build>, x: Build)
    requires IsSubsequence(a, b)
    ensures IsSubsequence(a, b + [x])
    ensures IsSubsequence(a + [x], b + [x])
  {
    assert (b + [x])[..|b|] == b;
    assert (a + [x])[..|a|] == a;
  }

  /** These builds are what some of the events, in order, would leave behind. */
  ghost predicate StemsFrom(bs: Builds, events: seq<Build>) {
    exists part :: IsSubsequence(part, events) && Fold(INITIAL_BUILDS, part) == bs
  }

  lemma StemsFromLater(bs: Builds, events: seq<Build>, b: Build)
    requires StemsFrom(bs, events)
    ensures StemsFrom(bs, events + [b])
    ensures StemsFrom(Track(bs, b), events + [b])
  {
    var part :| IsSubsequence(part, events) && Fold(INITIAL_BUILDS, part) == bs;
    SubsequenceSnoc(part, events, b);
    FoldSnoc(INITIAL_BUILDS, part, b);
  }
}
