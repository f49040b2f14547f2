/**
 One idler together with the controller's event handlers, as a state machine. A handler is
 split in two: it reads and edits the idler's user in one step, and its send is completed
 (or given up) in another, so any other step may fall in between.
 */
module IdlerMachine {
  import opened Wrappers
  import opened Seqs
  import opened Model
  import opened BuildTracking
  import opened IdlerSpec

  /** `pending`: snapshots of handlers that have read the user but not finished their send. */
  datatype Sys = Sys(loop: Loop, pending: seq<User>)

  function NewSys(u: User, interval: int, start: Time): Sys {
    Sys(NewLoop(u, interval, start), [])
  }

  datatype Label =
    | BuildEvent(b: Build)
    | DcEvent(s: DCStatus)
    | Deliver(i: nat)
    | Discard(i: nat)
    | Select(sig: Signal)

  /**
   The runtime hands a freed buffer slot to a blocked sender, so a send that times out does
   so on a full channel.
   */
  predicate Enabled(s: Sys, l: Label) {
    match l
    case BuildEvent(_) => true
    case DcEvent(_) => true
    case Deliver(i) => i < |s.pending| && |s.loop.queue| < BUFFER_SIZE
    case Discard(i) => i < |s.pending| && |s.loop.queue| == BUFFER_SIZE
    case Select(sig) => Ready(s.loop, sig)
  }

  /** The snapshot a handler wants to send, if any. */
  function Offered(s: Sys, l: Label): Option<User> {
    match l
    case BuildEvent(b) => TrackBuild(s.loop.core.user, b)
    case DcEvent(status) => TrackDc(s.loop.core.user, status)
    case _ => None
  }

  function Step(cfg: Config, s: Sys, l: Label): Sys
    requires Enabled(s, l)
  {
    match l
    case BuildEvent(_) =>
      var o := Offered(s, l);
      if o.Some? then s.(pending := s.pending + [o.value]) else s
    case DcEvent(_) =>
      var o := Offered(s, l);
      if o.Some? then s.(pending := s.pending + [o.value]) else s
    case Deliver(i) =>
      Sys(s.loop.(queue := s.loop.queue + [s.pending[i]]), Without(s.pending, i))
    case Discard(i) =>
      s.(pending := Without(s.pending, i))
    case Select(sig) =>
      s.(loop := Serve(cfg, s.loop, sig))
  }

  function StepCalls(cfg: Config, s: Sys, l: Label): seq<Call>
    requires Enabled(s, l)
  {
    if l.Select? then ServeCalls(cfg, s.loop, l.sig) else []
  }

  // ---------- runs ----------

  predicate ValidRun(cfg: Config, s: Sys, ls: seq<Label>)
    decreases |ls|
  {
    ls == [] || (Enabled(s, ls[0]) && ValidRun(cfg, Step(cfg, s, ls[0]), ls[1..]))
  }

  function Exec(cfg: Config, s: Sys, ls: seq<Label>): Sys
    requires ValidRun(cfg, s, ls)
    decreases |ls|
  {
    if ls == [] then s else Exec(cfg, Step(cfg, s, ls[0]), ls[1..])
  }

  /** The client calls of a run, in order. */
  function Calls(cfg: Config, s: Sys, ls: seq<Label>): seq<Call>
    requires ValidRun(cfg, s, ls)
    decreases |ls|
  {
    if ls == [] then [] else StepCalls(cfg, s, ls[0]) + Calls(cfg, Step(cfg, s, ls[0]), ls[1..])
  }

  lemma {:induction false} RunSplit(cfg: Config, s: Sys, ls: seq<Label>, k: nat)
    requires k <= |ls| && ValidRun(cfg, s, ls)
    ensures ValidRun(cfg, s, ls[..k])
    ensures ValidRun(cfg, Exec(cfg, s, ls[..k]), ls[k..])
    ensures Exec(cfg, s, ls) == Exec(cfg, Exec(cfg, s, ls[..k]), ls[k..])
    decreases k
  {
    if k == 0 {
      assert ls[0..] == ls;
    } else {
      RunSplit(cfg, Step(cfg, s, ls[0]), ls[1..], k - 1);
      assert ls[..k][1..] == ls[1..][..k - 1];
      assert ls[k..] == ls[1..][k - 1..];
    }
  }

  lemma {:induction false} RunJoin(cfg: Config, s: Sys, first: seq<Label>, second: seq<Label>)
    requires ValidRun(cfg, s, first) && ValidRun(cfg, Exec(cfg, s, first), second)
    ensures ValidRun(cfg, s, first + second)
    ensures Exec(cfg, s, first + second) == Exec(cfg, Exec(cfg, s, first), second)
    decreases |first|
  {
    if first == [] {
      assert first + second == second;
    } else {
      RunJoin(cfg, Step(cfg, s, first[0]), first[1..], second);
      assert (first + second)[1..] == first[1..] + second;
    }
  }

  lemma OneLabel(cfg: Config, s: Sys, l: Label)
    requires Enabled(s, l)
    ensures ValidRun(cfg, s, [l]) && Exec(cfg, s, [l]) == Step(cfg, s, l)
  {
    assert [l][1..] == [];
    assert Exec(cfg, Step(cfg, s, l), []) == Step(cfg, s, l);
  }

  lemma RunExtend(cfg: Config, s: Sys, ls: seq<Label>, l: Label)
    requires ValidRun(cfg, s, ls) && Enabled(Exec(cfg, s, ls), l)
    ensures ValidRun(cfg, s, ls + [l])
    ensures Exec(cfg, s, ls + [l]) == Step(cfg, Exec(cfg, s, ls), l)
  {
    OneLabel(cfg, Exec(cfg, s, ls), l);
    RunJoin(cfg, s, ls, [l]);
  }

  /** The state in which label `k` of a run is taken. */
  function At(cfg: Config, s: Sys, ls: seq<Label>, k: nat): (r: Sys)
    requires k < |ls| && ValidRun(cfg, s, ls)
    ensures Enabled(r, ls[k])
  {
    RunSplit(cfg, s, ls, k);
    assert ls[k..][0] == ls[k];
    Exec(cfg, s, ls[..k])
  }

  predicate IsCheck(l: Label) {
    l.Select? && Checks(l.sig)
  }

  // ---------- the loop inside the machine ----------

  /** What a label means for the select loop alone. */
  function TurnsOf(s: Sys, l: Label): seq<Turn>
    requires Enabled(s, l)
  {
    match l
    case Deliver(i) => [Arrives(s.pending[i])]
    case Select(sig) => [Serves(sig)]
    case _ => []
  }

  function Turns(cfg: Config, s: Sys, ls: seq<Label>): seq<Turn>
    requires ValidRun(cfg, s, ls)
    decreases |ls|
  {
    if ls == [] then [] else TurnsOf(s, ls[0]) + Turns(cfg, Step(cfg, s, ls[0]), ls[1..])
  }

  /** Every run of the machine is a schedule of the select loop with the same effects. */
  lemma {:induction false} RunsTheLoop(cfg: Config, s: Sys, ls: seq<Label>)
    requires ValidRun(cfg, s, ls)
    ensures Feasible(cfg, s.loop, Turns(cfg, s, ls))
    ensures RunLoop(cfg, s.loop, Turns(cfg, s, ls)) == Exec(cfg, s, ls).loop
    ensures RunCalls(cfg, s.loop, Turns(cfg, s, ls)) == Calls(cfg, s, ls)
    decreases |ls|
  {
    if ls != [] {
      var rest := Turns(cfg, Step(cfg, s, ls[0]), ls[1..]);
      RunsTheLoop(cfg, Step(cfg, s, ls[0]), ls[1..]);
      var turns := TurnsOf(s, ls[0]);
      if turns == [] {
        assert turns + rest == rest;
      } else {
        assert turns + rest == [turns[0]] + rest;
        assert (turns + rest)[1..] == rest;
        assert TakeTurn(cfg, s.loop, turns[0]) == Step(cfg, s, ls[0]).loop;
      }
    }
  }

  // ---------- the snapshots around ----------

  /** The held user, the queued ones and those still being sent. */
  ghost predicate InPlay(s: Sys, u: User) {
    u == s.loop.core.user || u in s.loop.queue || u in s.pending
  }

  /** The idler's state when a check starts. */
  function CheckedAt(s: Sys, l: Label): Core
    requires Enabled(s, l) && IsCheck(l)
  {
    Checked(s.loop, l.sig)
  }

  /** The user being checked was in play. */
  lemma CheckedInPlay(s: Sys, l: Label)
    requires Enabled(s, l) && IsCheck(l)
    ensures InPlay(s, CheckedAt(s, l).user)
  {
  }

  /** A step puts no snapshot in play but the one it offers and the one a check has edited. */
  lemma InPlayAfter(cfg: Config, s: Sys, l: Label, u: User)
    requires Enabled(s, l) && InPlay(Step(cfg, s, l), u)
    ensures || InPlay(s, u)
            || Offered(s, l) == Some(u)
            || (IsCheck(l) && u == CheckIdle(cfg, CheckedAt(s, l), l.sig.env).core.user)
  {
  }

  /** A check edits nothing but the last-update time and the status. */
  lemma CheckEditsLittle(cfg: Config, c: Core, env: Env)
    ensures var u := CheckIdle(cfg, c, env).core.user;
            && u == c.user.(jenkinsLastUpdate := u.jenkinsLastUpdate, idleStatus := u.idleStatus)
            && (u.jenkinsLastUpdate != c.user.jenkinsLastUpdate ==>
                  c.user.jenkinsLastUpdate == ZERO_TIME && u.jenkinsLastUpdate == env.write)
  {
  }

  // ---------- handlers that are not interrupted ----------

  /** What a channel holds after a handler's send with nobody receiving meanwhile. */
  function AfterSend(queue: seq<User>, offer: Option<User>): seq<User> {
    if offer.Some? && |queue| < BUFFER_SIZE then queue + [offer.value] else queue
  }

  /** A handler's read followed at once by the end of its send is the handler as one step. */
  lemma UninterruptedHandler(cfg: Config, s: Sys, l: Label)
    requires (l.BuildEvent? || l.DcEvent?) && s.pending == [] && |s.loop.queue| <= BUFFER_SIZE
    ensures var offer := if l.BuildEvent? then TrackBuild(s.loop.core.user, l.b) else TrackDc(s.loop.core.user, l.s);
            var rest := if offer.None? then []
                        else if |s.loop.queue| < BUFFER_SIZE then [Deliver(0)] else [Discard(0)];
            && ValidRun(cfg, s, [l] + rest)
            && Exec(cfg, s, [l] + rest) == s.(loop := s.loop.(queue := AfterSend(s.loop.queue, offer)))
  {
    OneLabel(cfg, s, l);
    assert [l] + [] == [l];
    if Offered(s, l).Some? {
      var s1 := Step(cfg, s, l);
      assert s1.pending == [Offered(s, l).value] && Without(s1.pending, 0) == [];
      RunExtend(cfg, s, [l], if |s.loop.queue| < BUFFER_SIZE then Deliver(0) else Discard(0));
    }
  }
}
