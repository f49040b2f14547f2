/**
 Time based decisions (internal/condition) and the error collection they are gathered with
 (internal/util/multi_error.go).
 */
module ConditionEval {
  import opened Wrappers
  import opened Seqs
  import opened Model

  /** In the source an integer enumeration; `Rank` is the integer. */
  datatype Action = NoAction | Idle | UnIdle {
    function Rank(): int {
      match this
      case NoAction => 0
      case Idle => 1
      case UnIdle => 2
    }
  }

  datatype Verdict = Verdict(action: Action, err: Option<string>)

  /** A condition judges a user at its own reading of the clock. */
  type Condition = (User, Time) -> Verdict

  // ---------- the two installed conditions ----------

  function DcAction(idleAfter: int, u: User, now: Time): Action {
    if u.jenkinsLastUpdate == ZERO_TIME then NoAction
    else if now > u.jenkinsLastUpdate + idleAfter then Idle
    else UnIdle
  }

  function BuildAction(idleAfter: int, idleLongBuild: int, u: User, now: Time): Action {
    if !u.HasBuilds() then Idle
    else if u.HasActiveBuilds() then
      var b := u.activeBuild;
      if now > b.start + idleLongBuild then Idle
      else if b.phase == "New" && b.completion - b.start > TWO_SECONDS then Idle
      else UnIdle
    else if u.doneBuild.phase == "Cancelled" then Idle
    else if now > u.doneBuild.completion + idleAfter then Idle
    else UnIdle
  }

  function NewDCCondition(idleAfter: int): Condition {
    (u: User, now: Time) => Verdict(DcAction(idleAfter, u, now), None)
  }

  function NewBuildCondition(idleAfter: int, idleLongBuild: int): Condition {
    (u: User, now: Time) => Verdict(BuildAction(idleAfter, idleLongBuild, u, now), None)
  }

  function WatchConditions(idleAfter: int, idleLongBuild: int): map<string, Condition> {
    map["dc" := NewDCCondition(idleAfter), "build" := NewBuildCondition(idleAfter, idleLongBuild)]
  }

  // ---------- what a set of conditions says ----------

  /** `clock` gives the reading each condition takes when it is evaluated. */
  function Verdicts(conds: map<string, Condition>, u: User, clock: string -> Time): map<string, Verdict> {
    map name | name in conds :: conds[name](u, clock(name))
  }

  predicate Says(vs: map<string, Verdict>, a: Action) {
    exists name | name in vs :: vs[name].action == a
  }

  predicate AnyError(vs: map<string, Verdict>) {
    exists name | name in vs :: vs[name].err.Some?
  }

  /** The strongest opinion: un-idle beats idle beats no action. */
  function Strongest(vs: map<string, Verdict>): Action {
    if Says(vs, UnIdle) then UnIdle else if Says(vs, Idle) then Idle else NoAction
  }

  // ---------- the fold, and its independence of the iteration order ----------

  /** The running maximum of the evaluation loop. */
  function FoldAction(vs: seq<Verdict>): Action {
    if vs == [] then NoAction
    else
      var r := FoldAction(vs[..|vs| - 1]);
      var a := vs[|vs| - 1].action;
      if a.Rank() > r.Rank() then a else r
  }

  function FoldErrors(vs: seq<Verdict>): seq<string> {
    if vs == [] then []
    else
      var es := FoldErrors(vs[..|vs| - 1]);
      match vs[|vs| - 1].err
      case Some(e) => es + [e]
      case None => es
  }

  lemma {:induction false} FoldActionIsMax(vs: seq<Verdict>)
    ensures forall i :: 0 <= i < |vs| ==> vs[i].action.Rank() <= FoldAction(vs).Rank()
    ensures FoldAction(vs) == NoAction || exists i :: 0 <= i < |vs| && vs[i].action == FoldAction(vs)
  {
    if vs != [] {
      var n := |vs| - 1;
      FoldActionIsMax(vs[..n]);
      forall i | 0 <= i < |vs| ensures vs[i].action.Rank() <= FoldAction(vs).Rank() {
        if i < n { assert vs[i] == vs[..n][i]; }
      }
      if FoldAction(vs) != vs[n].action && FoldAction(vs) != NoAction {
        var i :| 0 <= i < n && vs[..n][i].action == FoldAction(vs);
        assert vs[i].action == FoldAction(vs);
      }
    }
  }

  /** The error bag of a list of verdicts, element by element. */
  function ErrorBag(vs: seq<Verdict>): multiset<string> {
    if vs == [] then multiset{}
    else ErrorBag(vs[1..]) + (if vs[0].err.Some? then multiset{vs[0].err.value} else multiset{})
  }

  lemma {:induction false} ErrorBagSnoc(vs: seq<Verdict>, v: Verdict)
    ensures ErrorBag(vs + [v]) == ErrorBag(vs) + (if v.err.Some? then multiset{v.err.value} else multiset{})
  {
    if vs == [] {
      assert (vs + [v])[1..] == [];
    } else {
      assert (vs + [v])[1..] == vs[1..] + [v];
      ErrorBagSnoc(vs[1..], v);
    }
  }

  lemma {:induction false} FoldErrorsBag(vs: seq<Verdict>)
    ensures multiset(FoldErrors(vs)) == ErrorBag(vs)
  {
    if vs != [] {
      var n := |vs| - 1;
      FoldErrorsBag(vs[..n]);
      ErrorBagSnoc(vs[..n], vs[n]);
      assert vs == vs[..n] + [vs[n]];
    }
  }

  lemma {:induction false} ErrorBagRemove(vs: seq<Verdict>, i: nat)
    requires i < |vs|
    ensures ErrorBag(vs)
            == ErrorBag(Without(vs, i)) + (if vs[i].err.Some? then multiset{vs[i].err.value} else multiset{})
  {
    if i == 0 {
      assert vs[1..] == Without(vs, 0);
    } else {
      ErrorBagRemove(vs[1..], i - 1);
      assert Without(vs, i)[1..] == Without(vs[1..], i - 1);
    }
  }

  lemma {:induction false} ErrorBagPermutation(a: seq<Verdict>, b: seq<Verdict>)
    requires multiset(a) == multiset(b)
    ensures ErrorBag(a) == ErrorBag(b)
  {
    if a == [] {
      assert |b| == |multiset(b)| == 0;
    } else {
      assert a[0] in multiset(b);
      var i :| 0 <= i < |b| && b[i] == a[0];
      WithoutOne(a, 0);
      assert Without(a, 0) == a[1..];
      WithoutOne(b, i);
      assert multiset(a[1..]) == multiset(a) - multiset{a[0]};
      assert multiset(Without(b, i)) == multiset(b) - multiset{b[i]};
      ErrorBagPermutation(a[1..], Without(b, i));
      ErrorBagRemove(b, i);
    }
  }

  lemma FoldActionMonotone(a: seq<Verdict>, b: seq<Verdict>)
    requires forall v :: v in a ==> v in b
    ensures FoldAction(a).Rank() <= FoldAction(b).Rank()
  {
    FoldActionIsMax(a);
    FoldActionIsMax(b);
    if FoldAction(a) != NoAction {
      var i :| 0 <= i < |a| && a[i].action == FoldAction(a);
      assert a[i] in b;
    }
  }

  /** Any two orders of the same verdicts give the same action and the same errors. */
  lemma OrderIndependence(a: seq<Verdict>, b: seq<Verdict>)
    requires multiset(a) == multiset(b)
    ensures FoldAction(a) == FoldAction(b)
    ensures multiset(FoldErrors(a)) == multiset(FoldErrors(b))
  {
    forall v ensures v in a <==> v in b {
      assert v in a <==> v in multiset(a);
      assert v in b <==> v in multiset(b);
    }
    FoldActionMonotone(a, b);
    FoldActionMonotone(b, a);
    FoldErrorsBag(a);
    FoldErrorsBag(b);
    ErrorBagPermutation(a, b);
  }

  /** The verdicts met when the conditions are visited in the given order. */
  function Along(vs: map<string, Verdict>, order: seq<string>): seq<Verdict>
    requires forall name :: name in order ==> name in vs
  {
    seq(|order|, i requires 0 <= i < |order| => vs[order[i]])
  }

  predicate Visits(order: seq<string>, names: set<string>) {
    && (forall name :: name in order ==> name in names)
    && (forall name :: name in names ==> name in order)
    && (forall i, j :: 0 <= i < j < |order| ==> order[i] != order[j])
  }

  /**
   Visiting a set of conditions in any order computes the strongest opinion, and collects
   an error exactly when some condition errs.
   */
  lemma AnyVisitingOrder(vs: map<string, Verdict>, order: seq<string>)
    requires Visits(order, vs.Keys)
    ensures FoldAction(Along(vs, order)) == Strongest(vs)
    ensures FoldErrors(Along(vs, order)) == [] <==> !AnyError(vs)
  {
    var visited := Along(vs, order);
    FoldActionIsMax(visited);
    forall name | name in vs ensures vs[name] in visited {
      var i :| 0 <= i < |order| && order[i] == name;
      assert visited[i] == vs[name];
    }
    FoldErrorsEmpty(visited);
    if FoldErrors(visited) != [] {
      var i :| 0 <= i < |visited| && visited[i].err.Some?;
      assert vs[order[i]].err.Some?;
    }
  }

  lemma {:induction false} FoldErrorsEmpty(vs: seq<Verdict>)
    ensures FoldErrors(vs) == [] <==> forall i :: 0 <= i < |vs| ==> vs[i].err.None?
  {
    if vs != [] {
      var n := |vs| - 1;
      FoldErrorsEmpty(vs[..n]);
      assert forall i :: 0 <= i < n ==> vs[..n][i] == vs[i];
    }
  }

  // ---------- time ----------

  /** What the installed conditions say together, each at its own clock reading. */
  function WatchAction(idleAfter: int, idleLongBuild: int, u: User, dcNow: Time, buildNow: Time): Action {
    var d, b := DcAction(idleAfter, u, dcNow), BuildAction(idleAfter, idleLongBuild, u, buildNow);
    if d.Rank() > b.Rank() then d else b
  }

  lemma WatchVerdicts(idleAfter: int, idleLongBuild: int, u: User, clock: string -> Time)
    ensures var vs := Verdicts(WatchConditions(idleAfter, idleLongBuild), u, clock);
            && !AnyError(vs)
            && Strongest(vs) == WatchAction(idleAfter, idleLongBuild, u, clock("dc"), clock("build"))
  {
    var vs := Verdicts(WatchConditions(idleAfter, idleLongBuild), u, clock);
    assert vs.Keys == {"dc", "build"};
    assert vs["dc"] == Verdict(DcAction(idleAfter, u, clock("dc")), None);
    assert vs["build"] == Verdict(BuildAction(idleAfter, idleLongBuild, u, clock("build")), None);
  }

  /** As time passes the joint opinion only weakens, never below Idle. */
  lemma OpinionWeakens(idleAfter: int, idleLongBuild: int, u: User, dc1: Time, build1: Time, dc2: Time, build2: Time)
    requires dc1 <= dc2 && build1 <= build2
    ensures WatchAction(idleAfter, idleLongBuild, u, dc2, build2).Rank()
            <= WatchAction(idleAfter, idleLongBuild, u, dc1, build1).Rank()
    ensures WatchAction(idleAfter, idleLongBuild, u, dc1, build1) != NoAction
    ensures WatchAction(idleAfter, idleLongBuild, u, dc1, build1) == Idle
            ==> WatchAction(idleAfter, idleLongBuild, u, dc2, build2) == Idle
  {
  }

  /**
   The decisions on the fields of the snapshot. The dc condition has no opinion exactly if
   there is no last update. The build condition wants Jenkins up exactly for an active build
   within its time, unless that is new and yet took more than two seconds, or without one for
   a done build that was not cancelled and completed within `idleAfter`.
   */
  lemma DecisionTable(idleAfter: int, idleLongBuild: int, u: User, now: Time)
    ensures DcAction(idleAfter, u, now) == NoAction <==> u.jenkinsLastUpdate == 0
    ensures DcAction(idleAfter, u, now) == UnIdle <==>
              u.jenkinsLastUpdate != 0 && now <= u.jenkinsLastUpdate + idleAfter
    ensures var a, d := u.activeBuild, u.doneBuild;
            BuildAction(idleAfter, idleLongBuild, u, now) ==
              if (a.name != "" && now <= a.start + idleLongBuild
                  && (a.phase == "New" ==> a.completion - a.start <= 2_000_000_000))
                 || (a.name == "" && d.name != "" && d.phase != "Cancelled" && now <= d.completion + idleAfter)
              then UnIdle else Idle
  {
  }

  /** The last moment at which something speaks for keeping Jenkins up, if anything ever does. */
  function KeepAliveUntil(idleAfter: int, idleLongBuild: int, u: User): Option<Time> {
    var dc := if u.jenkinsLastUpdate == ZERO_TIME then None else Some(u.jenkinsLastUpdate + idleAfter);
    var a, d := u.activeBuild, u.doneBuild;
    var build :=
      if a.name != "" then
        if a.phase == "New" && a.completion > a.start + 2_000_000_000 then None else Some(a.start + idleLongBuild)
      else if d.name != "" && d.phase != "Cancelled" then Some(d.completion + idleAfter)
      else None;
    if dc.None? then build
    else if build.None? || build.value < dc.value then dc
    else build
  }

  /** Jenkins is wanted exactly up to and including one moment, and is to be idled ever after. */
  lemma SingleDeadline(idleAfter: int, idleLongBuild: int, u: User, now: Time)
    ensures var until := KeepAliveUntil(idleAfter, idleLongBuild, u);
            WatchAction(idleAfter, idleLongBuild, u, now, now)
            == if until.Some? && now <= until.value then UnIdle else Idle
  {
  }

  /** The time after which a snapshot's builds no longer speak for un-idling. */
  predicate BuildsExpireBy(idleAfter: int, idleLongBuild: int, u: User, deadline: Time) {
    && (u.activeBuild.name != "" ==> u.activeBuild.start + idleLongBuild <= deadline)
    && (u.activeBuild.name == "" && u.doneBuild.name != "" ==> u.doneBuild.completion + idleAfter <= deadline)
  }

  // ---------- the objects ----------

  /** `util.MultiError`. */
  class MultiError {
    var errors: seq<string>

    constructor ()
      ensures errors == []
    {
      errors := [];
    }

    predicate Empty()
      reads this
    {
      |errors| == 0
    }

    method Collect(err: Option<string>)
      modifies this
      ensures errors == if err.Some? then old(errors) + [err.value] else old(errors)
    {
      if err.Some? {
        errors := errors + [err.value];
      }
    }
  }

  /** `condition.Conditions`: named conditions, evaluated in no particular order. */
  class Conditions {
    var conditions: map<string, Condition>

    constructor ()
      ensures conditions == map[]
    {
      conditions := map[];
    }

    method Add(name: string, condition: Condition)
      modifies this
      ensures conditions == old(conditions)[name := condition]
    {
      conditions := conditions[name := condition];
    }

    method Eval(u: User, clock: string -> Time) returns (result: Action, errors: MultiError)
      ensures fresh(errors)
      ensures result == Strongest(Verdicts(conditions, u, clock))
      ensures errors.Empty() <==> !AnyError(Verdicts(conditions, u, clock))
      ensures exists order: seq<string> ::
                && Visits(order, conditions.Keys)
                && errors.errors == FoldErrors(Along(Verdicts(conditions, u, clock), order))
    {
      ghost var vs := Verdicts(conditions, u, clock);
      errors := new MultiError();
      result := NoAction;
      var rest := conditions.Keys;
      ghost var order: seq<string> := [];
      while rest != {}
        invariant fresh(errors)
        invariant rest <= conditions.Keys
        invariant Visits(order, conditions.Keys - rest)
        invariant result == FoldAction(Along(vs, order))
        invariant errors.errors == FoldErrors(Along(vs, order))
        decreases rest
      {
        var name :| name in rest;
        var verdict := conditions[name](u, clock(name));
        errors.Collect(verdict.err);
        if verdict.action.Rank() > result.Rank() {
          result := verdict.action;
        }
        ghost var longer := Along(vs, order + [name]);
        assert longer[..|order|] == Along(vs, order) && longer[|order|] == verdict;
        rest, order := rest - {name}, order + [name];
      }
      assert Visits(order, vs.Keys);
      AnyVisitingOrder(vs, order);
    }
  }
}
