/** The controller of one cluster and the maps it keeps (internal/openshift). */
module Controllers {
  import opened Wrappers
  import opened Model
  import opened BuildTracking
  import opened DisabledUsers
  import opened Registry
  import opened Tenant
  import opened UserIdlers
  import opened ConditionEval
  import opened IdlerMachine

  class UserIdlerMap {
    var internal: map<string, UserIdler>

    constructor ()
      ensures internal == map[]
    {
      internal := map[];
    }

    function Load(namespace: string): Option<UserIdler>
      reads this
    {
      if namespace in internal then Some(internal[namespace]) else None
    }

    function Len(): nat
      reads this
    {
      |internal|
    }

    method Store(namespace: string, i: UserIdler)
      modifies this
      ensures internal == old(internal)[namespace := i]
      ensures Len() == old(Len()) + if namespace in old(internal) then 0 else 1
    {
      assert (internal[namespace := i]).Keys == internal.Keys + {namespace};
      internal := internal[namespace := i];
    }
  }

  class UnknownUsersMap {
    var internal: set<string>

    constructor ()
      ensures internal == {}
    {
      internal := {};
    }

    predicate Load(user: string)
      reads this
    {
      user in internal
    }

    method Store(user: string)
      modifies this
      ensures internal == old(internal) + {user}
    {
      internal := internal + {user};
    }
  }

  class Controller {
    const userIdlers: UserIdlerMap
    const unknownUsers: UnknownUsersMap
    const disabledUsers: StringSet
    const maxRetries: int
    const idleAfter: int
    const idleLongBuild: int

    constructor (userIdlers: UserIdlerMap, disabledUsers: StringSet, maxRetries: int, idleAfter: int,
                 idleLongBuild: int)
      ensures this.userIdlers == userIdlers && this.disabledUsers == disabledUsers
      ensures this.maxRetries == maxRetries && this.idleAfter == idleAfter && this.idleLongBuild == idleLongBuild
      ensures fresh(unknownUsers) && unknownUsers.internal == {}
    {
      var unknown := new UnknownUsersMap();
      this.userIdlers, this.unknownUsers, this.disabledUsers := userIdlers, unknown, disabledUsers;
      this.maxRetries, this.idleAfter, this.idleLongBuild := maxRetries, idleAfter, idleLongBuild;
    }

    /** Every idler belongs to the namespace it is stored under, and to no other. */
    ghost predicate Valid()
      reads userIdlers, userIdlers.internal.Values
    {
      && (forall n :: n in userIdlers.internal ==> userIdlers.internal[n].user.name == n)
      && (forall n, m :: n in userIdlers.internal && m in userIdlers.internal && n != m ==>
            userIdlers.internal[n] != userIdlers.internal[m])
    }

    function Resolution(ns: string, answer: Result<InfoList>): Resolution
      reads userIdlers, unknownUsers
    {
      Resolve(userIdlers.Load(ns).Some?, unknownUsers.Load(ns), answer)
    }

    method CreateIfNotExist(ns: string, answer: Result<InfoList>) returns (r: Result<bool>)
      requires Valid()
      modifies userIdlers, unknownUsers
      ensures Valid()
      ensures match old(Resolution(ns, answer))
              case Cached => r == Ok(true)
              case Listed => r == Ok(false)
              case Failed(msg) => r == Err(msg)
              case Stranger => r == Ok(false) && unknownUsers.internal == old(unknownUsers.internal) + {ns}
              case Create(id) =>
                && r == Ok(true) && ns in userIdlers.internal
                && var i := userIdlers.internal[ns];
                   fresh(i) && userIdlers.internal == old(userIdlers.internal)[ns := i]
                   && i.Core() == IdlerSpec.Core(NewUser(id, ns), 0, 0) && i.userChan == [] && i.calls == []
                   && fresh(i.conditions)
                   && i.Cfg() == IdlerSpec.Config(
                        maxRetries, ["jenkins"], WatchConditions(idleAfter, idleLongBuild))
      ensures ns in old(userIdlers.internal) ==> r == Ok(true)
      ensures ns !in old(userIdlers.internal) && r == Ok(true) ==>
                && answer.Ok? && answer.value.data != [] && ns in userIdlers.internal
                && userIdlers.internal[ns].user == User(
                     ns, answer.value.data[0].id, Build("", "", "", "New", 0, 0), Build("", "", "", "", 0, 0),
                     0, IdleStatus(0, false, ""))
      ensures !old(Resolution(ns, answer)).Stranger? ==> unknownUsers.internal == old(unknownUsers.internal)
      ensures !old(Resolution(ns, answer)).Create? ==> userIdlers.internal == old(userIdlers.internal)
      ensures r == Ok(true) ==> userIdlers.Load(ns).Some?
    {
      if userIdlers.Load(ns).Some? {
        return Ok(true);
      }
      if unknownUsers.Load(ns) {
        return Ok(false);
      }
      if answer.Err? {
        return Err(answer.error);
      }
      var ti := answer.value;
      if ti.totalCount > 1 {
        return Err("could not add new user - Tenant service returned multiple items");
      } else if |ti.data| == 0 {
        unknownUsers.Store(ns);
        return Ok(false);
      }
      var user := NewUser(ti.data[0].id, ns);
      var userIdler := new UserIdler(user, maxRetries, idleAfter, idleLongBuild);
      userIdlers.Store(ns, userIdler);
      return Ok(true);
    }

    /** The part of `HandleBuild` between reading the user and sending it. */
    static method EditForBuild(read: User, b: Build) returns (user: User, evalConditions: bool)
      ensures user == TrackUser(read, b) && evalConditions == Sends(BuildsOf(read), b)
    {
      user := read;
      evalConditions := false;
      if IsActive(b) {
        if user.activeBuild.phase != b.phase || user.activeBuild.name != b.name {
          user := user.(activeBuild := b);
          evalConditions := true;
        }
      } else {
        if user.doneBuild.phase != b.phase || user.doneBuild.name != b.name {
          user := user.(doneBuild := b);
          evalConditions := true;
        }
      }
      if user.activeBuild.name == user.doneBuild.name {
        user := user.(activeBuild := CLEARED_BUILD);
        evalConditions := true;
      }
    }

    /** The part of `HandleBuild` that follows once the namespace has an idler. */
    method SendForBuild(userIdler: UserIdler, b: Build)
      modifies userIdler`userChan
      ensures userIdler.userChan
              == AfterSend(old(userIdler.userChan),
                   if userIdler.user.name in disabledUsers.internal then None else TrackBuild(userIdler.user, b))
    {
      if disabledUsers.Has(userIdler.user.name) {
        return;
      }
      var user, evalConditions := EditForBuild(userIdler.user, b);
      if evalConditions {
        var _ := userIdler.Send(user);
      }
    }

    method HandleBuild(b: Build, answer: Result<InfoList>) returns (err: Option<string>)
      requires Valid()
      modifies userIdlers, unknownUsers
      modifies if b.namespace in userIdlers.internal then {userIdlers.internal[b.namespace]} else {}
      ensures Valid()
      ensures err == var r := old(Resolution(b.namespace, answer)); if r.Failed? then Some(r.msg) else None
      ensures unknownUsers.internal
              == old(unknownUsers.internal)
                 + if old(Resolution(b.namespace, answer)).Stranger? then {b.namespace} else {}
      ensures b.namespace in old(userIdlers.internal) ==>
                var i := old(userIdlers.internal[b.namespace]);
                && userIdlers.internal == old(userIdlers.internal)
                && i.Core() == old(i.Core()) && i.calls == old(i.calls)
                && i.userChan == AfterSend(old(i.userChan),
                     if i.user.name in disabledUsers.internal then None else TrackBuild(i.user, b))
      ensures match old(Resolution(b.namespace, answer))
              case Create(id) =>
                var u := NewUser(id, b.namespace);
                && b.namespace in userIdlers.internal
                && var i := userIdlers.internal[b.namespace];
                   && fresh(i) && i.Core() == IdlerSpec.Core(u, 0, 0)
                   && userIdlers.internal == old(userIdlers.internal)[b.namespace := i]
                   && i.userChan == AfterSend([],
                        if u.name in disabledUsers.internal then None else TrackBuild(u, b))
              case _ => userIdlers.internal == old(userIdlers.internal)
      ensures forall n :: n in old(userIdlers.internal) && n != b.namespace ==>
                n in userIdlers.internal && userIdlers.internal[n] == old(userIdlers.internal[n])
                && unchanged(old(userIdlers.internal[n]))
    {
      var ok := CreateIfNotExist(b.namespace, answer);
      if ok.Err? {
        return Some(ok.error);
      }
      if !ok.value {
        return None;
      }
      SendForBuild(userIdlers.Load(b.namespace).value, b);
      return None;
    }

    /** The part of `HandleDeploymentConfig` that follows once the namespace has an idler. */
    method SendForDeploymentConfig(userIdler: UserIdler, s: DCStatus) returns (err: Option<string>)
      modifies userIdler`userChan
      ensures err.Some? <==> userIdler.user.name !in disabledUsers.internal && Unparsable(s)
      ensures userIdler.userChan
              == AfterSend(old(userIdler.userChan),
                   if userIdler.user.name in disabledUsers.internal then None else TrackDc(userIdler.user, s))
    {
      var user := userIdler.user;
      if disabledUsers.Has(user.name) {
        return None;
      }
      var availability := GetByType(s, AVAILABLE_CONDITION);
      if availability.None? {
        return None;
      }
      var available := ParseBool(availability.value.status);
      if available.None? {
        return Some("could not parse available condition status");
      }
      if available.value {
        user := user.(jenkinsLastUpdate := availability.value.lastUpdateTime);
      }
      var _ := userIdler.Send(user);
      return None;
    }

    method HandleDeploymentConfig(dc: DeploymentConfig, answer: Result<InfoList>) returns (err: Option<string>)
      requires Valid() && WatchedDc(dc)
      modifies userIdlers, unknownUsers
      modifies if TenantNamespace(dc) in userIdlers.internal then {userIdlers.internal[TenantNamespace(dc)]} else {}
      ensures Valid()
      ensures unknownUsers.internal
              == old(unknownUsers.internal)
                 + if old(Resolution(TenantNamespace(dc), answer)).Stranger? then {TenantNamespace(dc)} else {}
      ensures var r := old(Resolution(TenantNamespace(dc), answer));
              err.Some? <==>
                || r.Failed?
                || ((r.Cached? || r.Create?) && TenantNamespace(dc) !in disabledUsers.internal
                    && Unparsable(dc.status))
      ensures TenantNamespace(dc) in old(userIdlers.internal) ==>
                var i := old(userIdlers.internal[TenantNamespace(dc)]);
                && userIdlers.internal == old(userIdlers.internal)
                && i.Core() == old(i.Core()) && i.calls == old(i.calls)
                && i.userChan == AfterSend(old(i.userChan),
                     if i.user.name in disabledUsers.internal then None else TrackDc(i.user, dc.status))
      ensures match old(Resolution(TenantNamespace(dc), answer))
              case Create(id) =>
                var ns, u := TenantNamespace(dc), NewUser(id, TenantNamespace(dc));
                && ns in userIdlers.internal
                && var i := userIdlers.internal[ns];
                   && fresh(i) && i.Core() == IdlerSpec.Core(u, 0, 0)
                   && userIdlers.internal == old(userIdlers.internal)[ns := i]
                   && i.userChan == AfterSend([],
                        if u.name in disabledUsers.internal then None else TrackDc(u, dc.status))
              case _ => userIdlers.internal == old(userIdlers.internal)
      ensures forall n :: n in old(userIdlers.internal) && n != TenantNamespace(dc) ==>
                n in userIdlers.internal && userIdlers.internal[n] == old(userIdlers.internal[n])
                && unchanged(old(userIdlers.internal[n]))
    {
      var ns := TenantNamespace(dc);
      var ok := CreateIfNotExist(ns, answer);
      if ok.Err? {
        return Some(ok.error);
      }
      if !ok.value {
        return None;
      }
      err := SendForDeploymentConfig(userIdlers.Load(ns).value, dc.status);
    }
  }
}
