/** The set of users for whom idling is switched off (internal/model/stringset.go, internal/api/api.go). */
module DisabledUsers {
  import opened Wrappers

  function Elements(vs: seq<string>): set<string> {
    set v | v in vs
  }

  class StringSet {
    var internal: set<string>

    constructor ()
      ensures internal == {}
    {
      internal := {};
    }

    predicate Has(v: string)
      reads this
    {
      v in internal
    }

    method Add(vs: seq<string>)
      modifies this
      ensures internal == old(internal) + Elements(vs)
    {
      for i := 0 to |vs|
        invariant internal == old(internal) + Elements(vs[..i])
      {
        internal := internal + {vs[i]};
        assert vs[..i + 1] == vs[..i] + [vs[i]];
      }
      assert vs[..|vs|] == vs;
    }

    method Remove(vs: seq<string>)
      modifies this
      ensures internal == old(internal) - Elements(vs)
    {
      for i := 0 to |vs|
        invariant internal == old(internal) - Elements(vs[..i])
      {
        internal := internal - {vs[i]};
        assert vs[..i + 1] == vs[..i] + [vs[i]];
      }
      assert vs[..|vs|] == vs;
    }
  }

  /** The body of a status request. */
  datatype UserStatus = UserStatus(disable: seq<string>, enable: seq<string>)

  predicate Mentions(r: UserStatus, user: string) {
    user in r.disable || user in r.enable
  }

  /** The effect of one request: enabling takes precedence. */
  function Apply(disabled: set<string>, r: UserStatus): set<string> {
    (disabled + Elements(r.disable)) - Elements(r.enable)
  }

  /** The effect of a history of requests, oldest first. */
  function ApplyAll(disabled: set<string>, rs: seq<UserStatus>): set<string>
    decreases |rs|
  {
    if rs == [] then disabled else ApplyAll(Apply(disabled, rs[0]), rs[1..])
  }

  const STATUS_OK := 200
  const STATUS_BAD_REQUEST := 400

  method SetUserIdlerStatus(disabledUsers: StringSet, body: Result<UserStatus>) returns (status: int)
    modifies disabledUsers
    ensures body.Ok? ==> status == 200 && disabledUsers.internal == Apply(old(disabledUsers.internal), body.value)
    ensures body.Err? ==> status == 400 && disabledUsers.internal == old(disabledUsers.internal)
  {
    if body.Err? {
      return STATUS_BAD_REQUEST;
    }
    disabledUsers.Add(body.value.disable);
    disabledUsers.Remove(body.value.enable);
    return STATUS_OK;
  }

  /** The last request that mentions the user, or -1. */
  function LastMention(rs: seq<UserStatus>, user: string): (i: int)
    ensures -1 <= i < |rs|
    ensures i >= 0 ==> Mentions(rs[i], user)
    ensures forall j :: i < j < |rs| ==> !Mentions(rs[j], user)
  {
    if rs == [] then -1
    else if Mentions(rs[|rs| - 1], user) then |rs| - 1
    else LastMention(rs[..|rs| - 1], user)
  }

  lemma {:induction false} ApplyAllSnoc(disabled: set<string>, rs: seq<UserStatus>, r: UserStatus)
    ensures ApplyAll(disabled, rs + [r]) == Apply(ApplyAll(disabled, rs), r)
    decreases |rs|
  {
    if rs == [] {
      assert [r][1..] == [];
    } else {
      assert (rs + [r])[1..] == rs[1..] + [r];
      ApplyAllSnoc(Apply(disabled, rs[0]), rs[1..], r);
    }
  }

  /**
   After any history of requests a user is disabled exactly when the last request that
   mentions it lists it to be disabled and not to be enabled; if none mentions it, nothing
   has changed.
   */
  lemma {:induction false} DisabledHistory(disabled: set<string>, rs: seq<UserStatus>, user: string)
    ensures var i := LastMention(rs, user);
            user in ApplyAll(disabled, rs)
            <==> if i < 0 then user in disabled else user in rs[i].disable && user !in rs[i].enable
    decreases |rs|
  {
    if rs != [] {
      var n := |rs| - 1;
      assert rs == rs[..n] + [rs[n]];
      ApplyAllSnoc(disabled, rs[..n], rs[n]);
      DisabledHistory(disabled, rs[..n], user);
    }
  }
}
