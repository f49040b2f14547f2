/** The idle and un-idle requests of the REST interface (internal/api/api.go). */
module Api {
  import opened Wrappers
  import opened Model
  import opened IdlerSpec
  import opened Effects

  const OK := 200
  const BAD_REQUEST := 400
  const INTERNAL_SERVER_ERROR := 500
  const SERVICE_UNAVAILABLE := 503

  // ---------- strings.TrimSpace ----------

  /** `unicode.IsSpace`. Below U+0100 these are tab to carriage return, blank, U+0085 and U+00A0. */
  predicate IsSpace(c: char): (space: bool)
    ensures c as int < 0x100 ==> (space <==> c as int in {9, 10, 11, 12, 13, 32, 133, 160})
  {
    var n := c as int;
    || 0x09 <= n <= 0x0D || n == 0x20 || n == 0x85 || n == 0xA0 || n == 0x1680
    || 0x2000 <= n <= 0x200A || n == 0x2028 || n == 0x2029 || n == 0x202F || n == 0x205F || n == 0x3000
  }

  function TrimSpace(s: string): string {
    if s == [] then []
    else if IsSpace(s[0]) then TrimSpace(s[1..])
    else if IsSpace(s[|s| - 1]) then TrimSpace(s[..|s| - 1])
    else s
  }

  /** Trimming cuts white space off both ends, all of it, and nothing else. */
  lemma {:induction false} TrimSpaceCuts(s: string) returns (lo: nat, hi: nat)
    ensures lo <= hi <= |s| && TrimSpace(s) == s[lo..hi]
    ensures forall i :: 0 <= i < lo || hi <= i < |s| ==> IsSpace(s[i])
    ensures lo < hi ==> !IsSpace(s[lo]) && !IsSpace(s[hi - 1])
    decreases |s|
  {
    if s == [] {
      lo, hi := 0, 0;
    } else if IsSpace(s[0]) {
      lo, hi := TrimSpaceCuts(s[1..]);
      assert s[1..][lo..hi] == s[lo + 1..hi + 1];
      forall i | 0 < i < lo + 1 || hi + 1 <= i < |s| ensures IsSpace(s[i]) {
        assert s[1..][i - 1] == s[i];
      }
      lo, hi := lo + 1, hi + 1;
    } else if IsSpace(s[|s| - 1]) {
      var n := |s| - 1;
      lo, hi := TrimSpaceCuts(s[..n]);
      assert s[..n][lo..hi] == s[lo..hi];
      forall i | 0 <= i < lo || hi <= i < n ensures IsSpace(s[i]) {
        assert s[..n][i] == s[i];
      }
    } else {
      lo, hi := 0, |s|;
    }
  }

  // ---------- requests ----------

  /** The service loop of a request, which stops at the first failure. */
  method ScaleServices(op: ScaleOp, ns: string, services: seq<string>, reply: string -> Option<string>)
    returns (status: int, calls: seq<Call>)
    ensures calls == ServiceCalls(op, ns, services, reply)
    ensures status == if FirstFailure(services, reply).None? then 200 else 500
  {
    calls := [];
    for i := 0 to |services|
      invariant calls + ServiceCalls(op, ns, services[i..], reply) == ServiceCalls(op, ns, services, reply)
      invariant FirstFailure(services[i..], reply) == FirstFailure(services, reply)
    {
      assert services[i..][0] == services[i] && services[i..][1..] == services[i + 1..];
      calls := calls + [Call(op, ns, services[i], reply(services[i]).None?)];
      if reply(services[i]).Some? {
        return INTERNAL_SERVER_ERROR, calls;
      }
    }
    return OK, calls;
  }

  /** `knownCluster`: the request names a cluster the idler has a token for. */
  method Idle(knownCluster: bool, namespace: string, services: seq<string>, reply: string -> Option<string>)
    returns (status: int, calls: seq<Call>)
    ensures !knownCluster ==> status == 400 && calls == []
    ensures knownCluster ==>
              && calls == ServiceCalls(IdleOp, namespace, services, reply)
              && status == if FirstFailure(services, reply).None? then 200 else 500
  {
    if !knownCluster {
      return BAD_REQUEST, [];
    }
    status, calls := ScaleServices(IdleOp, namespace, services, reply);
  }

  /**
   Un-idling on request: no call is made for a running Jenkins, on a full cluster or when an
   answer is missing. The status tells these cases apart.
   */
  method UnIdle(knownCluster: bool, namespace: string, state: Result<PodState>, capacity: Result<bool>,
                services: seq<string>, reply: string -> Option<string>)
    returns (status: int, calls: seq<Call>)
    ensures var asked := knownCluster && TrimSpace(namespace) != "";
            var down := state in {Ok(PodStateUnknown), Ok(PodIdled)};
            var reaches := asked && down && capacity == Ok(false);
            var failed := reaches && FirstFailure(services, reply).Some?;
            && calls == (if reaches then ServiceCalls(UnIdleOp, TrimSpace(namespace), services, reply) else [])
            && (status == 400 <==> !asked)
            && (status == 503 <==> asked && down && capacity == Ok(true))
            && (status == 500 <==> asked && (state.Err? || (down && capacity.Err?) || failed))
            && status in {200, 400, 503, 500}
  {
    if !knownCluster {
      return BAD_REQUEST, [];
    }
    var ns := TrimSpace(namespace);
    if ns == "" {
      return BAD_REQUEST, [];
    }
    if state.Err? {
      return INTERNAL_SERVER_ERROR, [];
    }
    if state.value == PodStarting || state.value == PodRunning {
      return OK, [];
    }
    if capacity.Err? {
      return INTERNAL_SERVER_ERROR, [];
    }
    if capacity.value {
      return SERVICE_UNAVAILABLE, [];
    }
    status, calls := ScaleServices(UnIdleOp, ns, services, reply);
  }

  /**
   Whenever an idler's check scales up, a request for the same namespace under the same
   answers would have been let through and made the same calls. The converse does not hold:
   requests know neither the feature toggle nor the retry cap.
   */
  lemma RequestAllowsWhatCheckDoes(cfg: Config, c: Core, env: Env, namespace: string)
    requires TrimSpace(namespace) == JenkinsNamespace(c.user.name)
    requires HasOp(CheckIdle(cfg, c, env).calls, UnIdleOp)
    ensures TrimSpace(namespace) != "" && PodOf(c, env) == Ok(PodIdled) && CapacityOf(c, env) == Ok(false)
    ensures CheckIdle(cfg, c, env).calls == ServiceCalls(UnIdleOp, TrimSpace(namespace), cfg.services, env.reply)
  {
    var calls := CheckIdle(cfg, c, env).calls;
    CheckGuard(cfg, c, env);
    var call :| call in calls && call.op == UnIdleOp;
    var i :| 0 <= i < |calls| && calls[i] == call;
    assert MayUnIdle(cfg, c, env);
  }
}
