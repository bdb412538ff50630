/** The agent monitor of a session: when a run of failed health checks ends it, and on whose account. */
module AgentMonitor {
  import opened Basics

  const AGENT_HEALTH_FAILURE_LIMIT: nat := 2

  /** One tick of the monitor: whether each agent answered its health check. */
  datatype Tick = Tick(local: bool, remote: bool)

  datatype Failure = LocalAgentUnavailable | RemoteAgentUnavailable

  datatype Side = Local | Remote

  predicate Answered(tick: Tick, side: Side) {
    if side == Local then tick.local else tick.remote
  }

  function AgentHealthFailure(localFailures: nat, remoteFailures: nat, limit: nat): Option<Failure> {
    if localFailures >= limit then Some(LocalAgentUnavailable)
    else if remoteFailures >= limit then Some(RemoteAgentUnavailable)
    else None
  }

  /** The last `limit` of the first `n` checks of one agent all failed. */
  predicate DownAfter(ticks: seq<Tick>, n: nat, side: Side, limit: nat)
    requires n <= |ticks|
  {
    limit <= n && forall k | n - limit <= k < n :: !Answered(ticks[k], side)
  }

  /** `failures` is how many checks in a row have failed, counted back from tick `n`. */
  predicate Counts(ticks: seq<Tick>, n: nat, side: Side, failures: nat)
    requires n <= |ticks|
  {
    && DownAfter(ticks, n, side, failures)
    && (failures < n ==> Answered(ticks[n - failures - 1], side))
  }

  lemma CountDecides(ticks: seq<Tick>, n: nat, side: Side, failures: nat, limit: nat)
    requires n <= |ticks| && Counts(ticks, n, side, failures)
    ensures failures >= limit <==> DownAfter(ticks, n, side, limit)
  {
    if failures < limit <= n {
      assert n - limit <= n - failures - 1 < n;
    }
  }

  /**
    * Watches ticks until a failure is due. It ends at the first tick that completes a run of
    * `AGENT_HEALTH_FAILURE_LIMIT` failed checks of one agent; a check that succeeds in between starts the count
    * again, and the local agent is named when both are down.
    */
  method MonitorAgents(ticks: seq<Tick>) returns (failure: Option<Failure>, seen: nat)
    ensures seen <= |ticks| && (failure.None? ==> seen == |ticks|)
    ensures failure == Some(LocalAgentUnavailable) <==> DownAfter(ticks, seen, Local, AGENT_HEALTH_FAILURE_LIMIT)
    ensures failure == Some(RemoteAgentUnavailable)
            <==> DownAfter(ticks, seen, Remote, AGENT_HEALTH_FAILURE_LIMIT)
                 && !DownAfter(ticks, seen, Local, AGENT_HEALTH_FAILURE_LIMIT)
    ensures forall n, side | 0 <= n < seen :: !DownAfter(ticks, n, side, AGENT_HEALTH_FAILURE_LIMIT)
  {
    var localFailures, remoteFailures := 0, 0;
    seen := 0;
    while seen < |ticks|
      invariant seen <= |ticks|
      invariant Counts(ticks, seen, Local, localFailures) && Counts(ticks, seen, Remote, remoteFailures)
      invariant forall n, side | 0 <= n <= seen :: !DownAfter(ticks, n, side, AGENT_HEALTH_FAILURE_LIMIT)
    {
      localFailures := if ticks[seen].local then 0 else localFailures + 1;
      remoteFailures := if ticks[seen].remote then 0 else remoteFailures + 1;
      seen := seen + 1;
      CountDecides(ticks, seen, Local, localFailures, AGENT_HEALTH_FAILURE_LIMIT);
      CountDecides(ticks, seen, Remote, remoteFailures, AGENT_HEALTH_FAILURE_LIMIT);
      failure := AgentHealthFailure(localFailures, remoteFailures, AGENT_HEALTH_FAILURE_LIMIT);
      if failure.Some? {
        return;
      }
    }
    failure := None;
  }
}
