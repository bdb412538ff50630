/** The two halves of the lease protocol together: the controller's heartbeat and the agent's coordinator. */
module LeaseProtocol {
  import opened Basics
  import opened Sessions

  const SECOND: nat := 1_000_000_000

  function Max(x: nat, y: nat): nat {
    if x <= y then y else x
  }

  /** A third of the lease in whole seconds, and never under two seconds. */
  function RenewalInterval(leaseSeconds: nat): nat {
    Max(Max(leaseSeconds, 1) / 3 * SECOND, 2 * SECOND)
  }

  /** Two renewal intervals fit strictly inside the lease exactly when it is longer than four seconds. */
  lemma TwoIntervalsFit(lease: nat)
    ensures 2 * RenewalInterval(Seconds(lease)) < lease <==> lease > 4 * SECOND
  {
  }

  /**
    * The longest interval in whole seconds of which three fit into the lease, and two seconds if none of at least two
    * does.
    */
  lemma RenewalIntervalExactly(leaseSeconds: nat)
    ensures exists seconds: nat :: RenewalInterval(leaseSeconds) == seconds * SECOND && seconds >= 2
    ensures forall seconds: nat | seconds >= 2 ::
              seconds * SECOND <= RenewalInterval(leaseSeconds) <==> 3 * seconds <= leaseSeconds || seconds == 2
  {
    var seconds := Max(Max(leaseSeconds, 1) / 3, 2);
    assert RenewalInterval(leaseSeconds) == seconds * SECOND;
  }

  /** When the `k`-th tick of a heartbeat that started at `start` is due. */
  function Due(start: Time, interval: nat, k: nat): Time {
    if k == 0 then start else Due(start, interval, k - 1) + interval
  }

  /** When send `k` goes out: at its due time, or as soon as the answer to the one before it is in. */
  function SendTime(start: Time, interval: nat, took: seq<nat>, k: nat): Time
    requires k < |took|
  {
    if k == 0 then Due(start, interval, 1)
    else Max(Due(start, interval, k + 1), SendTime(start, interval, took, k - 1) + took[k - 1])
  }

  /** What the heartbeat sends, and when. */
  predicate IsHeartbeat(start: Time, interval: nat, took: seq<nat>, sent: seq<Time>) {
    |sent| == |took| && forall k | 0 <= k < |sent| :: sent[k] == SendTime(start, interval, took, k)
  }

  /** The heartbeat loop over its first sends; `took[k]` is how long the answer to send `k` took. */
  method Heartbeat(start: Time, interval: nat, took: seq<nat>) returns (sent: seq<Time>)
    ensures IsHeartbeat(start, interval, took, sent)
  {
    var clock, due := start, start;
    sent := [];
    hide SendTime, Max;
    for k := 0 to |took|
      invariant |sent| == k && due == Due(start, interval, k)
      invariant clock == if k == 0 then start else SendTime(start, interval, took, k - 1) + took[k - 1]
      invariant forall i | 0 <= i < k :: sent[i] == SendTime(start, interval, took, i)
    {
      SendTimeUnfolds(start, interval, took, k);
      due := due + interval;
      clock := Max(due, clock);
      sent := sent + [clock];
      clock := clock + took[k];
    }
  }

  lemma SendTimeUnfolds(start: Time, interval: nat, took: seq<nat>, k: nat)
    requires k < |took|
    ensures Due(start, interval, k + 1) == Due(start, interval, k) + interval >= start
    ensures SendTime(start, interval, took, k)
         == Max(Due(start, interval, k + 1),
                if k == 0 then start else SendTime(start, interval, took, k - 1) + took[k - 1])
  {
    DueGrows(start, interval, 0, k);
  }

  lemma {:induction false} DueGrows(start: Time, interval: nat, j: nat, k: nat)
    requires j <= k
    ensures Due(start, interval, j) <= Due(start, interval, k)
  {
    if j < k {
      DueGrows(start, interval, j, k - 1);
    }
  }

  lemma {:induction false} DueExactly(start: Time, interval: nat, k: nat)
    ensures Due(start, interval, k) == start + k * interval
  {
    if k > 0 {
      DueExactly(start, interval, k - 1);
    }
  }

  /** How long the answers to sends `j` up to but not including `k` took together. */
  function Total(took: seq<nat>, j: nat, k: nat): nat
    requires j <= k <= |took|
  {
    if j == k then 0 else Total(took, j, k - 1) + took[k - 1]
  }

  /** When send `k` would go out if it only had to wait for the answers since send `j`, on time itself. */
  function Waited(start: Time, interval: nat, took: seq<nat>, j: nat, k: nat): Time
    requires j <= k < |took|
  {
    Due(start, interval, j + 1) + Total(took, j, k)
  }

  /** A send goes out at the latest of these times: never ahead of schedule, and never later than it has to. */
  lemma {:induction false} SendsAsSoonAsItMay(start: Time, interval: nat, took: seq<nat>, k: nat)
    requires k < |took|
    ensures forall j: nat | j <= k :: Waited(start, interval, took, j, k) <= SendTime(start, interval, took, k)
    ensures exists j: nat :: j <= k && Waited(start, interval, took, j, k) == SendTime(start, interval, took, k)
    ensures Due(start, interval, k + 1) <= SendTime(start, interval, took, k)
  {
    SendTimeUnfolds(start, interval, took, k);
    hide SendTime;
    assert Waited(start, interval, took, k, k) == Due(start, interval, k + 1);
    if k > 0 {
      SendsAsSoonAsItMay(start, interval, took, k - 1);
      forall j: nat | j < k
        ensures Waited(start, interval, took, j, k) == Waited(start, interval, took, j, k - 1) + took[k - 1]
      {
      }
      var j: nat :| j <= k - 1 && Waited(start, interval, took, j, k - 1) == SendTime(start, interval, took, k - 1);
      assert Waited(start, interval, took, j, k) == SendTime(start, interval, took, k - 1) + took[k - 1];
    } else {
      assert Due(start, interval, 0) == start;
    }
  }

  /**
    * No drift. While answers come in within an interval each, a send is exactly as late as the backlog left from
    * an earlier send makes it; once the backlog is worked off it is on schedule again, and stays there.
    */
  lemma {:induction false} HeartbeatDoesNotDrift(start: Time, interval: nat, took: seq<nat>, earlier: nat, k: nat)
    requires earlier <= k < |took|
    requires forall i | earlier <= i < k :: took[i] <= interval
    ensures SendTime(start, interval, took, k)
         == Max(Due(start, interval, k + 1), SendTime(start, interval, took, earlier) + Total(took, earlier, k))
  {
    if earlier < k {
      HeartbeatDoesNotDrift(start, interval, took, earlier, k - 1);
      SendTimeUnfolds(start, interval, took, k);
    } else {
      SendsAsSoonAsItMay(start, interval, took, k);
    }
  }

  // ------------------------------------------------------------------
  // The lease is kept
  // ------------------------------------------------------------------

  predicate IsRenewal(session: ActiveSession, ev: Event) {
    ev.Renew? && ev.owner == session.owner && ev.claim == ClaimOf(session)
  }

  /** The coordinator right after it granted `session` at `granted`. */
  predicate JustGranted(lease: nat, st: State, session: ActiveSession, granted: Time) {
    st.active == Some(session) && st.expiresAt == Some(granted + lease)
  }

  predicate Ordered(granted: Time, run: seq<Event>) {
    && (forall i | 0 <= i < |run| :: granted <= run[i].now)
    && (forall i, j | 0 <= i < j < |run| :: run[i].now <= run[j].now)
  }

  /**
    * Renewal `k` reached the agent. It was due at the controller `k` intervals after the grant reached it;
    * the delay of the grant and of the renewal together stay under `slack`.
    */
  ghost predicate Arrived(session: ActiveSession, granted: Time, interval: nat, slack: nat, run: seq<Event>, k: nat) {
    exists i | 0 <= i < |run| ::
      IsRenewal(session, run[i])
      && Due(granted, interval, k) <= run[i].now < Due(granted, interval, k) + slack
  }

  /** Of any two renewals in a row that fall within the run, at least one arrived. */
  ghost predicate NoTwoInARowLost(session: ActiveSession, granted: Time, interval: nat, slack: nat, run: seq<Event>) {
    forall k: nat | k >= 1 && run != [] && Due(granted, interval, k + 1) + slack <= run[|run| - 1].now ::
      Arrived(session, granted, interval, slack, run, k) || Arrived(session, granted, interval, slack, run, k + 1)
  }

  /** Everything else may happen: other devices' calls, sweeps, stale claims; only the owner does not end it. */
  predicate OnlyRenewed(session: ActiveSession, run: seq<Event>) {
    forall ev | ev in run :: Entitled(session, ev) ==> ev.Renew?
  }

  /** Past the first two intervals, every moment falls between two consecutive latest arrivals. */
  lemma {:induction false} FindWindow(granted: Time, interval: nat, slack: nat, k: nat, now: Time) returns (window: nat)
    requires interval > 0 && Due(granted, interval, k) + slack <= now
    ensures window >= k
    ensures Due(granted, interval, window) + slack <= now < Due(granted, interval, window + 1) + slack
    decreases now - Due(granted, interval, k)
  {
    if now < Due(granted, interval, k + 1) + slack {
      window := k;
    } else {
      window := FindWindow(granted, interval, slack, k + 1, now);
    }
  }

  /** The state after the first `n` events: same session, same effects, and a deadline a lease past every renewal. */
  ghost predicate Held(lease: nat, st: State, session: ActiveSession, granted: Time, run: seq<Event>, n: nat)
    requires n <= |run|
  {
    var reached := Exec(lease, st, run[..n]);
    && reached.active == Some(session) && reached.effects == st.effects
    && reached.expiresAt.Some? && reached.expiresAt.value >= granted + lease
    && forall i | 0 <= i < n && IsRenewal(session, run[i]) :: reached.expiresAt.value >= run[i].now + lease
  }

  lemma HeldMeansLive(lease: nat, st: State, session: ActiveSession, granted: Time, interval: nat,
    run: seq<Event>, n: nat)
    requires n < |run| && 0 < 2 * interval < lease
    requires Ordered(granted, run)
    requires NoTwoInARowLost(session, granted, interval, lease - 2 * interval, run)
    requires Held(lease, st, session, granted, run, n)
    ensures Live(Exec(lease, st, run[..n]), run[n].now)
  {
    var slack := lease - 2 * interval;
    var now := run[n].now;
    assert Due(granted, interval, 2) == Due(granted, interval, 1) + interval == granted + 2 * interval;
    if Due(granted, interval, 2) + slack <= now {
      var window := FindWindow(granted, interval, slack, 2, now);
      var k := if Arrived(session, granted, interval, slack, run, window - 1) then window - 1 else window;
      assert Arrived(session, granted, interval, slack, run, k);
      var i :| 0 <= i < |run| && IsRenewal(session, run[i])
        && Due(granted, interval, k) <= run[i].now < Due(granted, interval, k) + slack;
      assert i < n;
      assert Due(granted, interval, window + 1) == Due(granted, interval, window - 1) + 2 * interval;
    }
  }

  lemma {:induction false} StaysHeld(lease: nat, st: State, session: ActiveSession, granted: Time, interval: nat,
                                     run: seq<Event>, n: nat)
    requires n <= |run| && 0 < 2 * interval < lease
    requires JustGranted(lease, st, session, granted) && Ordered(granted, run) && OnlyRenewed(session, run)
    requires NoTwoInARowLost(session, granted, interval, lease - 2 * interval, run)
    ensures Held(lease, st, session, granted, run, n)
  {
    if n > 0 {
      StaysHeld(lease, st, session, granted, interval, run, n - 1);
      HeldMeansLive(lease, st, session, granted, interval, run, n - 1);
      ExecSnoc(lease, st, run, n - 1);
      assert run[n - 1] in run;
    }
  }

  /** Event `n` finds the granted session live and in force, and leaves it to its owner. */
  predicate Kept(lease: nat, st: State, session: ActiveSession, run: seq<Event>, n: nat)
    requires n < |run|
  {
    var met := Exec(lease, st, run[..n]);
    && met.active == Some(session) && met.effects == st.effects && Live(met, run[n].now)
    && Snapshot(met, run[n].now) == Some(session)
    && (run[n].Attach? ==> GrantAnswer(lease, met, run[n]) == Err(OwnedByAnotherController))
    && (run[n].Sweep? ==> Next(lease, met, run[n]) == met)
    && (IsRenewal(session, run[n]) ==> GrantAnswer(lease, met, run[n]).Ok?)
  }

  /**
    * The agent's half, for runs of any length. If the owner only renews and of any two renewals in a row one
    * arrives in time, then at every event the session is still the granted one and live: no sweep expires it,
    * every other device's attach is turned away, and its shortcuts stay in force.
    */
  lemma LeaseIsKept(lease: nat, st: State, session: ActiveSession, granted: Time, run: seq<Event>, n: nat)
    requires 2 * RenewalInterval(Seconds(lease)) < lease && n < |run|
    requires JustGranted(lease, st, session, granted) && Ordered(granted, run) && OnlyRenewed(session, run)
    requires var interval := RenewalInterval(Seconds(lease));
             NoTwoInARowLost(session, granted, interval, lease - 2 * interval, run)
    ensures Kept(lease, st, session, run, n)
  {
    var interval := RenewalInterval(Seconds(lease));
    StaysHeld(lease, st, session, granted, interval, run, n);
    HeldMeansLive(lease, st, session, granted, interval, run, n);
    assert run[n] in run;
  }

  // ------------------------------------------------------------------
  // Both halves together
  // ------------------------------------------------------------------

  /** Every send that is not lost reaches the agent `transit[k]` later, unless the run ends before. */
  ghost predicate Delivered(session: ActiveSession, run: seq<Event>, sent: seq<Time>,
    transit: seq<nat>, lost: seq<bool>) {
    && |transit| == |lost| == |sent|
    && forall k | 0 <= k < |sent| && !lost[k] && run != [] && sent[k] + transit[k] <= run[|run| - 1].now ::
         exists i :: 0 <= i < |run| && IsRenewal(session, run[i]) && run[i].now == sent[k] + transit[k]
  }

  /** The network loses no two renewals in a row and delivers the others within `slack` of when they were due. */
  predicate Tolerable(granted: Time, interval: nat, slack: nat, sent: seq<Time>, transit: seq<nat>, lost: seq<bool>)
    requires |transit| == |lost| == |sent|
  {
    && (forall k | 0 < k < |sent| :: !lost[k - 1] || !lost[k])
    && (forall k | 0 <= k < |sent| && !lost[k] :: sent[k] + transit[k] < Due(granted, interval, k + 1) + slack)
  }

  lemma {:induction false} DueShifts(start: Time, delay: nat, interval: nat, k: nat)
    ensures Due(start + delay, interval, k) == Due(start, interval, k) + delay
  {
    if k > 0 {
      DueShifts(start, delay, interval, k - 1);
    }
  }

  lemma SendArrives(session: ActiveSession, granted: Time, delay: nat, interval: nat, slack: nat, took: seq<nat>,
                    sent: seq<Time>, transit: seq<nat>, lost: seq<bool>, run: seq<Event>, k: nat)
    requires IsHeartbeat(granted + delay, interval, took, sent) && Delivered(session, run, sent, transit, lost)
    requires Tolerable(granted, interval, slack, sent, transit, lost)
    requires k < |sent| && !lost[k] && run != [] && Due(granted, interval, k + 1) + slack <= run[|run| - 1].now
    ensures Arrived(session, granted, interval, slack, run, k + 1)
  {
    SendsAsSoonAsItMay(granted + delay, interval, took, k);
    DueShifts(granted, delay, interval, k + 1);
    assert sent[k] + transit[k] <= run[|run| - 1].now;
  }

  /** What the heartbeat sends is enough: of any two renewals in a row, one arrives in time. */
  lemma HeartbeatSuffices(session: ActiveSession, granted: Time, delay: nat, interval: nat, slack: nat, took: seq<nat>,
                          sent: seq<Time>, transit: seq<nat>, lost: seq<bool>, run: seq<Event>)
    requires IsHeartbeat(granted + delay, interval, took, sent) && Delivered(session, run, sent, transit, lost)
    requires Tolerable(granted, interval, slack, sent, transit, lost)
    requires run != [] ==> run[|run| - 1].now < Due(granted, interval, |sent| + 1) + slack
    ensures NoTwoInARowLost(session, granted, interval, slack, run)
  {
    forall k: nat | k >= 1 && run != [] && Due(granted, interval, k + 1) + slack <= run[|run| - 1].now
      ensures Arrived(session, granted, interval, slack, run, k)
           || Arrived(session, granted, interval, slack, run, k + 1)
    {
      if k >= |sent| {
        DueGrows(granted, interval, |sent| + 1, k + 1);
      }
      DueGrows(granted, interval, k, k + 1);
      var index := if lost[k - 1] then k else k - 1;
      SendArrives(session, granted, delay, interval, slack, took, sent, transit, lost, run, index);
    }
  }

  /**
    * The protocol keeps the lease. The controller learns of its grant after `delay`, runs the heartbeat from then
    * on, gets each answer within an interval, and the network never loses two renewals in a row nor takes longer
    * than two intervals leave of the lease. Then, at every event of a run of any length over which the heartbeat
    * keeps sending, the session is kept.
    */
  lemma HeartbeatKeepsTheLease(lease: nat, st: State, session: ActiveSession, granted: Time, delay: nat, took: seq<nat>,
                               sent: seq<Time>, transit: seq<nat>, lost: seq<bool>, run: seq<Event>, n: nat)
    requires lease > 4 * SECOND && n < |run|
    requires JustGranted(lease, st, session, granted) && Ordered(granted, run) && OnlyRenewed(session, run)
    requires IsHeartbeat(granted + delay, RenewalInterval(Seconds(lease)), took, sent)
    requires Delivered(session, run, sent, transit, lost)
    requires forall k | 0 < k < |sent| :: !lost[k - 1] || !lost[k]
    requires var interval := RenewalInterval(Seconds(lease));
             && (forall k | 0 <= k < |took| :: took[k] <= interval)
             && (forall k | 0 <= k < |sent| && !lost[k] :: delay + transit[k] < lease - 2 * interval)
             && run[|run| - 1].now < Due(granted, interval, |sent| + 1) + (lease - 2 * interval)
    ensures Kept(lease, st, session, run, n)
  {
    TwoIntervalsFit(lease);
    var interval := RenewalInterval(Seconds(lease));
    hide RenewalInterval, Kept, OnlyRenewed, Ordered, JustGranted, NoTwoInARowLost, IsHeartbeat, Due;
    PromptIsTolerable(granted, delay, interval, lease - 2 * interval, took, sent, transit, lost);
    HeartbeatSuffices(session, granted, delay, interval, lease - 2 * interval, took, sent, transit, lost, run);
    LeaseIsKept(lease, st, session, granted, run, n);
  }

  lemma PromptIsTolerable(granted: Time, delay: nat, interval: nat, slack: nat, took: seq<nat>, sent: seq<Time>,
                          transit: seq<nat>, lost: seq<bool>)
    requires IsHeartbeat(granted + delay, interval, took, sent) && |transit| == |lost| == |sent|
    requires forall k | 0 <= k < |took| :: took[k] <= interval
    requires forall k | 0 < k < |sent| :: !lost[k - 1] || !lost[k]
    requires forall k | 0 <= k < |sent| && !lost[k] :: delay + transit[k] < slack
    ensures Tolerable(granted, interval, slack, sent, transit, lost)
  {
    forall k | 0 <= k < |sent| && !lost[k]
      ensures sent[k] + transit[k] < Due(granted, interval, k + 1) + slack
    {
      SendsOnSchedule(granted + delay, interval, took, k);
      DueShifts(granted, delay, interval, k + 1);
    }
  }

  /** With every answer in within an interval, every send is on schedule. */
  lemma SendsOnSchedule(start: Time, interval: nat, took: seq<nat>, k: nat)
    requires k < |took| && forall i | 0 <= i < |took| :: took[i] <= interval
    ensures SendTime(start, interval, took, k) == Due(start, interval, k + 1)
  {
    HeartbeatDoesNotDrift(start, interval, took, 0, k);
    TotalIsShort(start, interval, took, k);
  }

  lemma {:induction false} TotalIsShort(start: Time, interval: nat, took: seq<nat>, k: nat)
    requires k <= |took| && forall i | 0 <= i < |took| :: took[i] <= interval
    ensures Due(start, interval, 1) + Total(took, 0, k) <= Due(start, interval, k + 1)
  {
    if k > 0 {
      TotalIsShort(start, interval, took, k - 1);
    }
  }

  // ------------------------------------------------------------------
  // The lease runs out
  // ------------------------------------------------------------------

  predicate LapsingAt(st: State, deadline: Time) {
    (st.active.None? && st.expiresAt.None?) || st.expiresAt == Some(deadline)
  }

  /**
    * Once renewals stop, the session disappears at its deadline to every reader, and the first sweep after it
    * whose cleanup succeeds removes it for good. Renewals that come too late do not bring it back.
    */
  lemma {:induction false} LeaseRunsOut(lease: nat, st: State, deadline: Time, run: seq<Event>, now: Time)
    requires LapsingAt(st, deadline) && now >= deadline
    requires forall ev | ev in run :: !ev.Attach? && (ev.Renew? ==> ev.now >= deadline)
    ensures LapsingAt(Exec(lease, st, run), deadline)
    ensures Snapshot(Exec(lease, st, run), now).None?
    ensures (exists ev :: ev in run && ev.Sweep? && ev.now >= deadline && ev.clear)
        ==> Exec(lease, st, run).active.None?
    ensures st.active.None? ==> Exec(lease, st, run).active.None?
    decreases run
  {
    if run != [] {
      var next := Next(lease, st, run[0]);
      assert run[0] in run;
      LeaseRunsOut(lease, next, deadline, run[1..], now);
      assert forall ev | ev in run :: ev == run[0] || ev in run[1..];
    }
  }
}
