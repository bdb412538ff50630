/** Single-use pairing challenges with per-owner limits, and the bounds they keep over whole runs. */
module Pairing {
  import opened Basics

  type Time = nat
  type Owner = string
  type Id = string

  const MAX_OUTSTANDING_PER_OWNER: nat := 2
  const MAX_ISSUES_PER_WINDOW: nat := 5
  const ISSUE_WINDOW: nat := 300_000_000_000
  const MAX_TRACKED_OWNERS: nat := 256

  datatype Challenge = Challenge(owner: Owner, expiresAt: Time)

  datatype Counter = Counter(issues: nat, startedAt: Option<Time>)

  /** `drawn` collects every identifier ever drawn; identifiers are random and never repeat. */
  datatype State = State(issued: map<Id, Challenge>, counters: map<Owner, Counter>, drawn: set<Id>)

  datatype Error = RateLimited | UnknownChallenge

  datatype Event =
    | Issue(owner: Owner, id: Id, now: Time)
    | Consume(owner: Owner, id: Id, now: Time)

  // ------------------------------------------------------------------
  // Specification of one step
  // ------------------------------------------------------------------

  function Pending(issued: map<Id, Challenge>, now: Time): map<Id, Challenge> {
    map id | id in issued && issued[id].expiresAt > now :: issued[id]
  }

  predicate InWindow(counter: Counter, now: Time) {
    counter.startedAt.Some? && Elapsed(now, counter.startedAt.value) < ISSUE_WINDOW
  }

  function Current(counters: map<Owner, Counter>, now: Time): map<Owner, Counter> {
    map owner | owner in counters && InWindow(counters[owner], now) :: counters[owner]
  }

  function OwnedBy(issued: map<Id, Challenge>, owner: Owner): set<Id> {
    set id | id in issued && issued[id].owner == owner
  }

  /** The issue is counted and may go on to the table. */
  predicate Admits(st: State, owner: Owner, now: Time) {
    var current := Current(st.counters, now);
    if owner in current then current[owner].issues < MAX_ISSUES_PER_WINDOW
    else |current| < MAX_TRACKED_OWNERS
  }

  function Counted(st: State, owner: Owner, now: Time): map<Owner, Counter> {
    var current := Current(st.counters, now);
    if !Admits(st, owner, now) then current
    else if owner in current then current[owner := current[owner].(issues := current[owner].issues + 1)]
    else current[owner := Counter(1, Some(now))]
  }

  predicate Issues(st: State, owner: Owner, now: Time) {
    Admits(st, owner, now) && |OwnedBy(Pending(st.issued, now), owner)| < MAX_OUTSTANDING_PER_OWNER
  }

  predicate Consumes(st: State, owner: Owner, id: Id, now: Time) {
    id in Pending(st.issued, now) && st.issued[id].owner == owner
  }

  function Next(ttl: nat, st: State, ev: Event): State {
    match ev
    case Issue(owner, id, now) =>
      var counted := st.(counters := Counted(st, owner, now));
      if !Admits(st, owner, now) then counted
      else if !Issues(st, owner, now) then counted.(issued := Pending(st.issued, now))
      else counted.(issued := Pending(st.issued, now)[id := Challenge(owner, now + ttl)], drawn := st.drawn + {id})
    case Consume(owner, id, now) =>
      var pending := Pending(st.issued, now);
      st.(issued := if Consumes(st, owner, id, now) then pending - {id} else pending)
  }

  // ------------------------------------------------------------------
  // The challenge table as an object
  // ------------------------------------------------------------------

  class PairingChallenges {
    var issued: map<Id, Challenge>
    var counters: map<Owner, Counter>
    const ttl: nat
    ghost var drawn: set<Id>

    ghost function Model(): State
      reads this
    {
      State(issued, counters, drawn)
    }

    constructor (ttl: nat)
      ensures this.ttl == ttl && Model() == State(map[], map[], {})
    {
      this.issued, this.counters, this.ttl, this.drawn := map[], map[], ttl, {};
    }

    method AdmitIssue(owner: Owner, now: Time) returns (admitted: bool)
      modifies this`counters
      ensures admitted == Admits(old(Model()), owner, now)
      ensures counters == Counted(old(Model()), owner, now)
    {
      counters := map tracked | tracked in counters && InWindow(counters[tracked], now) :: counters[tracked];
      if |counters| >= MAX_TRACKED_OWNERS && owner !in counters {
        return false;
      }
      var counter := if owner in counters then counters[owner] else Counter(0, None);
      if !InWindow(counter, now) {
        counter := Counter(0, Some(now));
      }
      if counter.issues >= MAX_ISSUES_PER_WINDOW {
        return false;
      }
      counters := counters[owner := counter.(issues := counter.issues + 1)];
      return true;
    }

    /** `drawnId` is the identifier the random source would draw. */
    method IssueChallenge(owner: Owner, drawnId: Id, now: Time) returns (answer: Result<Id, Error>)
      modifies this
      ensures answer == if Issues(old(Model()), owner, now) then Ok(drawnId) else Err(RateLimited)
      ensures Model() == Next(ttl, old(Model()), Issue(owner, drawnId, now))
    {
      var admitted := AdmitIssue(owner, now);
      if !admitted {
        return Err(RateLimited);
      }
      issued := map id | id in issued && issued[id].expiresAt > now :: issued[id];
      var outstanding := |set id | id in issued && issued[id].owner == owner|;
      if outstanding >= MAX_OUTSTANDING_PER_OWNER {
        return Err(RateLimited);
      }
      issued := issued[drawnId := Challenge(owner, now + ttl)];
      drawn := drawn + {drawnId};
      return Ok(drawnId);
    }

    method ConsumeChallenge(owner: Owner, id: Id, now: Time) returns (answer: Result<(), Error>)
      modifies this`issued
      ensures answer == if Consumes(old(Model()), owner, id, now) then Ok(()) else Err(UnknownChallenge)
      ensures Model() == Next(ttl, old(Model()), Consume(owner, id, now))
    {
      issued := map other | other in issued && issued[other].expiresAt > now :: issued[other];
      if id in issued && issued[id].owner == owner {
        issued := issued - {id};
        return Ok(());
      }
      return Err(UnknownChallenge);
    }
  }

  // ------------------------------------------------------------------
  // Runs
  // ------------------------------------------------------------------

  function Initial(): State {
    State(map[], map[], {})
  }

  /** The state after the first `n` events of a run from the empty table. */
  function At(ttl: nat, run: seq<Event>, n: nat): State
    requires n <= |run|
  {
    if n == 0 then Initial() else Next(ttl, At(ttl, run, n - 1), run[n - 1])
  }

  /** Lock order is time order. */
  predicate Ordered(run: seq<Event>) {
    forall i, j | 0 <= i < j < |run| :: run[i].now <= run[j].now
  }

  /** No issue draws an identifier drawn before it. */
  ghost predicate FreshIds(ttl: nat, run: seq<Event>) {
    forall i: nat {:trigger At(ttl, run, i)} | i < |run| && run[i].Issue? :: run[i].id !in At(ttl, run, i).drawn
  }

  predicate IssuedAt(ttl: nat, run: seq<Event>, i: nat)
    requires i < |run|
  {
    run[i].Issue? && Issues(At(ttl, run, i), run[i].owner, run[i].now)
  }

  predicate ConsumedAt(ttl: nat, run: seq<Event>, i: nat)
    requires i < |run|
  {
    run[i].Consume? && Consumes(At(ttl, run, i), run[i].owner, run[i].id, run[i].now)
  }

  predicate AdmittedAt(ttl: nat, run: seq<Event>, i: nat)
    requires i < |run|
  {
    run[i].Issue? && Admits(At(ttl, run, i), run[i].owner, run[i].now)
  }

  // ------------------------------------------------------------------
  // What one event does
  // ------------------------------------------------------------------

  /** A stored challenge was stored before, or was just issued; a consumed one is gone. */
  lemma StepStored(ttl: nat, st: State, ev: Event, id: Id)
    ensures var next := Next(ttl, st, ev);
            && st.drawn <= next.drawn
            && (id in next.issued ==>
                 || (id in st.issued && next.issued[id] == st.issued[id])
                 || (ev.Issue? && Issues(st, ev.owner, ev.now) && ev.id == id && id in next.drawn
                     && next.issued[id] == Challenge(ev.owner, ev.now + ttl)))
            && (ev.Consume? && Consumes(st, ev.owner, ev.id, ev.now) ==> ev.id in st.issued && ev.id !in next.issued)
  {
  }

  lemma StepOwned(ttl: nat, st: State, ev: Event, owner: Owner)
    requires |OwnedBy(st.issued, owner)| <= MAX_OUTSTANDING_PER_OWNER
    ensures |OwnedBy(Next(ttl, st, ev).issued, owner)| <= MAX_OUTSTANDING_PER_OWNER
  {
    hide Admits, Counted;
    var issued := Next(ttl, st, ev).issued;
    var kept := OwnedBy(Pending(st.issued, ev.now), owner);
    SubsetSize(kept, OwnedBy(st.issued, owner));
    if ev.Issue? && Issues(st, ev.owner, ev.now) {
      assert OwnedBy(issued, owner) <= if ev.owner == owner then kept + {ev.id} else kept;
      SubsetSize(OwnedBy(issued, owner), if ev.owner == owner then kept + {ev.id} else kept);
    } else if ev.Consume? {
      SubsetSize(OwnedBy(issued, owner), kept);
    }
  }

  lemma StepTracked(ttl: nat, st: State, ev: Event)
    requires |st.counters| <= MAX_TRACKED_OWNERS
    ensures |Next(ttl, st, ev).counters| <= MAX_TRACKED_OWNERS
  {
    if ev.Issue? {
      CountedIsBounded(st, ev.owner, ev.now);
    }
  }

  lemma CountedIsBounded(st: State, owner: Owner, now: Time)
    requires |st.counters| <= MAX_TRACKED_OWNERS
    ensures |Counted(st, owner, now)| <= MAX_TRACKED_OWNERS
  {
    var current, counted := Current(st.counters, now), Counted(st, owner, now);
    SubsetSize(current.Keys, st.counters.Keys);
    assert |current| == |current.Keys| && |st.counters| == |st.counters.Keys| && |counted| == |counted.Keys|;
    assert counted.Keys == if Admits(st, owner, now) then current.Keys + {owner} else current.Keys;
    if owner in current {
      assert current.Keys + {owner} == current.Keys;
    }
  }

  /** A counter keeps its window until the window lapses; a new window starts with the event that needs it. */
  lemma StepCounter(ttl: nat, st: State, ev: Event, owner: Owner)
    ensures var next := Next(ttl, st, ev);
            && (owner in st.counters && InWindow(st.counters[owner], ev.now) ==>
                 owner in next.counters && next.counters[owner].startedAt == st.counters[owner].startedAt)
            && (owner in next.counters ==>
                 || (owner in st.counters && next.counters[owner].startedAt == st.counters[owner].startedAt)
                 || next.counters[owner].startedAt == Some(ev.now))
            && (ev.Issue? && ev.owner == owner && Admits(st, owner, ev.now) ==> owner in next.counters)
  {
  }

  // ------------------------------------------------------------------
  // Single use, by the owner, before expiry
  // ------------------------------------------------------------------

  /** The challenge under `id` goes back to issue `i` of the run. */
  predicate Origin(ttl: nat, run: seq<Event>, i: nat, id: Id, challenge: Challenge)
    requires i < |run|
  {
    IssuedAt(ttl, run, i) && run[i].id == id && challenge == Challenge(run[i].owner, run[i].now + ttl)
  }

  lemma {:induction false} StoredHasOrigin(ttl: nat, run: seq<Event>, n: nat, id: Id) returns (i: nat)
    requires n <= |run| && id in At(ttl, run, n).issued
    ensures i < n && Origin(ttl, run, i, id, At(ttl, run, n).issued[id]) && id in At(ttl, run, n).drawn
  {
    hide Next, Issues, Consumes;
    var before := At(ttl, run, n - 1);
    StepStored(ttl, before, run[n - 1], id);
    if id in before.issued && before.issued[id] == At(ttl, run, n).issued[id] {
      i := StoredHasOrigin(ttl, run, n - 1, id);
    } else {
      i := n - 1;
    }
  }

  /** Once consumed, never stored again: identifiers are not drawn twice. */
  lemma {:induction false} ConsumedStaysGone(ttl: nat, run: seq<Event>, j: nat, n: nat)
    requires j < n <= |run| && FreshIds(ttl, run) && ConsumedAt(ttl, run, j)
    ensures run[j].id in At(ttl, run, n).drawn && run[j].id !in At(ttl, run, n).issued
    decreases n
  {
    hide Next, Issues, Consumes, IssuedAt;
    StepStored(ttl, At(ttl, run, n - 1), run[n - 1], run[j].id);
    if j < n - 1 {
      ConsumedStaysGone(ttl, run, j, n - 1);
    } else {
      var i := StoredHasOrigin(ttl, run, j, run[j].id);
    }
  }

  /**
    * A consumed challenge was issued earlier in the run to the very owner that consumes it, had not expired,
    * and is consumed by no other event of the run.
    */
  lemma ConsumedOnceByItsOwnerInTime(ttl: nat, run: seq<Event>, j: nat)
    requires j < |run| && FreshIds(ttl, run) && ConsumedAt(ttl, run, j)
    ensures exists i: nat :: i < j && IssuedAt(ttl, run, i) && run[i].id == run[j].id
              && run[i].owner == run[j].owner && run[j].now < run[i].now + ttl
    ensures forall k | 0 <= k < |run| && ConsumedAt(ttl, run, k) && run[k].id == run[j].id :: k == j
  {
    var i := StoredHasOrigin(ttl, run, j, run[j].id);
    assert i < j && IssuedAt(ttl, run, i);
    forall k | 0 <= k < |run| && ConsumedAt(ttl, run, k) && run[k].id == run[j].id
      ensures k == j
    {
      if j < k {
        ConsumedStaysGone(ttl, run, j, k);
      } else if k < j {
        ConsumedStaysGone(ttl, run, k, j);
      }
    }
  }

  /** Between events `i` and `n` nobody has consumed the challenge under `id`. */
  ghost predicate Unspent(ttl: nat, run: seq<Event>, i: nat, n: nat, id: Id)
    requires n <= |run|
  {
    forall k | i < k < n && ConsumedAt(ttl, run, k) :: run[k].id != id
  }

  /** A challenge that is not consumed by its owner stays, until it expires, whatever anyone else presents. */
  lemma StepKeepsChallenge(ttl: nat, st: State, ev: Event, id: Id)
    requires id in st.issued && ev.now < st.issued[id].expiresAt
    requires ev.Issue? ==> ev.id != id
    requires ev.Consume? && ev.id == id ==> ev.owner != st.issued[id].owner
    ensures id in Next(ttl, st, ev).issued && Next(ttl, st, ev).issued[id] == st.issued[id]
  {
  }

  lemma StepIssues(ttl: nat, st: State, ev: Event)
    requires ev.Issue? && Issues(st, ev.owner, ev.now)
    ensures ev.id in Next(ttl, st, ev).issued && ev.id in Next(ttl, st, ev).drawn
    ensures Next(ttl, st, ev).issued[ev.id] == Challenge(ev.owner, ev.now + ttl)
  {
  }

  lemma {:induction false} UnspentStays(ttl: nat, run: seq<Event>, i: nat, n: nat)
    requires i < n <= |run| && Ordered(run) && FreshIds(ttl, run) && IssuedAt(ttl, run, i)
    requires run[n - 1].now < run[i].now + ttl || n == i + 1
    requires Unspent(ttl, run, i, n, run[i].id)
    ensures run[i].id in At(ttl, run, n).issued && run[i].id in At(ttl, run, n).drawn
    ensures At(ttl, run, n).issued[run[i].id] == Challenge(run[i].owner, run[i].now + ttl)
    decreases n
  {
    hide Next, Issues;
    var before, ev := At(ttl, run, n - 1), run[n - 1];
    StepStored(ttl, before, ev, run[i].id);
    if n == i + 1 {
      StepIssues(ttl, before, ev);
    } else {
      assert run[n - 2].now <= ev.now;
      UnspentStays(ttl, run, i, n - 1);
      assert !ConsumedAt(ttl, run, n - 1) || ev.id != run[i].id;
      StillPending(before, ev.now, run[i].id);
      StepKeepsChallenge(ttl, before, ev, run[i].id);
    }
  }

  lemma StillPending(st: State, now: Time, id: Id)
    requires id in st.issued && now < st.issued[id].expiresAt
    ensures Consumes(st, st.issued[id].owner, id, now)
  {
  }

  /**
    * Told from the history: issue `i` went to `owner`, its lifetime is not over at `now`, and nobody has consumed
    * the challenge in the events before `n`.
    */
  ghost predicate Outstanding(ttl: nat, run: seq<Event>, i: nat, n: nat, owner: Owner, now: Time)
    requires n <= |run|
  {
    && i < n && IssuedAt(ttl, run, i) && run[i].owner == owner && now < run[i].now + ttl
    && Unspent(ttl, run, i, n, run[i].id)
  }

  /** What is pending in the table is what the history says is outstanding. */
  lemma PendingExactly(ttl: nat, run: seq<Event>, n: nat, owner: Owner, id: Id, now: Time)
    requires n <= |run| && Ordered(run) && FreshIds(ttl, run) && ClockAt(run, n) <= now
    ensures id in OwnedBy(Pending(At(ttl, run, n).issued, now), owner)
        <==> exists i: nat :: Outstanding(ttl, run, i, n, owner, now) && run[i].id == id
  {
    if id in OwnedBy(Pending(At(ttl, run, n).issued, now), owner) {
      var i := StoredHasOrigin(ttl, run, n, id);
      forall k | i < k < n && ConsumedAt(ttl, run, k)
        ensures run[k].id != id
      {
        if run[k].id == id {
          ConsumedStaysGone(ttl, run, k, n);
        }
      }
      assert Outstanding(ttl, run, i, n, owner, now);
    }
    forall i: nat | Outstanding(ttl, run, i, n, owner, now) && run[i].id == id
      ensures id in OwnedBy(Pending(At(ttl, run, n).issued, now), owner)
    {
      UnspentStays(ttl, run, i, n);
    }
  }

  /**
    * Exactly when a challenge can be consumed: it was issued to the owner that presents it, its lifetime is not
    * over, and it has not been consumed before. What others present in between makes no difference.
    */
  lemma ConsumedExactly(ttl: nat, run: seq<Event>, j: nat)
    requires j < |run| && run[j].Consume? && Ordered(run) && FreshIds(ttl, run)
    ensures ConsumedAt(ttl, run, j)
        <==> exists i: nat :: && i < j && IssuedAt(ttl, run, i)
                              && run[i].id == run[j].id && run[i].owner == run[j].owner
                              && run[j].now < run[i].now + ttl && Unspent(ttl, run, i, j, run[j].id)
  {
    assert j > 0 ==> run[j - 1].now <= run[j].now;
    PendingExactly(ttl, run, j, run[j].owner, run[j].id, run[j].now);
    ConsumesPending(At(ttl, run, j), run[j].owner, run[j].id, run[j].now);
    if ConsumedAt(ttl, run, j) {
      var i: nat :| Outstanding(ttl, run, i, j, run[j].owner, run[j].now) && run[i].id == run[j].id;
      assert i < j && IssuedAt(ttl, run, i) && Unspent(ttl, run, i, j, run[j].id);
    } else if i: nat :| && i < j && IssuedAt(ttl, run, i) && run[i].id == run[j].id && run[i].owner == run[j].owner
                        && run[j].now < run[i].now + ttl && Unspent(ttl, run, i, j, run[j].id) {
      assert Outstanding(ttl, run, i, j, run[j].owner, run[j].now);
    }
  }

  lemma ConsumesPending(st: State, owner: Owner, id: Id, now: Time)
    ensures Consumes(st, owner, id, now) <==> id in OwnedBy(Pending(st.issued, now), owner)
  {
  }

  /** Two issues of a run do not share an identifier. */
  lemma IssuesDiffer(ttl: nat, run: seq<Event>, i: nat, j: nat)
    requires i < j < |run| && FreshIds(ttl, run) && IssuedAt(ttl, run, i) && run[j].Issue?
    ensures run[i].id != run[j].id
  {
    StepIssues(ttl, At(ttl, run, i), run[i]);
    DrawnStays(ttl, run, i + 1, j, run[i].id);
    assert run[j].id !in At(ttl, run, j).drawn;
  }

  lemma {:induction false} DrawnStays(ttl: nat, run: seq<Event>, i: nat, n: nat, id: Id)
    requires i <= n <= |run| && id in At(ttl, run, i).drawn
    ensures id in At(ttl, run, n).drawn
    decreases n
  {
    hide Next, Issues, Consumes;
    if i < n {
      DrawnStays(ttl, run, i, n - 1, id);
      StepStored(ttl, At(ttl, run, n - 1), run[n - 1], id);
    }
  }

  /** As many issues as identifiers, when they correspond one to one. */
  lemma {:induction false} SameNumber(run: seq<Event>, issues: set<nat>, ids: set<Id>)
    requires forall i | i in issues :: i < |run| && run[i].id in ids
    requires forall i, j | i in issues && j in issues && run[i].id == run[j].id :: i == j
    requires forall id | id in ids :: exists i :: i in issues && run[i].id == id
    ensures |issues| == |ids|
    decreases |issues|
  {
    if issues == {} {
      assert ids == {};
    } else {
      var i :| i in issues;
      forall id | id in ids - {run[i].id}
        ensures exists j :: j in issues - {i} && run[j].id == id
      {
        var j :| j in issues && run[j].id == id;
        assert j in issues - {i};
      }
      SameNumber(run, issues - {i}, ids - {run[i].id});
    }
  }

  ghost function OutstandingIssues(ttl: nat, run: seq<Event>, n: nat, owner: Owner, now: Time): set<nat>
    requires n <= |run|
  {
    set i: nat | i < n && Outstanding(ttl, run, i, n, owner, now)
  }

  /** Exactly when an issue hands out a challenge: it is admitted, and fewer than two of the owner's are outstanding. */
  lemma IssuedExactly(ttl: nat, run: seq<Event>, n: nat)
    requires n < |run| && run[n].Issue? && Ordered(run) && FreshIds(ttl, run)
    ensures IssuedAt(ttl, run, n)
        <==> && AdmittedAt(ttl, run, n)
             && |OutstandingIssues(ttl, run, n, run[n].owner, run[n].now)| < MAX_OUTSTANDING_PER_OWNER
  {
    var owner, now := run[n].owner, run[n].now;
    var issues := OutstandingIssues(ttl, run, n, owner, now);
    var ids := OwnedBy(Pending(At(ttl, run, n).issued, now), owner);
    assert n > 0 ==> run[n - 1].now <= now;
    forall id: Id
      ensures id in ids <==> exists i: nat :: i in issues && run[i].id == id
    {
      PendingExactly(ttl, run, n, owner, id, now);
    }
    forall i, j | i in issues && j in issues && run[i].id == run[j].id
      ensures i == j
    {
      if i < j {
        IssuesDiffer(ttl, run, i, j);
      } else if j < i {
        IssuesDiffer(ttl, run, j, i);
      }
    }
    SameNumber(run, issues, ids);
  }

  // ------------------------------------------------------------------
  // The table is bounded, per owner and as a whole
  // ------------------------------------------------------------------

  lemma {:induction false} AtMostTwoPerOwner(ttl: nat, run: seq<Event>, n: nat, owner: Owner)
    requires n <= |run|
    ensures |OwnedBy(At(ttl, run, n).issued, owner)| <= MAX_OUTSTANDING_PER_OWNER
  {
    if n > 0 {
      AtMostTwoPerOwner(ttl, run, n - 1, owner);
      StepOwned(ttl, At(ttl, run, n - 1), run[n - 1], owner);
    }
  }

  lemma {:induction false} CountersBounded(ttl: nat, run: seq<Event>, n: nat)
    requires n <= |run|
    ensures |At(ttl, run, n).counters| <= MAX_TRACKED_OWNERS
  {
    if n > 0 {
      CountersBounded(ttl, run, n - 1);
      StepTracked(ttl, At(ttl, run, n - 1), run[n - 1]);
    }
  }

  predicate StartedAt(st: State, owner: Owner, start: Time) {
    owner in st.counters && st.counters[owner].startedAt == Some(start)
  }

  /** A counter that is not due to lapse survives. */
  lemma {:induction false} CounterSurvives(ttl: nat, run: seq<Event>, i: nat, n: nat, owner: Owner, start: Time)
    requires i <= n <= |run| && Ordered(run) && StartedAt(At(ttl, run, i), owner, start)
    requires i < n ==> Elapsed(run[n - 1].now, start) < ISSUE_WINDOW
    ensures StartedAt(At(ttl, run, n), owner, start)
    decreases n
  {
    if i < n {
      assert i < n - 1 ==> run[n - 2].now <= run[n - 1].now;
      CounterSurvives(ttl, run, i, n - 1, owner, start);
      StepCounter(ttl, At(ttl, run, n - 1), run[n - 1], owner);
    }
  }

  /** A counter was already there after the last event `m` at or before `instant`, if it had started by then. */
  lemma {:induction false} CounterWasThere(ttl: nat, run: seq<Event>, m: nat, n: nat,
    owner: Owner, start: Time, instant: int)
    requires m <= n <= |run| && StartedAt(At(ttl, run, n), owner, start) && start <= instant
    requires forall k | m <= k < n :: run[k].now > instant
    ensures owner in At(ttl, run, m).counters
    decreases n
  {
    if m < n {
      StepCounter(ttl, At(ttl, run, n - 1), run[n - 1], owner);
      CounterWasThere(ttl, run, m, n - 1, owner, start, instant);
    }
  }

  lemma {:induction false} EveryCounterHasStarted(ttl: nat, run: seq<Event>, n: nat, owner: Owner) returns (start: Time)
    requires n <= |run| && owner in At(ttl, run, n).counters
    ensures StartedAt(At(ttl, run, n), owner, start)
  {
    StepCounter(ttl, At(ttl, run, n - 1), run[n - 1], owner);
    if At(ttl, run, n).counters[owner].startedAt == Some(run[n - 1].now) {
      start := run[n - 1].now;
    } else {
      start := EveryCounterHasStarted(ttl, run, n - 1, owner);
    }
  }

  /** `m` separates the events of the first `n` that lie at or before `instant` from those after it. */
  ghost predicate Separates(run: seq<Event>, m: nat, n: nat, instant: int) {
    && m <= n <= |run|
    && (forall k | m <= k < n :: run[k].now > instant)
    && (forall k | 0 <= k < m :: run[k].now <= instant)
  }

  lemma {:induction false} FindSeparation(run: seq<Event>, n: nat, instant: int) returns (m: nat)
    requires n <= |run| && Ordered(run)
    ensures Separates(run, m, n, instant)
  {
    if n == 0 || run[n - 1].now <= instant {
      m := n;
    } else {
      m := FindSeparation(run, n - 1, instant);
    }
  }

  /** The event pruned the table: an admitted issue, or any attempt to consume. */
  predicate SweptAt(ttl: nat, run: seq<Event>, i: nat)
    requires i < |run|
  {
    run[i].Consume? || AdmittedAt(ttl, run, i)
  }

  predicate TrackedAt(ttl: nat, run: seq<Event>, n: nat, owner: Owner)
    requires n <= |run|
  {
    owner in At(ttl, run, n).counters
  }

  /**
    * A counter seen right after event `i`, less than a lifetime ago, is there now or was there a lifetime ago:
    * it has lapsed only if it started before then.
    */
  lemma RecentCounterIsTracked(ttl: nat, run: seq<Event>, n: nat, m: nat, i: nat, owner: Owner)
    requires i + 1 < n <= |run| && Ordered(run) && ttl <= ISSUE_WINDOW && Separates(run, m, n, run[n - 1].now - ttl)
    requires TrackedAt(ttl, run, i + 1, owner) && run[n - 1].now < run[i].now + ttl
    ensures TrackedAt(ttl, run, n, owner) || TrackedAt(ttl, run, m, owner)
  {
    var start := EveryCounterHasStarted(ttl, run, i + 1, owner);
    if Elapsed(run[n - 1].now, start) < ISSUE_WINDOW {
      CounterSurvives(ttl, run, i + 1, n, owner, start);
    } else {
      CounterWasThere(ttl, run, m, i + 1, owner, start, run[n - 1].now - ttl);
    }
  }

  lemma IssuerIsTracked(ttl: nat, run: seq<Event>, i: nat)
    requires i < |run| && AdmittedAt(ttl, run, i)
    ensures TrackedAt(ttl, run, i + 1, run[i].owner)
  {
    StepCounter(ttl, At(ttl, run, i), run[i], run[i].owner);
  }

  /** Right after a sweep a stored challenge was issued by this event, or has not expired. */
  lemma SweptIsPending(ttl: nat, st: State, ev: Event, id: Id)
    requires ev.Consume? || Admits(st, ev.owner, ev.now)
    requires id in Next(ttl, st, ev).issued
    ensures var challenge := Next(ttl, st, ev).issued[id];
            challenge.expiresAt > ev.now || (ev.Issue? && challenge.owner == ev.owner)
  {
  }

  /** Right after a sweep, every stored challenge's owner was tracked at some event less than a lifetime ago. */
  lemma OwnerWasTracked(ttl: nat, run: seq<Event>, n: nat, id: Id) returns (i: nat)
    requires 0 < n <= |run| && SweptAt(ttl, run, n - 1) && id in At(ttl, run, n).issued
    ensures i < n && TrackedAt(ttl, run, i + 1, At(ttl, run, n).issued[id].owner)
    ensures i == n - 1 || run[n - 1].now < run[i].now + ttl
  {
    SweptIsPending(ttl, At(ttl, run, n - 1), run[n - 1], id);
    if At(ttl, run, n).issued[id].expiresAt > run[n - 1].now {
      i := StoredHasOrigin(ttl, run, n, id);
    } else {
      i := n - 1;
    }
    IssuerIsTracked(ttl, run, i);
  }

  /** Every owner of a stored challenge is tracked now or was tracked a challenge lifetime ago. */
  lemma OwnersAreTracked(ttl: nat, run: seq<Event>, n: nat, m: nat, id: Id)
    requires 0 < n <= |run| && Ordered(run) && ttl <= ISSUE_WINDOW && SweptAt(ttl, run, n - 1)
    requires Separates(run, m, n, run[n - 1].now - ttl)
    requires id in At(ttl, run, n).issued
    ensures var owner := At(ttl, run, n).issued[id].owner;
            TrackedAt(ttl, run, n, owner) || TrackedAt(ttl, run, m, owner)
  {
    hide At, TrackedAt, Separates, SweptAt;
    var i := OwnerWasTracked(ttl, run, n, id);
    if i < n - 1 {
      RecentCounterIsTracked(ttl, run, n, m, i, At(ttl, run, n).issued[id].owner);
    }
  }

  /** A table in which no owner holds more than two entries has at most two per owner. */
  lemma {:induction false} CountPerOwner(issued: map<Id, Challenge>, owners: set<Owner>)
    requires forall id | id in issued :: issued[id].owner in owners
    requires forall owner | owner in owners :: |OwnedBy(issued, owner)| <= MAX_OUTSTANDING_PER_OWNER
    ensures |issued| <= MAX_OUTSTANDING_PER_OWNER * |owners|
    decreases |owners|
  {
    assert |issued| == |issued.Keys|;
    if owners == {} {
      assert issued.Keys == {};
    } else {
      var owner :| owner in owners;
      var rest := WithoutOwner(issued, owner);
      forall other | other in owners - {owner}
        ensures |OwnedBy(rest, other)| <= MAX_OUTSTANDING_PER_OWNER
      {
        assert OwnedBy(rest, other) == OwnedBy(issued, other);
      }
      CountPerOwner(rest, owners - {owner});
    }
  }

  /** The table without one owner's challenges is smaller by exactly those. */
  lemma WithoutOwner(issued: map<Id, Challenge>, owner: Owner) returns (rest: map<Id, Challenge>)
    ensures |issued| == |rest| + |OwnedBy(issued, owner)|
    ensures forall id | id in rest :: id in issued && rest[id] == issued[id] && issued[id].owner != owner
    ensures forall id | id in issued && issued[id].owner != owner :: id in rest
  {
    var mine := OwnedBy(issued, owner);
    rest := issued - mine;
    assert |rest| == |rest.Keys| && |issued| == |issued.Keys|;
    assert issued.Keys == rest.Keys + mine;
  }

  /** The bound right after a sweep. */
  lemma SweptTableIsBounded(ttl: nat, run: seq<Event>, n: nat)
    requires 0 < n <= |run| && Ordered(run) && ttl <= ISSUE_WINDOW && SweptAt(ttl, run, n - 1)
    ensures |At(ttl, run, n).issued| <= 2 * MAX_OUTSTANDING_PER_OWNER * MAX_TRACKED_OWNERS
  {
    var m := FindSeparation(run, n, run[n - 1].now - ttl);
    var here, there := At(ttl, run, n).counters, At(ttl, run, m).counters;
    CountersBounded(ttl, run, n);
    CountersBounded(ttl, run, m);
    assert |here| == |here.Keys| && |there| == |there.Keys|;
    var issued := At(ttl, run, n).issued;
    forall id | id in issued
      ensures issued[id].owner in here.Keys + there.Keys
    {
      OwnersAreTracked(ttl, run, n, m, id);
    }
    forall owner | owner in here.Keys + there.Keys
      ensures |OwnedBy(issued, owner)| <= MAX_OUTSTANDING_PER_OWNER
    {
      AtMostTwoPerOwner(ttl, run, n, owner);
    }
    CountPerOwner(issued, here.Keys + there.Keys);
  }

  /**
    * With a lifetime no longer than the counting window, the table never holds more than
    * `2 * MAX_OUTSTANDING_PER_OWNER * MAX_TRACKED_OWNERS` challenges, in any reachable state and however
    * many owners come and go.
    */
  lemma {:induction false} TableIsBounded(ttl: nat, run: seq<Event>, n: nat)
    requires n <= |run| && Ordered(run) && ttl <= ISSUE_WINDOW
    ensures |At(ttl, run, n).issued| <= 2 * MAX_OUTSTANDING_PER_OWNER * MAX_TRACKED_OWNERS
  {
    if n > 0 {
      if SweptAt(ttl, run, n - 1) {
        SweptTableIsBounded(ttl, run, n);
      } else {
        TableIsBounded(ttl, run, n - 1);
      }
    }
  }

  // ------------------------------------------------------------------
  // How often an owner is admitted
  // ------------------------------------------------------------------

  predicate AdmitsOwnerAt(ttl: nat, run: seq<Event>, i: nat, owner: Owner)
    requires i < |run|
  {
    AdmittedAt(ttl, run, i) && run[i].owner == owner
  }

  /** When the first `n` events of a run admitted `owner`. */
  function Admissions(ttl: nat, run: seq<Event>, n: nat, owner: Owner): seq<Time>
    requires n <= |run|
  {
    if n == 0 then []
    else Admissions(ttl, run, n - 1, owner) + (if AdmitsOwnerAt(ttl, run, n - 1, owner) then [run[n - 1].now] else [])
  }

  /** How many of `times` lie in `[from, to)`. */
  function Count(times: seq<Time>, from: int, to: int): nat {
    if times == [] then 0
    else
      Count(times[..|times| - 1], from, to) + (if from <= times[|times| - 1] < to then 1 else 0)
  }

  lemma CountAppend(times: seq<Time>, now: Time, from: int, to: int)
    ensures Count(times + [now], from, to) == Count(times, from, to) + (if from <= now < to then 1 else 0)
  {
    assert (times + [now])[..|times|] == times;
  }

  lemma {:induction false} CountSplits(times: seq<Time>, from: int, mid: int, to: int)
    requires from <= mid <= to
    ensures Count(times, from, to) == Count(times, from, mid) + Count(times, mid, to)
  {
    if times != [] {
      CountSplits(times[..|times| - 1], from, mid, to);
    }
  }

  lemma CountWidens(times: seq<Time>, from: int, to: int, earlier: int, later: int)
    requires earlier <= from <= to <= later
    ensures Count(times, from, to) <= Count(times, earlier, later)
  {
    CountSplits(times, earlier, from, later);
    CountSplits(times, from, to, later);
  }

  function CounterOf(st: State, owner: Owner): Option<Counter> {
    if owner in st.counters then Some(st.counters[owner]) else None
  }

  predicate Running(counter: Option<Counter>, now: Time) {
    counter.Some? && InWindow(counter.value, now)
  }

  /** One owner's counter after an event, given whether the event is an issue and whether it admits the owner. */
  function CounterNext(counter: Option<Counter>, now: Time, issue: bool, admitted: bool): Option<Counter> {
    if !issue then counter
    else if admitted then
      Some(if Running(counter, now) then counter.value.(issues := counter.value.issues + 1) else Counter(1, Some(now)))
    else if Running(counter, now) then counter
    else None
  }

  lemma StepCounterValue(ttl: nat, st: State, ev: Event, owner: Owner)
    ensures var admitted := ev.Issue? && ev.owner == owner && Admits(st, owner, ev.now);
            && CounterOf(Next(ttl, st, ev), owner) == CounterNext(CounterOf(st, owner), ev.now, ev.Issue?, admitted)
            && (admitted && Running(CounterOf(st, owner), ev.now) ==> st.counters[owner].issues < MAX_ISSUES_PER_WINDOW)
  {
  }

  /**
    * `start` opens the owner's latest window: everything admitted since then is what the counter says, at most
    * five; nothing is admitted past the window's end; the window before it let through at most five.
    */
  ghost predicate LatestWindow(times: seq<Time>, clock: Time, counter: Option<Counter>, end: int, start: int) {
    && start <= clock && clock + 2 * ISSUE_WINDOW < end
    && Count(times, start, end) <= MAX_ISSUES_PER_WINDOW
    && Count(times, start - ISSUE_WINDOW, start) <= MAX_ISSUES_PER_WINDOW
    && Count(times, start + ISSUE_WINDOW, end) == 0
    && (match counter
        case Some(c) => start >= 0 && c == Counter(Count(times, start, end), Some(start))
        case None => start + ISSUE_WINDOW <= clock)
  }

  /** The opening of the latest window once an event has happened at `now`. */
  function NextStart(counter: Option<Counter>, now: Time, admitted: bool, start: int): int {
    if admitted && !Running(counter, now) then now else start
  }

  lemma StepWindow(times: seq<Time>, clock: Time, counter: Option<Counter>, end: int, start: int,
                   now: Time, issue: bool, admitted: bool)
    requires LatestWindow(times, clock, counter, end, start)
    requires clock <= now && now + 2 * ISSUE_WINDOW < end && (admitted ==> issue)
    requires admitted && Running(counter, now) ==> counter.value.issues < MAX_ISSUES_PER_WINDOW
    ensures LatestWindow(times + (if admitted then [now] else []), now, CounterNext(counter, now, issue, admitted),
                         end, NextStart(counter, now, admitted, start))
  {
    if admitted {
      var next := NextStart(counter, now, admitted, start);
      CountAppend(times, now, next, end);
      CountAppend(times, now, next - ISSUE_WINDOW, next);
      CountAppend(times, now, next + ISSUE_WINDOW, end);
      if !Running(counter, now) {
        CountWidens(times, now, end, start + ISSUE_WINDOW, end);
        CountWidens(times, now - ISSUE_WINDOW, now, start, end);
        CountWidens(times, now + ISSUE_WINDOW, end, start + ISSUE_WINDOW, end);
      }
    } else {
      assert times + [] == times;
    }
  }

  function ClockAt(run: seq<Event>, n: nat): Time
    requires n <= |run|
  {
    if n == 0 then 0 else run[n - 1].now
  }

  lemma NextLatestWindow(ttl: nat, run: seq<Event>, n: nat, owner: Owner, end: int, start: int) returns (next: int)
    requires 0 < n <= |run| && Ordered(run) && ClockAt(run, n) + 2 * ISSUE_WINDOW < end
    requires LatestWindow(Admissions(ttl, run, n - 1, owner), ClockAt(run, n - 1),
                          CounterOf(At(ttl, run, n - 1), owner), end, start)
    ensures LatestWindow(Admissions(ttl, run, n, owner), ClockAt(run, n), CounterOf(At(ttl, run, n), owner), end, next)
  {
    var st, ev, admitted := At(ttl, run, n - 1), run[n - 1], AdmitsOwnerAt(ttl, run, n - 1, owner);
    assert ClockAt(run, n - 1) <= ev.now;
    StepCounterValue(ttl, st, ev, owner);
    StepWindow(Admissions(ttl, run, n - 1, owner), ClockAt(run, n - 1), CounterOf(st, owner), end, start,
               ev.now, ev.Issue?, admitted);
    hide LatestWindow, CounterOf, CounterNext, NextStart, Next, Admits;
    next := NextStart(CounterOf(st, owner), ev.now, admitted, start);
  }

  lemma {:induction false} FindLatestWindow(ttl: nat, run: seq<Event>, n: nat, owner: Owner, end: int)
    returns (start: int)
    requires n <= |run| && Ordered(run) && ClockAt(run, n) + 2 * ISSUE_WINDOW < end
    ensures LatestWindow(Admissions(ttl, run, n, owner), ClockAt(run, n), CounterOf(At(ttl, run, n), owner), end, start)
  {
    if n == 0 {
      start := 0 - ISSUE_WINDOW as int;
    } else {
      assert ClockAt(run, n - 1) <= ClockAt(run, n);
      var before := FindLatestWindow(ttl, run, n - 1, owner, end);
      start := NextLatestWindow(ttl, run, n, owner, end, before);
    }
  }

  lemma WindowBounds(times: seq<Time>, clock: Time, counter: Option<Counter>, end: int, start: int, from: int)
    requires LatestWindow(times, clock, counter, end, start) && counter.Some?
    ensures counter.value.startedAt == Some(start) && counter.value.issues <= MAX_ISSUES_PER_WINDOW
    ensures counter.value.issues == Count(times, start, start + ISSUE_WINDOW)
    ensures Running(counter, clock) && from <= clock < from + ISSUE_WINDOW
        ==> Count(times, from, from + ISSUE_WINDOW) <= 2 * MAX_ISSUES_PER_WINDOW
  {
    CountSplits(times, start, start + ISSUE_WINDOW, end);
    if Running(counter, clock) && from <= clock < from + ISSUE_WINDOW {
      CountWidens(times, from, from + ISSUE_WINDOW, start - ISSUE_WINDOW, end);
      CountSplits(times, start - ISSUE_WINDOW, start, end);
    }
  }

  /** Within one window of its counter an owner is admitted at most five times, and the counter says how often. */
  lemma AtMostFivePerWindow(ttl: nat, run: seq<Event>, n: nat, owner: Owner, start: Time)
    requires n <= |run| && Ordered(run) && StartedAt(At(ttl, run, n), owner, start)
    ensures At(ttl, run, n).counters[owner].issues
         == Count(Admissions(ttl, run, n, owner), start, start + ISSUE_WINDOW) <= MAX_ISSUES_PER_WINDOW
  {
    var clock, counter, times := ClockAt(run, n), CounterOf(At(ttl, run, n), owner), Admissions(ttl, run, n, owner);
    var end := clock + 2 * ISSUE_WINDOW + 1;
    var latest := FindLatestWindow(ttl, run, n, owner, end);
    WindowBounds(times, clock, counter, end, latest, 0);
  }

  /** The event that admits an owner leaves its counter running. */
  lemma AdmittedIsRunning(ttl: nat, run: seq<Event>, i: nat, owner: Owner)
    requires i < |run| && AdmitsOwnerAt(ttl, run, i, owner)
    ensures Running(CounterOf(At(ttl, run, i + 1), owner), run[i].now)
  {
    StepCounterValue(ttl, At(ttl, run, i), run[i], owner);
  }

  /** Told from the history: the opening of the owner's latest window, at the first admission outside the one before. */
  function WindowStart(ttl: nat, run: seq<Event>, n: nat, owner: Owner): Option<Time>
    requires n <= |run|
  {
    if n == 0 then None
    else
      var before := WindowStart(ttl, run, n - 1, owner);
      if AdmitsOwnerAt(ttl, run, n - 1, owner) && !IsOpen(before, run[n - 1].now) then Some(run[n - 1].now) else before
  }

  predicate IsOpen(start: Option<Time>, now: Time) {
    start.Some? && now < start.value + ISSUE_WINDOW
  }

  /** A counter, as far as it still counts at `now`, is the window of the history. */
  predicate Tells(counter: Option<Counter>, start: Option<Time>, now: Time) {
    && (Running(counter, now) <==> IsOpen(start, now))
    && (Running(counter, now) ==> counter.value.startedAt == start)
    && (start.Some? ==> start.value <= now)
  }

  lemma {:induction false} CounterTellsWindow(ttl: nat, run: seq<Event>, n: nat, owner: Owner, now: Time)
    requires n <= |run| && Ordered(run) && ClockAt(run, n) <= now
    ensures Tells(CounterOf(At(ttl, run, n), owner), WindowStart(ttl, run, n, owner), now)
  {
    hide Next, Admits, CounterNext, Tells, CounterOf, IsOpen, InWindow, Running;
    if n > 0 {
      assert ClockAt(run, n - 1) <= run[n - 1].now;
      CounterTellsWindow(ttl, run, n - 1, owner, run[n - 1].now);
      CounterTellsWindow(ttl, run, n - 1, owner, now);
      OneMoreTells(ttl, run, n, owner, now);
    } else {
      NothingTells(owner, now);
    }
  }

  lemma NothingTells(owner: Owner, now: Time)
    ensures Tells(CounterOf(Initial(), owner), None, now)
  {
  }

  lemma OneMoreTells(ttl: nat, run: seq<Event>, n: nat, owner: Owner, now: Time)
    requires 0 < n <= |run| && run[n - 1].now <= now
    requires Tells(CounterOf(At(ttl, run, n - 1), owner), WindowStart(ttl, run, n - 1, owner), run[n - 1].now)
    requires Tells(CounterOf(At(ttl, run, n - 1), owner), WindowStart(ttl, run, n - 1, owner), now)
    ensures Tells(CounterOf(At(ttl, run, n), owner), WindowStart(ttl, run, n, owner), now)
  {
    hide Next, Admits, CounterNext, Tells, CounterOf, IsOpen, InWindow, Running;
    var st, ev := At(ttl, run, n - 1), run[n - 1];
    StepCounterValue(ttl, st, ev, owner);
    StepTellsWindow(CounterOf(st, owner), WindowStart(ttl, run, n - 1, owner), ev.now, now, ev.Issue?,
                    AdmitsOwnerAt(ttl, run, n - 1, owner));
  }

  lemma StepTellsWindow(counter: Option<Counter>, start: Option<Time>, at: Time, now: Time, issue: bool,
                        admitted: bool)
    requires at <= now && (admitted ==> issue) && Tells(counter, start, at) && Tells(counter, start, now)
    ensures Tells(CounterNext(counter, at, issue, admitted),
                  if admitted && !IsOpen(start, at) then Some(at) else start, now)
  {
  }

  /** The owners whose windows are open at `now`. */
  function OpenOwners(ttl: nat, run: seq<Event>, n: nat, now: Time): set<Owner>
    requires n <= |run|
  {
    set k | 0 <= k < n && IsOpen(WindowStart(ttl, run, n, run[k].owner), now) :: run[k].owner
  }

  lemma {:induction false} WindowsHaveOwners(ttl: nat, run: seq<Event>, n: nat, owner: Owner)
    requires n <= |run| && WindowStart(ttl, run, n, owner).Some?
    ensures exists k :: 0 <= k < n && run[k].owner == owner
  {
    if !AdmitsOwnerAt(ttl, run, n - 1, owner) {
      WindowsHaveOwners(ttl, run, n - 1, owner);
    }
  }

  lemma CurrentIsOpen(ttl: nat, run: seq<Event>, n: nat, now: Time)
    requires n <= |run| && Ordered(run) && ClockAt(run, n) <= now
    ensures Current(At(ttl, run, n).counters, now).Keys == OpenOwners(ttl, run, n, now)
  {
    forall owner: Owner
      ensures owner in Current(At(ttl, run, n).counters, now) <==> owner in OpenOwners(ttl, run, n, now)
    {
      CounterTellsWindow(ttl, run, n, owner, now);
      if WindowStart(ttl, run, n, owner).Some? {
        WindowsHaveOwners(ttl, run, n, owner);
      }
    }
  }

  /**
    * Exactly when an issue is admitted, told from the history: inside the owner's open window, if it has had fewer
    * than five admissions there; outside, if fewer than 256 owners have a window open.
    */
  lemma AdmittedExactly(ttl: nat, run: seq<Event>, n: nat)
    requires n < |run| && run[n].Issue? && Ordered(run)
    ensures var owner, now := run[n].owner, run[n].now;
            var start := WindowStart(ttl, run, n, owner);
            AdmittedAt(ttl, run, n)
            <==> if IsOpen(start, now)
                 then Count(Admissions(ttl, run, n, owner), start.value, start.value + ISSUE_WINDOW)
                      < MAX_ISSUES_PER_WINDOW
                 else |OpenOwners(ttl, run, n, now)| < MAX_TRACKED_OWNERS
  {
    hide At, Admissions, WindowStart, OpenOwners, Current, Admits, InWindow;
    var owner, now := run[n].owner, run[n].now;
    assert n > 0 ==> run[n - 1].now <= now;
    CounterTellsWindow(ttl, run, n, owner, now);
    CurrentIsOpen(ttl, run, n, now);
    AdmitsMeans(At(ttl, run, n), owner, now);
    if IsOpen(WindowStart(ttl, run, n, owner), now) {
      AtMostFivePerWindow(ttl, run, n, owner, WindowStart(ttl, run, n, owner).value);
    }
  }

  lemma AdmitsMeans(st: State, owner: Owner, now: Time)
    ensures Admits(st, owner, now)
        <==> if Running(CounterOf(st, owner), now) then st.counters[owner].issues < MAX_ISSUES_PER_WINDOW
             else |Current(st.counters, now).Keys| < MAX_TRACKED_OWNERS
  {
    var current := Current(st.counters, now);
    assert |current| == |current.Keys|;
  }

  lemma AdmissionInInterval(ttl: nat, run: seq<Event>, n: nat, owner: Owner, from: int)
    requires 0 < n <= |run| && Ordered(run) && AdmitsOwnerAt(ttl, run, n - 1, owner)
    requires from <= run[n - 1].now < from + ISSUE_WINDOW
    ensures Count(Admissions(ttl, run, n, owner), from, from + ISSUE_WINDOW) <= 2 * MAX_ISSUES_PER_WINDOW
  {
    var now, end := run[n - 1].now, run[n - 1].now + 2 * ISSUE_WINDOW + 1;
    var start := FindLatestWindow(ttl, run, n, owner, end);
    AdmittedIsRunning(ttl, run, n - 1, owner);
    assert ClockAt(run, n) == now;
    hide At, Admissions, LatestWindow, AdmittedAt;
    WindowBounds(Admissions(ttl, run, n, owner), now, CounterOf(At(ttl, run, n), owner), end, start, from);
  }

  /**
    * The sliding bound: in every half-open interval as long as the counting window an owner is admitted at most
    * ten times, wherever its counter windows happen to fall, and although lapsed counters are forgotten.
    */
  lemma {:induction false} AtMostTenPerInterval(ttl: nat, run: seq<Event>, n: nat, owner: Owner, from: int)
    requires n <= |run| && Ordered(run)
    ensures Count(Admissions(ttl, run, n, owner), from, from + ISSUE_WINDOW) <= 2 * MAX_ISSUES_PER_WINDOW
  {
    if n > 0 {
      var before, now := Admissions(ttl, run, n - 1, owner), run[n - 1].now;
      var admitted := AdmitsOwnerAt(ttl, run, n - 1, owner);
      if admitted && from <= now < from + ISSUE_WINDOW {
        AdmissionInInterval(ttl, run, n, owner, from);
      } else {
        AtMostTenPerInterval(ttl, run, n - 1, owner, from);
        hide At, AdmitsOwnerAt;
        assert before + [] == before;
        CountAppend(before, now, from, from + ISSUE_WINDOW);
      }
    }
  }
}
