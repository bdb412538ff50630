/** The per-source token bucket in front of every authenticated request, with bounded memory. */
module RateLimiting {
  import opened Basics

  /** Nanoseconds on the monotonic clock. */
  type Time = nat

  const NANOS_PER_SECOND := 1_000_000_000.0

  datatype Bucket = Bucket(tokens: real, updatedAt: Time)

  datatype Limiter = Limiter(buckets: map<IpAddr, Bucket>, burst: real, perSecond: real, capacity: nat)

  datatype Decision = Admitted | Throttled | Saturated

  datatype Request = Request(source: IpAddr, at: Time)

  function Min(x: real, y: real): real {
    if x <= y then x else y
  }

  function Seconds(elapsed: nat): real {
    elapsed as real / NANOS_PER_SECOND
  }

  /** The tokens a bucket earns over `elapsed`, added up tick by tick. */
  function Earned(perSecond: real, elapsed: nat): real {
    if elapsed == 0 then 0.0 else Earned(perSecond, elapsed - 1) + perSecond / NANOS_PER_SECOND
  }

  /** What a bucket holds at `now` before it is cut at the burst. */
  function Refilled(l: Limiter, bucket: Bucket, now: Time): real {
    bucket.tokens + Earned(l.perSecond, Elapsed(now, bucket.updatedAt))
  }

  /** The virtual token level of a source: an untracked source has a full bucket. */
  function Level(l: Limiter, source: IpAddr, now: Time): real {
    if source in l.buckets then Min(Refilled(l, l.buckets[source], now), l.burst) else l.burst
  }

  function Pruned(l: Limiter, now: Time): Limiter {
    l.(buckets := map source | source in l.buckets && Refilled(l, l.buckets[source], now) < l.burst
                  :: l.buckets[source])
  }

  predicate Crowded(l: Limiter, source: IpAddr) {
    |l.buckets| >= l.capacity && source !in l.buckets
  }

  /** The limiter once room has been made for `source`, if there is any to make. */
  function Settled(l: Limiter, source: IpAddr, now: Time): Limiter {
    if Crowded(l, source) then Pruned(l, now) else l
  }

  function Decide(l: Limiter, source: IpAddr, now: Time): Decision {
    if Crowded(Settled(l, source, now), source) then Saturated
    else if Level(l, source, now) < 1.0 then Throttled
    else Admitted
  }

  function AdmitNext(l: Limiter, source: IpAddr, now: Time): Limiter {
    var settled := Settled(l, source, now);
    var level := Level(l, source, now);
    match Decide(l, source, now)
    case Saturated => settled
    case Throttled => settled.(buckets := settled.buckets[source := Bucket(level, now)])
    case Admitted => settled.(buckets := settled.buckets[source := Bucket(level - 1.0, now)])
  }

  /** What the constants of the source guarantee, and what every step keeps. */
  ghost predicate WellFormed(l: Limiter, now: Time) {
    && 0.0 <= l.burst && 0.0 <= l.perSecond
    && |l.buckets| <= l.capacity
    && forall source | source in l.buckets ::
         0.0 <= l.buckets[source].tokens <= l.burst && l.buckets[source].updatedAt <= now
  }

  class RateLimiter {
    var buckets: map<IpAddr, Bucket>
    const burst: real
    const perSecond: real
    const capacity: nat

    function Model(): Limiter
      reads this
    {
      Limiter(buckets, burst, perSecond, capacity)
    }

    constructor (burst: nat, perSecond: real, capacity: nat)
      ensures Model() == Limiter(map[], burst as real, perSecond, capacity)
    {
      this.buckets := map[];
      this.burst := burst as real;
      this.perSecond := perSecond;
      this.capacity := capacity;
    }

    method Refill(elapsed: nat) returns (earned: real)
      ensures earned == Earned(perSecond, elapsed)
    {
      EarnedIsProduct(perSecond, elapsed);
      earned := Seconds(elapsed) * perSecond;
    }

    method Prune(now: Time)
      modifies this
      ensures Model() == Pruned(old(Model()), now)
    {
      var limiter := Model();
      buckets := map source | source in buckets && Refilled(limiter, buckets[source], now) < burst :: buckets[source];
    }

    method Admit(source: IpAddr, now: Time) returns (admitted: bool)
      requires WellFormed(Model(), now)
      modifies this
      ensures admitted <==> Decide(old(Model()), source, now) == Admitted
      ensures Model() == AdmitNext(old(Model()), source, now)
      ensures WellFormed(Model(), now)
    {
      hide WellFormed, Pruned, Level, Earned, Min;
      AdmitKeepsWellFormed(Model(), source, now);
      if |buckets| >= capacity && source !in buckets {
        Prune(now);
      }
      ghost var settled := Model();
      assert settled == Settled(old(Model()), source, now);
      SettlingKeepsLevel(old(Model()), source, now);
      if |buckets| >= capacity && source !in buckets {
        return false;
      }

      LevelOfBucket(settled, source, now);
      var bucket := if source in buckets then buckets[source] else Bucket(burst, now);
      var earned := Refill(Elapsed(now, bucket.updatedAt));
      var tokens := Min(bucket.tokens + earned, burst);
      assert tokens == Level(settled, source, now);
      buckets := buckets[source := Bucket(tokens, now)];
      if tokens < 1.0 {
        return false;
      }

      buckets := buckets[source := Bucket(tokens - 1.0, now)];
      assert buckets == settled.buckets[source := Bucket(tokens - 1.0, now)];
      return true;
    }
  }

  // ------------------------------------------------------------------
  // One step
  // ------------------------------------------------------------------

  /** Refill is proportional to time ... */
  lemma {:induction false} EarnedIsProduct(perSecond: real, elapsed: nat)
    ensures Earned(perSecond, elapsed) == perSecond * Seconds(elapsed)
  {
    if elapsed != 0 {
      EarnedIsProduct(perSecond, elapsed - 1);
      assert Seconds(elapsed) == Seconds(elapsed - 1) + 1.0 / NANOS_PER_SECOND;
    }
  }

  /** ... at the rate the limiter is configured with: so many tokens in a billion nanoseconds ... */
  lemma EarnedPerSecond(perSecond: real)
    ensures Earned(perSecond, 1_000_000_000) == perSecond
  {
    EarnedIsProduct(perSecond, 1_000_000_000);
    assert Seconds(1_000_000_000) == 1.0;
  }

  /** ... and therefore additive over adjacent intervals. */
  lemma {:induction false} EarnedAdds(perSecond: real, first: nat, second: nat)
    requires 0.0 <= perSecond
    ensures Earned(perSecond, first + second) == Earned(perSecond, first) + Earned(perSecond, second)
    ensures 0.0 <= Earned(perSecond, second)
  {
    if second != 0 {
      EarnedAdds(perSecond, first, second - 1);
    }
  }

  /** Waiting adds exactly the refill for the time waited, up to a full bucket. */
  lemma LevelAdvances(l: Limiter, source: IpAddr, now: Time, later: Time)
    requires WellFormed(l, now) && now <= later
    ensures Level(l, source, later) == Min(Level(l, source, now) + Earned(l.perSecond, later - now), l.burst)
    ensures 0.0 <= Earned(l.perSecond, later - now)
    ensures 0.0 <= Level(l, source, now) <= l.burst
  {
    EarnedAdds(l.perSecond, 0, later - now);
    if source in l.buckets {
      var waited := now - l.buckets[source].updatedAt;
      EarnedAdds(l.perSecond, 0, waited);
      EarnedAdds(l.perSecond, waited, later - now);
      assert waited + (later - now) == later - l.buckets[source].updatedAt;
    }
  }

  lemma MapShrinks<K, V>(small: map<K, V>, big: map<K, V>)
    requires small.Keys <= big.Keys
    ensures |small| <= |big|
  {
    SubsetSize(small.Keys, big.Keys);
  }

  /** Eviction is invisible: it drops full buckets only, so no source's level changes, then or later. */
  lemma PruneKeepsLevels(l: Limiter, source: IpAddr, now: Time, later: Time)
    requires WellFormed(l, now) && now <= later
    ensures WellFormed(Pruned(l, now), now)
    ensures Pruned(l, now) == l.(buckets := Pruned(l, now).buckets)
    ensures Level(Pruned(l, now), source, later) == Level(l, source, later)
  {
    MapShrinks(Pruned(l, now).buckets, l.buckets);
    LevelAdvances(l, source, now, later);
    assert Pruned(l, now).buckets.Keys <= l.buckets.Keys;
  }

  lemma SettlingKeepsLevel(l: Limiter, source: IpAddr, now: Time)
    ensures Level(Settled(l, source, now), source, now) == Level(l, source, now)
  {
  }

  /** Recording a bucket keeps the limiter well formed, if it has room for it. */
  lemma RecordKeepsWellFormed(l: Limiter, source: IpAddr, bucket: Bucket, now: Time)
    requires WellFormed(l, now) && !Crowded(l, source)
    requires 0.0 <= bucket.tokens <= l.burst && bucket.updatedAt <= now
    ensures WellFormed(l.(buckets := l.buckets[source := bucket]), now)
  {
    var recorded := l.buckets[source := bucket];
    assert recorded.Keys == l.buckets.Keys + {source};
    assert |recorded| == |recorded.Keys| && |l.buckets| == |l.buckets.Keys|;
    if source in l.buckets {
      assert l.buckets.Keys + {source} == l.buckets.Keys;
    }
  }

  function BucketOf(l: Limiter, source: IpAddr, now: Time): Bucket {
    if source in l.buckets then l.buckets[source] else Bucket(l.burst, now)
  }

  /** An untracked source is treated as one with a bucket filled just now. */
  lemma LevelOfBucket(l: Limiter, source: IpAddr, now: Time)
    ensures Level(l, source, now) == Min(Refilled(l, BucketOf(l, source, now), now), l.burst)
  {
    assert Elapsed(now, now) == 0;
  }

  lemma AdmitKeepsWellFormed(l: Limiter, source: IpAddr, now: Time)
    requires WellFormed(l, now)
    ensures WellFormed(AdmitNext(l, source, now), now)
  {
    hide WellFormed, Level, Pruned;
    var settled, level := Settled(l, source, now), Level(l, source, now);
    PruneKeepsLevels(l, source, now, now);
    LevelAdvances(l, source, now, now);
    if !Crowded(settled, source) {
      RecordKeepsWellFormed(settled, source, Bucket(level, now), now);
      if level >= 1.0 {
        RecordKeepsWellFormed(settled, source, Bucket(level - 1.0, now), now);
      }
    }
  }

  /** A source is turned away for capacity exactly when it is untracked and `capacity` others are below full. */
  lemma SaturatedExactly(l: Limiter, source: IpAddr, now: Time)
    requires WellFormed(l, now)
    ensures Decide(l, source, now) == Saturated
        <==> source !in l.buckets
             && |set other | other in l.buckets && Level(l, other, now) < l.burst| >= l.capacity
  {
    var below := set other | other in l.buckets && Level(l, other, now) < l.burst;
    assert Pruned(l, now).buckets.Keys == below;
    assert |Pruned(l, now).buckets| == |below|;
    MapShrinks(Pruned(l, now).buckets, l.buckets);
  }

  /** One request changes only its own source's level, and by exactly the token it takes. */
  lemma StepLevel(l: Limiter, source: IpAddr, other: IpAddr, now: Time)
    requires WellFormed(l, now)
    ensures Level(AdmitNext(l, source, now), other, now)
         == Level(l, other, now) - (if other == source && Decide(l, source, now) == Admitted then 1.0 else 0.0)
  {
    PruneKeepsLevels(l, other, now, now);
    LevelAdvances(l, source, now, now);
  }

  // ------------------------------------------------------------------
  // Whole runs
  // ------------------------------------------------------------------

  predicate Ordered(requests: seq<Request>) {
    forall i, j | 0 <= i < j < |requests| :: requests[i].at <= requests[j].at
  }

  /** The limiter after a run of requests. */
  function Exec(l: Limiter, requests: seq<Request>): Limiter {
    if requests == [] then l
    else
      var last := requests[|requests| - 1];
      AdmitNext(Exec(l, requests[..|requests| - 1]), last.source, last.at)
  }

  /** The requests of the run that were let through. */
  function Admissions(l: Limiter, requests: seq<Request>): seq<Request> {
    if requests == [] then []
    else
      var last := requests[|requests| - 1];
      var before := requests[..|requests| - 1];
      Admissions(l, before)
      + (if Decide(Exec(l, before), last.source, last.at) == Admitted then [last] else [])
  }

  /** How many of `admitted` belong to `source` and fall in `[from, to]`. */
  function CountBetween(admitted: seq<Request>, source: IpAddr, from: Time, to: Time): nat {
    if admitted == [] then 0
    else
      var last := admitted[|admitted| - 1];
      CountBetween(admitted[..|admitted| - 1], source, from, to)
      + (if last.source == source && from <= last.at <= to then 1 else 0)
  }

  lemma CountAppend(admitted: seq<Request>, last: Request, source: IpAddr, from: Time, to: Time)
    ensures CountBetween(admitted + [last], source, from, to)
         == CountBetween(admitted, source, from, to) + (if last.source == source && from <= last.at <= to then 1 else 0)
  {
    assert (admitted + [last])[..|admitted|] == admitted;
  }

  lemma {:induction false} CountEmptyWindow(admitted: seq<Request>, source: IpAddr, from: Time, to: Time)
    requires forall r | r in admitted :: r.at < from
    ensures CountBetween(admitted, source, from, to) == 0
  {
    if admitted != [] {
      CountEmptyWindow(admitted[..|admitted| - 1], source, from, to);
    }
  }

  lemma {:induction false} CountNarrows(admitted: seq<Request>, source: IpAddr, from: Time, to: Time, later: Time)
    requires forall r | r in admitted :: r.at <= to
    requires to <= later
    ensures CountBetween(admitted, source, from, to) == CountBetween(admitted, source, from, later)
  {
    if admitted != [] {
      CountNarrows(admitted[..|admitted| - 1], source, from, to, later);
    }
  }

  lemma {:induction false} AdmissionsAreRequests(l: Limiter, requests: seq<Request>)
    ensures forall r | r in Admissions(l, requests) :: r in requests
  {
    if requests != [] {
      AdmissionsAreRequests(l, requests[..|requests| - 1]);
    }
  }

  ghost predicate Fresh(l: Limiter) {
    l.buckets == map[] && 0.0 <= l.burst && 0.0 <= l.perSecond
  }

  lemma {:induction false} RunKeepsWellFormed(l: Limiter, requests: seq<Request>, now: Time)
    requires Fresh(l) && Ordered(requests)
    requires forall r | r in requests :: r.at <= now
    ensures var after := Exec(l, requests);
            WellFormed(after, now) && after.burst == l.burst && after.perSecond == l.perSecond
            && after.capacity == l.capacity
  {
    if requests != [] {
      var last := requests[|requests| - 1];
      RunKeepsWellFormed(l, requests[..|requests| - 1], last.at);
      AdmitKeepsWellFormed(Exec(l, requests[..|requests| - 1]), last.source, last.at);
    }
  }

  /** How many requests an interval of this length may let through. */
  function Allowance(l: Limiter, length: nat): real {
    l.burst + Earned(l.perSecond, length)
  }

  /** What the bound leaves for the interval `[from, now]`. */
  function Headroom(l: Limiter, admitted: seq<Request>, source: IpAddr, from: Time, now: Time): real
    requires from <= now
  {
    Allowance(l, now - from) - CountBetween(admitted, source, from, now) as real
  }

  /** The level is the least headroom over every earlier start: a bound for all, reached by one. */
  ghost predicate LevelIsLeastHeadroom(l: Limiter, admitted: seq<Request>, source: IpAddr, now: Time) {
    && (forall from: Time | from <= now :: Level(l, source, now) <= Headroom(l, admitted, source, from, now))
    && (exists from: Time :: from <= now && Level(l, source, now) == Headroom(l, admitted, source, from, now))
  }

  lemma AdvanceTight(l: Limiter, admitted: seq<Request>, source: IpAddr, now: Time, later: Time)
    requires WellFormed(l, now) && now <= later
    requires forall r | r in admitted :: r.at <= now
    requires LevelIsLeastHeadroom(l, admitted, source, now)
    ensures LevelIsLeastHeadroom(l, admitted, source, later)
  {
    LevelAdvances(l, source, now, later);
    var rate := l.perSecond;
    forall from: Time | from <= later
      ensures Level(l, source, later) <= Headroom(l, admitted, source, from, later)
    {
      if from <= now {
        CountNarrows(admitted, source, from, now, later);
        EarnedAdds(rate, now - from, later - now);
        assert (now - from) + (later - now) == later - from;
        assert Level(l, source, now) <= Headroom(l, admitted, source, from, now);
      } else {
        CountEmptyWindow(admitted, source, from, later);
        EarnedAdds(rate, 0, later - from);
      }
    }
    var from: Time :| from <= now && Level(l, source, now) == Headroom(l, admitted, source, from, now);
    CountNarrows(admitted, source, from, now, later);
    EarnedAdds(rate, now - from, later - now);
    assert (now - from) + (later - now) == later - from;
    if Level(l, source, now) + Earned(rate, later - now) <= l.burst {
      assert Level(l, source, later) == Headroom(l, admitted, source, from, later);
    } else {
      assert now < later;
      CountEmptyWindow(admitted, source, later, later);
      assert Level(l, source, later) == Headroom(l, admitted, source, later, later);
    }
  }

  lemma {:induction false} RunIsTight(l: Limiter, requests: seq<Request>, source: IpAddr, now: Time)
    requires Fresh(l) && Ordered(requests)
    requires forall r | r in requests :: r.at <= now
    ensures LevelIsLeastHeadroom(Exec(l, requests), Admissions(l, requests), source, now)
  {
    RunKeepsWellFormed(l, requests, now);
    if requests == [] {
      forall from: Time | from <= now
        ensures Level(l, source, now) <= Headroom(l, [], source, from, now)
      {
        EarnedAdds(l.perSecond, 0, now - from);
      }
      assert Level(l, source, now) == Headroom(l, [], source, now, now);
    } else {
      var last := requests[|requests| - 1];
      var before := requests[..|requests| - 1];
      hide Level, WellFormed, LevelIsLeastHeadroom, Exec, Admissions;
      RunIsTight(l, before, source, last.at);
      RunKeepsWellFormed(l, before, last.at);
      RunKeepsWellFormed(l, requests, last.at);
      StepIsTight(l, requests, source);
      AdmissionsAreRequests(l, requests);
      AdvanceTight(Exec(l, requests), Admissions(l, requests), source, last.at, now);
    }
  }

  lemma StepIsTight(l: Limiter, requests: seq<Request>, source: IpAddr)
    requires requests != [] && Fresh(l) && Ordered(requests)
    requires var last := requests[|requests| - 1]; var before := requests[..|requests| - 1];
             WellFormed(Exec(l, before), last.at)
             && LevelIsLeastHeadroom(Exec(l, before), Admissions(l, before), source, last.at)
    ensures var last := requests[|requests| - 1];
            LevelIsLeastHeadroom(Exec(l, requests), Admissions(l, requests), source, last.at)
  {
    var last := requests[|requests| - 1];
    var before := requests[..|requests| - 1];
    var l0, h0 := Exec(l, before), Admissions(l, before);
    var l1, h1 := Exec(l, requests), Admissions(l, requests);
    StepLevel(l0, last.source, source, last.at);
    var taken := if source == last.source && Decide(l0, last.source, last.at) == Admitted then 1.0 else 0.0;
    hide Level, WellFormed, LevelIsLeastHeadroom, CountBetween, Decide;
    assert h0 + [] == h0;
    forall from: Time | from <= last.at
      ensures CountBetween(h1, source, from, last.at) as real == CountBetween(h0, source, from, last.at) as real + taken
    {
      CountAppend(h0, last, source, from, last.at);
    }
    TakeIsTight(l0, h0, l1, h1, source, last.at, taken);
  }

  /** A token taken lowers the level and every headroom alike. */
  lemma TakeIsTight(l0: Limiter, h0: seq<Request>, l1: Limiter, h1: seq<Request>,
    source: IpAddr, now: Time, taken: real)
    requires l1.burst == l0.burst && l1.perSecond == l0.perSecond
    requires Level(l1, source, now) == Level(l0, source, now) - taken
    requires forall from: Time | from <= now ::
               CountBetween(h1, source, from, now) as real == CountBetween(h0, source, from, now) as real + taken
    requires LevelIsLeastHeadroom(l0, h0, source, now)
    ensures LevelIsLeastHeadroom(l1, h1, source, now)
  {
    hide Level, CountBetween, Earned;
    forall from: Time | from <= now
      ensures Headroom(l1, h1, source, from, now) == Headroom(l0, h0, source, from, now) - taken
    {
    }
    var from: Time :| from <= now && Level(l0, source, now) == Headroom(l0, h0, source, from, now);
    assert Level(l1, source, now) == Headroom(l1, h1, source, from, now);
  }

  /** One more request at `now` keeps every interval ending now, from whatever start, within its allowance. */
  ghost predicate OneMoreFits(l: Limiter, admitted: seq<Request>, source: IpAddr, now: Time) {
    forall from: Time | from <= now ::
      CountBetween(admitted, source, from, now) as real + 1.0 <= Allowance(l, now - from)
  }

  /**
    * Exactness. Whatever happened before, and however often buckets were evicted and recreated, a request
    * that is not turned away for capacity is admitted exactly when admitting it keeps every interval that
    * ends now within `burst + perSecond * length`.
    */
  lemma AdmittedExactlyWithinBound(l: Limiter, requests: seq<Request>, source: IpAddr, now: Time)
    requires Fresh(l) && Ordered(requests)
    requires forall r | r in requests :: r.at <= now
    requires Decide(Exec(l, requests), source, now) != Saturated
    ensures Decide(Exec(l, requests), source, now) == Admitted
        <==> OneMoreFits(l, Admissions(l, requests), source, now)
  {
    RunIsTight(l, requests, source, now);
    RunKeepsWellFormed(l, requests, now);
    var after, admitted := Exec(l, requests), Admissions(l, requests);
    if Decide(after, source, now) == Admitted {
      forall from: Time | from <= now
        ensures CountBetween(admitted, source, from, now) as real + 1.0 <= Allowance(l, now - from)
      {
        assert Level(after, source, now) <= Headroom(after, admitted, source, from, now);
      }
    } else {
      var tight: Time :| tight <= now && Level(after, source, now) == Headroom(after, admitted, source, tight, now);
      assert CountBetween(admitted, source, tight, now) as real + 1.0 > Allowance(l, now - tight);
      assert !OneMoreFits(l, admitted, source, now);
    }
  }

  /** The sliding-window bound: in every run, every source, every interval, past evictions included. */
  lemma {:induction false} WindowBound(l: Limiter, requests: seq<Request>, source: IpAddr, from: Time, to: Time)
    requires Fresh(l) && Ordered(requests) && from <= to
    ensures CountBetween(Admissions(l, requests), source, from, to) as real <= Allowance(l, to - from)
  {
    EarnedAdds(l.perSecond, 0, to - from);
    if requests != [] {
      var last := requests[|requests| - 1];
      var before := requests[..|requests| - 1];
      if last.at <= to {
        var after := Exec(l, requests);
        RunIsTight(l, requests, source, to);
        RunKeepsWellFormed(l, requests, to);
        LevelAdvances(after, source, to, to);
        assert Level(after, source, to) <= Headroom(after, Admissions(l, requests), source, from, to);
      } else {
        WindowBound(l, before, source, from, to);
        CountAppend(Admissions(l, before), last, source, from, to);
        assert Admissions(l, requests) == Admissions(l, before) + [last]
            || Admissions(l, requests) == Admissions(l, before);
      }
    }
  }

  /** Memory stays bounded in every reachable state. */
  lemma CapacityBound(l: Limiter, requests: seq<Request>)
    requires Fresh(l) && Ordered(requests)
    ensures |Exec(l, requests).buckets| <= l.capacity
  {
    if requests != [] {
      RunKeepsWellFormed(l, requests, requests[|requests| - 1].at);
    }
  }
}
