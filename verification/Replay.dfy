/** The replay guard: a bounded, time-windowed set of request identifiers behind a clock-skew check. */
module Replay {
  import opened Basics

  type Time = nat
  type Id = nat

  const REQUEST_WINDOW: nat := 120_000_000_000
  const MAX_CLOCK_SKEW: nat := 120_000_000_000
  const MAX_TRACKED_REQUESTS: nat := 4096

  datatype Config = Config(window: nat, skew: nat, capacity: nat)

  datatype FreshnessError = Stale | Replayed | Full

  /** A request as the guard sees it: when it says it was issued, and both clocks on arrival. */
  datatype Arrival = Arrival(id: Id, issuedAt: int, wall: int, now: Time)

  function Abs(x: int): nat {
    if x < 0 then -x else x
  }

  predicate OutsideSkew(c: Config, a: Arrival) {
    Abs(a.wall - a.issuedAt) > c.skew
  }

  function Recent(c: Config, seen: map<Id, Time>, now: Time): map<Id, Time> {
    map id | id in seen && Elapsed(now, seen[id]) < c.window :: seen[id]
  }

  function Answer(c: Config, seen: map<Id, Time>, a: Arrival): Result<(), FreshnessError> {
    var recent := Recent(c, seen, a.now);
    if OutsideSkew(c, a) then Err(Stale)
    else if |recent| >= c.capacity then Err(Full)
    else if a.id in recent then Err(Replayed)
    else Ok(())
  }

  function Next(c: Config, seen: map<Id, Time>, a: Arrival): map<Id, Time> {
    var recent := Recent(c, seen, a.now);
    if OutsideSkew(c, a) then seen
    else if |recent| >= c.capacity then recent
    else recent[a.id := a.now]
  }

  class ReplayGuard {
    var seen: map<Id, Time>
    const config: Config

    constructor (config: Config)
      ensures this.config == config && seen == map[]
    {
      this.config, this.seen := config, map[];
    }

    method Admit(id: Id, issuedAt: int, wall: int, now: Time) returns (answer: Result<(), FreshnessError>)
      modifies this
      ensures answer == Answer(config, old(seen), Arrival(id, issuedAt, wall, now))
      ensures seen == Next(config, old(seen), Arrival(id, issuedAt, wall, now))
    {
      var age := wall - issuedAt;
      if Abs(age) > config.skew {
        return Err(Stale);
      }
      seen := map other | other in seen && Elapsed(now, seen[other]) < config.window :: seen[other];
      if |seen| >= config.capacity {
        return Err(Full);
      }
      var known := id in seen;
      seen := seen[id := now];
      return if known then Err(Replayed) else Ok(());
    }
  }

  // ------------------------------------------------------------------
  // Runs
  // ------------------------------------------------------------------

  function At(c: Config, run: seq<Arrival>, n: nat): map<Id, Time>
    requires n <= |run|
  {
    if n == 0 then map[] else Next(c, At(c, run, n - 1), run[n - 1])
  }

  predicate AdmittedAt(c: Config, run: seq<Arrival>, i: nat)
    requires i < |run|
  {
    Answer(c, At(c, run, i), run[i]).Ok?
  }

  /** The attempt left a mark in the table: admitted, or refused as a replay. */
  predicate RecordedAt(c: Config, run: seq<Arrival>, i: nat)
    requires i < |run|
  {
    AdmittedAt(c, run, i) || Answer(c, At(c, run, i), run[i]) == Err(Replayed)
  }

  predicate Ordered(run: seq<Arrival>) {
    forall i, j | 0 <= i < j < |run| :: run[i].now <= run[j].now
  }

  /** The wall clock moves with the monotonic clock. */
  predicate SteadyWall(run: seq<Arrival>) {
    forall i, j | 0 <= i < |run| && 0 <= j < |run| :: run[i].wall - run[i].now == run[j].wall - run[j].now
  }

  lemma InsertGrows(m: map<Id, Time>, id: Id, now: Time)
    ensures |m[id := now]| <= |m| + 1
  {
    assert m[id := now].Keys == m.Keys + {id};
    assert |m| == |m.Keys| && |m[id := now]| == |m[id := now].Keys|;
  }

  lemma RecentShrinks(c: Config, seen: map<Id, Time>, now: Time)
    ensures |Recent(c, seen, now)| <= |seen|
  {
    var recent := Recent(c, seen, now);
    assert |seen| == |seen.Keys| && |recent| == |recent.Keys|;
    assert seen.Keys == recent.Keys + (seen.Keys - recent.Keys);
  }

  lemma NextBounded(c: Config, seen: map<Id, Time>, a: Arrival)
    requires |seen| <= c.capacity
    ensures |Next(c, seen, a)| <= c.capacity
  {
    RecentShrinks(c, seen, a.now);
    InsertGrows(Recent(c, seen, a.now), a.id, a.now);
  }

  /** Tracking stays bounded in every reachable state. */
  lemma {:induction false} TrackingIsBounded(c: Config, run: seq<Arrival>, n: nat)
    requires n <= |run|
    ensures |At(c, run, n)| <= c.capacity
  {
    if n > 0 {
      TrackingIsBounded(c, run, n - 1);
      NextBounded(c, At(c, run, n - 1), run[n - 1]);
    }
  }

  /** An attempt leaves the marks it finds that are younger than a window, or refreshes them. */
  lemma StepKeepsMark(c: Config, seen: map<Id, Time>, a: Arrival, id: Id, since: Time)
    requires id in seen && since <= seen[id] && since <= a.now && a.now - since < c.window
    ensures id in Next(c, seen, a) && since <= Next(c, seen, a)[id]
  {
  }

  /** Until a window has passed, a mark stays in the table, possibly refreshed by later attempts. */
  lemma {:induction false} MarkStays(c: Config, run: seq<Arrival>, i: nat, n: nat)
    requires i < n <= |run| && Ordered(run) && RecordedAt(c, run, i)
    requires run[n - 1].now - run[i].now < c.window
    ensures run[i].id in At(c, run, n) && run[i].now <= At(c, run, n)[run[i].id]
    decreases n
  {
    if i < n - 1 {
      assert run[i].now <= run[n - 2].now <= run[n - 1].now;
      hide Next, RecordedAt;
      MarkStays(c, run, i, n - 1);
      StepKeepsMark(c, At(c, run, n - 1), run[n - 1], run[i].id, run[i].now);
    }
  }

  /**
    * An identifier is admitted only when every earlier attempt with it that left a mark, refused replays
    * included, is at least a window old.
    */
  lemma AdmissionsAreAWindowApart(c: Config, run: seq<Arrival>, i: nat, j: nat)
    requires i < j < |run| && Ordered(run)
    requires RecordedAt(c, run, i) && AdmittedAt(c, run, j) && run[i].id == run[j].id
    ensures run[j].now - run[i].now >= c.window
  {
    if run[j].now - run[i].now < c.window {
      assert i < j - 1 ==> run[j - 1].now <= run[j].now;
      assert run[j - 1].now <= run[j].now;
      MarkStays(c, run, i, j);
    }
  }

  // ------------------------------------------------------------------
  // Exactly which requests are admitted
  // ------------------------------------------------------------------

  /** The clocks of sender and receiver differ by no more than the skew. */
  predicate InTime(c: Config, a: Arrival) {
    a.issuedAt - c.skew <= a.wall <= a.issuedAt + c.skew
  }

  /** Told from the history alone: attempt `i` leaves a mark, unless it is out of time or finds no room. */
  predicate Marks(c: Config, run: seq<Arrival>, i: nat)
    requires i < |run|
    decreases i, 1
  {
    InTime(c, run[i]) && |YoungIds(c, run, i, run[i].now)| < c.capacity
  }

  /** The identifiers of the first `n` attempts that left a mark less than a window before `now`. */
  function YoungIds(c: Config, run: seq<Arrival>, n: nat, now: Time): set<Id>
    requires n <= |run|
    decreases n, 0
  {
    if n == 0 then {}
    else
      YoungIds(c, run, n - 1, now)
      + if Marks(c, run, n - 1) && now < run[n - 1].now + c.window then {run[n - 1].id} else {}
  }

  lemma StepKeepsYoung(c: Config, seen: map<Id, Time>, a: Arrival, id: Id, now: Time)
    requires a.now <= now && forall other | other in seen :: seen[other] <= a.now
    ensures id in Recent(c, Next(c, seen, a), now)
        <==> || id in Recent(c, seen, now)
             || (id == a.id && InTime(c, a) && |Recent(c, seen, a.now)| < c.capacity && now < a.now + c.window)
    ensures forall other | other in Next(c, seen, a) :: Next(c, seen, a)[other] <= a.now
  {
  }

  lemma {:induction false} MarksAreOld(c: Config, run: seq<Arrival>, n: nat, now: Time)
    requires n <= |run| && Ordered(run) && (n > 0 ==> run[n - 1].now <= now)
    ensures forall id | id in At(c, run, n) :: At(c, run, n)[id] <= now
  {
    if n > 0 {
      assert n > 1 ==> run[n - 2].now <= run[n - 1].now;
      MarksAreOld(c, run, n - 1, run[n - 1].now);
      StepKeepsYoung(c, At(c, run, n - 1), run[n - 1], 0, run[n - 1].now);
    }
  }

  function Counted(c: Config, seen: map<Id, Time>, now: Time): set<Id> {
    Recent(c, seen, now).Keys
  }

  lemma StepCounts(c: Config, seen: map<Id, Time>, a: Arrival, now: Time)
    requires a.now <= now && forall other | other in seen :: seen[other] <= a.now
    ensures Counted(c, Next(c, seen, a), now)
         == Counted(c, seen, now)
            + if InTime(c, a) && |Counted(c, seen, a.now)| < c.capacity && now < a.now + c.window then {a.id} else {}
  {
    assert |Recent(c, seen, a.now)| == |Counted(c, seen, a.now)|;
    forall id: Id
      ensures id in Counted(c, Next(c, seen, a), now)
          <==> || id in Counted(c, seen, now)
               || (id == a.id && InTime(c, a) && |Counted(c, seen, a.now)| < c.capacity && now < a.now + c.window)
    {
      StepKeepsYoung(c, seen, a, id, now);
    }
  }

  /** What the table still counts is what the history says. */
  lemma {:induction false} TableTellsHistory(c: Config, run: seq<Arrival>, n: nat, now: Time)
    requires n <= |run| && Ordered(run) && (n > 0 ==> run[n - 1].now <= now)
    ensures Counted(c, At(c, run, n), now) == YoungIds(c, run, n, now)
  {
    if n > 0 {
      hide Counted, Next, InTime;
      assert n > 1 ==> run[n - 2].now <= run[n - 1].now;
      MarksAreOld(c, run, n - 1, run[n - 1].now);
      TableTellsHistory(c, run, n - 1, now);
      TableTellsHistory(c, run, n - 1, run[n - 1].now);
      StepCounts(c, At(c, run, n - 1), run[n - 1], now);
    } else {
      assert Counted(c, map[], now) == {};
    }
  }

  /**
    * Exactly what the guard answers, told from the history: a request whose clocks are too far apart is stale;
    * otherwise, with `capacity` identifiers marked in the last window, the guard is full; otherwise a request whose
    * identifier is among them is a replay; and every other request is admitted.
    */
  lemma AnsweredExactly(c: Config, run: seq<Arrival>, i: nat)
    requires i < |run| && Ordered(run)
    ensures var young := YoungIds(c, run, i, run[i].now);
            Answer(c, At(c, run, i), run[i])
            == if !InTime(c, run[i]) then Err(Stale)
               else if |young| >= c.capacity then Err(Full)
               else if run[i].id in young then Err(Replayed)
               else Ok(())
    ensures Marks(c, run, i) <==> RecordedAt(c, run, i)
  {
    assert i > 0 ==> run[i - 1].now <= run[i].now;
    TableTellsHistory(c, run, i, run[i].now);
    var recent := Recent(c, At(c, run, i), run[i].now);
    assert |recent| == |recent.Keys|;
  }

  // ------------------------------------------------------------------
  // How often one request can be admitted
  // ------------------------------------------------------------------

  /** The events `hits` all admit one and the same request: same identifier, same issue time. */
  ghost predicate AdmitSameRequest(c: Config, run: seq<Arrival>, hits: set<nat>) {
    && (forall h | h in hits :: h < |run| && AdmittedAt(c, run, h))
    && (forall h, g | h in hits && g in hits :: run[h].id == run[g].id && run[h].issuedAt == run[g].issuedAt)
  }

  lemma {:induction false} Latest(hits: set<nat>) returns (last: nat)
    requires hits != {}
    ensures last in hits && forall h | h in hits :: h <= last
  {
    var some :| some in hits;
    if hits == {some} {
      last := some;
    } else {
      var rest := hits - {some};
      assert hits == rest + {some} && rest != {};
      last := Latest(rest);
      last := if last < some then some else last;
    }
  }

  /** The length of `n` windows. */
  function Windows(c: Config, n: nat): nat {
    if n == 0 then 0 else Windows(c, n - 1) + c.window
  }

  lemma {:induction false} WindowsMultiply(c: Config, n: nat)
    ensures Windows(c, n) == n * c.window
  {
    if n > 0 {
      WindowsMultiply(c, n - 1);
    }
  }

  lemma {:induction false} WindowsGrow(c: Config, i: nat, j: nat)
    requires i <= j
    ensures Windows(c, i) <= Windows(c, j)
  {
    if i < j {
      WindowsGrow(c, i, j - 1);
    }
  }

  lemma OneMoreWindow(c: Config, n: nat)
    ensures Windows(c, 0) == 0 && (n > 0 ==> Windows(c, n) == Windows(c, n - 1) + c.window)
  {
  }

  lemma FewerHits(c: Config, run: seq<Arrival>, hits: set<nat>, fewer: set<nat>)
    requires AdmitSameRequest(c, run, hits) && fewer <= hits
    ensures AdmitSameRequest(c, run, fewer)
    ensures forall h | h in hits :: h < |run|
  {
  }

  lemma HitsAreApart(c: Config, run: seq<Arrival>, hits: set<nat>, i: nat, j: nat)
    requires Ordered(run) && AdmitSameRequest(c, run, hits) && i in hits && j in hits && i < j
    ensures run[j].now - run[i].now >= c.window
  {
    AdmissionsAreAWindowApart(c, run, i, j);
  }

  lemma {:induction false} HitsSpread(c: Config, run: seq<Arrival>, hits: set<nat>, n: nat, last: nat)
    returns (first: nat)
    requires Ordered(run) && AdmitSameRequest(c, run, hits) && |hits| == n + 1
    requires last in hits && forall h | h in hits :: h <= last
    ensures first in hits && run[last].now - run[first].now >= Windows(c, n)
  {
    hide AdmitSameRequest, Ordered, Windows;
    var rest := hits - {last};
    FewerHits(c, run, hits, rest);
    OneMoreWindow(c, n);
    if n == 0 {
      first := last;
    } else {
      assert |rest| == n;
      var before := Latest(rest);
      first := HitsSpread(c, run, rest, n - 1, before);
      HitsAreApart(c, run, hits, before, last);
    }
  }

  /** A request admitted `k` times needs `k - 1` windows inside the two skews its age may range over. */
  lemma AdmissionsOfOneRequest(c: Config, run: seq<Arrival>, hits: set<nat>)
    requires Ordered(run) && SteadyWall(run) && hits != {} && AdmitSameRequest(c, run, hits)
    ensures (|hits| - 1) * c.window <= 2 * c.skew
  {
    hide AdmitSameRequest, Ordered, SteadyWall, Windows;
    var last := Latest(hits);
    var first := HitsSpread(c, run, hits, |hits| - 1, last);
    WindowsMultiply(c, |hits| - 1);
    AgeDecides(c, run, hits, first, last);
  }

  lemma AgeDecides(c: Config, run: seq<Arrival>, hits: set<nat>, i: nat, j: nat)
    requires SteadyWall(run) && AdmitSameRequest(c, run, hits) && i in hits && j in hits
    ensures run[j].now - run[i].now <= 2 * c.skew
  {
    assert run[i].issuedAt == run[j].issuedAt;
    assert run[i].wall - run[i].now == run[j].wall - run[j].now;
  }

  /** Some run admits one request `k` times. */
  ghost predicate CanBeAdmitted(c: Config, k: nat) {
    exists run: seq<Arrival>, hits: set<nat> ::
      Ordered(run) && SteadyWall(run) && AdmitSameRequest(c, run, hits) && |hits| == k
  }

  /** A request issued a full skew ahead of the clock, presented at once and then again every window. */
  function Presentations(c: Config, k: nat): seq<Arrival> {
    seq(k, j requires 0 <= j < k => Arrival(7, c.skew, Windows(c, j), Windows(c, j)))
  }

  lemma {:induction false} PresentationsAreAdmitted(c: Config, k: nat, n: nat)
    requires n < k && c.capacity > 0 && Windows(c, k - 1) <= 2 * c.skew
    ensures AdmittedAt(c, Presentations(c, k), n)
    ensures At(c, Presentations(c, k), n + 1) == map[7 := Windows(c, n)]
  {
    var run := Presentations(c, k);
    WindowsGrow(c, n, k - 1);
    if n > 0 {
      PresentationsAreAdmitted(c, k, n - 1);
    }
    assert run[n] == Arrival(7, c.skew, Windows(c, n), Windows(c, n));
    PresentedOnceMore(c, At(c, run, n), run[n], if n > 0 then Windows(c, n - 1) else 0, n == 0);
  }

  /** A guard that knows nothing else admits a request again once its mark is a window old. */
  lemma PresentedOnceMore(c: Config, seen: map<Id, Time>, a: Arrival, before: Time, unseen: bool)
    requires seen == if unseen then map[] else map[a.id := before]
    requires !unseen ==> a.now == before + c.window
    requires c.capacity > 0 && !OutsideSkew(c, a)
    ensures Answer(c, seen, a).Ok? && Next(c, seen, a) == map[a.id := a.now]
  {
    assert Recent(c, seen, a.now) == map[];
  }

  /** The numbers below `k`. */
  function Below(k: nat): (numbers: set<nat>)
    ensures |numbers| == k && forall i: nat :: i in numbers <==> i < k
  {
    if k == 0 then {} else Below(k - 1) + {k - 1}
  }

  /** As often as windows fit into two skews, a request can be admitted. */
  lemma ManyPresentations(c: Config, k: nat)
    requires k > 0 && c.capacity > 0 && (k - 1) * c.window <= 2 * c.skew
    ensures CanBeAdmitted(c, k)
  {
    hide Presentations, AdmitSameRequest, Ordered, SteadyWall;
    WindowsMultiply(c, k - 1);
    PresentationsAreInOrder(c, k);
    PresentationsAreOneRequest(c, k);
    assert |Below(k)| == k;
  }

  lemma PresentationsAreInOrder(c: Config, k: nat)
    ensures Ordered(Presentations(c, k)) && SteadyWall(Presentations(c, k))
  {
    forall i, j | 0 <= i < j < k
      ensures Windows(c, i) <= Windows(c, j)
    {
      WindowsGrow(c, i, j);
    }
  }

  lemma PresentationsAreOneRequest(c: Config, k: nat)
    requires k > 0 && c.capacity > 0 && Windows(c, k - 1) <= 2 * c.skew
    ensures AdmitSameRequest(c, Presentations(c, k), Below(k))
  {
    hide AdmittedAt;
    forall h | h in Below(k)
      ensures AdmittedAt(c, Presentations(c, k), h)
    {
      PresentationsAreAdmitted(c, k, h);
    }
  }

  lemma SomethingAdmitted(c: Config, run: seq<Arrival>, hits: set<nat>)
    requires AdmitSameRequest(c, run, hits) && |hits| > 0
    ensures c.capacity > 0
  {
    var h :| h in hits;
    assert AdmittedAt(c, run, h);
  }

  lemma TwoHits(hits: set<nat>) returns (i: nat, j: nat)
    requires |hits| == 2
    ensures i < j && hits == {i, j}
  {
    j := Latest(hits);
    var rest := hits - {j};
    assert |rest| == 1;
    i := Latest(rest);
    assert |rest - {i}| == 0;
    assert hits == rest + {j} && rest == {i};
  }

  /** Exactly how often one request can be admitted. */
  lemma AdmittedHowOften(c: Config, k: nat)
    requires k > 0
    ensures CanBeAdmitted(c, k) <==> c.capacity > 0 && (k - 1) * c.window <= 2 * c.skew
  {
    if CanBeAdmitted(c, k) {
      var run: seq<Arrival>, hits: set<nat> :|
        Ordered(run) && SteadyWall(run) && AdmitSameRequest(c, run, hits) && |hits| == k;
      SomethingAdmitted(c, run, hits);
      hide AdmitSameRequest, Ordered, SteadyWall;
      AdmissionsOfOneRequest(c, run, hits);
    } else if c.capacity > 0 && (k - 1) * c.window <= 2 * c.skew {
      ManyPresentations(c, k);
    }
  }

  /** No run, however long, admits one request twice. */
  ghost predicate NeverTwice(c: Config) {
    forall run: seq<Arrival>, i: nat, j: nat | Ordered(run) && SteadyWall(run) && i < j < |run| ::
      !AdmitSameRequest(c, run, {i, j})
  }

  lemma TwiceMeansTwoHits(c: Config)
    ensures NeverTwice(c) <==> !CanBeAdmitted(c, 2)
  {
    if CanBeAdmitted(c, 2) {
      TwoHitsBreakIt(c);
    }
    hide Ordered, SteadyWall, AdmitSameRequest;
    if !NeverTwice(c) {
      var run: seq<Arrival>, i: nat, j: nat :|
        Ordered(run) && SteadyWall(run) && i < j < |run| && AdmitSameRequest(c, run, {i, j});
      assert |{i, j}| == 2;
    }
  }

  lemma TwoHitsBreakIt(c: Config)
    requires CanBeAdmitted(c, 2)
    ensures !NeverTwice(c)
  {
    hide Ordered, SteadyWall, AdmitSameRequest;
    var run: seq<Arrival>, hits: set<nat> :|
      Ordered(run) && SteadyWall(run) && AdmitSameRequest(c, run, hits) && |hits| == 2;
    FewerHits(c, run, hits, hits);
    var i, j := TwoHits(hits);
  }

  /** Exactly when the guard keeps its promise that an applied request is never applied again. */
  lemma NeverTwiceExactly(c: Config)
    ensures NeverTwice(c) <==> c.window > 2 * c.skew || c.capacity == 0
  {
    AdmittedHowOften(c, 2);
    TwiceMeansTwoHits(c);
  }

  /** The shipped window equals one skew: a request can be admitted a second and a third time, but not a fourth. */
  lemma ShippedConstants()
    ensures var c := Config(REQUEST_WINDOW, MAX_CLOCK_SKEW, MAX_TRACKED_REQUESTS);
            CanBeAdmitted(c, 3) && !CanBeAdmitted(c, 4) && !NeverTwice(c)
  {
    var c := Config(REQUEST_WINDOW, MAX_CLOCK_SKEW, MAX_TRACKED_REQUESTS);
    AdmittedHowOften(c, 3);
    AdmittedHowOften(c, 4);
    NeverTwiceExactly(c);
  }
}
