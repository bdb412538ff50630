/** Who is calling and what it may do: identity and allowlist caches in front of the mesh and the store. */
module Authorization {
  import opened Basics
  import opened AccessStore
  import RateLimiting

  type Time = nat

  const SECOND: nat := 1_000_000_000
  const IDENTITY_CACHE_TTL: nat := 15 * SECOND
  const IDENTITY_CACHE_CAPACITY: nat := 512
  const ALLOWLIST_CACHE_TTL: nat := 2 * SECOND

  datatype AuthorizationError =
    | RateLimited | Unavailable | Unauthorized | Forbidden | AccessStoreFailed | OutsideTailnet

  datatype AuthorizedPeer = AuthorizedPeer(nodeId: string, capabilities: seq<Capability>)

  datatype CachedIdentity = CachedIdentity(nodeId: string, resolvedAt: Time)

  datatype CachedAllowlist = CachedAllowlist(entries: seq<AllowedController>, readAt: Time)

  /** What asking the mesh gives: no free lookup slot, no answer in time, an error, an unknown source, or a node. */
  datatype LookupAnswer = NoSlot | TimedOut | Failed | Unknown | Resolved(nodeId: string)

  // ------------------------------------------------------------------
  // Specification
  // ------------------------------------------------------------------

  function Fresh(identities: map<IpAddr, CachedIdentity>, now: Time): map<IpAddr, CachedIdentity> {
    map source | source in identities && Elapsed(now, identities[source].resolvedAt) < IDENTITY_CACHE_TTL
      :: identities[source]
  }

  /** The node the cache answers with, if it may still answer. */
  function CachedNode(identities: map<IpAddr, CachedIdentity>, source: IpAddr, now: Time): Option<string> {
    if source in Fresh(identities, now) then Some(identities[source].nodeId) else None
  }

  /** The cache after a lookup that began at `now`: stale entries make room, and without room nothing is kept. */
  function Remembered(identities: map<IpAddr, CachedIdentity>, source: IpAddr, nodeId: string, now: Time)
    : map<IpAddr, CachedIdentity>
  {
    var kept := if |identities| >= IDENTITY_CACHE_CAPACITY then Fresh(identities, now) else identities;
    if |kept| < IDENTITY_CACHE_CAPACITY then kept[source := CachedIdentity(nodeId, now)] else kept
  }

  function LookupResult(answer: LookupAnswer): Result<string, AuthorizationError> {
    match answer
    case NoSlot => Err(Unavailable)
    case TimedOut => Err(Unavailable)
    case Failed => Err(Unauthorized)
    case Unknown => Err(Unauthorized)
    case Resolved(nodeId) => if nodeId == "" then Err(Unauthorized) else Ok(nodeId)
  }

  function Identified(identities: map<IpAddr, CachedIdentity>, source: IpAddr, now: Time, answer: LookupAnswer)
    : Result<string, AuthorizationError>
  {
    var cached := CachedNode(identities, source, now);
    if cached.Some? then Ok(cached.value) else LookupResult(answer)
  }

  function CachedEntries(allowlist: Option<CachedAllowlist>, now: Time): Option<seq<AllowedController>> {
    if allowlist.Some? && Elapsed(now, allowlist.value.readAt) < ALLOWLIST_CACHE_TTL
    then Some(allowlist.value.entries)
    else None
  }

  /** `listing` is what the store would answer; `None` when reading it fails. */
  function Listed(allowlist: Option<CachedAllowlist>, now: Time, listing: Option<seq<AllowedController>>)
    : Result<seq<AllowedController>, AuthorizationError>
  {
    var cached := CachedEntries(allowlist, now);
    if cached.Some? then Ok(cached.value)
    else if listing.Some? then Ok(listing.value)
    else Err(AccessStoreFailed)
  }

  function Peer(entries: seq<AllowedController>, nodeId: string): Result<AuthorizedPeer, AuthorizationError> {
    var entry := Lookup(entries, nodeId);
    if entry.Some? then Ok(AuthorizedPeer(entry.value.nodeId, entry.value.capabilities)) else Err(Unauthorized)
  }

  /** What an identity and an allowlist come to. */
  function Checked(
    identity: Result<string, AuthorizationError>, entries: Result<seq<AllowedController>, AuthorizationError>)
    : Result<AuthorizedPeer, AuthorizationError>
  {
    if identity.Err? then Err(identity.error)
    else if entries.Err? then Err(entries.error)
    else Peer(entries.value, identity.value)
  }

  // ------------------------------------------------------------------
  // The authorizer as an object
  // ------------------------------------------------------------------

  class Authorizer {
    var identities: map<IpAddr, CachedIdentity>
    var allowlist: Option<CachedAllowlist>
    const limiter: RateLimiting.RateLimiter
    const strictTailnetOnly: bool

    constructor (limiter: RateLimiting.RateLimiter, strictTailnetOnly: bool)
      ensures this.limiter == limiter && this.strictTailnetOnly == strictTailnetOnly
      ensures identities == map[] && allowlist.None?
    {
      this.identities, this.allowlist := map[], None;
      this.limiter, this.strictTailnetOnly := limiter, strictTailnetOnly;
    }

    method Identify(source: IpAddr, now: Time, answer: LookupAnswer)
      returns (result: Result<string, AuthorizationError>)
      modifies this`identities
      ensures result == Identified(old(identities), source, now, answer)
      ensures result == if source in old(identities) && now < old(identities)[source].resolvedAt + IDENTITY_CACHE_TTL
                        then Ok(old(identities)[source].nodeId)
                        else if answer.Resolved? && answer.nodeId != "" then Ok(answer.nodeId)
                        else if answer == NoSlot || answer == TimedOut then Err(Unavailable)
                        else Err(Unauthorized)
      ensures identities == if CachedNode(old(identities), source, now).None? && result.Ok?
                            then Remembered(old(identities), source, result.value, now) else old(identities)
    {
      if source in identities && Elapsed(now, identities[source].resolvedAt) < IDENTITY_CACHE_TTL {
        return Ok(identities[source].nodeId);
      }
      if answer == NoSlot || answer == TimedOut {
        return Err(Unavailable);
      }
      if answer == Failed || answer == Unknown || answer.nodeId == "" {
        return Err(Unauthorized);
      }
      if |identities| >= IDENTITY_CACHE_CAPACITY {
        identities := map other | other in identities && Elapsed(now, identities[other].resolvedAt) < IDENTITY_CACHE_TTL
                        :: identities[other];
      }
      if |identities| < IDENTITY_CACHE_CAPACITY {
        identities := identities[source := CachedIdentity(answer.nodeId, now)];
      }
      return Ok(answer.nodeId);
    }

    method Allowlist(now: Time, listing: Option<seq<AllowedController>>)
      returns (result: Result<seq<AllowedController>, AuthorizationError>)
      modifies this`allowlist
      ensures result == Listed(old(allowlist), now, listing)
      ensures result == if old(allowlist).Some? && now < old(allowlist).value.readAt + ALLOWLIST_CACHE_TTL
                        then Ok(old(allowlist).value.entries)
                        else if listing.Some? then Ok(listing.value) else Err(AccessStoreFailed)
      ensures allowlist == if CachedEntries(old(allowlist), now).None? && listing.Some?
                           then Some(CachedAllowlist(listing.value, now)) else old(allowlist)
    {
      if allowlist.Some? && Elapsed(now, allowlist.value.readAt) < ALLOWLIST_CACHE_TTL {
        return Ok(allowlist.value.entries);
      }
      if listing.None? {
        return Err(AccessStoreFailed);
      }
      allowlist := Some(CachedAllowlist(listing.value, now));
      return Ok(listing.value);
    }

    /** The clock is read three times: by the limiter, before the identity check and before the allowlist check. */
    method Authenticate(source: IpAddr, limiterNow: Time, identityNow: Time, allowlistNow: Time,
                        answer: LookupAnswer, listing: Option<seq<AllowedController>>)
      returns (result: Result<AuthorizedPeer, AuthorizationError>)
      requires RateLimiting.WellFormed(limiter.Model(), limiterNow)
      modifies this, limiter
      ensures var outside := strictTailnetOnly && !IsTailscaleAddress(source);
              var admitted := RateLimiting.Decide(old(limiter.Model()), source, limiterNow) == RateLimiting.Admitted;
              var identity := Identified(old(identities), source, identityNow, answer);
              var entries := Listed(old(allowlist), allowlistNow, listing);
              result == if outside then Err(OutsideTailnet)
                        else if !admitted then Err(RateLimited)
                        else if identity.Err? then Err(identity.error)
                        else if entries.Err? then Err(entries.error)
                        else Checked(identity, entries)
      ensures result.Ok? ==>
                && (strictTailnetOnly ==> IsTailscaleAddress(source))
                && exists nodeId, entries ::
                     && Identified(old(identities), source, identityNow, answer) == Ok(nodeId)
                     && Listed(old(allowlist), allowlistNow, listing) == Ok(entries)
                     && Lookup(entries, nodeId).Some?
                     && result.value == AuthorizedPeer(Lookup(entries, nodeId).value.nodeId,
                                                       Lookup(entries, nodeId).value.capabilities)
      ensures var outside := strictTailnetOnly && !IsTailscaleAddress(source);
              var passed := !outside
                             && RateLimiting.Decide(old(limiter.Model()), source, limiterNow) == RateLimiting.Admitted;
              var identity := Identified(old(identities), source, identityNow, answer);
              && limiter.Model() == (if outside then old(limiter.Model())
                                     else RateLimiting.AdmitNext(old(limiter.Model()), source, limiterNow))
              && identities == (if passed && identity.Ok? && CachedNode(old(identities), source, identityNow).None?
                                then Remembered(old(identities), source, identity.value, identityNow)
                                else old(identities))
              && allowlist == (if passed && identity.Ok?
                                  && CachedEntries(old(allowlist), allowlistNow).None? && listing.Some?
                               then Some(CachedAllowlist(listing.value, allowlistNow)) else old(allowlist))
    {
      if strictTailnetOnly && !IsTailscaleAddress(source) {
        return Err(OutsideTailnet);
      }
      var admitted := limiter.Admit(source, limiterNow);
      if !admitted {
        return Err(RateLimited);
      }
      var identity := Identify(source, identityNow, answer);
      if identity.Err? {
        return Err(identity.error);
      }
      var entries := Allowlist(allowlistNow, listing);
      if entries.Err? {
        return Err(entries.error);
      }
      return Peer(entries.value, identity.value);
    }
  }

  // ------------------------------------------------------------------
  // Runs: caches, mesh and store moving together
  // ------------------------------------------------------------------

  datatype World = World(
    identities: map<IpAddr, CachedIdentity>, allowlist: Option<CachedAllowlist>, store: seq<AllowedController>)

  /**
    * What changes caches or store, at the moment `at`. `now` is the clock read before the lookup or the listing
    * began, so it may lag behind; any number of other events may lie between the two.
    */
  datatype Event =
    | Allow(controller: AllowedController, at: Time)
    | Revoke(nodeId: string, at: Time)
    | Resolve(source: IpAddr, nodeId: string, now: Time, at: Time)
    | Relist(now: Time, at: Time)

  function Next(world: World, ev: Event): World {
    match ev
    case Allow(controller, _) => world.(store := Allowed(world.store, controller))
    case Revoke(nodeId, _) => world.(store := Without(world.store, nodeId))
    case Resolve(source, nodeId, now, _) =>
      if nodeId == "" then world
      else world.(identities := Remembered(world.identities, source, nodeId, now))
    case Relist(now, _) => world.(allowlist := Some(CachedAllowlist(world.store, now)))
  }

  function At(store: seq<AllowedController>, run: seq<Event>, n: nat): World
    requires n <= |run|
  {
    if n == 0 then World(map[], None, store) else Next(At(store, run, n - 1), run[n - 1])
  }

  predicate Ordered(run: seq<Event>) {
    && (forall i, j | 0 <= i < j < |run| :: run[i].at <= run[j].at)
    && (forall i | 0 <= i < |run| && (run[i].Resolve? || run[i].Relist?) :: run[i].now <= run[i].at)
  }

  lemma FreshShrinks(identities: map<IpAddr, CachedIdentity>, now: Time)
    ensures |Fresh(identities, now)| <= |identities|
  {
    var recent := Fresh(identities, now);
    assert identities.Keys == recent.Keys + (identities.Keys - recent.Keys);
    assert |recent| == |recent.Keys| && |identities| == |identities.Keys|;
  }

  lemma RememberedIsBounded(identities: map<IpAddr, CachedIdentity>, source: IpAddr, nodeId: string, now: Time)
    requires |identities| <= IDENTITY_CACHE_CAPACITY
    ensures |Remembered(identities, source, nodeId, now)| <= IDENTITY_CACHE_CAPACITY
  {
    FreshShrinks(identities, now);
    var kept := if |identities| >= IDENTITY_CACHE_CAPACITY then Fresh(identities, now) else identities;
    var grown := kept[source := CachedIdentity(nodeId, now)];
    assert grown.Keys == kept.Keys + {source};
    assert |grown| == |grown.Keys| && |kept| == |kept.Keys|;
  }

  /** The identity cache never outgrows its capacity. */
  lemma {:induction false} IdentityCacheIsBounded(store: seq<AllowedController>, run: seq<Event>, n: nat)
    requires n <= |run|
    ensures |At(store, run, n).identities| <= IDENTITY_CACHE_CAPACITY
  {
    if n > 0 {
      IdentityCacheIsBounded(store, run, n - 1);
      var ev := run[n - 1];
      if ev.Resolve? {
        RememberedIsBounded(At(store, run, n - 1).identities, ev.source, ev.nodeId, ev.now);
      }
    }
  }

  predicate HasStale(identities: map<IpAddr, CachedIdentity>, now: Time) {
    exists other :: other in identities && now >= identities[other].resolvedAt + IDENTITY_CACHE_TTL
  }

  lemma StaleMakesRoom(identities: map<IpAddr, CachedIdentity>, now: Time)
    ensures if HasStale(identities, now) then |Fresh(identities, now)| < |identities|
            else Fresh(identities, now) == identities
  {
    if HasStale(identities, now) {
      var other :| other in identities && now >= identities[other].resolvedAt + IDENTITY_CACHE_TTL;
      OneIsStale(identities, now, other);
    }
  }

  lemma OneIsStale(identities: map<IpAddr, CachedIdentity>, now: Time, other: IpAddr)
    requires other in identities && other !in Fresh(identities, now)
    ensures |Fresh(identities, now)| < |identities|
  {
    var recent := Fresh(identities, now);
    assert |recent| == |recent.Keys| && |identities| == |identities.Keys|;
    SubsetSize(recent.Keys + {other}, identities.Keys);
  }

  /** An identity is remembered exactly if there is room or a stale one makes room. */
  lemma RememberedExactly(identities: map<IpAddr, CachedIdentity>, source: IpAddr, nodeId: string, now: Time)
    requires |identities| <= IDENTITY_CACHE_CAPACITY
    ensures var next := Remembered(identities, source, nodeId, now);
            if |identities| < IDENTITY_CACHE_CAPACITY || HasStale(identities, now)
            then source in next && next[source] == CachedIdentity(nodeId, now)
            else next == identities
  {
    StaleMakesRoom(identities, now);
    hide HasStale, Fresh;
  }

  /** Fresh identities of others never give way, and none is made up. */
  lemma OthersAreKept(identities: map<IpAddr, CachedIdentity>, source: IpAddr, nodeId: string, now: Time, other: IpAddr)
    requires other != source
    ensures var next := Remembered(identities, source, nodeId, now);
            && (other in next ==> other in identities && next[other] == identities[other])
            && (other in identities && now < identities[other].resolvedAt + IDENTITY_CACHE_TTL ==> other in next)
  {
  }

  /** The cache has this identity of a source and no other, at least until it is stale at `now`. */
  predicate Holds(identities: map<IpAddr, CachedIdentity>, source: IpAddr, nodeId: string, resolvedAt: Time, now: Time)
  {
    && (source in identities ==> identities[source] == CachedIdentity(nodeId, resolvedAt))
    && (now < resolvedAt + IDENTITY_CACHE_TTL ==> source in identities)
  }

  lemma StepHolds(world: World, ev: Event, source: IpAddr, nodeId: string, resolvedAt: Time, now: Time)
    requires Holds(world.identities, source, nodeId, resolvedAt, now)
    requires ev.Resolve? ==> ev.source != source && ev.now <= now
    ensures Holds(Next(world, ev).identities, source, nodeId, resolvedAt, now)
  {
    if ev.Resolve? {
      OthersAreKept(world.identities, ev.source, ev.nodeId, ev.now, source);
      hide Remembered;
    }
  }

  lemma HeldAnswers(identities: map<IpAddr, CachedIdentity>, source: IpAddr, nodeId: string, resolvedAt: Time,
                    now: Time)
    ensures Holds(identities, source, nodeId, resolvedAt, now) ==>
              CachedNode(identities, source, now)
              == if now < resolvedAt + IDENTITY_CACHE_TTL then Some(nodeId) else None
    ensures source in identities && identities[source] == CachedIdentity(nodeId, resolvedAt) ==>
              Holds(identities, source, nodeId, resolvedAt, now)
  {
  }

  /**
    * The identity cache does answer: an identity once remembered is answered without a lookup for exactly 15 s, as
    * long as no later lookup of its source replaces it and checks go by the clock.
    */
  lemma {:induction false} IdentityIsRemembered(store: seq<AllowedController>, run: seq<Event>, k: nat, n: nat,
                                                now: Time)
    requires k < n <= |run| && run[k].Resolve?
    requires run[k].source in At(store, run, k + 1).identities
    requires At(store, run, k + 1).identities[run[k].source] == CachedIdentity(run[k].nodeId, run[k].now)
    requires forall e | k < e < n && run[e].Resolve? :: run[e].source != run[k].source && run[e].now <= now
    ensures CachedNode(At(store, run, n).identities, run[k].source, now)
         == if now < run[k].now + IDENTITY_CACHE_TTL then Some(run[k].nodeId) else None
    ensures Holds(At(store, run, n).identities, run[k].source, run[k].nodeId, run[k].now, now)
    decreases n
  {
    hide Holds, Next;
    HeldAnswers(At(store, run, k + 1).identities, run[k].source, run[k].nodeId, run[k].now, now);
    if k + 1 < n {
      IdentityIsRemembered(store, run, k, n - 1, now);
      StepHolds(At(store, run, n - 1), run[n - 1], run[k].source, run[k].nodeId, run[k].now, now);
      HeldAnswers(At(store, run, n).identities, run[k].source, run[k].nodeId, run[k].now, now);
    }
  }

  /** And so does the allowlist cache: a listing is answered, without reading the store again, for exactly 2 s. */
  lemma {:induction false} ListingIsRemembered(store: seq<AllowedController>, run: seq<Event>, k: nat, n: nat,
                                               now: Time)
    requires k < n <= |run| && run[k].Relist?
    requires forall e | k < e < n :: !run[e].Relist?
    ensures CachedEntries(At(store, run, n).allowlist, now)
         == if now < run[k].now + ALLOWLIST_CACHE_TTL then Some(At(store, run, k).store) else None
    ensures At(store, run, n).allowlist == Some(CachedAllowlist(At(store, run, k).store, run[k].now))
    decreases n
  {
    if k + 1 < n {
      ListingIsRemembered(store, run, k, n - 1, now);
    }
  }

  lemma {:induction false} IdentityComesFrom(store: seq<AllowedController>, run: seq<Event>, n: nat, source: IpAddr)
    returns (k: nat)
    requires n <= |run| && source in At(store, run, n).identities
    ensures k < n && run[k].Resolve? && run[k].source == source && run[k].nodeId != ""
    ensures At(store, run, n).identities[source] == CachedIdentity(run[k].nodeId, run[k].now)
  {
    var before, here := At(store, run, n - 1).identities, At(store, run, n).identities;
    if source in before && before[source] == here[source] {
      k := IdentityComesFrom(store, run, n - 1, source);
    } else {
      k := n - 1;
    }
  }

  lemma {:induction false} AllowlistComesFrom(store: seq<AllowedController>, run: seq<Event>, n: nat) returns (k: nat)
    requires n <= |run| && At(store, run, n).allowlist.Some?
    ensures k < n && run[k].Relist?
    ensures At(store, run, n).allowlist == Some(CachedAllowlist(At(store, run, k).store, run[k].now))
  {
    if run[n - 1].Relist? {
      k := n - 1;
    } else {
      k := AllowlistComesFrom(store, run, n - 1);
    }
  }

  /** A check at clock `now` got `nodeId` for `source` at point `n`: from the cache, or from its own lookup. */
  predicate Identifies(
    store: seq<AllowedController>, run: seq<Event>, n: nat, source: IpAddr, now: Time, nodeId: string)
    requires n <= |run|
  {
    || CachedNode(At(store, run, n).identities, source, now) == Some(nodeId)
    || (n > 0 && run[n - 1].Resolve? && run[n - 1].source == source && run[n - 1].nodeId == nodeId && nodeId != ""
        && run[n - 1].now == now)
  }

  /**
    * A check at clock `now` got `entries` at point `n` of the run. The cache is locked through the listing, so a
    * check that lists the store itself finds in the cache what it has just put there.
    */
  predicate Lists(store: seq<AllowedController>, run: seq<Event>, n: nat, now: Time, entries: seq<AllowedController>)
    requires n <= |run|
  {
    CachedEntries(At(store, run, n).allowlist, now) == Some(entries)
  }

  /** The identity check looked into the cache at `m`; if that missed, its lookup is event `n` of the run. */
  predicate LooksUp(store: seq<AllowedController>, run: seq<Event>, m: nat, n: nat, source: IpAddr, now: Time,
                    answer: LookupAnswer)
    requires m <= n <= |run|
  {
    CachedNode(At(store, run, m).identities, source, now).None? && answer.Resolved? && answer.nodeId != "" ==>
      n < |run| && run[n].Resolve? && run[n].source == source && run[n].nodeId == answer.nodeId && run[n].now == now
  }

  /** The allowlist check looked into the cache at `m`; if that missed, its listing is the next event of the run. */
  predicate Reads(store: seq<AllowedController>, run: seq<Event>, m: nat, now: Time,
                  listing: Option<seq<AllowedController>>)
    requires m <= |run|
  {
    CachedEntries(At(store, run, m).allowlist, now).None? && listing.Some? ==>
      m < |run| && run[m].Relist? && run[m].now == now && listing.value == At(store, run, m).store
  }

  /** What `Identify` answers, the run accounts for. */
  lemma IdentifyIsAccountedFor(store: seq<AllowedController>, run: seq<Event>, m: nat, n: nat, source: IpAddr,
                               now: Time, answer: LookupAnswer, nodeId: string)
    returns (point: nat)
    requires m <= n <= |run| && LooksUp(store, run, m, n, source, now, answer)
    requires Identified(At(store, run, m).identities, source, now, answer) == Ok(nodeId)
    ensures m <= point <= n + 1 && point <= |run| && Identifies(store, run, point, source, now, nodeId)
  {
    point := if CachedNode(At(store, run, m).identities, source, now).Some? then m else n + 1;
  }

  /** A check whose own listing is the last event gets that listing, whatever the clock says. */
  lemma OwnListingCounts(store: seq<AllowedController>, run: seq<Event>, n: nat)
    requires 0 < n <= |run| && run[n - 1].Relist?
    ensures Lists(store, run, n, run[n - 1].now, At(store, run, n - 1).store)
  {
  }

  /** What `Allowlist` answers, the run accounts for. */
  lemma AllowlistIsAccountedFor(store: seq<AllowedController>, run: seq<Event>, m: nat, now: Time,
                                listing: Option<seq<AllowedController>>, entries: seq<AllowedController>)
    returns (point: nat)
    requires m <= |run| && Reads(store, run, m, now, listing)
    requires Listed(At(store, run, m).allowlist, now, listing) == Ok(entries)
    ensures m <= point <= m + 1 && point <= |run| && Lists(store, run, point, now, entries)
  {
    if CachedEntries(At(store, run, m).allowlist, now).Some? {
      point := m;
    } else {
      point := m + 1;
      OwnListingCounts(store, run, point);
    }
  }

  /** An identity is no older than 15 s, counted from the clock read before its lookup began. */
  lemma IdentityIsFresh(
    store: seq<AllowedController>, run: seq<Event>, n: nat, source: IpAddr, now: Time, nodeId: string)
    returns (k: nat)
    requires n <= |run| && Identifies(store, run, n, source, now, nodeId)
    ensures k < n && run[k].Resolve? && run[k].source == source && run[k].nodeId == nodeId != ""
    ensures now < run[k].now + IDENTITY_CACHE_TTL
  {
    if CachedNode(At(store, run, n).identities, source, now) == Some(nodeId) {
      k := IdentityComesFrom(store, run, n, source);
    } else {
      k := n - 1;
    }
  }

  /** A listing is no older than 2 s, counted from the clock read before it began. */
  lemma ListingIsFresh(
    store: seq<AllowedController>, run: seq<Event>, n: nat, now: Time, entries: seq<AllowedController>)
    returns (k: nat)
    requires n <= |run| && Lists(store, run, n, now, entries)
    ensures k < n && run[k].Relist? && entries == At(store, run, k).store
    ensures now < run[k].now + ALLOWLIST_CACHE_TTL
  {
    k := AllowlistComesFrom(store, run, n);
  }

  /**
    * Bounded staleness of what `Authenticate` answers. The identity check meets the caches at `m`, with its own
    * lookup, if it needs one, at `n`; the allowlist check meets them at `j`; anything may happen in between. An
    * authenticated peer is what an uncached check would have answered from a lookup begun less than 15 s before
    * the identity check and the store's content at a listing begun less than 2 s before the allowlist check.
    */
  lemma AuthenticatedFromFreshAnswers(
    store: seq<AllowedController>, run: seq<Event>, m: nat, n: nat, j: nat, source: IpAddr, identityNow: Time,
    answer: LookupAnswer, allowlistNow: Time, listing: Option<seq<AllowedController>>, peer: AuthorizedPeer)
    returns (k: nat, l: nat)
    requires m <= n <= |run| && LooksUp(store, run, m, n, source, identityNow, answer)
    requires j <= |run| && Reads(store, run, j, allowlistNow, listing)
    requires Checked(Identified(At(store, run, m).identities, source, identityNow, answer),
                     Listed(At(store, run, j).allowlist, allowlistNow, listing)) == Ok(peer)
    ensures k <= n && k < |run| && run[k].Resolve? && run[k].source == source
    ensures identityNow < run[k].now + IDENTITY_CACHE_TTL
    ensures l <= j && l < |run| && run[l].Relist? && allowlistNow < run[l].now + ALLOWLIST_CACHE_TTL
    ensures Checked(LookupResult(Resolved(run[k].nodeId)), Ok(At(store, run, l).store)) == Ok(peer)
  {
    hide CachedNode, CachedEntries, Lookup;
    var nodeId := Identified(At(store, run, m).identities, source, identityNow, answer).value;
    var entries := Listed(At(store, run, j).allowlist, allowlistNow, listing).value;
    var identified := IdentifyIsAccountedFor(store, run, m, n, source, identityNow, answer, nodeId);
    var listed := AllowlistIsAccountedFor(store, run, j, allowlistNow, listing, entries);
    k := IdentityIsFresh(store, run, identified, source, identityNow, nodeId);
    l := ListingIsFresh(store, run, listed, allowlistNow, entries);
  }

  lemma {:induction false} RevokedStaysOut(store: seq<AllowedController>, run: seq<Event>,
    r: nat, n: nat, nodeId: string)
    requires r < n <= |run| && run[r].Revoke? && run[r].nodeId == nodeId
    requires forall k | r < k < n && run[k].Allow? :: run[k].controller.nodeId != nodeId
    ensures Lookup(At(store, run, n).store, nodeId).None?
    decreases n
  {
    var before, ev := At(store, run, n - 1).store, run[n - 1];
    if r < n - 1 {
      RevokedStaysOut(store, run, r, n - 1, nodeId);
    }
    match ev
    case Allow(controller, _) =>
      LookupWithout(before, controller.nodeId, nodeId);
      LookupAppend(Without(before, controller.nodeId), controller, nodeId);
    case Revoke(removed, _) => LookupWithout(before, removed, nodeId);
    case Resolve(_, _, _, _) =>
    case Relist(_, _) =>
  }

  /**
    * Revocation takes hold within the cache lifetime: once a revoke has completed, with no later allow, no check
    * that reads the clock two seconds later or more authorizes the node, from the cache or from the store.
    */
  lemma RevocationTakesHold(store: seq<AllowedController>, run: seq<Event>, r: nat, n: nat, nodeId: string,
                            now: Time, entries: seq<AllowedController>)
    requires r < n <= |run| && Ordered(run) && run[r].Revoke? && run[r].nodeId == nodeId
    requires forall k | r < k < n && run[k].Allow? :: run[k].controller.nodeId != nodeId
    requires Lists(store, run, n, now, entries) && now >= run[r].at + ALLOWLIST_CACHE_TTL
    ensures Peer(entries, nodeId) == Err(Unauthorized)
  {
    var k := ListingIsFresh(store, run, n, now, entries);
    assert r < k;
    RevokedStaysOut(store, run, r, k, nodeId);
  }
}
