/** The session coordinator: one lease, one owner, numbered grants, and desktop effects that can fail. */
module Sessions {
  import opened Basics

  type Time = nat

  const U64_MAX: nat := 0xFFFF_FFFF_FFFF_FFFF

  datatype Role = Controller | Remote

  datatype Window = ActiveWindow | Class(name: string) | Address(hex: string)

  datatype Claim = Claim(id: nat, generation: nat)

  datatype Grant = Grant(id: nat, generation: nat, leaseSeconds: nat)

  datatype ActiveSession = ActiveSession(
    id: nat, generation: nat, owner: string, role: Role, controller: Option<Endpoint>, window: Window)

  datatype SessionError = OwnedByAnotherController | NotOwner | NotFound | EffectsFailed

  datatype Outcome = Applied | Ignored

  /** The shortcuts a grant puts in force. */
  datatype Keybinds = Keybinds(role: Role, controller: Option<Endpoint>, window: Window)

  /** What the desktop runs on behalf of the session, and whether the last cleanup reported an error. */
  datatype Effects = Effects(keybinds: Option<Keybinds>, follow: Option<Endpoint>, clearFailed: bool)

  /** `issued` collects every session identifier ever drawn; identifiers are random and never repeat. */
  datatype State = State(
    active: Option<ActiveSession>, expiresAt: Option<Time>, generation: nat, effects: Effects, issued: set<nat>)

  /** One lock-held section of the coordinator; each port call inside it may succeed or fail. */
  datatype Event =
    | Attach(owner: string, role: Role, controller: Option<Endpoint>, window: Window, id: nat, now: Time,
             firstClear: bool, install: bool, secondClear: bool)
    | Detach(owner: string, claim: Claim, now: Time, clear: bool)
    | Renew(owner: string, claim: Claim, now: Time)
    | Sweep(now: Time, clear: bool)
    | Release(now: Time, clear: bool)
    | Reconcile(now: Time, clear: bool)

  // ------------------------------------------------------------------
  // Specification of one step
  // ------------------------------------------------------------------

  function ClaimOf(session: ActiveSession): Claim {
    Claim(session.id, session.generation)
  }

  function BindsOf(session: ActiveSession): Keybinds {
    Keybinds(session.role, session.controller, session.window)
  }

  /** Focus following belongs to the remote side of a session only. */
  function FollowOf(session: ActiveSession): Option<Endpoint> {
    if session.role == Remote then session.controller else None
  }

  /** Cleanup stops focus following in every case and the shortcuts only when it succeeds. */
  function Cleared(effects: Effects, ok: bool): Effects {
    Effects(if ok then None else effects.keybinds, None, !ok)
  }

  function Installed(effects: Effects, session: ActiveSession): Effects {
    effects.(keybinds := Some(BindsOf(session)),
             follow := if session.role == Remote then session.controller else effects.follow)
  }

  predicate LeaseElapsed(st: State, now: Time) {
    st.expiresAt.None? || st.expiresAt.value <= now
  }

  predicate Live(st: State, now: Time) {
    st.active.Some? && !LeaseElapsed(st, now)
  }

  function Snapshot(st: State, now: Time): Option<ActiveSession> {
    if LeaseElapsed(st, now) then None else st.active
  }

  function Seconds(lease: nat): nat {
    lease / 1_000_000_000
  }

  function NextGeneration(generation: nat): nat {
    if generation < U64_MAX then generation + 1 else U64_MAX
  }

  predicate HeldByOther(st: State, owner: string, now: Time) {
    Live(st, now) && st.active.value.owner != owner
  }

  /** The claim names the session that is active now, and the caller owns it. */
  predicate Holds(st: State, owner: string, claim: Claim) {
    st.active.Some? && st.active.value.owner == owner && ClaimOf(st.active.value) == claim
  }

  function Candidate(st: State, ev: Event): ActiveSession
    requires ev.Attach?
  {
    ActiveSession(ev.id, NextGeneration(st.generation), ev.owner, ev.role, ev.controller, ev.window)
  }

  function Vacated(st: State, effects: Effects): State {
    st.(active := None, expiresAt := None, effects := effects)
  }

  function Next(lease: nat, st: State, ev: Event): State {
    match ev
    case Attach(owner, role, controller, window, id, now, firstClear, install, secondClear) =>
      if HeldByOther(st, owner, now) then st
      else
        var session := Candidate(st, ev);
        var numbered := st.(generation := session.generation, issued := st.issued + {id});
        var effects := Cleared(st.effects, firstClear);
        if install
        then numbered.(active := Some(session), expiresAt := Some(now + lease), effects := Installed(effects, session))
        else Vacated(numbered, Cleared(effects, secondClear))
    case Detach(owner, claim, _, clear) =>
      if !Holds(st, owner, claim) then st
      else if clear then Vacated(st, Cleared(st.effects, true))
      else st.(effects := Cleared(st.effects, false))
    case Renew(owner, claim, now) =>
      if Holds(st, owner, claim) && Live(st, now) then st.(expiresAt := Some(now + lease)) else st
    case Sweep(now, clear) =>
      if st.active.None? || Live(st, now) then st
      else if clear then Vacated(st, Cleared(st.effects, true))
      else st.(effects := Cleared(st.effects, false))
    case Release(_, clear) =>
      if st.active.None? then st else Vacated(st, Cleared(st.effects, clear))
    case Reconcile(_, clear) => Vacated(st, Cleared(st.effects, clear))
  }

  /** The grant an attach or a renewal hands out, or why it does not. */
  function GrantAnswer(lease: nat, st: State, ev: Event): Result<Grant, SessionError>
    requires ev.Attach? || ev.Renew?
  {
    match ev
    case Attach(owner, _, _, _, id, now, _, install, _) =>
      if HeldByOther(st, owner, now) then Err(OwnedByAnotherController)
      else if !install then Err(EffectsFailed)
      else Ok(Grant(id, NextGeneration(st.generation), Seconds(lease)))
    case Renew(owner, claim, now) =>
      if st.active.Some? && st.active.value.owner != owner then Err(NotOwner)
      else if Holds(st, owner, claim) && Live(st, now) then Ok(Grant(claim.id, claim.generation, Seconds(lease)))
      else Err(NotFound)
  }

  function DetachAnswer(st: State, ev: Event): Result<Outcome, SessionError>
    requires ev.Detach?
  {
    if st.active.Some? && st.active.value.owner != ev.owner then Err(NotOwner)
    else if !Holds(st, ev.owner, ev.claim) then Ok(Ignored)
    else if ev.clear then Ok(Applied)
    else Err(EffectsFailed)
  }

  /** What an attach comes to, field by field. */
  predicate AttachedExactly(lease: nat, st: State, ev: Event, answer: Result<Grant, SessionError>, next: State)
    requires ev.Attach?
  {
    if st.active.Some? && st.active.value.owner != ev.owner && st.expiresAt.Some? && ev.now < st.expiresAt.value then
      answer == Err(OwnedByAnotherController) && next == st
    else
      && next.generation == (if st.generation < U64_MAX then st.generation + 1 else U64_MAX)
      && if ev.install then
           && answer == Ok(Grant(ev.id, next.generation, lease / 1_000_000_000))
           && next.active == Some(ActiveSession(ev.id, next.generation, ev.owner, ev.role, ev.controller, ev.window))
           && next.expiresAt == Some(ev.now + lease)
           && next.effects.keybinds == Some(Keybinds(ev.role, ev.controller, ev.window))
           && next.effects.follow == if ev.role == Remote then ev.controller else None
         else
           answer == Err(EffectsFailed) && next.active.None? && next.expiresAt.None? && next.effects.follow.None?
  }

  lemma AttachExactly(lease: nat, st: State, ev: Event)
    requires ev.Attach?
    ensures AttachedExactly(lease, st, ev, GrantAnswer(lease, st, ev), Next(lease, st, ev))
  {
  }

  /** The step and the answer of an attach, side by side. */
  lemma AttachUnfolds(lease: nat, st: State, ev: Event)
    requires ev.Attach?
    ensures var session, effects := Candidate(st, ev), Cleared(st.effects, ev.firstClear);
            var numbered := st.(generation := session.generation, issued := st.issued + {ev.id});
            if HeldByOther(st, ev.owner, ev.now) then
              Next(lease, st, ev) == st && GrantAnswer(lease, st, ev) == Err(OwnedByAnotherController)
            else if ev.install then
              && Next(lease, st, ev) == numbered.(active := Some(session), expiresAt := Some(ev.now + lease),
                                                  effects := Installed(effects, session))
              && GrantAnswer(lease, st, ev) == Ok(Grant(session.id, session.generation, Seconds(lease)))
            else
              && Next(lease, st, ev) == Vacated(numbered, Cleared(effects, ev.secondClear))
              && GrantAnswer(lease, st, ev) == Err(EffectsFailed)
  {
  }

  // ------------------------------------------------------------------
  // The coordinator as an object
  // ------------------------------------------------------------------

  class KeybindSessionEffects {
    var keybinds: Option<Keybinds>
    var follow: Option<Endpoint>
    ghost var clearFailed: bool

    ghost function Model(): Effects
      reads this
    {
      Effects(keybinds, follow, clearFailed)
    }

    constructor (leftover: Option<Keybinds>, running: Option<Endpoint>)
      ensures Model() == Effects(leftover, running, false)
    {
      keybinds, follow, clearFailed := leftover, running, false;
    }

    /** `reported` is what the shortcut installer answers; a failed call leaves the shortcuts as they were. */
    method Install(session: ActiveSession, reported: bool) returns (ok: bool)
      modifies this
      ensures ok == reported
      ensures Model() == if ok then Installed(old(Model()), session) else old(Model())
      ensures ok ==> keybinds == Some(Keybinds(session.role, session.controller, session.window))
      ensures ok ==> follow == if session.role == Remote then session.controller else old(follow)
    {
      if !reported {
        return false;
      }
      keybinds := Some(Keybinds(session.role, session.controller, session.window));
      if session.role == Remote {
        follow := session.controller;
      }
      return true;
    }

    method Clear(reported: bool) returns (ok: bool)
      modifies this
      ensures ok == reported
      ensures Model() == Cleared(old(Model()), ok)
      ensures follow.None? && keybinds == (if ok then None else old(keybinds)) && clearFailed == !ok
    {
      follow := None;
      if reported {
        keybinds := None;
      }
      clearFailed := !reported;
      return reported;
    }
  }

  class SessionCoordinator {
    var active: Option<ActiveSession>
    var expiresAt: Option<Time>
    var generation: nat
    const effects: KeybindSessionEffects
    const lease: nat
    ghost var issued: set<nat>

    ghost function Model(): State
      reads this, effects
    {
      State(active, expiresAt, generation, effects.Model(), issued)
    }

    constructor (effects: KeybindSessionEffects, lease: nat)
      ensures this.effects == effects && this.lease == lease
      ensures Model() == State(None, None, 0, effects.Model(), {})
    {
      this.active, this.expiresAt, this.generation := None, None, 0;
      this.effects := effects;
      this.lease := lease;
      this.issued := {};
    }

    method TakeSnapshot(now: Time) returns (session: Option<ActiveSession>)
      ensures session == Snapshot(Model(), now)
      ensures session == if expiresAt.Some? && now < expiresAt.value then active else None
    {
      if expiresAt.None? || expiresAt.value <= now {
        return None;
      }
      return active;
    }

    method DoReconcile(ghost now: Time, clear: bool) returns (ok: bool)
      modifies this, effects
      ensures ok == clear
      ensures Model() == Next(lease, old(Model()), Reconcile(now, clear))
      ensures active.None? && expiresAt.None? && generation == old(generation) && effects.follow.None?
      ensures effects.keybinds == if clear then None else old(effects.keybinds)
    {
      active := None;
      expiresAt := None;
      ok := effects.Clear(clear);
    }

    method DoAttach(owner: string, role: Role, controller: Option<Endpoint>, window: Window, id: nat, now: Time,
                    firstClear: bool, install: bool, secondClear: bool)
      returns (answer: Result<Grant, SessionError>)
      modifies this, effects
      ensures var ev := Attach(owner, role, controller, window, id, now, firstClear, install, secondClear);
              answer == GrantAnswer(lease, old(Model()), ev) && Model() == Next(lease, old(Model()), ev)
      ensures var ev := Attach(owner, role, controller, window, id, now, firstClear, install, secondClear);
              AttachedExactly(lease, old(Model()), ev, answer, Model())
    {
      AttachUnfolds(lease, Model(), Attach(owner, role, controller, window, id, now, firstClear, install, secondClear));
      AttachExactly(lease, Model(), Attach(owner, role, controller, window, id, now, firstClear, install, secondClear));
      hide Next, GrantAnswer, AttachedExactly;
      if active.Some? && active.value.owner != owner && expiresAt.Some? && expiresAt.value > now {
        return Err(OwnedByAnotherController);
      }

      generation := if generation < U64_MAX then generation + 1 else U64_MAX;
      issued := issued + {id};
      var candidate := ActiveSession(id, generation, owner, role, controller, window);
      var cleaned := effects.Clear(firstClear);
      var installed := effects.Install(candidate, install);
      if !installed {
        cleaned := effects.Clear(secondClear);
        active := None;
        expiresAt := None;
        return Err(EffectsFailed);
      }

      expiresAt := Some(now + lease);
      active := Some(candidate);
      return Ok(Grant(candidate.id, candidate.generation, Seconds(lease)));
    }

    method DoDetach(owner: string, claim: Claim, now: Time, clear: bool) returns (answer: Result<Outcome, SessionError>)
      modifies this, effects
      ensures var ev := Detach(owner, claim, now, clear);
              answer == DetachAnswer(old(Model()), ev) && Model() == Next(lease, old(Model()), ev)
      ensures var mine := && old(active).Some? && old(active).value.owner == owner
                          && old(active).value.id == claim.id && old(active).value.generation == claim.generation;
              if mine then
                && answer == (if clear then Ok(Applied) else Err(EffectsFailed))
                && active == (if clear then None else old(active))
                && expiresAt == (if clear then None else old(expiresAt))
                && effects.keybinds == (if clear then None else old(effects.keybinds))
                && effects.follow.None? && generation == old(generation)
              else
                && Model() == old(Model())
                && answer == if old(active).Some? && old(active).value.owner != owner then Err(NotOwner)
                             else Ok(Ignored)
    {
      if active.None? {
        return Ok(Ignored);
      }
      if active.value.owner != owner {
        return Err(NotOwner);
      }
      if active.value.id != claim.id || active.value.generation != claim.generation {
        return Ok(Ignored);
      }
      var cleaned := effects.Clear(clear);
      if !cleaned {
        return Err(EffectsFailed);
      }
      active := None;
      expiresAt := None;
      return Ok(Applied);
    }

    method DoRenew(owner: string, claim: Claim, now: Time) returns (answer: Result<Grant, SessionError>)
      modifies this
      ensures var ev := Renew(owner, claim, now);
              answer == GrantAnswer(lease, old(Model()), ev) && Model() == Next(lease, old(Model()), ev)
      ensures var mine := && active.Some? && active.value.owner == owner
                          && active.value.id == claim.id && active.value.generation == claim.generation;
              var live := old(expiresAt).Some? && now < old(expiresAt).value;
              && answer == (if mine && live then Ok(Grant(claim.id, claim.generation, lease / 1_000_000_000))
                            else if active.Some? && active.value.owner != owner then Err(NotOwner)
                            else Err(NotFound))
              && expiresAt == (if mine && live then Some(now + lease) else old(expiresAt))
              && active == old(active) && generation == old(generation) && effects.Model() == old(effects.Model())
    {
      if active.None? {
        return Err(NotFound);
      }
      if active.value.owner != owner {
        return Err(NotOwner);
      }
      if active.value.id != claim.id || active.value.generation != claim.generation {
        return Err(NotFound);
      }
      if expiresAt.None? || expiresAt.value <= now {
        return Err(NotFound);
      }
      expiresAt := Some(now + lease);
      return Ok(Grant(active.value.id, active.value.generation, Seconds(lease)));
    }

    method ExpireDue(now: Time, clear: bool) returns (outcome: Outcome)
      modifies this, effects
      ensures outcome == if active.None? && old(active).Some? then Applied else Ignored
      ensures Model() == Next(lease, old(Model()), Sweep(now, clear))
      ensures var due := old(active).Some? && (old(expiresAt).None? || old(expiresAt).value <= now);
              if !due then Model() == old(Model())
              else
                && active == (if clear then None else old(active))
                && expiresAt == (if clear then None else old(expiresAt))
                && effects.keybinds == (if clear then None else old(effects.keybinds))
                && effects.follow.None? && generation == old(generation)
    {
      var expired := active.Some? && (expiresAt.None? || expiresAt.value <= now);
      if !expired {
        return Ignored;
      }
      var cleaned := effects.Clear(clear);
      if !cleaned {
        return Ignored;
      }
      active := None;
      expiresAt := None;
      return Applied;
    }

    method DoRelease(ghost now: Time, clear: bool)
      modifies this, effects
      ensures Model() == Next(lease, old(Model()), Release(now, clear))
      ensures if old(active).None? then Model() == old(Model())
              else
                && active.None? && expiresAt.None? && generation == old(generation) && effects.follow.None?
                && effects.keybinds == if clear then None else old(effects.keybinds)
    {
      if active.None? {
        return;
      }
      var cleaned := effects.Clear(clear);
      active := None;
      expiresAt := None;
    }
  }

  // ------------------------------------------------------------------
  // Runs
  // ------------------------------------------------------------------

  function Exec(lease: nat, st: State, run: seq<Event>): State
    decreases run
  {
    if run == [] then st else Exec(lease, Next(lease, st, run[0]), run[1..])
  }

  lemma {:induction false} ExecSnoc(lease: nat, st: State, run: seq<Event>, n: nat)
    requires n < |run|
    ensures Exec(lease, st, run[..n + 1]) == Next(lease, Exec(lease, st, run[..n]), run[n])
    decreases n
  {
    if n > 0 {
      assert run[..n + 1][1..] == run[1..][..n] && run[..n][1..] == run[1..][..n - 1];
      ExecSnoc(lease, Next(lease, st, run[0]), run[1..], n - 1);
    }
  }

  /** Every attach of the run draws an identifier nobody drew before. */
  ghost predicate FreshIds(lease: nat, st: State, run: seq<Event>)
    decreases run
  {
    run == [] ||
    ((run[0].Attach? ==> run[0].id !in st.issued) && FreshIds(lease, Next(lease, st, run[0]), run[1..]))
  }

  // ------------------------------------------------------------------
  // Exclusive ownership
  // ------------------------------------------------------------------

  /** The calls that may touch a live session: its owner's own, and the agent's startup and shutdown. */
  predicate Entitled(session: ActiveSession, ev: Event) {
    match ev
    case Attach(owner, _, _, _, _, _, _, _, _) => owner == session.owner
    case Detach(owner, claim, _, _) => owner == session.owner && claim == ClaimOf(session)
    case Renew(owner, claim, _) => owner == session.owner && claim == ClaimOf(session)
    case Sweep(_, _) => false
    case Release(_, _) => true
    case Reconcile(_, _) => true
  }

  /**
    * While the lease is live nobody else changes anything: not the session, not its deadline, not the
    * shortcuts, not the generation counter. Holds for runs of any length.
    */
  lemma {:induction false} LiveSessionIsUntouched(lease: nat, st: State, run: seq<Event>)
    requires st.active.Some?
    requires forall ev | ev in run :: Live(st, ev.now) && !Entitled(st.active.value, ev)
    ensures Exec(lease, st, run) == st
    decreases run
  {
    if run != [] {
      assert run[0] in run;
      assert Next(lease, st, run[0]) == st;
      LiveSessionIsUntouched(lease, st, run[1..]);
    }
  }

  /** Conversely every entitled call takes effect, a failed cleanup during detach aside. */
  lemma EntitledCallsTakeEffect(lease: nat, st: State, ev: Event)
    requires Live(st, ev.now) && Entitled(st.active.value, ev)
    requires ev.Attach? ==> ev.id !in st.issued
    ensures ev.Attach? ==> GrantAnswer(lease, st, ev).Ok? == ev.install
    ensures ev.Renew? ==> Next(lease, st, ev).expiresAt == Some(ev.now + lease)
    ensures ev.Detach? ==> (Next(lease, st, ev).active.None? <==> ev.clear)
    ensures (ev.Release? || ev.Reconcile?) ==> Next(lease, st, ev).active.None?
    ensures ev.Attach? ==> Next(lease, st, ev).issued != st.issued
  {
    if ev.Attach? {
      assert ev.id in Next(lease, st, ev).issued;
    }
  }

  // ------------------------------------------------------------------
  // Fencing
  // ------------------------------------------------------------------

  /** The claim was handed out and is not the active session's: superseded or removed. */
  predicate Retired(st: State, claim: Claim) {
    claim.id in st.issued && (st.active.Some? ==> ClaimOf(st.active.value) != claim)
  }

  predicate Presents(ev: Event, claim: Claim) {
    (ev.Detach? || ev.Renew?) && ev.claim == claim
  }

  /** The events of a run together with the state each one met. */
  function Trace(lease: nat, st: State, run: seq<Event>): seq<(State, Event)>
    decreases run
  {
    if run == [] then [] else [(st, run[0])] + Trace(lease, Next(lease, st, run[0]), run[1..])
  }

  /**
    * A retired claim never acts again: in any continuation it stays retired, and every detach or renewal
    * that presents it, whoever sends it, leaves the whole state as it was, effects and deadline included.
    */
  lemma {:induction false} RetiredClaimsNeverAct(lease: nat, st: State, run: seq<Event>, claim: Claim)
    requires Retired(st, claim) && FreshIds(lease, st, run)
    ensures Retired(Exec(lease, st, run), claim)
    ensures forall step | step in Trace(lease, st, run) && Presents(step.1, claim) ::
              Next(lease, step.0, step.1) == step.0
    decreases run
  {
    if run != [] {
      var next := Next(lease, st, run[0]);
      assert Retired(next, claim);
      RetiredClaimsNeverAct(lease, next, run[1..], claim);
    }
  }

  /** A grant that has lapsed cannot be revived: past the deadline a renewal is refused and changes nothing. */
  lemma LateRenewalIsRefused(lease: nat, st: State, owner: string, claim: Claim, now: Time)
    requires LeaseElapsed(st, now)
    ensures var ev := Renew(owner, claim, now);
            Next(lease, st, ev) == st && GrantAnswer(lease, st, ev).Err?
  {
  }

  /**
    * What retires a claim: any attach that is not turned away, whether or not its install succeeds; its own
    * successful detach; a sweep past the deadline that cleans up; release and reconcile. Nothing else does.
    */
  lemma WhatRetiresAClaim(lease: nat, st: State, ev: Event)
    requires Consistent(st) && st.active.Some?
    requires ev.Attach? ==> ev.id !in st.issued
    ensures Retired(Next(lease, st, ev), ClaimOf(st.active.value))
        <==> match ev
             case Attach(owner, _, _, _, _, now, _, _, _) => !HeldByOther(st, owner, now)
             case Detach(owner, claim, _, clear) => Holds(st, owner, claim) && clear
             case Renew(_, _, _) => false
             case Sweep(now, clear) => LeaseElapsed(st, now) && clear
             case Release(_, _) => true
             case Reconcile(_, _) => true
  {
  }

  /** The generations of the grants a run hands out to attaching controllers, in order. */
  function GrantedGenerations(lease: nat, st: State, run: seq<Event>): seq<nat>
    decreases run
  {
    if run == [] then []
    else
      (if run[0].Attach? && GrantAnswer(lease, st, run[0]).Ok?
       then [GrantAnswer(lease, st, run[0]).value.generation] else [])
      + GrantedGenerations(lease, Next(lease, st, run[0]), run[1..])
  }

  /** Strictly above `base` and strictly increasing, until the counter stands at its 64-bit end. */
  ghost predicate Climbs(base: nat, grants: seq<nat>) {
    && (forall i | 0 <= i < |grants| :: base < grants[i] || grants[i] == U64_MAX)
    && (forall i, j | 0 <= i < j < |grants| :: grants[i] < grants[j] || grants[j] == U64_MAX)
  }

  lemma ClimbsFrom(base: nat, next: nat, rest: seq<nat>)
    requires base <= next && Climbs(next, rest)
    ensures Climbs(base, rest)
    ensures base < next || next == U64_MAX ==> Climbs(base, [next] + rest)
  {
    var grants := [next] + rest;
    assert forall i | 1 <= i < |grants| :: grants[i] == rest[i - 1];
  }

  /** Every granted attach of a run carries a larger generation than all before it, below the 64-bit limit. */
  lemma {:induction false} GenerationsIncrease(lease: nat, st: State, run: seq<Event>)
    requires st.generation <= U64_MAX
    ensures Climbs(st.generation, GrantedGenerations(lease, st, run))
    decreases run
  {
    if run != [] {
      var next := Next(lease, st, run[0]);
      var rest := GrantedGenerations(lease, next, run[1..]);
      GenerationsIncrease(lease, next, run[1..]);
      ClimbsFrom(st.generation, next.generation, rest);
      var granted := run[0].Attach? && GrantAnswer(lease, st, run[0]).Ok?;
      assert GrantedGenerations(lease, st, run) == if granted then [next.generation] + rest else rest;
    }
  }

  /** How many attaches of the run are not turned away, whatever becomes of them. */
  function Attempts(lease: nat, st: State, run: seq<Event>): nat
    decreases run
  {
    if run == [] then 0
    else
      (if run[0].Attach? && !HeldByOther(st, run[0].owner, run[0].now) then 1 else 0)
      + Attempts(lease, Next(lease, st, run[0]), run[1..])
  }

  /** The counter counts exactly those attempts, and stops at its 64-bit end. */
  lemma {:induction false} GenerationCountsAttempts(lease: nat, st: State, run: seq<Event>)
    requires st.generation <= U64_MAX
    ensures var count := st.generation + Attempts(lease, st, run);
            Exec(lease, st, run).generation == if count < U64_MAX then count else U64_MAX
    decreases run
  {
    if run != [] {
      GenerationCountsAttempts(lease, Next(lease, st, run[0]), run[1..]);
    }
  }

  // ------------------------------------------------------------------
  // Effects and session agree
  // ------------------------------------------------------------------

  /** An active session has its own shortcuts in force, and follows focus unless a cleanup since has failed. */
  predicate Consistent(st: State) {
    st.active.Some? ==>
      var session := st.active.value;
      && st.expiresAt.Some?
      && session.id in st.issued
      && session.generation <= st.generation
      && st.effects.keybinds == Some(BindsOf(session))
      && (st.effects.follow == FollowOf(session) || (st.effects.follow.None? && st.effects.clearFailed))
  }

  /** Without a session, focus following is stopped, and shortcuts remain only if the last cleanup failed. */
  predicate Quiet(st: State) {
    st.active.None? ==>
      && st.expiresAt.None?
      && st.effects.follow.None?
      && (st.effects.keybinds.None? || st.effects.clearFailed)
  }

  lemma {:induction false} EffectsAgree(lease: nat, st: State, run: seq<Event>)
    requires Consistent(st)
    ensures Consistent(Exec(lease, st, run))
    ensures Quiet(st) ==> Quiet(Exec(lease, st, run))
    decreases run
  {
    if run != [] {
      assert Consistent(Next(lease, st, run[0]));
      EffectsAgree(lease, Next(lease, st, run[0]), run[1..]);
    }
  }

  /**
    * From startup on, whatever shortcuts a previous process left behind: the agent reconciles first, and
    * from then on both halves of the agreement hold after every run, under any pattern of port failures.
    */
  lemma AgreementFromStartup(lease: nat, leftover: Effects, now: Time, clear: bool, run: seq<Event>)
    ensures var started := State(None, None, 0, leftover, {});
            var reached := Exec(lease, started, [Reconcile(now, clear)] + run);
            Consistent(reached) && Quiet(reached)
  {
    var started := State(None, None, 0, leftover, {});
    var all := [Reconcile(now, clear)] + run;
    assert all[1..] == run;
    EffectsAgree(lease, Next(lease, started, all[0]), run);
  }

  // ------------------------------------------------------------------
  // When focus following is on
  // ------------------------------------------------------------------

  /** The event is an attach that is granted. */
  predicate Grants(st: State, ev: Event) {
    ev.Attach? && !HeldByOther(st, ev.owner, ev.now) && ev.install
  }

  /** The event tries to clean up after the active session and fails, which keeps the session. */
  predicate CleanupFails(st: State, ev: Event) {
    match ev
    case Detach(owner, claim, _, clear) => Holds(st, owner, claim) && !clear
    case Sweep(now, clear) => st.active.Some? && LeaseElapsed(st, now) && !clear
    case _ => false
  }

  lemma {:induction false} FollowingStaysOff(lease: nat, st: State, run: seq<Event>)
    requires st.effects.follow.None?
    requires forall step | step in Trace(lease, st, run) :: !Grants(step.0, step.1)
    ensures Exec(lease, st, run).effects.follow.None?
    decreases run
  {
    if run != [] {
      var trace := Trace(lease, st, run);
      assert trace[0] == (st, run[0]) && trace[1..] == Trace(lease, Next(lease, st, run[0]), run[1..]);
      assert trace[0] in trace;
      FollowingStaysOff(lease, Next(lease, st, run[0]), run[1..]);
    }
  }

  /**
    * A detach whose cleanup fails keeps session, deadline and shortcuts, and stops following. Nothing but a
    * granted attach starts it again: not a renewal of the kept session, nor a second attempt to detach.
    */
  lemma FailedDetachStopsFollowing(lease: nat, st: State, owner: string, claim: Claim, now: Time, later: seq<Event>)
    requires Consistent(st) && Holds(st, owner, claim)
    requires var kept := Next(lease, st, Detach(owner, claim, now, false));
             forall step | step in Trace(lease, kept, later) :: !Grants(step.0, step.1)
    ensures var kept := Next(lease, st, Detach(owner, claim, now, false));
            && kept.active == st.active && kept.expiresAt == st.expiresAt
            && kept.effects.keybinds == st.effects.keybinds == Some(BindsOf(st.active.value))
            && kept.effects.follow.None?
            && Exec(lease, kept, later).effects.follow.None?
  {
    FollowingStaysOff(lease, Next(lease, st, Detach(owner, claim, now, false)), later);
  }

  /** The state after the first `n` events. */
  function After(lease: nat, st: State, run: seq<Event>, n: nat): State
    requires n <= |run|
  {
    Exec(lease, st, run[..n])
  }

  /** Event `g` granted the session that is active after `n` events, and none since has been a grant. */
  ghost predicate GrantedAt(lease: nat, st: State, run: seq<Event>, g: nat, n: nat)
    requires g < n <= |run|
  {
    && Grants(After(lease, st, run, g), run[g])
    && After(lease, st, run, n).active == Some(Candidate(After(lease, st, run, g), run[g]))
    && forall i | g < i < n :: !Grants(After(lease, st, run, i), run[i])
  }

  /** Since event `g` no cleanup has failed. */
  ghost predicate CleanSince(lease: nat, st: State, run: seq<Event>, g: nat, n: nat)
    requires n <= |run|
  {
    forall i | g < i < n :: !CleanupFails(After(lease, st, run, i), run[i])
  }

  lemma StepFollows(lease: nat, st: State, ev: Event)
    requires Next(lease, st, ev).active.Some?
    ensures var next := Next(lease, st, ev);
            if Grants(st, ev) then
              && next.active == Some(Candidate(st, ev))
              && next.effects.keybinds == Some(Keybinds(ev.role, ev.controller, ev.window))
              && next.effects.follow == if ev.role == Remote then ev.controller else None
            else
              && next.active == st.active
              && next.effects.keybinds == st.effects.keybinds
              && next.effects.follow == if CleanupFails(st, ev) then None else st.effects.follow
  {
  }

  /**
    * What an active session is, in every run from a state without one: the session the attach at `g` asked for, with
    * exactly the shortcuts it asked for in force, its role, controller and window.
    */
  lemma {:induction false} SessionIsAsGranted(lease: nat, st: State, run: seq<Event>, n: nat) returns (g: nat)
    requires n <= |run| && st.active.None? && After(lease, st, run, n).active.Some?
    ensures g < n && GrantedAt(lease, st, run, g, n)
    ensures var session, asked := After(lease, st, run, n).active.value, run[g];
            && session.id == asked.id && session.owner == asked.owner && session.role == asked.role
            && session.controller == asked.controller && session.window == asked.window
            && After(lease, st, run, n).effects.keybinds == Some(Keybinds(asked.role, asked.controller, asked.window))
  {
    var before := After(lease, st, run, n - 1);
    ExecSnoc(lease, st, run, n - 1);
    StepFollows(lease, before, run[n - 1]);
    if Grants(before, run[n - 1]) {
      g := n - 1;
    } else {
      hide Next, Exec, CleanupFails;
      g := SessionIsAsGranted(lease, st, run, n - 1);
    }
  }

  /**
    * Exactly when an active session follows focus, in every run from a state without one: it was granted in the
    * remote role with a controller, and since that grant no detach or sweep has failed to clean up.
    */
  lemma {:induction false} FollowsExactly(lease: nat, st: State, run: seq<Event>, n: nat) returns (g: nat)
    requires n <= |run| && st.active.None? && After(lease, st, run, n).active.Some?
    ensures g < n && GrantedAt(lease, st, run, g, n)
    ensures After(lease, st, run, n).effects.follow
         == if run[g].role == Remote && CleanSince(lease, st, run, g, n) then run[g].controller else None
  {
    var before := After(lease, st, run, n - 1);
    ExecSnoc(lease, st, run, n - 1);
    StepFollows(lease, before, run[n - 1]);
    hide Next, Exec, Grants, CleanupFails;
    if Grants(before, run[n - 1]) {
      g := n - 1;
    } else {
      g := FollowsExactly(lease, st, run, n - 1);
    }
  }

  /** A run of four events that ends with a live, renewed remote session that does not follow focus. */
  function DeafSession(owner: string, controller: Endpoint): seq<Event> {
    [Reconcile(0, true),
     Attach(owner, Remote, Some(controller), ActiveWindow, 7, 1, true, true, true),
     Detach(owner, Claim(7, 1), 2, false),
     Renew(owner, Claim(7, 1), 3)]
  }

  lemma DeafSessionIsReachable(lease: nat, leftover: Effects, owner: string, controller: Endpoint)
    requires lease > 2
    ensures var reached := Exec(lease, State(None, None, 0, leftover, {}), DeafSession(owner, controller));
            && Live(reached, 3) && FollowOf(reached.active.value) == Some(controller)
            && reached.effects.keybinds == Some(BindsOf(reached.active.value))
            && reached.effects.follow.None?
  {
    var run := DeafSession(owner, controller);
    var s0 := State(None, None, 0, leftover, {});
    var s1 := Next(lease, s0, run[0]);
    var s2 := Next(lease, s1, run[1]);
    var s3 := Next(lease, s2, run[2]);
    assert run[1..][1..][1..][1..] == [];
    assert Exec(lease, s3, run[1..][1..][1..]) == Next(lease, s3, run[3]);
    assert Exec(lease, s1, run[1..]) == Exec(lease, s2, run[1..][1..]);
  }
}
