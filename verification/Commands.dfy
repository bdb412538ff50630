/** The command endpoint: authorization, validation, freshness, and then a session change, a relay or an action. */
module Commands {
  import opened Basics
  import Access = AccessStore
  import Auth = Authorization
  import Replay
  import Chords
  import S = Sessions

  type Time = nat

  const MOONLIGHT_WINDOW_CLASS: string := "com.moonlight_stream.Moonlight"

  datatype Command =
    | SendShortcut(chord: Chords.Chord, window: S.Window)
    | CloseWindow(window: S.Window)
    | SwitchStreamDisplay(display: string)
    | AttachSession(role: S.Role, controller: Option<Endpoint>, attachWindow: Option<S.Window>)
    | DetachSession
    | RenewSession

  // ------------------------------------------------------------------
  // What the command type promises
  // ------------------------------------------------------------------

  predicate IsAlphanumeric(c: char) {
    'a' <= c <= 'z' || 'A' <= c <= 'Z' || '0' <= c <= '9'
  }

  predicate IsHex(c: char) {
    'a' <= c <= 'f' || 'A' <= c <= 'F' || '0' <= c <= '9'
  }

  predicate ValidKey(key: string) {
    0 < |key| <= 32 && forall c | c in key :: IsAlphanumeric(c)
  }

  predicate ValidWindow(window: S.Window) {
    match window
    case ActiveWindow => true
    case Class(name) => name != "" && forall c | c in name :: IsAlphanumeric(c) || c == '.' || c == '_' || c == '-'
    case Address(hex) => 2 < |hex| <= 34 && hex[..2] == "0x" && forall c | c in hex[2..] :: IsHex(c)
  }

  predicate ValidDisplay(display: string) {
    0 < |display| <= 64 && forall c | c in display :: IsAlphanumeric(c) || c == '-' || c == '_' || c == '.'
  }

  predicate Valid(command: Command) {
    match command
    case SendShortcut(chord, window) => ValidKey(chord.key) && ValidWindow(window)
    case CloseWindow(window) => ValidWindow(window)
    case SwitchStreamDisplay(display) => ValidDisplay(display)
    case AttachSession(role, controller, window) =>
      && (window.Some? ==> ValidWindow(window.value))
      && (role == S.Remote ==> controller.Some? && controller.value.port != 0)
    case DetachSession => true
    case RenewSession => true
  }

  predicate IsSessionControl(command: Command) {
    command.AttachSession? || command.DetachSession? || command.RenewSession?
  }

  function RequiredCapability(command: Command): Access.Capability {
    match command
    case SendShortcut(_, _) => Access.SendShortcut
    case SwitchStreamDisplay(_) => Access.SendShortcut
    case CloseWindow(_) => Access.CloseStream
    case AttachSession(_, _, _) => Access.ControlSession
    case DetachSession => Access.ControlSession
    case RenewSession => Access.ControlSession
  }

  /** A character that means nothing to the shell, to Lua or to the compositor. */
  predicate IsPlain(c: char) {
    IsAlphanumeric(c) || c == '.' || c == '_' || c == '-'
  }

  /** The commands the program itself sends are valid: the capture chord, closing the stream, and all of a session's. */
  lemma OwnCommandsAreValid(window: S.Window, endpoint: Endpoint)
    requires endpoint.port != 0
    requires window == S.ActiveWindow || window == S.Class(MOONLIGHT_WINDOW_CLASS) || window == S.Address("0x55aa")
    ensures Valid(SendShortcut(Chords.Chord([Chords.Ctrl, Chords.Alt, Chords.Shift], "Z"), window))
    ensures Valid(CloseWindow(window)) && Valid(SwitchStreamDisplay("DP-1"))
    ensures Valid(AttachSession(S.Controller, None, None)) && Valid(AttachSession(S.Controller, None, Some(window)))
    ensures Valid(AttachSession(S.Remote, Some(endpoint), Some(window)))
    ensures Valid(DetachSession) && Valid(RenewSession)
  {
    OwnWindowsAreValid();
    hide ValidWindow, ValidKey, ValidDisplay;
    OwnNamesAreValid();
  }

  lemma OwnWindowsAreValid()
    ensures ValidWindow(S.ActiveWindow) && ValidWindow(S.Class(MOONLIGHT_WINDOW_CLASS))
    ensures ValidWindow(S.Address("0x55aa"))
  {
    hide IsPlain, IsAlphanumeric;
    assert "0x55aa"[..2] == "0x";
    MoonlightClassIsValid();
  }

  lemma MoonlightClassIsValid()
    ensures ValidWindow(S.Class(MOONLIGHT_WINDOW_CLASS))
  {
    var name := MOONLIGHT_WINDOW_CLASS;
    forall i | 0 <= i < |name|
      ensures IsPlain(name[i])
    {
    }
  }

  lemma OwnNamesAreValid()
    ensures ValidKey("Z") && ValidDisplay("DP-1")
  {
  }

  /** Nothing but plain characters gets past validation, and a remote session always names a port to call back. */
  lemma ValidMeansPlain(command: Command)
    requires Valid(command)
    ensures match command
            case SendShortcut(chord, window) =>
              && (forall c | c in chord.key :: IsPlain(c)) && 0 < |chord.key| <= 32
              && (window.Class? ==> forall c | c in window.name :: IsPlain(c))
              && (window.Address? ==> forall c | c in window.hex :: IsPlain(c))
            case CloseWindow(window) =>
              && (window.Class? ==> forall c | c in window.name :: IsPlain(c))
              && (window.Address? ==> forall c | c in window.hex :: IsPlain(c))
            case SwitchStreamDisplay(display) => 0 < |display| <= 64 && forall c | c in display :: IsPlain(c)
            case AttachSession(role, controller, _) =>
              role == S.Remote ==> controller.Some? && controller.value.port != 0
            case _ => true
  {
    if command.SendShortcut? {
      AddressIsPlain(command.window);
    } else if command.CloseWindow? {
      AddressIsPlain(command.window);
    }
  }

  lemma AddressIsPlain(window: S.Window)
    requires ValidWindow(window)
    ensures window.Address? ==> forall c | c in window.hex :: IsPlain(c)
  {
    if window.Address? {
      assert window.hex == window.hex[..2] + window.hex[2..];
      assert window.hex[..2] == ['0', 'x'];
    }
  }

  // ------------------------------------------------------------------
  // Requests and what they cause
  // ------------------------------------------------------------------

  /** What the controller's agent answers when asked which capabilities it grants this device. */
  datatype ProbeAnswer = Grants(capabilities: seq<Access.Capability>) | Refuses | OtherRelease | Unreachable

  /** The answers of every port a request may call. */
  datatype Ports = Ports(
    probe: ProbeAnswer, drawnId: nat, firstClear: bool, install: bool, secondClear: bool, clear: bool,
    relayed: bool, switchShortcut: Option<Command>, executed: bool)

  /**
    * `auth` is what the authorizer settled on: the caller's node and the allowlist it was checked against, or
    * why it was turned away. `source` is the address the request came from.
    */
  datatype Request = Request(
    source: IpAddr, auth: Result<(string, seq<Access.AllowedController>), Auth.AuthorizationError>,
    command: Command, claim: Option<S.Claim>, arrival: Replay.Arrival)

  /** A request past the replay guard, under way; tickets number admissions. */
  datatype Admitted = Admitted(ticket: nat, request: Request, peer: Auth.AuthorizedPeer)

  /** A port or session call made on behalf of a request. */
  datatype Effect =
    | Executed(command: Command)
    | Relayed(command: Command, to: Endpoint)
    | Changed(event: S.Event)

  datatype Entry = Entry(admitted: Admitted, effect: Effect)

  datatype ApiError =
    | NotAuthorized(auth: Auth.AuthorizationError)
    | InvalidCommand
    | NotFresh(freshness: Replay.FreshnessError)
    | CallbackAccessMissing
    | VersionIncompatible
    | ControllerUnreachable
    | SessionRefused(session: S.SessionError)
    | NoController
    | PortFailed

  datatype Response = Done | Ignored | Granted(grant: S.Grant)

  /** `waiting` holds the requests admitted but not yet carried out; any number may be under way at once. */
  datatype State = State(
    sessions: S.State, seen: map<Replay.Id, Replay.Time>, tickets: nat, waiting: seq<Admitted>, log: seq<Entry>)

  datatype Config = Config(lease: nat, replay: Replay.Config)

  function Authorize(request: Request): Result<Auth.AuthorizedPeer, ApiError> {
    if request.auth.Err? then Err(NotAuthorized(request.auth.error))
    else
      var peer := Auth.Peer(request.auth.value.1, request.auth.value.0);
      if peer.Err? then Err(NotAuthorized(peer.error))
      else if RequiredCapability(request.command) !in peer.value.capabilities then Err(NotAuthorized(Auth.Forbidden))
      else Ok(peer.value)
  }

  /** The request gets as far as the replay guard. */
  predicate ReachesGuard(request: Request) {
    Authorize(request).Ok? && Valid(request.command)
  }

  function Admission(config: Config, seen: map<Replay.Id, Replay.Time>, request: Request)
    : Result<Auth.AuthorizedPeer, ApiError> {
    if Authorize(request).Err? then Authorize(request)
    else if !Valid(request.command) then Err(InvalidCommand)
    else
      var freshness := Replay.Answer(config.replay, seen, request.arrival);
      if freshness.Err? then Err(NotFresh(freshness.error)) else Authorize(request)
  }

  function Arrived(config: Config, st: State, request: Request): State {
    var admission := Admission(config, st.seen, request);
    var guarded := st.(seen := if ReachesGuard(request) then Replay.Next(config.replay, st.seen, request.arrival)
                                    else st.seen);
    if admission.Ok?
    then guarded.(tickets := st.tickets + 1, waiting := st.waiting + [Admitted(st.tickets, request, admission.value)])
    else guarded
  }

  /** Why a callback endpoint is not acceptable, if it is not: wrong address, or not granted both callbacks. */
  function CallbackProblem(request: Request, controller: Endpoint, probe: ProbeAnswer): Option<ApiError> {
    if controller.address != request.source then Some(InvalidCommand)
    else
      match probe
      case Grants(granted) =>
        if Access.SendShortcut in granted && Access.CloseStream in granted then None else Some(CallbackAccessMissing)
      case Refuses => Some(CallbackAccessMissing)
      case OtherRelease => Some(VersionIncompatible)
      case Unreachable => Some(ControllerUnreachable)
  }

  function SessionEvent(request: Request, nodeId: string, now: Time, ports: Ports): Result<S.Event, ApiError>
    requires IsSessionControl(request.command)
  {
    match request.command
    case AttachSession(role, controller, window) =>
      var problem := if controller.Some? then CallbackProblem(request, controller.value, ports.probe) else None;
      if problem.Some? then Err(problem.value)
      else Ok(S.Attach(nodeId, role, controller,
                       if window.Some? then window.value else S.Class(MOONLIGHT_WINDOW_CLASS),
                       ports.drawnId, now, ports.firstClear, ports.install, ports.secondClear))
    case DetachSession =>
      if request.claim.Some? then Ok(S.Detach(nodeId, request.claim.value, now, ports.clear)) else Err(InvalidCommand)
    case RenewSession =>
      if request.claim.Some? then Ok(S.Renew(nodeId, request.claim.value, now)) else Err(InvalidCommand)
  }

  /** The one call an admitted request makes, if it makes any. */
  function EffectOf(sessions: S.State, admitted: Admitted, now: Time, ports: Ports): Option<Effect> {
    var request := admitted.request;
    if IsSessionControl(request.command) then
      var event := SessionEvent(request, admitted.peer.nodeId, now, ports);
      if event.Ok? then Some(Changed(event.value)) else None
    else
      var session := S.Snapshot(sessions, now);
      if session.Some? && session.value.role == S.Remote then
        if session.value.controller.Some? then Some(Relayed(request.command, session.value.controller.value)) else None
      else if request.command.SwitchStreamDisplay? then
        if ports.switchShortcut.Some? then Some(Executed(ports.switchShortcut.value)) else None
      else Some(Executed(request.command))
  }

  /** The state once the `k`-th waiting request has been carried out. */
  function Acted(lease: nat, st: State, k: nat, now: Time, ports: Ports): State
    requires k < |st.waiting|
  {
    var effect := EffectOf(st.sessions, st.waiting[k], now, ports);
    st.(sessions := if effect.Some? && effect.value.Changed? then S.Next(lease, st.sessions, effect.value.event)
                     else st.sessions,
        waiting := st.waiting[..k] + st.waiting[k + 1..],
        log := st.log + if effect.Some? then [Entry(st.waiting[k], effect.value)] else [])
  }

  function SessionResponse(lease: nat, sessions: S.State, event: S.Event): Result<Response, ApiError> {
    if event.Detach? then
      match S.DetachAnswer(sessions, event)
      case Ok(outcome) => Ok(if outcome == S.Applied then Done else Ignored)
      case Err(error) => Err(SessionRefused(error))
    else if event.Attach? || event.Renew? then
      match S.GrantAnswer(lease, sessions, event)
      case Ok(grant) => Ok(Granted(grant))
      case Err(error) => Err(SessionRefused(error))
    else Ok(Ignored)
  }

  /** What an admitted request is answered. */
  function Answer(lease: nat, sessions: S.State, admitted: Admitted, now: Time, ports: Ports)
    : Result<Response, ApiError> {
    var request := admitted.request;
    if IsSessionControl(request.command) then
      var event := SessionEvent(request, admitted.peer.nodeId, now, ports);
      if event.Err? then Err(event.error) else SessionResponse(lease, sessions, event.value)
    else
      match EffectOf(sessions, admitted, now, ports)
      case None =>
        var session := S.Snapshot(sessions, now);
        Err(if session.Some? && session.value.role == S.Remote then NoController else PortFailed)
      case Some(Relayed(_, _)) => if ports.relayed then Ok(Done) else Err(PortFailed)
      case Some(_) => if ports.executed then Ok(Done) else Err(PortFailed)
  }

  // ------------------------------------------------------------------
  // The endpoint over its shared state
  // ------------------------------------------------------------------

  class AgentState {
    const replay: Replay.ReplayGuard
    const sessions: S.SessionCoordinator
    ghost var tickets: nat
    ghost var waiting: seq<Admitted>
    ghost var log: seq<Entry>

    ghost function Model(): State
      reads this, replay, sessions, sessions.effects
    {
      State(sessions.Model(), replay.seen, tickets, waiting, log)
    }

    ghost function Settings(): Config {
      Config(sessions.lease, replay.config)
    }

    constructor (replay: Replay.ReplayGuard, sessions: S.SessionCoordinator)
      ensures this.replay == replay && this.sessions == sessions && tickets == 0 && waiting == [] && log == []
    {
      this.replay, this.sessions := replay, sessions;
      this.tickets, this.waiting, this.log := 0, [], [];
    }

    /** The whole request, with nothing else happening in between. */
    method RunCommand(request: Request, now: Time, ports: Ports) returns (answer: Result<Response, ApiError>)
      modifies this, replay, sessions, sessions.effects
      ensures var admission := Admission(Settings(), old(Model()).seen, request);
              var arrived := Arrived(Settings(), old(Model()), request);
              if admission.Err? then answer == Err(admission.error) && Model() == arrived
              else
                var k := |old(waiting)|;
                && answer == Answer(sessions.lease, old(Model()).sessions, arrived.waiting[k], now, ports)
                && Model() == Acted(sessions.lease, arrived, k, now, ports)
    {
      var admission := AdmitRequest(request);
      if admission.Err? {
        return Err(admission.error);
      }
      answer := Perform(request, admission.value, now, ports, |waiting| - 1);
    }

    /** Up to and including the replay guard. */
    method AdmitRequest(request: Request) returns (answer: Result<Auth.AuthorizedPeer, ApiError>)
      modifies this, replay
      ensures answer == Admission(Settings(), old(Model()).seen, request)
      ensures Model() == Arrived(Settings(), old(Model()), request)
    {
      if request.auth.Err? {
        return Err(NotAuthorized(request.auth.error));
      }
      var authenticated := Auth.Peer(request.auth.value.1, request.auth.value.0);
      if authenticated.Err? {
        return Err(NotAuthorized(authenticated.error));
      }
      var peer := authenticated.value;
      if RequiredCapability(request.command) !in peer.capabilities {
        return Err(NotAuthorized(Auth.Forbidden));
      }
      if !Valid(request.command) {
        return Err(InvalidCommand);
      }
      var arrival := request.arrival;
      var freshness := replay.Admit(arrival.id, arrival.issuedAt, arrival.wall, arrival.now);
      if freshness.Err? {
        return Err(NotFresh(freshness.error));
      }
      waiting := waiting + [Admitted(tickets, request, peer)];
      tickets := tickets + 1;
      return Ok(peer);
    }

    /** The rest of a request, whatever other requests did since it was admitted. */
    method Perform(request: Request, peer: Auth.AuthorizedPeer, now: Time, ports: Ports, ghost k: nat)
      returns (answer: Result<Response, ApiError>)
      requires k < |waiting| && waiting[k].request == request && waiting[k].peer == peer
      modifies this, sessions, sessions.effects
      ensures answer == Answer(sessions.lease, old(Model()).sessions, old(waiting)[k], now, ports)
      ensures Model() == Acted(sessions.lease, old(Model()), k, now, ports)
    {
      ghost var admitted := waiting[k];
      waiting := waiting[..k] + waiting[k + 1..];
      if IsSessionControl(request.command) {
        answer := ApplySessionCommand(request, peer, now, ports, admitted);
        return;
      }

      var session := sessions.TakeSnapshot(now);
      if session.Some? && session.value.role == S.Remote {
        if session.value.controller.None? {
          return Err(NoController);
        }
        log := log + [Entry(admitted, Relayed(request.command, session.value.controller.value))];
        return if ports.relayed then Ok(Done) else Err(PortFailed);
      }
      var action := request.command;
      if action.SwitchStreamDisplay? {
        if ports.switchShortcut.None? {
          return Err(PortFailed);
        }
        action := ports.switchShortcut.value;
      }
      log := log + [Entry(admitted, Executed(action))];
      return if ports.executed then Ok(Done) else Err(PortFailed);
    }

    method ApplySessionCommand(request: Request, peer: Auth.AuthorizedPeer, now: Time, ports: Ports,
                                ghost admitted: Admitted)
      returns (answer: Result<Response, ApiError>)
      requires IsSessionControl(request.command)
      modifies this`log, sessions, sessions.effects
      ensures var event := SessionEvent(request, peer.nodeId, now, ports);
              if event.Err? then
                answer == Err(event.error) && sessions.Model() == old(sessions.Model()) && log == old(log)
              else
                && answer == SessionResponse(sessions.lease, old(sessions.Model()), event.value)
                && sessions.Model() == S.Next(sessions.lease, old(sessions.Model()), event.value)
                && log == old(log) + [Entry(admitted, Changed(event.value))]
    {
      ghost var event := SessionEvent(request, peer.nodeId, now, ports);
      match request.command
      case AttachSession(role, controller, selector) =>
        if controller.Some? {
          var problem := CallbackProblem(request, controller.value, ports.probe);
          if problem.Some? {
            return Err(problem.value);
          }
        }
        var window := if selector.Some? then selector.value else S.Class(MOONLIGHT_WINDOW_CLASS);
        var grant := sessions.DoAttach(peer.nodeId, role, controller, window, ports.drawnId, now,
                                       ports.firstClear, ports.install, ports.secondClear);
        log := log + [Entry(admitted, Changed(event.value))];
        answer := if grant.Ok? then Ok(Granted(grant.value)) else Err(SessionRefused(grant.error));
      case DetachSession =>
        if request.claim.None? {
          return Err(InvalidCommand);
        }
        var outcome := sessions.DoDetach(peer.nodeId, request.claim.value, now, ports.clear);
        log := log + [Entry(admitted, Changed(event.value))];
        answer := if outcome.Err? then Err(SessionRefused(outcome.error))
                  else if outcome.value == S.Applied then Ok(Done) else Ok(Ignored);
      case RenewSession =>
        if request.claim.None? {
          return Err(InvalidCommand);
        }
        var grant := sessions.DoRenew(peer.nodeId, request.claim.value, now);
        log := log + [Entry(admitted, Changed(event.value))];
        answer := if grant.Ok? then Ok(Granted(grant.value)) else Err(SessionRefused(grant.error));
    }
  }

  // ------------------------------------------------------------------
  // Exactly what one request does
  // ------------------------------------------------------------------

  /** What a command takes: a shortcut right, the right to close the stream, or control of sessions. */
  predicate MayAsk(capabilities: seq<Access.Capability>, command: Command) {
    match command
    case SendShortcut(_, _) => Access.SendShortcut in capabilities
    case SwitchStreamDisplay(_) => Access.SendShortcut in capabilities
    case CloseWindow(_) => Access.CloseStream in capabilities
    case AttachSession(_, _, _) => Access.ControlSession in capabilities
    case DetachSession => Access.ControlSession in capabilities
    case RenewSession => Access.ControlSession in capabilities
  }

  /** Exactly which requests are admitted, and why the others are not; only those that reach the guard touch it. */
  lemma ArrivedExactly(config: Config, st: State, request: Request)
    ensures var next, admission := Arrived(config, st, request), Admission(config, st.seen, request);
            next.sessions == st.sessions && next.log == st.log
            && if request.auth.Err? then
                 admission == Err(NotAuthorized(request.auth.error)) && next == st
               else
                 var entry := Access.Lookup(request.auth.value.1, request.auth.value.0);
                 if entry.None? then admission == Err(NotAuthorized(Auth.Unauthorized)) && next == st
                 else if !MayAsk(entry.value.capabilities, request.command) then
                   admission == Err(NotAuthorized(Auth.Forbidden)) && next == st
                 else if !Valid(request.command) then admission == Err(InvalidCommand) && next == st
                 else
                   var freshness := Replay.Answer(config.replay, st.seen, request.arrival);
                   && next.seen == Replay.Next(config.replay, st.seen, request.arrival)
                   && if freshness.Err? then
                        admission == Err(NotFresh(freshness.error)) && next.waiting == st.waiting
                      else
                        var peer := Auth.AuthorizedPeer(entry.value.nodeId, entry.value.capabilities);
                        admission == Ok(peer) && next.waiting == st.waiting + [Admitted(st.tickets, request, peer)]
  {
  }

  predicate IsAction(command: Command) {
    command.SendShortcut? || command.CloseWindow? || command.SwitchStreamDisplay?
  }

  /** A session in the remote role is active and its deadline has not come. */
  predicate RemoteIsLive(sessions: S.State, now: Time) {
    && sessions.active.Some? && sessions.active.value.role == S.Remote
    && sessions.expiresAt.Some? && now < sessions.expiresAt.value
  }

  /** What an action amounts to on this computer: itself, or the shortcut that switches to the display asked for. */
  function LocalAction(command: Command, ports: Ports): Option<Command> {
    if command.SwitchStreamDisplay? then ports.switchShortcut else Some(command)
  }

  /**
    * Exactly where an action goes, whatever action it is. While a remote session is live it goes to the session's
    * controller and nowhere else; otherwise it is carried out here. The sessions are left alone.
    */
  lemma ActionGoesExactly(lease: nat, st: State, k: nat, now: Time, ports: Ports)
    requires k < |st.waiting| && IsAction(st.waiting[k].request.command)
    ensures var admitted, next := st.waiting[k], Acted(lease, st, k, now, ports);
            var answer := Answer(lease, st.sessions, admitted, now, ports);
            && next.sessions == st.sessions && next.seen == st.seen
            && next.waiting == st.waiting[..k] + st.waiting[k + 1..]
            && if RemoteIsLive(st.sessions, now) then
                 var target := st.sessions.active.value.controller;
                 if target.None? then next.log == st.log && answer == Err(NoController)
                 else
                   && next.log == st.log + [Entry(admitted, Relayed(admitted.request.command, target.value))]
                   && answer == if ports.relayed then Ok(Done) else Err(PortFailed)
               else
                 var action := LocalAction(admitted.request.command, ports);
                 if action.None? then next.log == st.log && answer == Err(PortFailed)
                 else
                   && next.log == st.log + [Entry(admitted, Executed(action.value))]
                   && answer == if ports.executed then Ok(Done) else Err(PortFailed)
  {
  }

  /** The only reason to turn down a callback endpoint: another address, or a controller that does not grant both. */
  predicate MayCallBack(request: Request, controller: Endpoint, probe: ProbeAnswer) {
    && controller.address == request.source && probe.Grants?
    && Access.SendShortcut in probe.capabilities && Access.CloseStream in probe.capabilities
  }

  lemma CallbackCheckedExactly(request: Request, controller: Endpoint, probe: ProbeAnswer)
    ensures var problem := CallbackProblem(request, controller, probe);
            && (problem.None? <==> MayCallBack(request, controller, probe))
            && (problem == Some(InvalidCommand) <==> controller.address != request.source)
            && (problem == Some(VersionIncompatible)
                <==> controller.address == request.source && probe == OtherRelease)
            && (problem == Some(ControllerUnreachable)
                <==> controller.address == request.source && probe == Unreachable)
            && (problem == Some(CallbackAccessMissing)
                <==> controller.address == request.source && (probe == Refuses || probe.Grants?)
                     && !MayCallBack(request, controller, probe))
  {
  }

  /** Exactly which change to the sessions a session command makes, in whose name, and what it is answered. */
  lemma SessionCommandExactly(lease: nat, st: State, k: nat, now: Time, ports: Ports)
    requires k < |st.waiting| && !IsAction(st.waiting[k].request.command)
    ensures var admitted, next := st.waiting[k], Acted(lease, st, k, now, ports);
            var answer, command := Answer(lease, st.sessions, admitted, now, ports), admitted.request.command;
            var owner, claim := admitted.peer.nodeId, admitted.request.claim;
            && next.seen == st.seen && next.waiting == st.waiting[..k] + st.waiting[k + 1..]
            && match command
               case AttachSession(role, controller, window) =>
                 if controller.Some? && !MayCallBack(admitted.request, controller.value, ports.probe) then
                   answer.Err? && next.sessions == st.sessions && next.log == st.log
                 else
                   var ev := S.Attach(owner, role, controller,
                                      if window.Some? then window.value else S.Class("com.moonlight_stream.Moonlight"),
                                      ports.drawnId, now, ports.firstClear, ports.install, ports.secondClear);
                   && next.sessions == S.Next(lease, st.sessions, ev)
                   && next.log == st.log + [Entry(admitted, Changed(ev))]
                   && answer == (match S.GrantAnswer(lease, st.sessions, ev)
                                 case Ok(grant) => Ok(Granted(grant))
                                 case Err(error) => Err(SessionRefused(error)))
               case DetachSession =>
                 if claim.None? then answer == Err(InvalidCommand) && next.sessions == st.sessions && next.log == st.log
                 else
                   var ev := S.Detach(owner, claim.value, now, ports.clear);
                   && next.sessions == S.Next(lease, st.sessions, ev)
                   && next.log == st.log + [Entry(admitted, Changed(ev))]
                   && answer == (match S.DetachAnswer(st.sessions, ev)
                                 case Ok(outcome) => Ok(if outcome == S.Applied then Done else Ignored)
                                 case Err(error) => Err(SessionRefused(error)))
               case RenewSession =>
                 if claim.None? then answer == Err(InvalidCommand) && next.sessions == st.sessions && next.log == st.log
                 else
                   var ev := S.Renew(owner, claim.value, now);
                   && next.sessions == S.Next(lease, st.sessions, ev)
                   && next.log == st.log + [Entry(admitted, Changed(ev))]
                   && answer == (match S.GrantAnswer(lease, st.sessions, ev)
                                 case Ok(grant) => Ok(Granted(grant))
                                 case Err(error) => Err(SessionRefused(error)))
               case _ => false
  {
  }

  // ------------------------------------------------------------------
  // Runs of the whole agent
  // ------------------------------------------------------------------

  /**
    * A request reaches the endpoint; a waiting request is carried out; or one of the agent's own session
    * duties, at startup, in the lease sweep or at shutdown. In between anything else may happen.
    */
  datatype Event = Arrive(request: Request) | Act(k: nat, now: Time, ports: Ports) | Maintain(duty: S.Event)

  predicate IsDuty(ev: S.Event) {
    ev.Sweep? || ev.Release? || ev.Reconcile?
  }

  predicate Honest(run: seq<Event>) {
    forall i | 0 <= i < |run| && run[i].Maintain? :: IsDuty(run[i].duty)
  }

  function Next(config: Config, st: State, ev: Event): State {
    match ev
    case Arrive(request) => Arrived(config, st, request)
    case Act(k, now, ports) => if k < |st.waiting| then Acted(config.lease, st, k, now, ports) else st
    case Maintain(duty) => st.(sessions := S.Next(config.lease, st.sessions, duty))
  }

  function Started(leftover: S.Effects): State {
    State(S.State(None, None, 0, leftover, {}), map[], 0, [], [])
  }

  function At(config: Config, leftover: S.Effects, run: seq<Event>, n: nat): State
    requires n <= |run|
  {
    if n == 0 then Started(leftover) else Next(config, At(config, leftover, run, n - 1), run[n - 1])
  }

  /** Event `i` is the arrival that was given this ticket, for this request and peer. */
  predicate AdmittedBy(config: Config, leftover: S.Effects, run: seq<Event>, i: nat, admitted: Admitted)
    requires i < |run|
  {
    && run[i].Arrive? && run[i].request == admitted.request
    && Admission(config, At(config, leftover, run, i).seen, admitted.request) == Ok(admitted.peer)
    && At(config, leftover, run, i).tickets == admitted.ticket
  }

  lemma StepWaits(config: Config, st: State, ev: Event, admitted: Admitted)
    requires admitted in Next(config, st, ev).waiting
    ensures admitted in st.waiting
         || (ev.Arrive? && ev.request == admitted.request && Admission(config, st.seen, ev.request) == Ok(admitted.peer)
             && st.tickets == admitted.ticket)
  {
  }

  lemma {:induction false} WaitingWasAdmitted(config: Config, leftover: S.Effects, run: seq<Event>,
    n: nat, admitted: Admitted)
    returns (i: nat)
    requires n <= |run| && admitted in At(config, leftover, run, n).waiting
    ensures i < n && AdmittedBy(config, leftover, run, i, admitted)
  {
    hide Next;
    StepWaits(config, At(config, leftover, run, n - 1), run[n - 1], admitted);
    if admitted in At(config, leftover, run, n - 1).waiting {
      i := WaitingWasAdmitted(config, leftover, run, n - 1, admitted);
    } else {
      i := n - 1;
    }
  }

  /** Event `j` carried the request out, with this effect. */
  predicate ActedBy(config: Config, leftover: S.Effects, run: seq<Event>, j: nat, entry: Entry)
    requires j < |run|
  {
    var st := At(config, leftover, run, j);
    && run[j].Act? && run[j].k < |st.waiting| && st.waiting[run[j].k] == entry.admitted
    && EffectOf(st.sessions, entry.admitted, run[j].now, run[j].ports) == Some(entry.effect)
  }

  lemma {:induction false} LoggedWasActed(config: Config, leftover: S.Effects, run: seq<Event>, n: nat, entry: Entry)
    returns (j: nat)
    requires n <= |run| && entry in At(config, leftover, run, n).log
    ensures j < n && ActedBy(config, leftover, run, j, entry)
  {
    var before := At(config, leftover, run, n - 1);
    if entry in before.log {
      j := LoggedWasActed(config, leftover, run, n - 1, entry);
    } else {
      j := n - 1;
    }
  }

  /** The call fits the command: relayed as it is, carried out, or turned into a change in the caller's own name. */
  predicate Fits(entry: Entry, ports: Ports) {
    var request, peer := entry.admitted.request, entry.admitted.peer;
    match entry.effect
    case Executed(action) =>
      && !IsSessionControl(request.command)
      && (action == request.command || (request.command.SwitchStreamDisplay? && ports.switchShortcut == Some(action)))
    case Relayed(action, _) => action == request.command && !IsSessionControl(request.command)
    case Changed(event) =>
      match event
      case Attach(owner, role, controller, _, _, _, _, _, _) =>
        && request.command.AttachSession? && owner == peer.nodeId
        && role == request.command.role && controller == request.command.controller
        && (controller.Some? ==> controller.value.address == request.source
                                 && ports.probe.Grants?
                                 && Access.SendShortcut in ports.probe.capabilities
                                 && Access.CloseStream in ports.probe.capabilities)
      case Detach(owner, claim, _, _) =>
        request.command.DetachSession? && owner == peer.nodeId && request.claim == Some(claim)
      case Renew(owner, claim, _) =>
        request.command.RenewSession? && owner == peer.nodeId && request.claim == Some(claim)
      case _ => false
  }

  lemma EffectFits(sessions: S.State, entry: Entry, now: Time, ports: Ports)
    requires EffectOf(sessions, entry.admitted, now, ports) == Some(entry.effect)
    ensures Fits(entry, ports)
    ensures entry.effect.Relayed? ==>
              var session := S.Snapshot(sessions, now);
              session.Some? && session.value.role == S.Remote && session.value.controller == Some(entry.effect.to)
  {
  }

  /** The caller is on the allowlist it was checked against, and holds there what its command requires. */
  predicate Entitled(admitted: Admitted) {
    && admitted.request.auth.Ok?
    && var entry := Access.Lookup(admitted.request.auth.value.1, admitted.request.auth.value.0);
       && entry.Some?
       && admitted.peer == Auth.AuthorizedPeer(entry.value.nodeId, entry.value.capabilities)
       && RequiredCapability(admitted.request.command) in entry.value.capabilities
  }

  lemma AdmissionMeans(config: Config, seen: map<Replay.Id, Replay.Time>, admitted: Admitted)
    requires Admission(config, seen, admitted.request) == Ok(admitted.peer)
    ensures Entitled(admitted) && Valid(admitted.request.command) && ReachesGuard(admitted.request)
    ensures Replay.Answer(config.replay, seen, admitted.request.arrival).Ok?
  {
  }

  /**
    * End-to-end safety, in every run and however requests interleave: whatever was executed, relayed or changed
    * was asked for by a request that arrived at `i` and was carried out at `j`; its caller is on the allowlist it
    * was checked against and holds there what the command requires; the command is valid; the replay guard
    * admitted it on arrival; and what was done fits the command.
    */
  lemma EveryEffectWasEarned(config: Config, leftover: S.Effects, run: seq<Event>, n: nat, entry: Entry)
    returns (i: nat, j: nat)
    requires n <= |run| && entry in At(config, leftover, run, n).log
    ensures i < j < n && AdmittedBy(config, leftover, run, i, entry.admitted)
            && ActedBy(config, leftover, run, j, entry)
    ensures Entitled(entry.admitted) && Valid(entry.admitted.request.command) && Fits(entry, run[j].ports)
    ensures Replay.Answer(config.replay, At(config, leftover, run, i).seen, entry.admitted.request.arrival).Ok?
  {
    j := LoggedWasActed(config, leftover, run, n, entry);
    hide At, EffectOf, Fits, Entitled, Replay.Answer, Admission;
    i := WaitingWasAdmitted(config, leftover, run, j, entry.admitted);
    EffectFits(At(config, leftover, run, j).sessions, entry, run[j].now, run[j].ports);
    AdmissionMeans(config, At(config, leftover, run, i).seen, entry.admitted);
  }

  /** A node whose revocation is two seconds old causes nothing at all, whatever it sends. */
  lemma RevokedNodeCausesNothing(config: Config, st: State, request: Request, store: seq<Access.AllowedController>,
                                 history: seq<Auth.Event>, r: nat, n: nat, now: Time)
    requires r < n <= |history| && Auth.Ordered(history)
    requires request.auth.Ok? && history[r].Revoke? && history[r].nodeId == request.auth.value.0
    requires forall k | r < k < n && history[k].Allow? :: history[k].controller.nodeId != request.auth.value.0
    requires Auth.Lists(store, history, n, now, request.auth.value.1) && now >= history[r].at + Auth.ALLOWLIST_CACHE_TTL
    ensures Arrived(config, st, request) == st
    ensures Admission(config, st.seen, request) == Err(NotAuthorized(Auth.Unauthorized))
  {
    Auth.RevocationTakesHold(store, history, r, n, request.auth.value.0, now, request.auth.value.1);
  }

  /** The check behind this request read the clock two seconds or more after the node was revoked for good. */
  ghost predicate CheckedAfterRevoke(
    request: Request, store: seq<Access.AllowedController>, history: seq<Auth.Event>, r: nat)
    requires r < |history| && history[r].Revoke?
  {
    exists n: nat, now: Time {:trigger Auth.Lists(store, history, n, now, request.auth.value.1)} ::
      && r < n <= |history|
      && (forall k | r < k < n && history[k].Allow? :: history[k].controller.nodeId != history[r].nodeId)
      && request.auth.Ok? && Auth.Lists(store, history, n, now, request.auth.value.1)
      && now >= history[r].at + Auth.ALLOWLIST_CACHE_TTL
  }

  /**
    * Over a whole run: if from event `s` on every request of a revoked node is checked two seconds or more after the
    * revocation, every call the agent ever makes for that node goes back to an arrival before `s`.
    */
  lemma RevokedNodeActsNoMore(config: Config, leftover: S.Effects, run: seq<Event>, s: nat, n: nat, entry: Entry,
                              store: seq<Access.AllowedController>, history: seq<Auth.Event>, r: nat)
    requires s <= |run| && n <= |run| && Auth.Ordered(history) && r < |history| && history[r].Revoke?
    requires forall i | s <= i < |run| && run[i].Arrive? && run[i].request.auth.Ok?
                        && run[i].request.auth.value.0 == history[r].nodeId ::
               CheckedAfterRevoke(run[i].request, store, history, r)
    requires entry in At(config, leftover, run, n).log
    requires entry.admitted.request.auth.Ok? && entry.admitted.request.auth.value.0 == history[r].nodeId
    ensures exists i :: 0 <= i < s && i < n && AdmittedBy(config, leftover, run, i, entry.admitted)
  {
    var i, j := EveryEffectWasEarned(config, leftover, run, n, entry);
    hide At, Admission, ActedBy, Fits, Valid, Replay.Answer, Auth.Lists, Auth.Ordered;
    if s <= i {
      var m: nat, now: Time :| r < m <= |history|
        && (forall k | r < k < m && history[k].Allow? :: history[k].controller.nodeId != history[r].nodeId)
        && Auth.Lists(store, history, m, now, run[i].request.auth.value.1)
        && now >= history[r].at + Auth.ALLOWLIST_CACHE_TTL;
      RevokedNodeCausesNothing(config, At(config, leftover, run, i), run[i].request, store, history, r, m, now);
    }
  }

  // ------------------------------------------------------------------
  // One admission, one effect
  // ------------------------------------------------------------------

  /** Tickets are used once: those waiting and those spent are all different and all handed out. */
  ghost predicate TicketsAreUsedOnce(st: State) {
    && (forall a | 0 <= a < |st.waiting| :: st.waiting[a].ticket < st.tickets)
    && (forall p | 0 <= p < |st.log| :: st.log[p].admitted.ticket < st.tickets)
    && (forall a, b | 0 <= a < b < |st.waiting| :: st.waiting[a].ticket != st.waiting[b].ticket)
    && (forall p, q | 0 <= p < q < |st.log| :: st.log[p].admitted.ticket != st.log[q].admitted.ticket)
    && (forall a, p | 0 <= a < |st.waiting| && 0 <= p < |st.log| :: st.waiting[a].ticket != st.log[p].admitted.ticket)
  }

  lemma StepUsesTicketsOnce(config: Config, st: State, ev: Event)
    requires TicketsAreUsedOnce(st)
    ensures TicketsAreUsedOnce(Next(config, st, ev))
    ensures st.tickets <= Next(config, st, ev).tickets
  {
    hide S.Next, EffectOf, Admission, ReachesGuard, Replay.Next;
  }

  lemma {:induction false} TicketsStayUnique(config: Config, leftover: S.Effects, run: seq<Event>, n: nat)
    requires n <= |run|
    ensures TicketsAreUsedOnce(At(config, leftover, run, n))
  {
    if n > 0 {
      hide Next;
      TicketsStayUnique(config, leftover, run, n - 1);
      StepUsesTicketsOnce(config, At(config, leftover, run, n - 1), run[n - 1]);
    }
  }

  // ------------------------------------------------------------------
  // The session inside the agent
  // ------------------------------------------------------------------

  /** The session is what this admitted request asked for; a remote one calls back its sender on a real port. */
  ghost predicate AskedFor(session: S.ActiveSession, admitted: Admitted) {
    var request := admitted.request;
    && request.command.AttachSession? && session.owner == admitted.peer.nodeId && session.role == request.command.role
    && (session.role == S.Remote ==>
         && session.controller == request.command.controller
         && session.controller.Some? && session.controller.value.address == request.source
         && session.controller.value.port != 0)
  }

  lemma StepAttaches(config: Config, st: State, k: nat, now: Time, ports: Ports)
    requires k < |st.waiting| && Valid(st.waiting[k].request.command)
    requires Acted(config.lease, st, k, now, ports).sessions.active.Some?
    ensures var session := Acted(config.lease, st, k, now, ports).sessions.active.value;
            st.sessions.active == Some(session) || AskedFor(session, st.waiting[k])
  {
  }

  lemma DutyAttachesNothing(lease: nat, st: S.State, duty: S.Event)
    requires IsDuty(duty)
    ensures S.Next(lease, st, duty).active.Some? ==> S.Next(lease, st, duty).active == st.active
  {
  }

  /** Whatever session is active, an entitled and valid request that arrived earlier in the run asked for it. */
  lemma {:induction false} SessionWasAttached(config: Config, leftover: S.Effects, run: seq<Event>, n: nat)
    returns (i: nat, admitted: Admitted)
    requires n <= |run| && Honest(run) && At(config, leftover, run, n).sessions.active.Some?
    ensures i < n && AdmittedBy(config, leftover, run, i, admitted)
    ensures Entitled(admitted) && Valid(admitted.request.command)
    ensures AskedFor(At(config, leftover, run, n).sessions.active.value, admitted)
  {
    var before, ev := At(config, leftover, run, n - 1), run[n - 1];
    if ev.Maintain? {
      DutyAttachesNothing(config.lease, before.sessions, ev.duty);
    }
    if before.sessions.active == At(config, leftover, run, n).sessions.active {
      i, admitted := SessionWasAttached(config, leftover, run, n - 1);
    } else {
      admitted := before.waiting[ev.k];
      i := WaitingWasAdmitted(config, leftover, run, n - 1, admitted);
      AdmissionMeans(config, At(config, leftover, run, i).seen, admitted);
      StepAttaches(config, before, ev.k, ev.now, ev.ports);
    }
  }

  /** A remote session always has somewhere to relay to, so no request is ever answered with `NoController`. */
  lemma RemoteSessionsCanBeReached(config: Config, leftover: S.Effects, run: seq<Event>, n: nat, admitted: Admitted,
                                   now: Time, ports: Ports)
    requires n <= |run| && Honest(run)
    ensures Answer(config.lease, At(config, leftover, run, n).sessions, admitted, now, ports) != Err(NoController)
  {
    var st := At(config, leftover, run, n);
    if st.sessions.active.Some? {
      var i, origin := SessionWasAttached(config, leftover, run, n);
    }
  }

  /**
    * Where commands are relayed to: the address, with a non-zero port, that an entitled request attached a remote
    * session from, earlier in the run. No command leaves the agent for anywhere else.
    */
  lemma RelaysGoToTheAttacher(config: Config, leftover: S.Effects, run: seq<Event>, n: nat, entry: Entry)
    returns (i: nat, j: nat, origin: Admitted)
    requires n <= |run| && Honest(run) && entry in At(config, leftover, run, n).log && entry.effect.Relayed?
    ensures i < j < n && AdmittedBy(config, leftover, run, i, origin) && ActedBy(config, leftover, run, j, entry)
    ensures Entitled(origin) && Valid(origin.request.command)
    ensures origin.request.command.AttachSession? && origin.request.command.role == S.Remote
    ensures origin.request.command.controller == Some(entry.effect.to)
    ensures entry.effect.to.address == origin.request.source && entry.effect.to.port != 0
  {
    j := LoggedWasActed(config, leftover, run, n, entry);
    EffectFits(At(config, leftover, run, j).sessions, entry, run[j].now, run[j].ports);
    hide At, EffectOf, Fits, Entitled, Valid, AdmittedBy, Honest;
    i, origin := SessionWasAttached(config, leftover, run, j);
  }

  /**
    * Exactly where every action of every run goes. If a remote session is live when a waiting action is carried
    * out, the one thing that happens is that it is relayed, whatever it is, to where an entitled request attached
    * that session from; if none is, the one thing that happens is that it is carried out here, if it can be.
    */
  lemma ActionsAreRoutedExactly(config: Config, leftover: S.Effects, run: seq<Event>, j: nat)
    returns (i: nat, origin: Admitted)
    requires j < |run| && Honest(run) && run[j].Act? && run[j].k < |At(config, leftover, run, j).waiting|
    requires IsAction(At(config, leftover, run, j).waiting[run[j].k].request.command)
    ensures var st, next := At(config, leftover, run, j), At(config, leftover, run, j + 1);
            var admitted := st.waiting[run[j].k];
            && next.sessions == st.sessions
            && if RemoteIsLive(st.sessions, run[j].now) then
                 && i < j && AdmittedBy(config, leftover, run, i, origin) && Entitled(origin)
                 && origin.request.command.AttachSession? && origin.request.command.controller.Some?
                 && next.log == st.log + [Entry(admitted, Relayed(admitted.request.command,
                                                                  origin.request.command.controller.value))]
               else
                 var action := LocalAction(admitted.request.command, run[j].ports);
                 next.log == st.log + if action.Some? then [Entry(admitted, Executed(action.value))] else []
  {
    var st := At(config, leftover, run, j);
    i, origin := 0, st.waiting[run[j].k];
    if st.sessions.active.Some? {
      i, origin := SessionWasAttached(config, leftover, run, j);
    }
    ActionGoesExactly(config.lease, st, run[j].k, run[j].now, run[j].ports);
    OneMoreEvent(config, leftover, run, j + 1);
    hide Acted, Answer, EffectOf, At, AdmittedBy, Entitled, Honest;
  }

  /** What event `ev` means to the coordinator, if anything. */
  function SessionStep(st: State, ev: Event): Option<S.Event> {
    match ev
    case Arrive(_) => None
    case Act(k, now, ports) =>
      if k >= |st.waiting| then None
      else
        var effect := EffectOf(st.sessions, st.waiting[k], now, ports);
        if effect.Some? && effect.value.Changed? then Some(effect.value.event) else None
    case Maintain(duty) => Some(duty)
  }

  /** The session events of the first `n` events: the coordinator's own view of the run. */
  function SessionEvents(config: Config, leftover: S.Effects, run: seq<Event>, n: nat): seq<S.Event>
    requires n <= |run|
  {
    if n == 0 then []
    else
      var step := SessionStep(At(config, leftover, run, n - 1), run[n - 1]);
      SessionEvents(config, leftover, run, n - 1) + if step.Some? then [step.value] else []
  }

  lemma {:induction false} ExecAppend(lease: nat, st: S.State, events: seq<S.Event>, last: S.Event)
    ensures S.Exec(lease, st, events + [last]) == S.Next(lease, S.Exec(lease, st, events), last)
    decreases |events|
  {
    if events == [] {
      assert (events + [last])[1..] == [];
    } else {
      assert (events + [last])[1..] == events[1..] + [last];
      ExecAppend(lease, S.Next(lease, st, events[0]), events[1..], last);
    }
  }

  lemma StepOfSessions(config: Config, st: State, ev: Event)
    ensures Next(config, st, ev).sessions
         == var step := SessionStep(st, ev);
            if step.Some? then S.Next(config.lease, st.sessions, step.value) else st.sessions
  {
  }

  /** Seen from the coordinator, a run of the agent is a run of the coordinator: all its guarantees carry over. */
  lemma {:induction false} AgentRunsAreSessionRuns(config: Config, leftover: S.Effects, run: seq<Event>, n: nat)
    requires n <= |run|
    ensures At(config, leftover, run, n).sessions
         == S.Exec(config.lease, Started(leftover).sessions, SessionEvents(config, leftover, run, n))
  {
    if n > 0 {
      hide Next, SessionStep, S.Next;
      AgentRunsAreSessionRuns(config, leftover, run, n - 1);
      StepOfSessions(config, At(config, leftover, run, n - 1), run[n - 1]);
      var before := SessionEvents(config, leftover, run, n - 1);
      var step := SessionStep(At(config, leftover, run, n - 1), run[n - 1]);
      if step.Some? {
        ExecAppend(config.lease, Started(leftover).sessions, before, step.value);
      } else {
        assert before + [] == before;
      }
    }
  }

  /** Started with a reconcile, the agent's shortcuts and focus following agree with its session after every run. */
  lemma {:induction false} AgentEffectsAgree(config: Config, leftover: S.Effects, run: seq<Event>, n: nat)
    requires 0 < n <= |run| && run[0].Maintain? && run[0].duty.Reconcile?
    ensures S.Consistent(At(config, leftover, run, n).sessions) && S.Quiet(At(config, leftover, run, n).sessions)
  {
    hide At, SessionEvents, S.Consistent, S.Quiet, S.Exec;
    var events := SessionEvents(config, leftover, run, n);
    AgentRunsAreSessionRuns(config, leftover, run, n);
    StartsWithReconcile(config, leftover, run, n);
    S.AgreementFromStartup(config.lease, leftover, run[0].duty.now, run[0].duty.clear, events[1..]);
    assert events == [events[0]] + events[1..];
  }

  lemma {:induction false} StartsWithReconcile(config: Config, leftover: S.Effects, run: seq<Event>, n: nat)
    requires 0 < n <= |run| && run[0].Maintain? && run[0].duty.Reconcile?
    ensures SessionEvents(config, leftover, run, n) != [] && SessionEvents(config, leftover, run, n)[0] == run[0].duty
  {
    if n > 1 {
      StartsWithReconcile(config, leftover, run, n - 1);
    } else {
      assert SessionEvents(config, leftover, run, 0) == [];
    }
  }

  // ------------------------------------------------------------------
  // The replay guard inside the agent
  // ------------------------------------------------------------------

  /** The arrivals among the first `n` events that reach the guard. */
  function Arrivals(run: seq<Event>, n: nat): seq<Replay.Arrival>
    requires n <= |run|
  {
    if n == 0 then []
    else
      Arrivals(run, n - 1)
      + if run[n - 1].Arrive? && ReachesGuard(run[n - 1].request) then [run[n - 1].request.arrival] else []
  }

  lemma {:induction false} ArrivalsExtend(run: seq<Event>, i: nat, n: nat)
    requires i <= n <= |run|
    ensures |Arrivals(run, i)| <= |Arrivals(run, n)| && Arrivals(run, n)[..|Arrivals(run, i)|] == Arrivals(run, i)
  {
    if i < n {
      ArrivalsExtend(run, i, n - 1);
    }
  }

  lemma {:induction false} ReplayPrefix(config: Replay.Config, run: seq<Replay.Arrival>,
    longer: seq<Replay.Arrival>, n: nat)
    requires n <= |run| <= |longer| && longer[..|run|] == run
    ensures Replay.At(config, longer, n) == Replay.At(config, run, n)
  {
    if n > 0 {
      ReplayPrefix(config, run, longer, n - 1);
      assert longer[..|run|][n - 1] == longer[n - 1];
    }
  }

  /** One more arrival on a known prefix moves the guard by one step. */
  lemma ReplayStep(config: Replay.Config, run: seq<Replay.Arrival>, arrival: Replay.Arrival)
    ensures Replay.At(config, run + [arrival], |run| + 1) == Replay.Next(config, Replay.At(config, run, |run|), arrival)
  {
    assert (run + [arrival])[..|run|] == run;
    ReplayPrefix(config, run, run + [arrival], |run|);
  }

  lemma SeenStep(config: Config, st: State, ev: Event)
    ensures Next(config, st, ev).seen
         == if ev.Arrive? && ReachesGuard(ev.request) then Replay.Next(config.replay, st.seen, ev.request.arrival)
            else st.seen
  {
  }

  lemma OneMoreEvent(config: Config, leftover: S.Effects, run: seq<Event>, n: nat)
    requires 0 < n <= |run|
    ensures At(config, leftover, run, n) == Next(config, At(config, leftover, run, n - 1), run[n - 1])
  {
  }

  /** The guard on its own, run over those arrivals. */
  function GuardAlone(config: Replay.Config, run: seq<Event>, n: nat): map<Replay.Id, Replay.Time>
    requires n <= |run|
  {
    Replay.At(config, Arrivals(run, n), |Arrivals(run, n)|)
  }

  lemma GuardAloneSteps(config: Replay.Config, run: seq<Event>, n: nat)
    requires 0 < n <= |run|
    ensures var ev, before := run[n - 1], GuardAlone(config, run, n - 1);
            GuardAlone(config, run, n)
            == if ev.Arrive? && ReachesGuard(ev.request) then Replay.Next(config, before, ev.request.arrival)
               else before
  {
    hide Replay.At, Replay.Next, ReachesGuard;
    var ev, before := run[n - 1], Arrivals(run, n - 1);
    if ev.Arrive? && ReachesGuard(ev.request) {
      ReplayStep(config, before, ev.request.arrival);
    } else {
      assert before + [] == before;
    }
  }

  lemma {:induction false} GuardSeesArrivals(config: Config, leftover: S.Effects, run: seq<Event>, n: nat)
    requires n <= |run|
    ensures At(config, leftover, run, n).seen == GuardAlone(config.replay, run, n)
  {
    if n > 0 {
      hide Next, GuardAlone, ReachesGuard, Replay.Next;
      GuardSeesArrivals(config, leftover, run, n - 1);
      GuardAloneSteps(config.replay, run, n);
      SeenStep(config, At(config, leftover, run, n - 1), run[n - 1]);
    }
  }

  lemma ArrivalHasItsPlace(run: seq<Event>, i: nat, n: nat)
    requires i < n <= |run| && run[i].Arrive? && ReachesGuard(run[i].request)
    ensures var arrivals, index := Arrivals(run, n), |Arrivals(run, i)|;
            && index < |arrivals| && arrivals[..index] == Arrivals(run, i) && arrivals[index] == run[i].request.arrival
            && index + 1 == |Arrivals(run, i + 1)|
  {
    hide ReachesGuard;
    var before, after := Arrivals(run, i), Arrivals(run, n);
    assert Arrivals(run, i + 1) == before + [run[i].request.arrival];
    ArrivalsExtend(run, i + 1, n);
    assert after[..|before| + 1][|before|] == run[i].request.arrival;
    assert after[..|before|] == after[..|before| + 1][..|before|] == before;
  }

  /** What the agent admits, the guard admits, in the guard's own run. */
  lemma AdmittedByTheGuard(config: Config, leftover: S.Effects, run: seq<Event>, i: nat, n: nat, admitted: Admitted)
    requires i < n <= |run| && AdmittedBy(config, leftover, run, i, admitted)
    ensures var arrivals, index := Arrivals(run, n), |Arrivals(run, i)|;
            index < |arrivals| && arrivals[index] == admitted.request.arrival
            && Replay.AdmittedAt(config.replay, arrivals, index)
            && index + 1 == |Arrivals(run, i + 1)|
  {
    AdmissionMeans(config, At(config, leftover, run, i).seen, admitted);
    hide At, Arrivals, Replay.Answer, ReachesGuard, Admission, Replay.At;
    ArrivalHasItsPlace(run, i, n);
    GuardSeesArrivals(config, leftover, run, i);
    ReplayPrefix(config.replay, Arrivals(run, i), Arrivals(run, n), |Arrivals(run, i)|);
  }

  /**
    * Exactly which requests the agent admits, told from the history: those of a caller on the allowlist it was checked
    * against that holds the right for them, valid, in time, and with room left in the window for an identifier not
    * marked in it by an earlier arrival.
    */
  lemma AdmittedExactly(config: Config, leftover: S.Effects, run: seq<Event>, i: nat)
    requires i < |run| && run[i].Arrive?
    requires Replay.Ordered(Arrivals(run, i) + [run[i].request.arrival])
    ensures var request, arrivals := run[i].request, Arrivals(run, i) + [run[i].request.arrival];
            var young := Replay.YoungIds(config.replay, arrivals, |arrivals| - 1, request.arrival.now);
            Admission(config, At(config, leftover, run, i).seen, request).Ok?
            <==> && request.auth.Ok?
                 && Access.Lookup(request.auth.value.1, request.auth.value.0).Some?
                 && MayAsk(Access.Lookup(request.auth.value.1, request.auth.value.0).value.capabilities,
                           request.command)
                 && Valid(request.command)
                 && Replay.InTime(config.replay, request.arrival)
                 && |young| < config.replay.capacity && request.arrival.id !in young
  {
    var st, request := At(config, leftover, run, i), run[i].request;
    var before, arrivals := Arrivals(run, i), Arrivals(run, i) + [run[i].request.arrival];
    ArrivedExactly(config, st, request);
    GuardSeesArrivals(config, leftover, run, i);
    assert arrivals[..|before|] == before && arrivals[|before|] == request.arrival;
    ReplayPrefix(config.replay, before, arrivals, |before|);
    Replay.AnsweredExactly(config.replay, arrivals, |before|);
    hide At, Arrivals, Arrived, Admission, Replay.Answer, Replay.At, Replay.YoungIds, Replay.InTime, Valid, MayAsk;
  }

  /** Two admissions of one request identifier are at least a replay window apart, and so are their effects' causes. */
  lemma AdmissionsOfOneRequestAreApart(config: Config, leftover: S.Effects, run: seq<Event>, i: nat, j: nat,
                                       first: Admitted, second: Admitted)
    requires i < j < |run| && Replay.Ordered(Arrivals(run, |run|))
    requires AdmittedBy(config, leftover, run, i, first) && AdmittedBy(config, leftover, run, j, second)
    requires first.request.arrival.id == second.request.arrival.id
    ensures second.request.arrival.now - first.request.arrival.now >= config.replay.window
  {
    hide AdmittedBy, At, Arrivals, Replay.At, Replay.AdmittedAt, Replay.Ordered, Replay.Answer;
    var arrivals, x, y := Arrivals(run, |run|), |Arrivals(run, i)|, |Arrivals(run, j)|;
    AdmittedByTheGuard(config, leftover, run, i, |run|, first);
    AdmittedByTheGuard(config, leftover, run, j, |run|, second);
    assert x < y by {
      ArrivalsExtend(run, i + 1, j);
    }
    Replay.AdmissionsAreAWindowApart(config.replay, arrivals, x, y);
  }

  // ------------------------------------------------------------------
  // How often one request acts
  // ------------------------------------------------------------------

  /** The calls at these places in the log were all made for one and the same request. */
  ghost predicate ForOneRequest(log: seq<Entry>, calls: set<nat>) {
    && (forall p | p in calls :: p < |log|)
    && (forall p, q | p in calls && q in calls ::
         && log[p].admitted.request.arrival.id == log[q].admitted.request.arrival.id
         && log[p].admitted.request.arrival.issuedAt == log[q].admitted.request.arrival.issuedAt)
  }

  /** The call goes back to arrival `x` of those the guard has seen. */
  ghost predicate GoesBackTo(config: Config, leftover: S.Effects, run: seq<Event>, x: nat, entry: Entry) {
    exists i: nat :: i < |run| && AdmittedBy(config, leftover, run, i, entry.admitted) && x == |Arrivals(run, i)|
  }

  lemma CallGoesBack(config: Config, leftover: S.Effects, run: seq<Event>, entry: Entry) returns (x: nat)
    requires entry in At(config, leftover, run, |run|).log
    ensures GoesBackTo(config, leftover, run, x, entry)
  {
    hide At, Arrivals, Fits, Entitled, Replay.Answer, ActedBy, Valid, AdmittedBy;
    var i, j := EveryEffectWasEarned(config, leftover, run, |run|, entry);
    x := |Arrivals(run, i)|;
  }

  lemma GuardPlaces(config: Config, leftover: S.Effects, run: seq<Event>, x: nat, entry: Entry)
    requires GoesBackTo(config, leftover, run, x, entry)
    ensures x < |Arrivals(run, |run|)| && Arrivals(run, |run|)[x] == entry.admitted.request.arrival
    ensures Replay.AdmittedAt(config.replay, Arrivals(run, |run|), x)
  {
    hide At, Arrivals, AdmittedBy, Replay.At, Replay.AdmittedAt;
    var i: nat :| i < |run| && AdmittedBy(config, leftover, run, i, entry.admitted) && x == |Arrivals(run, i)|;
    AdmittedByTheGuard(config, leftover, run, i, |run|, entry.admitted);
  }

  lemma PlaceIsLater(config: Config, leftover: S.Effects, run: seq<Event>, i: nat, j: nat, admitted: Admitted)
    requires i < j < |run| && AdmittedBy(config, leftover, run, i, admitted)
    ensures |Arrivals(run, i)| < |Arrivals(run, j)|
  {
    hide At, Arrivals, AdmittedBy, Replay.At, Replay.AdmittedAt;
    AdmittedByTheGuard(config, leftover, run, i, |run|, admitted);
    ArrivalsExtend(run, i + 1, j);
  }

  lemma SamePlaceSameTicket(config: Config, leftover: S.Effects, run: seq<Event>, x: nat, first: Entry, second: Entry)
    requires GoesBackTo(config, leftover, run, x, first) && GoesBackTo(config, leftover, run, x, second)
    ensures first.admitted.ticket == second.admitted.ticket
  {
    hide At, Arrivals, Admission;
    var i: nat :| i < |run| && AdmittedBy(config, leftover, run, i, first.admitted) && x == |Arrivals(run, i)|;
    var j: nat :| j < |run| && AdmittedBy(config, leftover, run, j, second.admitted) && x == |Arrivals(run, j)|;
    if i < j {
      PlaceIsLater(config, leftover, run, i, j, first.admitted);
    } else if j < i {
      PlaceIsLater(config, leftover, run, j, i, second.admitted);
    }
  }

  /** The places, among the guard's arrivals, of the requests behind a set of calls: as many as there are calls. */
  lemma {:induction false} PlacesOfCalls(config: Config, leftover: S.Effects, run: seq<Event>, calls: set<nat>)
    returns (hits: set<nat>)
    requires forall p | p in calls :: p < |At(config, leftover, run, |run|).log|
    ensures |hits| == |calls|
    ensures forall x | x in hits ::
              exists p :: p in calls && GoesBackTo(config, leftover, run, x, At(config, leftover, run, |run|).log[p])
    decreases |calls|
  {
    hide At, GoesBackTo, TicketsAreUsedOnce;
    var log := At(config, leftover, run, |run|).log;
    if calls == {} {
      hits := {};
    } else {
      var p :| p in calls;
      var rest := PlacesOfCalls(config, leftover, run, calls - {p});
      var x := CallGoesBack(config, leftover, run, log[p]);
      if x in rest {
        var q :| q in calls - {p} && GoesBackTo(config, leftover, run, x, log[q]);
        SamePlaceSameTicket(config, leftover, run, x, log[p], log[q]);
        TicketsTellCallsApart(config, leftover, run, p, q);
      }
      hits := rest + {x};
    }
  }

  lemma TicketsTellCallsApart(config: Config, leftover: S.Effects, run: seq<Event>, p: nat, q: nat)
    requires var log := At(config, leftover, run, |run|).log; p < |log| && q < |log| && p != q
    ensures var log := At(config, leftover, run, |run|).log; log[p].admitted.ticket != log[q].admitted.ticket
  {
    hide At;
    TicketsStayUnique(config, leftover, run, |run|);
  }

  /**
    * How often one request acts, however often it is sent and however requests interleave: `k` calls for one
    * identifier and issue time need `k - 1` windows inside the two skews.
    */
  lemma CallsOfOneRequest(config: Config, leftover: S.Effects, run: seq<Event>, calls: set<nat>)
    requires Replay.Ordered(Arrivals(run, |run|)) && Replay.SteadyWall(Arrivals(run, |run|))
    requires calls != {} && ForOneRequest(At(config, leftover, run, |run|).log, calls)
    ensures (|calls| - 1) * config.replay.window <= 2 * config.replay.skew
  {
    hide At, Arrivals, GoesBackTo, Replay.Ordered, Replay.SteadyWall, Replay.AdmittedAt;
    var log, arrivals := At(config, leftover, run, |run|).log, Arrivals(run, |run|);
    var hits := PlacesOfCalls(config, leftover, run, calls);
    forall x | x in hits
      ensures exists p :: p in calls && x < |arrivals| && arrivals[x] == log[p].admitted.request.arrival
      ensures Replay.AdmittedAt(config.replay, arrivals, x)
    {
      var p :| p in calls && GoesBackTo(config, leftover, run, x, log[p]);
      GuardPlaces(config, leftover, run, x, log[p]);
    }
    assert Replay.AdmitSameRequest(config.replay, arrivals, hits);
    assert hits != {};
    Replay.AdmissionsOfOneRequest(config.replay, arrivals, hits);
  }

  /** A guard whose window outlasts both skews makes a request act at most once. */
  lemma OneRequestActsOnce(config: Config, leftover: S.Effects, run: seq<Event>, p: nat, q: nat)
    requires Replay.Ordered(Arrivals(run, |run|)) && Replay.SteadyWall(Arrivals(run, |run|))
    requires ForOneRequest(At(config, leftover, run, |run|).log, {p, q})
    requires config.replay.window > 2 * config.replay.skew
    ensures p == q
  {
    hide At, Arrivals, ForOneRequest;
    CallsOfOneRequest(config, leftover, run, {p, q});
    assert p != q ==> |{p, q}| == 2;
  }

  /** The agent as shipped makes at most three calls for one request. */
  lemma ShippedAgentActsAtMostThrice(config: Config, leftover: S.Effects, run: seq<Event>, calls: set<nat>)
    requires Replay.Ordered(Arrivals(run, |run|)) && Replay.SteadyWall(Arrivals(run, |run|))
    requires config.replay == Replay.Config(Replay.REQUEST_WINDOW, Replay.MAX_CLOCK_SKEW, Replay.MAX_TRACKED_REQUESTS)
    requires ForOneRequest(At(config, leftover, run, |run|).log, calls)
    ensures |calls| <= 3
  {
    hide At, Arrivals, ForOneRequest;
    if calls != {} {
      CallsOfOneRequest(config, leftover, run, calls);
    }
  }
}
