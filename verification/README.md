# Omdesky in Dafny

Omdesky lets one computer stream and control the desktop of another over a tailnet. This project models the parts
of it whose correctness is a matter of history rather than of one call, and proves what they promise over runs of any
length and any interleaving.

- **The agent's control plane.** `RateLimiter.dfy` is the token bucket in front of every authenticated request,
  `AccessStore.dfy` the allowlist file, `Authorizer.dfy` the identity and allowlist caches, `Replay.dfy` the replay
  guard, `Pairing.dfy` the pairing challenges, `Session.dfy` the session coordinator with its desktop effects, and
  `Commands.dfy` the command endpoint that puts them together.
- **The controller's half of a session.** `LeaseProtocol.dfy` joins the renewal heartbeat, over a network that delays
  and loses, to the agent's lease; `Monitor.dfy` is the health monitor that ends a session.
- **Algorithms.** `FollowFocus.dfy` is the debounced display router, `Chords.dfy` the compiler from key chords to
  nested timers, `Wrap.dfy` the terminal client's text wrapper, `Terminal.dfy` its session machine, `Release.dfy` the
  release parser and `Discovery.dfy` node discovery.

What is stateful in the program is a class here. Its methods are proved against a specification function on
immutable states (`Next`, `AdmitNext`, `Arrived`, `Applied` and so on), and the theorems are about runs of that function.
Answers of ports (mesh, store, shortcut installer, other agents, clocks, random identifiers) are parameters, so every
theorem covers every pattern of failures. Time is a natural number of nanoseconds.

Three facts about the code that its documentation and constants do not tell:

- `docs/architecture.md` line 47 says that a detach whose cleanup fails keeps the session so that it can be retried, and
  the code does that. It says nothing about focus following, which by then has been stopped and which only a granted
  attach starts again (`Sessions.FailedDetachStopsFollowing`). A remote session therefore follows focus exactly as
  long as no detach or sweep has failed to clean up since its grant (`Sessions.FollowsExactly`); a live, renewed remote session
  without it is reachable in four events (`Sessions.DeafSessionIsReachable`).
- A replayed request is refused with the words that it was already applied. One request can be admitted `k` times
  exactly when `k - 1` windows fit into twice the allowed clock skew (`Replay.AdmittedHowOften`). The shipped window
  equals one skew: three times is possible, four is not (`Replay.ShippedConstants`), and the agent makes at most three
  calls for one request (`Commands.ShippedAgentActsAtMostThrice`).
- The discovery list depends on the order in which probes finish exactly when two different remote nodes share a name
  (`Discovery.SchedulingIsInvisibleExactly`).

## Model

| member | source | states |
|---|---|---|
| RateLimiting.RateLimiter.constructor | crates/omdesky-agent/src/authorize.rs:223-230 | a new limiter tracks nobody |
| RateLimiting.RateLimiter.Refill | crates/omdesky-agent/src/authorize.rs:248-249 | seconds times rate equals the refill added up tick by tick |
| RateLimiting.RateLimiter.Prune | crates/omdesky-agent/src/authorize.rs:261-270 | keeps exactly the buckets that are below full at `now` |
| RateLimiting.RateLimiter.Admit | crates/omdesky-agent/src/authorize.rs:232-259 | the two-update body refines one step of the abstract limiter and keeps it well formed |
| RateLimiting.EarnedPerSecond | crates/omdesky-agent/src/authorize.rs:248-249 | a billion nanoseconds earn exactly the configured number of tokens |
| RateLimiting.PruneKeepsLevels | crates/omdesky-agent/src/authorize.rs:261-270 | eviction changes no source's virtual token level, now or later |
| RateLimiting.LevelAdvances | crates/omdesky-agent/src/authorize.rs:248-250 | waiting adds exactly the refill, cut at the burst, tracked or not |
| RateLimiting.StepLevel | crates/omdesky-agent/src/authorize.rs:232-259 | a request changes only its own source's level, by the token it takes |
| RateLimiting.SaturatedExactly | crates/omdesky-agent/src/authorize.rs:233-239 | refused for capacity iff untracked and `capacity` others are below full |
| RateLimiting.RunIsTight | crates/omdesky-agent/src/authorize.rs:232-270 | in every run the level is the least headroom over all earlier starts, and reached by one |
| RateLimiting.AdmittedExactlyWithinBound | crates/omdesky-agent/src/authorize.rs:232-259 | apart from capacity, admitted iff every interval ending now stays within burst + rate * length |
| RateLimiting.WindowBound | crates/omdesky-agent/src/authorize.rs:232-270 | admissions in any interval are at most burst + rate * length, evictions included |
| RateLimiting.CapacityBound | crates/omdesky-agent/src/authorize.rs:233-246 | the bucket count never exceeds the capacity |
| AccessStore.FileAccessStore.Allow | crates/omdesky-platform/src/access.rs:60-68 | on success the entry replaces all of its node; on failure nothing changes |
| AccessStore.FileAccessStore.Revoke | crates/omdesky-platform/src/access.rs:70-77 | on success all entries of the node are gone; on failure nothing changes |
| AccessStore.Retain | crates/omdesky-platform/src/access.rs:64-64 | the loop keeps other nodes' entries in order |
| AccessStore.LookupIsFirst | crates/omdesky-agent/src/authorize.rs:123-126 | a lookup finds the first entry of the node, and none only if there is none |
| AccessStore.AsMapLooksUp | crates/omdesky-agent/src/authorize.rs:123-126 | the first matching entry is the value of the map the list stands for |
| AccessStore.AllowRefinesUpdate | crates/omdesky-platform/src/access.rs:60-68 | allow is a map update at the node's key, duplicates in the file or not |
| AccessStore.RevokeRefinesRemoval | crates/omdesky-platform/src/access.rs:70-77 | revoke is removal of the node's key and nothing else |
| Authorization.Authorizer.constructor | crates/omdesky-agent/src/authorize.rs:68-86 | both caches start empty |
| Authorization.Authorizer.Identify | crates/omdesky-agent/src/authorize.rs:134-179 | answer and cache after a check, for every way the lookup can end |
| Authorization.Authorizer.Allowlist | crates/omdesky-agent/src/authorize.rs:181-207 | answer and cache after a check, store failure included |
| Authorization.Authorizer.Authenticate | crates/omdesky-agent/src/authorize.rs:107-132 | the order of the checks, the answer of each failure, and the whole new state |
| Basics.TailscaleRanges | crates/omdesky-core/src/lib.rs:402-415 | the accepted addresses are 100.64.0.0/10 and fd7a:115c:a1e0::/48, read as numbers |
| Authorization.IdentityCacheIsBounded | crates/omdesky-agent/src/authorize.rs:160-176 | the identity cache stays within its capacity in every run |
| Authorization.RememberedExactly | crates/omdesky-agent/src/authorize.rs:162-176 | an identity is remembered iff there is room or a stale one makes room |
| Authorization.IdentityIsRemembered | crates/omdesky-agent/src/authorize.rs:134-141 | a remembered identity is answered without a lookup for exactly 15 s, whatever else is looked up |
| Authorization.ListingIsRemembered | crates/omdesky-agent/src/authorize.rs:181-189 | a listing is answered without reading the store for exactly 2 s |
| Authorization.IdentifyIsAccountedFor | crates/omdesky-agent/src/authorize.rs:134-179 | every identity `Identify` answers is in the run, cached or looked up, whatever happens during the lookup |
| Authorization.AllowlistIsAccountedFor | crates/omdesky-agent/src/authorize.rs:181-207 | every allowlist `Allowlist` answers is in the run, cached or just listed |
| Authorization.IdentityIsFresh | crates/omdesky-agent/src/authorize.rs:134-179 | an identity is less than 15 s old, counted from the clock read before its lookup began |
| Authorization.ListingIsFresh | crates/omdesky-agent/src/authorize.rs:181-207 | an allowlist is the store's content at a listing begun less than 2 s before the check |
| Authorization.AuthenticatedFromFreshAnswers | crates/omdesky-agent/src/authorize.rs:107-132 | every peer `Authenticate` answers is what an uncached check of such a lookup and such a listing answers |
| Authorization.RevokedStaysOut | crates/omdesky-platform/src/access.rs:70-77 | a revoked node is not in the store until it is allowed again |
| Authorization.RevocationTakesHold | crates/omdesky-agent/src/authorize.rs:181-207 | two seconds after a revoke no check authorizes the node |
| Replay.ReplayGuard.Admit | crates/omdesky-agent/src/replay.rs:62-86 | answer and tracked set, refused replays refreshing their mark |
| Replay.AnsweredExactly | crates/omdesky-agent/src/replay.rs:62-86 | what every attempt is answered, told from the history: stale, full, replayed, or admitted |
| Replay.TrackingIsBounded | crates/omdesky-agent/src/replay.rs:75-79 | the tracked set never exceeds the capacity |
| Replay.MarkStays | crates/omdesky-agent/src/replay.rs:75-83 | a mark stays in the table for a window, possibly refreshed |
| Replay.AdmissionsAreAWindowApart | crates/omdesky-agent/src/replay.rs:62-86 | an admission is at least a window after any earlier attempt with the identifier that left a mark |
| Replay.AdmissionsOfOneRequest | crates/omdesky-agent/src/replay.rs:62-86 | k admissions of one request need k - 1 windows within two skews |
| Replay.ManyPresentations | crates/omdesky-agent/src/replay.rs:62-86 | as often as windows fit into two skews, a run that admits one request that often |
| Replay.AdmittedHowOften | crates/omdesky-agent/src/replay.rs:62-86 | one request can be admitted k times iff k - 1 windows fit into two skews (and the capacity is above zero) |
| Replay.NeverTwiceExactly | crates/omdesky-agent/src/replay.rs:62-86 | no request is ever admitted twice iff the window exceeds two skews (or nothing is admitted at all) |
| Replay.ShippedConstants | crates/omdesky-agent/src/replay.rs:10-12 | with the shipped constants a request can be admitted three times and never four |
| Pairing.PairingChallenges.constructor | crates/omdesky-agent/src/pairing.rs:65-71 | no challenges and no counters at first |
| Pairing.PairingChallenges.AdmitIssue | crates/omdesky-agent/src/pairing.rs:121-151 | admission and counters: lapsed windows go, a new owner needs room, five per window |
| Pairing.PairingChallenges.IssueChallenge | crates/omdesky-agent/src/pairing.rs:77-104 | answer and whole new state, also when the owner has two outstanding |
| Pairing.PairingChallenges.ConsumeChallenge | crates/omdesky-agent/src/pairing.rs:106-119 | answer and whole new state; only the owner's own pending challenge is removed |
| Pairing.ConsumedExactly | crates/omdesky-agent/src/pairing.rs:106-119 | a challenge can be consumed iff it was issued to that owner, has not expired and has not been consumed, whatever others present |
| Pairing.PendingExactly | crates/omdesky-agent/src/pairing.rs:77-119 | the pending challenges are the outstanding issues of the history |
| Pairing.IssuedExactly | crates/omdesky-agent/src/pairing.rs:82-104 | an issue hands out a challenge iff it is admitted and fewer than two of the owner's are outstanding |
| Pairing.AdmittedExactly | crates/omdesky-agent/src/pairing.rs:121-151 | an issue is admitted iff the owner's open window has had fewer than five, or without one fewer than 256 owners have one |
| Pairing.ConsumedOnceByItsOwnerInTime | crates/omdesky-agent/src/pairing.rs:106-119 | consumed at most once in a run, by the owner it was issued to, before it expires |
| Pairing.ConsumedStaysGone | crates/omdesky-agent/src/pairing.rs:111-114 | a consumed challenge is never stored again |
| Pairing.AtMostTwoPerOwner | crates/omdesky-agent/src/pairing.rs:85-92 | at most two stored per owner in every reachable state |
| Pairing.CountersBounded | crates/omdesky-agent/src/pairing.rs:130-134 | at most 256 owners have a counter |
| Pairing.OwnersAreTracked | crates/omdesky-agent/src/pairing.rs:77-151 | after a sweep each stored challenge's owner has a counter, or had one a lifetime ago |
| Pairing.SweptTableIsBounded | crates/omdesky-agent/src/pairing.rs:77-151 | after an admitted issue or a consume the table holds at most 2 * 2 * 256 challenges |
| Pairing.TableIsBounded | crates/omdesky-agent/src/pairing.rs:77-151 | the same bound in every reachable state |
| Pairing.AtMostFivePerWindow | crates/omdesky-agent/src/pairing.rs:136-148 | the counter equals the admissions of its window, at most five |
| Pairing.AtMostTenPerInterval | crates/omdesky-agent/src/pairing.rs:121-151 | at most ten admissions in any half-open interval as long as the window |
| Sessions.KeybindSessionEffects.Install | crates/omdesky-agent/src/session.rs:334-348 | shortcuts in force and focus following after an install, failed ones included |
| Sessions.KeybindSessionEffects.Clear | crates/omdesky-agent/src/session.rs:350-354 | focus following stops always, shortcuts only when the installer succeeds |
| Sessions.SessionCoordinator.constructor | crates/omdesky-agent/src/session.rs:83-93 | no session and generation 0 at first |
| Sessions.SessionCoordinator.TakeSnapshot | crates/omdesky-agent/src/session.rs:99-107 | the session while its lease lasts, nothing after |
| Sessions.SessionCoordinator.DoReconcile | crates/omdesky-agent/src/session.rs:109-115 | whole new state of a reconcile |
| Sessions.SessionCoordinator.DoAttach | crates/omdesky-agent/src/session.rs:117-175 | answer and whole new state of an attach under any pattern of port failures |
| Sessions.AttachExactly | crates/omdesky-agent/src/session.rs:124-175 | every field of answer and state after an attach, refused, failed or granted |
| Sessions.SessionCoordinator.DoDetach | crates/omdesky-agent/src/session.rs:177-216 | answer and whole new state of a detach |
| Sessions.SessionCoordinator.DoRenew | crates/omdesky-agent/src/session.rs:218-252 | answer and whole new state of a renewal |
| Sessions.SessionCoordinator.ExpireDue | crates/omdesky-agent/src/session.rs:254-279 | outcome and whole new state of a sweep |
| Sessions.SessionCoordinator.DoRelease | crates/omdesky-agent/src/session.rs:281-298 | whole new state of a shutdown |
| Sessions.LiveSessionIsUntouched | crates/omdesky-agent/src/session.rs:117-298 | while a lease is live no run of other identities' calls or stale claims changes anything |
| Sessions.EntitledCallsTakeEffect | crates/omdesky-agent/src/session.rs:117-298 | the calls left out of that theorem do take effect |
| Sessions.RetiredClaimsNeverAct | crates/omdesky-agent/src/session.rs:177-252 | a superseded or removed claim never changes state or effects again, in any continuation |
| Sessions.WhatRetiresAClaim | crates/omdesky-agent/src/session.rs:117-298 | exactly which calls retire the active claim |
| Sessions.LateRenewalIsRefused | crates/omdesky-agent/src/session.rs:237-243 | a renewal after the deadline is refused and changes nothing, swept or not |
| Sessions.GenerationsIncrease | crates/omdesky-agent/src/session.rs:135-143 | generations of granted attaches strictly increase below the 64-bit limit |
| Sessions.GenerationCountsAttempts | crates/omdesky-agent/src/session.rs:135-135 | the generation counts the attaches that are not turned away, up to the 64-bit limit |
| Sessions.EffectsAgree | crates/omdesky-agent/src/session.rs:145-175 | in every run a session implies its own shortcuts; without one, following is stopped and shortcuts remain only after a failed cleanup |
| Sessions.AgreementFromStartup | crates/omdesky-agent/src/session.rs:109-115 | that agreement holds from the reconcile at startup on, whatever a previous process left |
| Sessions.SessionIsAsGranted | crates/omdesky-agent/src/session.rs:334-348 | in every run an active session has the id, owner, role, controller and window its attach asked for, and exactly these shortcuts are in force |
| Sessions.FollowingStaysOff | crates/omdesky-agent/src/session.rs:334-354 | once off, following stays off through any run without a granted attach |
| Sessions.FailedDetachStopsFollowing | crates/omdesky-agent/src/session.rs:202-215 | a failed detach keeps session, deadline and shortcuts; following stops and stays off until an attach is granted |
| Sessions.FollowsExactly | crates/omdesky-agent/src/session.rs:117-298 | in every run an active session follows its controller iff it was granted in the remote role and no detach or sweep has failed to clean up since |
| Sessions.DeafSessionIsReachable | crates/omdesky-agent/src/session.rs:177-252 | reconcile, remote attach, failed detach and renewal end in a live remote session that does not follow |
| LeaseProtocol.Heartbeat | crates/omdesky-application/src/services.rs:416-443 | the send times of the ticker loop, slow answers included |
| LeaseProtocol.SendsAsSoonAsItMay | crates/omdesky-application/src/services.rs:421-435 | a send goes out at the latest of the times its schedule and the answers before it allow, never ahead of schedule |
| LeaseProtocol.HeartbeatDoesNotDrift | crates/omdesky-application/src/services.rs:421-435 | while answers take at most an interval, a send is exactly as late as the backlog before it; once worked off, on schedule again |
| LeaseProtocol.TwoIntervalsFit | crates/omdesky-application/src/services.rs:453-455 | two renewal intervals fit inside the lease iff it exceeds four seconds |
| LeaseProtocol.RenewalIntervalExactly | crates/omdesky-application/src/services.rs:453-455 | the longest interval in whole seconds of which three fit into the lease, but never under two |
| LeaseProtocol.StaysHeld | crates/omdesky-agent/src/session.rs:218-279 | at every point of such a run the session is held and its deadline is a lease past every renewal |
| LeaseProtocol.LeaseIsKept | crates/omdesky-agent/src/session.rs:218-279 | if of any two renewals in a row one arrives in time, no sweep expires the session and no other attach succeeds, for runs of any length |
| LeaseProtocol.HeartbeatSuffices | crates/omdesky-application/src/services.rs:415-455 | the sends of the heartbeat, over a network that loses no two in a row, are enough for that |
| LeaseProtocol.HeartbeatKeepsTheLease | crates/omdesky-application/src/services.rs:415-455 | both halves together: grant delay, heartbeat and network within bounds keep a lease above four seconds |
| LeaseProtocol.LeaseRunsOut | crates/omdesky-agent/src/session.rs:254-279 | once renewals stop, no reader sees the session from the deadline on and the first successful sweep removes it |
| AgentMonitor.MonitorAgents | crates/omdesky-application/src/services.rs:496-527 | ends at the first tick that completes two failures in a row of one agent, and names the right one |
| Commands.AgentState.RunCommand | crates/omdesky-agent/src/lib.rs:313-405 | answer and whole new state of one request |
| Commands.AgentState.AdmitRequest | crates/omdesky-agent/src/lib.rs:318-328 | authorization, validation and replay guard, in that order |
| Commands.AgentState.Perform | crates/omdesky-agent/src/lib.rs:330-405 | session change, relay or action, whatever other requests did in between |
| Commands.AgentState.ApplySessionCommand | crates/omdesky-agent/src/lib.rs:440-504 | the session call a command turns into, its answer, and when none is made |
| Commands.OwnCommandsAreValid | crates/omdesky-core/src/lib.rs:557-584 | the commands the program itself sends pass validation |
| Commands.ValidMeansPlain | crates/omdesky-core/src/lib.rs:557-584 | validation lets nothing but plain characters through, and no remote attach without a port |
| Commands.ArrivedExactly | crates/omdesky-agent/src/lib.rs:318-328 | which requests are admitted, why the others are not, and that only those reaching the guard touch it |
| Commands.AdmittedExactly | crates/omdesky-agent/src/lib.rs:318-328 | in every run a request is admitted iff its caller may ask it, it is valid, and the history leaves room for its identifier |
| Commands.ActionGoesExactly | crates/omdesky-agent/src/lib.rs:337-404 | every action goes to the controller of a live remote session and nowhere else, and otherwise is carried out here |
| Commands.ActionsAreRoutedExactly | crates/omdesky-agent/src/lib.rs:337-404 | in every run the one thing an action does is be relayed to where the live remote session was attached from, or be carried out here |
| Commands.SessionCommandExactly | crates/omdesky-agent/src/lib.rs:440-504 | which change to the sessions a session command makes, in whose name, and what it is answered |
| Commands.CallbackCheckedExactly | crates/omdesky-agent/src/lib.rs:506-570 | which callback endpoints are acceptable, and which error each other one gives |
| Commands.EveryEffectWasEarned | crates/omdesky-agent/src/lib.rs:313-405 | every call in every interleaved run was asked for by an entitled, valid, freshly admitted request and fits it |
| Commands.TicketsStayUnique | crates/omdesky-agent/src/lib.rs:313-405 | an admitted request makes at most one call |
| Commands.CallsOfOneRequest | crates/omdesky-agent/src/lib.rs:324-328 | k calls for one identifier and issue time need k - 1 windows within two skews, in every interleaved run |
| Commands.OneRequestActsOnce | crates/omdesky-agent/src/lib.rs:324-328 | so with a window above two skews a request acts at most once |
| Commands.ShippedAgentActsAtMostThrice | crates/omdesky-agent/src/replay.rs:10-12 | and with the shipped constants at most three times |
| Commands.AdmissionsOfOneRequestAreApart | crates/omdesky-agent/src/replay.rs:62-86 | two admissions of one identifier at the endpoint are a window apart |
| Commands.GuardSeesArrivals | crates/omdesky-agent/src/lib.rs:324-328 | the guard inside the agent runs over exactly the arrivals that pass the checks before it |
| Commands.RevokedNodeCausesNothing | crates/omdesky-agent/src/lib.rs:320-320 | two seconds after its revocation a node's requests change nothing |
| Commands.RevokedNodeActsNoMore | crates/omdesky-agent/src/lib.rs:320-320 | in a whole run, every call for a revoked node goes back to a request checked before the revocation took hold |
| Commands.SessionWasAttached | crates/omdesky-agent/src/lib.rs:553-570 | an active session was asked for by an entitled request; a remote one stores the sender's address and a non-zero port |
| Commands.RemoteSessionsCanBeReached | crates/omdesky-agent/src/lib.rs:340-348 | the answer that a remote session has no controller is unreachable |
| Commands.RelaysGoToTheAttacher | crates/omdesky-agent/src/lib.rs:339-356 | every command relayed goes to the address and non-zero port of an entitled attach request earlier in the run |
| Commands.AgentRunsAreSessionRuns | crates/omdesky-agent/src/lib.rs:440-504 | an agent run is a coordinator run, so the coordinator's theorems carry over |
| Commands.AgentEffectsAgree | crates/omdesky-agent/src/session.rs:334-354 | effects agree with the session in every agent run that starts with a reconcile |
| FollowFocus.FollowFocusRouter.Reevaluate | crates/omdesky-application/src/display.rs:77-115 | belief, target and deadline after a signal, failed reads included |
| FollowFocus.FollowFocusRouter.CommitPending | crates/omdesky-application/src/display.rs:117-147 | the switch asked for, and the belief after it succeeds or fails |
| FollowFocus.FollowFocusRouter.Run | crates/omdesky-application/src/display.rs:39-75 | the event loop computes the run of its events and asks for exactly its switches |
| FollowFocus.AlwaysWellFormed | crates/omdesky-application/src/display.rs:77-147 | target and deadline are set together and the target is another display |
| FollowFocus.FiresSwitchAway | crates/omdesky-application/src/display.rs:117-147 | every timer asks for one switch, away from the display believed to be streamed |
| FollowFocus.SwitchesNeverRepeat | crates/omdesky-application/src/display.rs:117-132 | consecutive successful switches go to different displays |
| FollowFocus.AttemptsNeedSignals | crates/omdesky-application/src/display.rs:57-74 | attempts never outnumber signals |
| FollowFocus.SwitchesFollowTheLastRead | crates/omdesky-core/src/lib.rs:228-239 | a switch goes to the focused display, or without focus the first, of the last successful read, exactly once the debounce time has passed |
| FollowFocus.Converges | crates/omdesky-application/src/display.rs:39-147 | once the preferred display settles, the stream is on it from the first timer on |
| Chords.TimedShortcut | crates/omdesky-platform/src/input.rs:229-270 | the program built, run by an event loop, dispatches exactly the shortcut typed out: focus, modifiers down, key, modifiers up in reverse, restore, each at its time |
| Chords.OrdinaryChordTiming | crates/omdesky-platform/src/input.rs:255-289 | action i of the flat list, restore included, at exactly 25 * i ms, after the focus |
| Chords.ScheduleExactly | crates/omdesky-platform/src/input.rs:229-289 | every dispatch of the schedule, place by place and time by time, on both branches |
| Chords.PressedWithItsModifiers | crates/omdesky-platform/src/input.rs:272-289 | the key goes down with exactly the chord's modifiers down |
| Chords.NoKeyStaysPressed | crates/omdesky-platform/src/input.rs:229-289 | both branches release every key last-in-first-out, and focus moves only with no key held |
| Chords.RunNested | crates/omdesky-platform/src/input.rs:259-269 | nested timers flatten to a paced list, however deep |
| Chords.RunHeldChord | crates/omdesky-platform/src/input.rs:242-253 | a `Z` chord is one press, released with the restore 50 ms later |
| Chords.CommandActions | crates/omdesky-platform/src/input.rs:331-343 | focus, releases of held modifiers the chord does not use, then the chord |
| Chords.HeldModifiersGiveWay | crates/omdesky-platform/src/input.rs:331-343 | whatever is held, the actions press the key with exactly the chord's modifiers down, release it next, and leave nothing down |
| Chords.CaptureChordInFull | crates/omdesky-platform/src/input.rs:331-343 | the capture chord with Super held, in the names the compositor knows |
| Wrapping.PushWord | crates/omdesky-tui/src/lib.rs:1665-1680 | a long word is cut into full pieces, the last one staying in progress |
| Wrapping.PlaceWord | crates/omdesky-tui/src/lib.rs:1643-1653 | join, break or cut |
| Wrapping.WrapText | crates/omdesky-tui/src/lib.rs:1635-1663 | the three nested loops compute the greedy wrapping, within the width and with every visible character in order |
| Wrapping.WordsExactly | crates/omdesky-tui/src/lib.rs:1643-1643 | the words are exactly the stretches between white space |
| Wrapping.ParagraphsExactly | crates/omdesky-tui/src/lib.rs:1641-1641 | the paragraphs are exactly what stands between line feeds |
| Wrapping.PieceIsFull | crates/omdesky-tui/src/lib.rs:1671-1679 | every piece of a long word but the last fills the width, and none is empty |
| Wrapping.FillUnits | crates/omdesky-tui/src/lib.rs:1643-1653 | a word too long for a line is wrapped as its pieces are |
| Wrapping.WrapIsFaithful | crates/omdesky-tui/src/lib.rs:1635-1663 | each line fits the width; the characters that are not white space come out unchanged and in order |
| Wrapping.GreedyStaysAhead | crates/omdesky-tui/src/lib.rs:1643-1653 | the greedy line in progress never falls behind any other split |
| Wrapping.GreedyIsOptimal | crates/omdesky-tui/src/lib.rs:1635-1663 | for every paragraph no split of its words, long ones cut into pieces, into lines that fit uses fewer lines |
| Wrapping.WrapIsASplit | crates/omdesky-tui/src/lib.rs:1635-1663 | the wrapper's own lines are such a split, joined by single spaces, and each line takes all it can |
| Terminal.AppState.ApplyMessage | crates/omdesky-tui/src/lib.rs:732-776 | session messages act only with the current generation |
| Terminal.AppState.StartPreflight | crates/omdesky-tui/src/lib.rs:915-927 | a new generation, wrapping at 64 bits, and the connecting state |
| Terminal.AppState.HandleEnter | crates/omdesky-tui/src/lib.rs:967-1012 | focus, switch or start, including a stream that cannot be closed |
| Terminal.AppState.StartPending | crates/omdesky-tui/src/lib.rs:877-882 | the main loop takes the pending node only when nothing is connected |
| Terminal.TasksByPhase | crates/omdesky-tui/src/lib.rs:732-776 | at rest no task is live; when busy exactly the newest is |
| Terminal.OneLiveStream | crates/omdesky-tui/src/lib.rs:453-549 | at most one live task, one exactly when connecting or active, and no queued session message is stale |
| Terminal.StartsOnlyAtRest | crates/omdesky-tui/src/lib.rs:915-927 | a connect task starts only when none is live |
| Terminal.EnterExactly | crates/omdesky-tui/src/lib.rs:967-1012 | what Enter does in every reachable state: start, nothing, or wait for another node |
| Terminal.SwitchHandsOver | crates/omdesky-tui/src/lib.rs:983-1004 | after any events short of another Enter the chosen node is still waited for or has the one new task; a turn of the main loop starts it exactly when no task is live |
| Releases.PrintedReleasesParse | crates/omdesky-protocol/src/release.rs:13-33 | every 64-bit release prints in at most 62 bytes and parses back, with any suffix that fits |
| Releases.ParsesExactly | crates/omdesky-protocol/src/release.rs:13-58 | accepted iff at most 64 bytes whose core is the canonical print of three 64-bit numbers |
| Releases.ReadInFull | crates/omdesky-protocol/src/release.rs:13-33 | `10.2.7`, with and without a suffix, read from its bytes |
| Releases.CompatibilityIsMutual | crates/omdesky-protocol/src/release.rs:40-46 | two computers accept each other's release alike: same major and minor |
| Discovery.ConnectableExactly | crates/omdesky-application/src/discovery.rs:179-249 | exactly which peers are offered for connection |
| Discovery.ConnectableNodesMayCallBack | crates/omdesky-application/src/access.rs:5-17 | a connectable node passes the callback check its agent makes on attach |
| Discovery.AddressExactly | crates/omdesky-application/src/discovery.rs:185-190 | a peer is reached at its first IPv4 address, or else at its first address |
| Discovery.IncompatibleExactly | crates/omdesky-application/src/discovery.rs:275-302 | which side has to install what when releases differ |
| Discovery.AccessBlockedExactly | crates/omdesky-application/src/discovery.rs:304-333 | which side has to allow what when access is missing |
| Discovery.ProbedExactly | crates/omdesky-application/src/discovery.rs:179-249 | which peers are listed, and every field of each, whatever its agent answers |
| Discovery.Execute | crates/omdesky-application/src/discovery.rs:112-177 | error cases; otherwise the sorted permutation of all probed nodes, the local one first |
| Discovery.Collect | crates/omdesky-application/src/discovery.rs:154-167 | gathers what the probes yield in the order they finish |
| Discovery.FoundExactly | crates/omdesky-application/src/discovery.rs:154-167 | what is found is what some probe yields, and as much as probes yield |
| Discovery.SortNodes | crates/omdesky-application/src/discovery.rs:169-174 | the in-place sort computes the stable sort |
| Discovery.SortKeeps | crates/omdesky-application/src/discovery.rs:169-174 | sorted, a permutation, and stable |
| Discovery.NameOrderExactly | crates/omdesky-application/src/discovery.rs:173-173 | names are ordered by the first character where they differ, shorter ones first |
| Discovery.StableOrderIsUnique | crates/omdesky-application/src/discovery.rs:169-174 | any stable sort gives the same list |
| Discovery.LocalNodeComesFirst | crates/omdesky-application/src/discovery.rs:169-174 | the local node heads the list |
| Discovery.SchedulingIsInvisibleExactly | crates/omdesky-application/src/discovery.rs:156-174 | all completion orders give one list iff no two different remote nodes share a name |
| Discovery.DiscoveryIgnoresScheduling | crates/omdesky-application/src/discovery.rs:112-177 | two runs with the same answers return the same list in whatever order probes finish |

## Left out

- The limiter computes in 64-bit floating point; the model uses real numbers, so rounding is not covered.
- Clocks are read once per step and steps are taken in clock order; a reading that waits for a lock while a later one
  overtakes it is covered for the caches of the authorizer only, where events carry both moments.
- Pairing.PairingChallenges.IssueChallenge: counting and storing are one step, although the two maps have locks of
  their own.
- Commands.AgentState.Perform: the callback probe, the session call and the port call that follows are one step; a
  request may wait any time between its admission and that step.
- Commands.EveryEffectWasEarned: authorization enters as the node and the allowlist it was checked against;
  `Authorizer.dfy` says where those come from.
- Random identifiers never repeat; their quality is not modelled.
- A failed shortcut installation or removal is taken to leave the shortcuts as they were.
- The allowlist file has one writer; races between processes, file locking and JSON are not modelled.
- The agent always grants: cleanup on the controller when an attach comes back without a grant is not modelled.
- Identity lookups: the semaphore and its timeout are two of the answers a lookup can have.
- Discovery: the connection kind, the desktop version and the capabilities of a node are carried along unchanged and
  omitted; concurrency is bounded in the source and any order here.
- Discovery.SortNodes: the source calls the standard library's sort; the model inserts, and `StableOrderIsUnique` shows
  that no other stable sort could differ.
- Chords: Lua and shell text are a small syntax tree; the event loop fires timers by due time, then by age.
  Deduplication in the chord constructor is left out, so the theorems hold for repeated modifiers as well.
- The shortcut built by `controller_action_lua` repeats the timed press of a `Z` chord and is not modelled again.
- Terminal: drawing, key handling other than Enter, readiness text and notifications.
- Monitor: the three-second interval between ticks.
- HTTP routing, headers, JSON, subprocesses, sockets, the keyring, the command line, configuration and reports.
