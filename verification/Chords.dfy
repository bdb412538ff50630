/** The key-sequence compiler: a chord becomes a program of nested one-shot timers for the compositor to run. */
module Chords {
  import opened Basics
  import opened Sessions

  datatype Modifier = Super | Ctrl | Alt | Shift

  datatype Chord = Chord(mods: seq<Modifier>, key: string)

  /** What one dispatch does; `Send` presses or releases `key`, with `mods` applied to that one event. */
  datatype Action =
    | Focus(window: Window)
    | Restore(address: string)
    | Send(mods: seq<Modifier>, key: string, down: bool)

  datatype Stmt = Dispatch(action: Action) | Timer(body: seq<Stmt>, timeout: nat)

  // ------------------------------------------------------------------
  // The compiler
  // ------------------------------------------------------------------

  function ModifierKey(modifier: Modifier): string {
    match modifier
    case Super => "Super_L"
    case Ctrl => "Control_L"
    case Alt => "Alt_L"
    case Shift => "Shift_L"
  }

  function Reverse<T>(s: seq<T>): seq<T> {
    if s == [] then [] else Reverse(s[1..]) + [s[0]]
  }

  function ModifierActions(mods: seq<Modifier>, down: bool): seq<Action> {
    if mods == [] then [] else [Send([], ModifierKey(mods[0]), down)] + ModifierActions(mods[1..], down)
  }

  /** Modifiers down in order, the key down and up, modifiers up in reverse. */
  function KeyActions(chord: Chord): seq<Action> {
    ModifierActions(chord.mods, true)
    + [Send([], chord.key, true), Send([], chord.key, false)]
    + ModifierActions(Reverse(chord.mods), false)
  }

  function RestoreActions(restore: Option<string>): seq<Action> {
    if restore.Some? then [Restore(restore.value)] else []
  }

  function FocusActions(window: Window): seq<Action> {
    if window.ActiveWindow? then [] else [Focus(window)]
  }

  function Dispatches(actions: seq<Action>): seq<Stmt> {
    if actions == [] then [] else [Dispatch(actions[0])] + Dispatches(actions[1..])
  }

  lemma DispatchesOf(action: Action, rest: seq<Action>)
    ensures Dispatches([action] + rest) == [Dispatch(action)] + Dispatches(rest)
    ensures rest == [] ==> Dispatches([action]) == [Dispatch(action)]
  {
    assert ([action] + rest)[1..] == rest;
    assert rest == [] ==> [action] + rest == [action];
  }

  /** `actions[0]` now, and the rest 25 ms later in a timer of its own, and so on inward. */
  function Nested(actions: seq<Action>): seq<Stmt>
    requires actions != []
  {
    if |actions| == 1 then [Dispatch(actions[0])]
    else [Dispatch(actions[0]), Timer(Nested(actions[1..]), 25)]
  }

  method TimedShortcut(chord: Chord, window: Window, restore: Option<string>) returns (program: seq<Stmt>)
    ensures Run([(0, program)]) == Schedule(chord, window, restore)
    ensures IsTyped(chord, window, restore, Run([(0, program)]))
  {
    ScheduleExactly(chord, window, restore);
    var focus := [];
    if !window.ActiveWindow? {
      focus := [Dispatch(Focus(window))];
    }
    DispatchesOf(Focus(window), []);
    assert focus == Dispatches(FocusActions(window));

    if chord.key == "Z" {
      var release := [Dispatch(Send(chord.mods, chord.key, false))];
      if restore.Some? {
        release := release + [Dispatch(Restore(restore.value))];
      }
      DispatchesOf(Send(chord.mods, chord.key, false), RestoreActions(restore));
      if restore.Some? {
        DispatchesOf(Restore(restore.value), []);
      }
      assert release == Dispatches([Send(chord.mods, chord.key, false)] + RestoreActions(restore));
      program := focus + [Dispatch(Send(chord.mods, chord.key, true)), Timer(release, 50)];
      assert program == Dispatches(FocusActions(window)) + HeldBlock(chord, restore);
      RunHeldChord(chord, window, restore);
      return;
    }

    var actions := KeyActions(chord);
    if restore.Some? {
      actions := actions + [Restore(restore.value)];
    }
    assert actions == KeyActions(chord) + RestoreActions(restore);
    var last := actions[|actions| - 1];
    var sequence := [Dispatch(last)];
    var i := |actions| - 1;
    while i > 0
      invariant 0 <= i < |actions|
      invariant sequence == Nested(actions[i..])
    {
      i := i - 1;
      assert actions[i..][1..] == actions[i + 1..];
      sequence := [Dispatch(actions[i]), Timer(sequence, 25)];
    }
    assert actions[0..] == actions;
    program := focus + sequence;
    RunNested(FocusActions(window), actions, 0);
  }

  // ------------------------------------------------------------------
  // What a program means
  // ------------------------------------------------------------------

  datatype Timed = Timed(at: nat, action: Action)

  function Size(block: seq<Stmt>): nat {
    if block == [] then 0
    else (match block[0] case Dispatch(_) => 1 case Timer(body, _) => 1 + Size(body)) + Size(block[1..])
  }

  /** What a block dispatches at once. */
  function Emitted(block: seq<Stmt>, now: nat): seq<Timed> {
    if block == [] then []
    else (if block[0].Dispatch? then [Timed(now, block[0].action)] else []) + Emitted(block[1..], now)
  }

  /** The timers a block starts, in order, with the moments they fire. */
  function Started(block: seq<Stmt>, now: nat): seq<(nat, seq<Stmt>)> {
    if block == [] then []
    else (if block[0].Timer? then [(now + block[0].timeout, block[0].body)] else []) + Started(block[1..], now)
  }

  function QueueSize(queue: seq<(nat, seq<Stmt>)>): nat {
    if queue == [] then 0 else 1 + Size(queue[0].1) + QueueSize(queue[1..])
  }

  /** The queued block that fires next: the earliest, and among equals the one queued first. */
  function Earliest(queue: seq<(nat, seq<Stmt>)>): (k: nat)
    requires queue != []
    ensures k < |queue|
    ensures forall i | 0 <= i < |queue| :: queue[k].0 <= queue[i].0
    ensures forall i | 0 <= i < k :: queue[k].0 < queue[i].0
  {
    if |queue| == 1 then 0
    else
      var k := Earliest(queue[1..]);
      if queue[0].0 <= queue[1..][k].0 then 0 else k + 1
  }

  lemma {:induction false} QueueSizeAdds(first: seq<(nat, seq<Stmt>)>, second: seq<(nat, seq<Stmt>)>)
    ensures QueueSize(first + second) == QueueSize(first) + QueueSize(second)
  {
    if first == [] {
      assert first + second == second;
    } else {
      QueueSizeAdds(first[1..], second);
      assert (first + second)[1..] == first[1..] + second;
    }
  }

  lemma {:induction false} StartedIsSmaller(block: seq<Stmt>, now: nat)
    ensures QueueSize(Started(block, now)) <= Size(block)
  {
    if block != [] {
      StartedIsSmaller(block[1..], now);
      if block[0].Timer? {
        QueueSizeAdds([(now + block[0].timeout, block[0].body)], Started(block[1..], now));
      } else {
        assert [] + Started(block[1..], now) == Started(block[1..], now);
      }
    }
  }

  function Without(queue: seq<(nat, seq<Stmt>)>, k: nat): seq<(nat, seq<Stmt>)>
    requires k < |queue|
  {
    queue[..k] + queue[k + 1..]
  }

  lemma WithoutIsSmaller(queue: seq<(nat, seq<Stmt>)>, k: nat)
    requires k < |queue|
    ensures QueueSize(queue) == QueueSize(Without(queue, k)) + 1 + Size(queue[k].1)
  {
    QueueSizeAdds(queue[..k], queue[k..]);
    QueueSizeAdds(queue[..k], queue[k + 1..]);
    assert queue == queue[..k] + queue[k..];
    assert queue[k..][1..] == queue[k + 1..];
  }

  /** The compositor's event loop: fire the next block, dispatch what it says, queue the timers it starts. */
  function Run(queue: seq<(nat, seq<Stmt>)>): seq<Timed>
    decreases QueueSize(queue)
  {
    if queue == [] then []
    else
      var k := Earliest(queue);
      var now, block := queue[k].0, queue[k].1;
      StartedIsSmaller(block, now);
      WithoutIsSmaller(queue, k);
      QueueSizeAdds(Without(queue, k), Started(block, now));
      Emitted(block, now) + Run(Without(queue, k) + Started(block, now))
  }

  // ------------------------------------------------------------------
  // The program does what the flat list says
  // ------------------------------------------------------------------

  /** `actions` starting at `now`, one every `step` milliseconds. */
  function Paced(actions: seq<Action>, now: nat, step: nat): seq<Timed> {
    if actions == [] then [] else [Timed(now, actions[0])] + Paced(actions[1..], now + step, step)
  }

  /** Focus, then the key actions 25 ms apart, then the restore; a `Z` chord is one press held for 50 ms. */
  function Schedule(chord: Chord, window: Window, restore: Option<string>): seq<Timed> {
    if chord.key == "Z" then Paced(FocusActions(window), 0, 0) + Held(chord, HeldRelease(chord, restore))
    else Paced(FocusActions(window), 0, 0) + Paced(KeyActions(chord) + RestoreActions(restore), 0, 25)
  }

  function HeldRelease(chord: Chord, restore: Option<string>): seq<Action> {
    [Send(chord.mods, chord.key, false)] + RestoreActions(restore)
  }

  function Held(chord: Chord, release: seq<Action>): seq<Timed> {
    [Timed(0, Send(chord.mods, chord.key, true))] + Paced(release, 50, 0)
  }

  lemma {:induction false} PacedAt(actions: seq<Action>, now: nat, step: nat, i: nat)
    requires i < |actions|
    ensures |Paced(actions, now, step)| == |actions|
    ensures Paced(actions, now, step)[i] == Timed(now + step * i, actions[i])
  {
    if i > 0 {
      PacedAt(actions[1..], now + step, step, i - 1);
      assert step * i == step + step * (i - 1);
    } else if |actions| > 1 {
      PacedAt(actions[1..], now + step, step, 0);
    } else {
      assert Paced(actions[1..], now + step, step) == [];
    }
  }

  lemma OneStatement(stmt: Stmt, rest: seq<Stmt>, now: nat)
    ensures Emitted([stmt] + rest, now)
            == (if stmt.Dispatch? then [Timed(now, stmt.action)] else []) + Emitted(rest, now)
    ensures Started([stmt] + rest, now)
            == (if stmt.Timer? then [(now + stmt.timeout, stmt.body)] else []) + Started(rest, now)
  {
    assert ([stmt] + rest)[1..] == rest;
  }

  lemma {:induction false} EmittedDispatches(actions: seq<Action>, rest: seq<Stmt>, now: nat)
    ensures Emitted(Dispatches(actions) + rest, now) == Paced(actions, now, 0) + Emitted(rest, now)
    ensures Started(Dispatches(actions) + rest, now) == Started(rest, now)
  {
    if actions == [] {
      assert Dispatches(actions) + rest == rest;
    } else {
      hide Emitted, Started;
      var stmt, more := Dispatch(actions[0]), Dispatches(actions[1..]) + rest;
      EmittedDispatches(actions[1..], rest, now);
      OneStatement(stmt, more, now);
      Reassociate([stmt], Dispatches(actions[1..]), rest);
      Reassociate([Timed(now, actions[0])], Paced(actions[1..], now, 0), Emitted(rest, now));
      assert [] + Started(more, now) == Started(more, now);
    }
  }

  lemma RunOne(block: seq<Stmt>, now: nat)
    ensures Run([(now, block)]) == Emitted(block, now) + Run(Started(block, now))
  {
    assert Without([(now, block)], 0) + Started(block, now) == Started(block, now);
  }

  lemma BlockOfTwo(action: Action, body: seq<Stmt>, timeout: nat, now: nat)
    ensures var block := [Dispatch(action), Timer(body, timeout)];
            Emitted(block, now) == [Timed(now, action)] && Started(block, now) == [(now + timeout, body)]
  {
    var block := [Dispatch(action), Timer(body, timeout)];
    assert block[1..] == [Timer(body, timeout)] && block[1..][1..] == [];
    assert Emitted(block[1..], now) == [] + Emitted([], now) == [];
    assert Started(block[1..], now) == [(now + timeout, body)] + Started([], now);
  }

  lemma RunLed(first: seq<Action>, action: Action, body: seq<Stmt>, timeout: nat, now: nat)
    ensures Run([(now, Dispatches(first) + [Dispatch(action), Timer(body, timeout)])])
         == Paced(first, now, 0) + ([Timed(now, action)] + Run([(now + timeout, body)]))
  {
    var block := [Dispatch(action), Timer(body, timeout)];
    RunOne(Dispatches(first) + block, now);
    EmittedDispatches(first, block, now);
    BlockOfTwo(action, body, timeout, now);
    var rest := Run([(now + timeout, body)]);
    assert (Paced(first, now, 0) + [Timed(now, action)]) + rest == Paced(first, now, 0) + ([Timed(now, action)] + rest);
  }

  lemma RunDispatches(actions: seq<Action>, now: nat)
    ensures Run([(now, Dispatches(actions))]) == Paced(actions, now, 0)
  {
    RunOne(Dispatches(actions), now);
    EmittedDispatches(actions, [], now);
    assert Dispatches(actions) + [] == Dispatches(actions);
    assert Emitted([], now) == [] && Started([], now) == [] && Run([]) == [];
  }

  lemma {:induction false} RunNested(first: seq<Action>, actions: seq<Action>, now: nat)
    requires actions != []
    ensures Run([(now, Dispatches(first) + Nested(actions))]) == Paced(first, now, 0) + Paced(actions, now, 25)
    decreases |actions|
  {
    if |actions| > 1 {
      RunLed(first, actions[0], Nested(actions[1..]), 25, now);
      RunNested([], actions[1..], now + 25);
      assert Dispatches([]) + Nested(actions[1..]) == Nested(actions[1..]);
      assert Paced([], now + 25, 0) + Paced(actions[1..], now + 25, 25) == Paced(actions[1..], now + 25, 25);
    } else {
      RunOne(Dispatches(first) + Nested(actions), now);
      EmittedDispatches(first, Nested(actions), now);
      PacedOne(actions[0], now, 25);
      assert actions == [actions[0]] && Nested(actions)[1..] == [];
      assert Emitted(Nested(actions), now) == [Timed(now, actions[0])] + Emitted([], now);
      assert Started(Nested(actions), now) == [] + Started([], now);
    }
  }

  lemma RunHeldChord(chord: Chord, window: Window, restore: Option<string>)
    requires chord.key == "Z"
    ensures Run([(0, Dispatches(FocusActions(window)) + HeldBlock(chord, restore))]) == Schedule(chord, window, restore)
  {
    hide Run, Paced, Dispatches, HeldRelease, FocusActions;
    var release := HeldRelease(chord, restore);
    RunLed(FocusActions(window), Send(chord.mods, chord.key, true), Dispatches(release), 50, 0);
    RunDispatches(release, 50);
    assert Run([(50, Dispatches(release))]) == Paced(release, 50, 0);
    assert Held(chord, release) == [Timed(0, Send(chord.mods, chord.key, true))] + Run([(50, Dispatches(release))]);
  }

  /** The press of a `Z` chord, and its release and the restore in one timer. */
  function HeldBlock(chord: Chord, restore: Option<string>): seq<Stmt> {
    [Dispatch(Send(chord.mods, chord.key, true)),
     Timer(Dispatches(HeldRelease(chord, restore)), 50)]
  }

  /** The nested timers of an ordinary chord: action `i` of the flat list, restore included, at exactly `25 * i` ms. */
  lemma OrdinaryChordTiming(chord: Chord, window: Window, restore: Option<string>, i: nat)
    requires chord.key != "Z" && i < |KeyActions(chord) + RestoreActions(restore)|
    ensures var schedule := Schedule(chord, window, restore);
            var actions := KeyActions(chord) + RestoreActions(restore);
            var lead := |FocusActions(window)|;
            && |schedule| == lead + |actions|
            && schedule[lead + i] == Timed(25 * i, actions[i])
            && (lead == 1 ==> schedule[0] == Timed(0, Focus(window)))
  {
    PacedAt(KeyActions(chord) + RestoreActions(restore), 0, 25, i);
    if !window.ActiveWindow? {
      PacedAt(FocusActions(window), 0, 0, 0);
    }
  }

  /** Action `m` of an ordinary chord: modifiers down in order, key down, key up, modifiers up in reverse, restore. */
  function ActionAt(chord: Chord, restore: Option<string>, m: nat): Action
    requires m < 2 * |chord.mods| + 2 + (if restore.Some? then 1 else 0)
  {
    var n := |chord.mods|;
    if m < n then Send([], ModifierKey(chord.mods[m]), true)
    else if m == n then Send([], chord.key, true)
    else if m == n + 1 then Send([], chord.key, false)
    else if m < 2 * n + 2 then Send([], ModifierKey(chord.mods[2 * n + 1 - m]), false)
    else Restore(restore.value)
  }

  /** The dispatches of an ordinary chord, from place `lead` on: each action 25 ms after the one before. */
  predicate TypesChord(chord: Chord, restore: Option<string>, s: seq<Timed>, lead: nat) {
    var count := 2 * |chord.mods| + 2 + (if restore.Some? then 1 else 0);
    && |s| == lead + count
    && forall m: nat | m < count :: s[lead + m] == Timed(25 * m, ActionAt(chord, restore, m))
  }

  /** The dispatches of a `Z` chord: one press with the modifiers applied, released 50 ms later. */
  predicate HoldsChord(chord: Chord, restore: Option<string>, s: seq<Timed>, lead: nat) {
    && |s| == lead + 2 + (if restore.Some? then 1 else 0)
    && s[lead] == Timed(0, Send(chord.mods, "Z", true)) && s[lead + 1] == Timed(50, Send(chord.mods, "Z", false))
    && (restore.Some? ==> s[lead + 2] == Timed(50, Restore(restore.value)))
  }

  /** Everything a shortcut dispatches: the focus at once, unless the active window is meant, and then the chord. */
  predicate IsTyped(chord: Chord, window: Window, restore: Option<string>, s: seq<Timed>) {
    var lead := if window.ActiveWindow? then 0 else 1;
    && (lead == 1 ==> |s| > 0 && s[0] == Timed(0, Focus(window)))
    && if chord.key == "Z" then HoldsChord(chord, restore, s, lead) else TypesChord(chord, restore, s, lead)
  }

  lemma {:induction false} ModifierActionsAt(mods: seq<Modifier>, down: bool)
    ensures |ModifierActions(mods, down)| == |mods|
    ensures forall i | 0 <= i < |mods| :: ModifierActions(mods, down)[i] == Send([], ModifierKey(mods[i]), down)
  {
    if mods != [] {
      ModifierActionsAt(mods[1..], down);
    }
  }

  lemma {:induction false} ReverseAt(mods: seq<Modifier>)
    ensures |Reverse(mods)| == |mods|
    ensures forall i | 0 <= i < |mods| :: Reverse(mods)[i] == mods[|mods| - 1 - i]
  {
    if mods != [] {
      ReverseAt(mods[1..]);
    }
  }

  lemma KeyActionsAt(chord: Chord, restore: Option<string>)
    ensures var actions, count := KeyActions(chord) + RestoreActions(restore),
                                  2 * |chord.mods| + 2 + (if restore.Some? then 1 else 0);
            && |actions| == count
            && forall m: nat | m < count :: actions[m] == ActionAt(chord, restore, m)
  {
    ModifierActionsAt(chord.mods, true);
    ModifierActionsAt(Reverse(chord.mods), false);
    ReverseAt(chord.mods);
  }

  lemma PacedThroughout(actions: seq<Action>, step: nat)
    ensures |Paced(actions, 0, step)| == |actions|
    ensures forall i | 0 <= i < |actions| :: Paced(actions, 0, step)[i] == Timed(step * i, actions[i])
  {
    if actions != [] {
      PacedAt(actions, 0, step, 0);
    }
    forall i | 0 <= i < |actions|
      ensures Paced(actions, 0, step)[i] == Timed(step * i, actions[i])
    {
      PacedAt(actions, 0, step, i);
    }
  }

  lemma TypedExactly(chord: Chord, restore: Option<string>, focus: seq<Timed>)
    ensures TypesChord(chord, restore, focus + Paced(KeyActions(chord) + RestoreActions(restore), 0, 25), |focus|)
  {
    var actions := KeyActions(chord) + RestoreActions(restore);
    KeyActionsAt(chord, restore);
    PacedThroughout(actions, 25);
    hide KeyActions, Paced, RestoreActions, ActionAt;
    var s := focus + Paced(actions, 0, 25);
    forall m: nat | m < |actions|
      ensures s[|focus| + m] == Timed(25 * m, ActionAt(chord, restore, m))
    {
      assert s[|focus| + m] == Paced(actions, 0, 25)[m];
    }
  }

  lemma HeldExactly(chord: Chord, restore: Option<string>, focus: seq<Timed>)
    requires chord.key == "Z"
    ensures HoldsChord(chord, restore, focus + Held(chord, HeldRelease(chord, restore)), |focus|)
  {
    var release := HeldRelease(chord, restore);
    PacedAt(release, 50, 0, 0);
    if restore.Some? {
      PacedAt(release, 50, 0, 1);
    }
  }

  /** The schedule is exactly the shortcut typed out. */
  lemma ScheduleExactly(chord: Chord, window: Window, restore: Option<string>)
    ensures IsTyped(chord, window, restore, Schedule(chord, window, restore))
  {
    hide HoldsChord, TypesChord, KeyActions, Held, HeldRelease;
    var focus := Paced(FocusActions(window), 0, 0);
    PacedThroughout(FocusActions(window), 0);
    if chord.key == "Z" {
      HeldExactly(chord, restore, focus);
    } else {
      TypedExactly(chord, restore, focus);
    }
  }

  // ------------------------------------------------------------------
  // No key stays pressed
  // ------------------------------------------------------------------

  /**
    * A keyboard that accepts a release only of the key pressed last, and a change of focus only while nothing
    * is pressed. `None` once a rule is broken.
    */
  function Play(events: seq<Timed>, pressed: seq<(seq<Modifier>, string)>): Option<seq<(seq<Modifier>, string)>>
    decreases |events|
  {
    if events == [] then Some(pressed)
    else
      match events[0].action
      case Focus(_) => if pressed == [] then Play(events[1..], pressed) else None
      case Restore(_) => if pressed == [] then Play(events[1..], pressed) else None
      case Send(mods, key, true) => Play(events[1..], pressed + [(mods, key)])
      case Send(mods, key, false) =>
        if pressed != [] && pressed[|pressed| - 1] == (mods, key)
        then Play(events[1..], pressed[..|pressed| - 1])
        else None
  }

  lemma {:induction false} PlayAdds(first: seq<Timed>, second: seq<Timed>, pressed: seq<(seq<Modifier>, string)>)
    ensures Play(first + second, pressed)
         == var middle := Play(first, pressed); if middle.Some? then Play(second, middle.value) else None
    decreases |first|
  {
    if first == [] {
      assert first + second == second;
    } else {
      assert (first + second)[1..] == first[1..] + second;
      match first[0].action
      case Focus(_) => PlayAdds(first[1..], second, pressed);
      case Restore(_) => PlayAdds(first[1..], second, pressed);
      case Send(mods, key, down) =>
        if down {
          PlayAdds(first[1..], second, pressed + [(mods, key)]);
        } else if pressed != [] {
          PlayAdds(first[1..], second, pressed[..|pressed| - 1]);
        }
    }
  }

  lemma {:induction false} PacedAdds(first: seq<Action>, second: seq<Action>, now: nat, step: nat) returns (later: nat)
    ensures Paced(first + second, now, step) == Paced(first, now, step) + Paced(second, later, step)
  {
    if first == [] {
      assert first + second == second;
      later := now;
    } else {
      later := PacedAdds(first[1..], second, now + step, step);
      FirstOf(first, second);
      Reassociate([Timed(now, first[0])], Paced(first[1..], now + step, step), Paced(second, later, step));
    }
  }

  function Pressed(mods: seq<Modifier>): seq<(seq<Modifier>, string)> {
    if mods == [] then [] else [([], ModifierKey(mods[0]))] + Pressed(mods[1..])
  }

  lemma PlayPressFirst(key: string, rest: seq<Timed>, at: nat, pressed: seq<(seq<Modifier>, string)>)
    ensures Play([Timed(at, Send([], key, true))] + rest, pressed) == Play(rest, pressed + [([], key)])
  {
    assert ([Timed(at, Send([], key, true))] + rest)[1..] == rest;
  }

  lemma DownsUnfold(mods: seq<Modifier>, now: nat, step: nat)
    requires mods != []
    ensures Paced(ModifierActions(mods, true), now, step)
         == [Timed(now, Send([], ModifierKey(mods[0]), true))]
            + Paced(ModifierActions(mods[1..], true), now + step, step)
  {
    assert ModifierActions(mods, true)[1..] == ModifierActions(mods[1..], true);
  }

  lemma {:induction false} PlayDowns(mods: seq<Modifier>, now: nat, step: nat, pressed: seq<(seq<Modifier>, string)>)
    ensures Play(Paced(ModifierActions(mods, true), now, step), pressed) == Some(pressed + Pressed(mods))
    decreases |mods|
  {
    if mods == [] {
      assert pressed + Pressed(mods) == pressed;
    } else {
      hide Play, Paced, ModifierActions, ModifierKey;
      var key, rest := ModifierKey(mods[0]), Paced(ModifierActions(mods[1..], true), now + step, step);
      DownsUnfold(mods, now, step);
      PlayDowns(mods[1..], now + step, step, pressed + [([], key)]);
      PlayPressFirst(key, rest, now, pressed);
      Reassociate(pressed, [([], key)], Pressed(mods[1..]));
    }
  }

  lemma {:induction false} ModifierActionsAdd(first: seq<Modifier>, second: seq<Modifier>, down: bool)
    ensures ModifierActions(first + second, down) == ModifierActions(first, down) + ModifierActions(second, down)
  {
    if first == [] {
      assert first + second == second;
    } else {
      var head, tail := [Send([], ModifierKey(first[0]), down)], ModifierActions(first[1..], down);
      ModifierActionsAdd(first[1..], second, down);
      FirstOf(first, second);
      Reassociate(head, tail, ModifierActions(second, down));
    }
  }

  lemma PlayLastRelease(modifier: Modifier, at: nat, step: nat, pressed: seq<(seq<Modifier>, string)>)
    ensures Play(Paced(ModifierActions([modifier], false), at, step), pressed + [([], ModifierKey(modifier))])
         == Some(pressed)
  {
    var action := Send([], ModifierKey(modifier), false);
    assert ModifierActions([modifier], false) == [action];
    PacedOne(action, at, step);
    assert [Timed(at, action)][1..] == [];
    assert (pressed + [([], ModifierKey(modifier))])[..|pressed|] == pressed;
  }

  lemma {:induction false} PlayUps(mods: seq<Modifier>, now: nat, step: nat, pressed: seq<(seq<Modifier>, string)>)
    ensures Play(Paced(ModifierActions(Reverse(mods), false), now, step), pressed + Pressed(mods)) == Some(pressed)
    decreases |mods|
  {
    if mods == [] {
      assert pressed + Pressed(mods) == pressed;
    } else {
      hide Play, Paced, ModifierActions, ModifierKey;
      var key: (seq<Modifier>, string) := ([], ModifierKey(mods[0]));
      Reassociate(pressed, [key], Pressed(mods[1..]));
      PlayUps(mods[1..], now, step, pressed + [key]);
      ModifierActionsAdd(Reverse(mods[1..]), [mods[0]], false);
      var front, back := ModifierActions(Reverse(mods[1..]), false), ModifierActions([mods[0]], false);
      var later := PacedAdds(front, back, now, step);
      PlayAdds(Paced(front, now, step), Paced(back, later, step), pressed + Pressed(mods));
      PlayLastRelease(mods[0], later, step, pressed);
    }
  }

  lemma PlayKeyActions(chord: Chord, now: nat, step: nat)
    ensures Play(Paced(KeyActions(chord), now, step), []) == Some([])
  {
    var downs, ups := ModifierActions(chord.mods, true), ModifierActions(Reverse(chord.mods), false);
    var key := [Send([], chord.key, true), Send([], chord.key, false)];
    var afterDowns := PacedAdds(downs, key + ups, now, step);
    var afterKey := PacedAdds(key, ups, afterDowns, step);
    assert downs + (key + ups) == KeyActions(chord);
    var held := [] + Pressed(chord.mods);
    PlayDowns(chord.mods, now, step, []);
    PlayAdds(Paced(downs, now, step), Paced(key + ups, afterDowns, step), []);
    PlayAdds(Paced(key, afterDowns, step), Paced(ups, afterKey, step), held);
    PlayPress(chord.key, afterDowns, step, held);
    PlayUps(chord.mods, afterKey, step, []);
  }

  lemma PlayPress(key: string, now: nat, step: nat, held: seq<(seq<Modifier>, string)>)
    ensures Play(Paced([Send([], key, true), Send([], key, false)], now, step), held) == Some(held)
  {
    var down, up := Send([], key, true), Send([], key, false);
    var events := Paced([down, up], now, step);
    assert [down, up][1..] == [up];
    PacedOne(up, now + step, step);
    assert events == [Timed(now, down)] + [Timed(now + step, up)];
    assert events[1..] == [Timed(now + step, up)];
    PlayAdds([Timed(now, down)], [Timed(now + step, up)], held);
    assert [Timed(now, down)][1..] == [] && [Timed(now + step, up)][1..] == [];
    assert (held + [([], key)])[..|held|] == held;
  }

  lemma PacedOne(action: Action, now: nat, step: nat)
    ensures Paced([action], now, step) == [Timed(now, action)]
  {
    assert [action][1..] == [] && Paced([], now + step, step) == [];
  }

  /**
    * Whatever the chord, repeated modifiers included, and on both branches: every key pressed is released, in
    * last-in-first-out order; none is held at the end; and focus moves, and moves back, only with no key held.
    */
  lemma NoKeyStaysPressed(chord: Chord, window: Window, restore: Option<string>)
    ensures Play(Schedule(chord, window, restore), []) == Some([])
  {
    var focus := Paced(FocusActions(window), 0, 0);
    if !window.ActiveWindow? {
      PacedOne(Focus(window), 0, 0);
      assert focus == [Timed(0, Focus(window))] && focus[1..] == [];
    }
    assert Play(focus, []) == Some([]);
    if chord.key == "Z" {
      var down, up := Timed(0, Send(chord.mods, "Z", true)), Timed(50, Send(chord.mods, "Z", false));
      var after := [Send(chord.mods, "Z", false)] + RestoreActions(restore);
      var rest := Paced(after, 50, 0);
      PlayAdds(focus, [down] + rest, []);
      assert ([down] + rest)[1..] == rest;
      assert after[1..] == RestoreActions(restore) && rest[1..] == Paced(RestoreActions(restore), 50, 0);
      PlayRestore(restore, 50, 0);
    } else {
      var later := PacedAdds(KeyActions(chord), RestoreActions(restore), 0, 25);
      PlayAdds(focus, Paced(KeyActions(chord) + RestoreActions(restore), 0, 25), []);
      PlayAdds(Paced(KeyActions(chord), 0, 25), Paced(RestoreActions(restore), later, 25), []);
      PlayKeyActions(chord, 0, 25);
      PlayRestore(restore, later, 25);
    }
  }

  lemma PlayRestore(restore: Option<string>, now: nat, step: nat)
    ensures Play(Paced(RestoreActions(restore), now, step), []) == Some([])
  {
    if restore.Some? {
      assert Paced(RestoreActions(restore), now, step) == [Timed(now, Restore(restore.value))];
      assert Paced(RestoreActions(restore), now, step)[1..] == [];
    }
  }

  // ------------------------------------------------------------------
  // Modifiers already held by the user
  // ------------------------------------------------------------------

  /** Releases of the held modifiers the chord does not use itself. */
  function Released(held: seq<Modifier>, mods: seq<Modifier>): seq<Action> {
    if held == [] then []
    else
      Released(held[..|held| - 1], mods)
      + if held[|held| - 1] in mods then [] else [Send([], ModifierKey(held[|held| - 1]), false)]
  }

  method CommandActions(chord: Chord, window: Window, held: seq<Modifier>) returns (actions: seq<Action>)
    ensures actions == [Focus(window)] + Released(held, chord.mods) + KeyActions(chord)
  {
    actions := [Focus(window)];
    for i := 0 to |held|
      invariant actions == [Focus(window)] + Released(held[..i], chord.mods)
    {
      assert held[..i + 1][..i] == held[..i];
      if held[i] !in chord.mods {
        actions := actions + [Send([], ModifierKey(held[i]), false)];
      }
    }
    assert held[..|held|] == held;
    actions := actions + KeyActions(chord);
  }

  /** The keys down after `actions`, when `pressed` were down before. */
  function DownAfter(actions: seq<Action>, pressed: set<string>): set<string> {
    if actions == [] then pressed
    else
      var last := actions[|actions| - 1];
      var before := DownAfter(actions[..|actions| - 1], pressed);
      match last
      case Send(_, key, true) => before + {key}
      case Send(_, key, false) => before - {key}
      case _ => before
  }

  function KeysOf(mods: seq<Modifier>): set<string> {
    set modifier | modifier in mods :: ModifierKey(modifier)
  }

  lemma {:induction false} DownAfterAdds(first: seq<Action>, second: seq<Action>, pressed: set<string>)
    ensures DownAfter(first + second, pressed) == DownAfter(second, DownAfter(first, pressed))
  {
    if second == [] {
      assert first + second == first;
    } else {
      DownAfterAdds(first, second[..|second| - 1], pressed);
      assert (first + second)[..|first + second| - 1] == first + second[..|second| - 1];
    }
  }

  lemma DownAfterOne(action: Action, pressed: set<string>)
    ensures DownAfter([action], pressed)
         == if action.Send? then if action.down then pressed + {action.key} else pressed - {action.key} else pressed
  {
    assert [action][..0] == [];
  }

  lemma KeysSnoc(front: seq<Modifier>, last: Modifier, mods: seq<Modifier>)
    ensures KeysOf(front + [last]) == KeysOf(front) + {ModifierKey(last)}
    ensures last in mods <==> ModifierKey(last) in KeysOf(mods)
  {
  }

  lemma {:induction false} ReleasedLeaves(held: seq<Modifier>, mods: seq<Modifier>, pressed: set<string>)
    ensures DownAfter(Released(held, mods), pressed) == pressed - (KeysOf(held) - KeysOf(mods))
  {
    if held == [] {
      assert DownAfter(Released(held, mods), pressed) == pressed;
    } else {
      hide KeysOf, DownAfter;
      var front, last := held[..|held| - 1], held[|held| - 1];
      assert held == front + [last];
      ReleasedLeaves(front, mods, pressed);
      KeysSnoc(front, last, mods);
      if last in mods {
        assert Released(held, mods) == Released(front, mods);
      } else {
        DownAfterAdds(Released(front, mods), [Send([], ModifierKey(last), false)], pressed);
        DownAfterOne(Send([], ModifierKey(last), false), DownAfter(Released(front, mods), pressed));
      }
    }
  }

  lemma {:induction false} ModifiersDown(mods: seq<Modifier>, down: bool, pressed: set<string>)
    ensures DownAfter(ModifierActions(mods, down), pressed)
            == if down then pressed + KeysOf(mods) else pressed - KeysOf(mods)
  {
    if mods != [] {
      var action := Send([], ModifierKey(mods[0]), down);
      DownAfterOne(action, pressed);
      ModifiersDown(mods[1..], down, DownAfter([action], pressed));
      DownAfterAdds([action], ModifierActions(mods[1..], down), pressed);
      assert mods == [mods[0]] + mods[1..];
      assert KeysOf(mods) == {ModifierKey(mods[0])} + KeysOf(mods[1..]);
    }
  }

  lemma {:induction false} ReverseHolds(mods: seq<Modifier>)
    ensures KeysOf(Reverse(mods)) == KeysOf(mods)
  {
    if mods != [] {
      ReverseHolds(mods[1..]);
      assert mods == [mods[0]] + mods[1..];
      assert KeysOf(mods) == {ModifierKey(mods[0])} + KeysOf(mods[1..]);
      assert KeysOf(Reverse(mods)) == KeysOf(Reverse(mods[1..])) + {ModifierKey(mods[0])};
    }
  }

  lemma LeadLeavesTheChord(mods: seq<Modifier>, window: Window, held: seq<Modifier>)
    ensures DownAfter([Focus(window)] + Released(held, mods) + ModifierActions(mods, true), KeysOf(held))
            == KeysOf(mods)
  {
    hide DownAfter, Released, ModifierActions;
    var focus, released, start := [Focus(window)], Released(held, mods), KeysOf(held);
    DownAfterOne(Focus(window), start);
    DownAfterAdds(focus, released, start);
    ReleasedLeaves(held, mods, start);
    DownAfterAdds(focus + released, ModifierActions(mods, true), start);
    ModifiersDown(mods, true, DownAfter(focus + released, start));
  }

  lemma PressLeavesNothing(chord: Chord)
    ensures var tail := [Send([], chord.key, true), Send([], chord.key, false)]
                        + ModifierActions(Reverse(chord.mods), false);
            DownAfter(tail, KeysOf(chord.mods)) == {}
  {
    var down, up, mods := Send([], chord.key, true), Send([], chord.key, false), KeysOf(chord.mods);
    hide DownAfter, ModifierActions;
    DownAfterAdds([down], [up], mods);
    DownAfterOne(down, mods);
    DownAfterOne(up, mods + {chord.key});
    assert [down] + [up] == [down, up];
    DownAfterAdds([down, up], ModifierActions(Reverse(chord.mods), false), mods);
    ReverseHolds(chord.mods);
    ModifiersDown(Reverse(chord.mods), false, mods + {chord.key} - {chord.key});
  }

  /**
    * Whatever modifiers the user still holds down from the trigger, the actions press the key, at a place `p` of the
    * list, with exactly the chord's own modifiers down, release it next, and leave nothing down.
    */
  lemma HeldModifiersGiveWay(chord: Chord, window: Window, held: seq<Modifier>) returns (p: nat)
    ensures var actions := [Focus(window)] + Released(held, chord.mods) + KeyActions(chord);
            && p + 1 < |actions|
            && actions[p] == Send([], chord.key, true) && actions[p + 1] == Send([], chord.key, false)
            && DownAfter(actions[..p], KeysOf(held)) == KeysOf(chord.mods)
            && DownAfter(actions, KeysOf(held)) == {}
  {
    ModifierActionsAt(chord.mods, true);
    hide DownAfter, ModifierActions, Released, KeysOf;
    var front, downs := [Focus(window)] + Released(held, chord.mods), ModifierActions(chord.mods, true);
    var tail := [Send([], chord.key, true), Send([], chord.key, false)] + ModifierActions(Reverse(chord.mods), false);
    p := |front| + |downs|;
    LeadLeavesTheChord(chord.mods, window, held);
    PressLeavesNothing(chord);
    DownAfterAdds(front + downs, tail, KeysOf(held));
    assert KeyActions(chord) == downs + tail;
    Reassociate(front, downs, tail);
    assert ((front + downs) + tail)[..p] == front + downs;
  }

  function Actions(events: seq<Timed>): seq<Action> {
    seq(|events|, i requires 0 <= i < |events| => events[i].action)
  }

  /** The timed program does the same from nothing held: the key goes down with exactly the chord's modifiers down. */
  lemma PressedWithItsModifiers(chord: Chord, window: Window, restore: Option<string>) returns (p: nat)
    requires chord.key != "Z"
    ensures var schedule := Schedule(chord, window, restore);
            && p + 1 < |schedule|
            && schedule[p].action == Send([], chord.key, true) && schedule[p + 1].action == Send([], chord.key, false)
            && DownAfter(Actions(schedule[..p]), {}) == KeysOf(chord.mods)
  {
    var schedule := Schedule(chord, window, restore);
    var focus, downs := FocusActions(window), ModifierActions(chord.mods, true);
    ScheduleExactly(chord, window, restore);
    p := |focus| + |chord.mods|;
    KeyComesUp(chord, restore, schedule, |focus|);
    LeadOfSchedule(chord, window, restore, schedule);
    hide Schedule, DownAfter, KeysOf, IsTyped, TypesChord;
    DownAfterAdds(focus, downs, {});
    NothingDown(window);
    ModifiersDown(chord.mods, true, {});
  }

  lemma KeyComesUp(chord: Chord, restore: Option<string>, s: seq<Timed>, lead: nat)
    requires TypesChord(chord, restore, s, lead)
    ensures var p := lead + |chord.mods|;
            && p + 1 < |s|
            && s[p].action == Send([], chord.key, true) && s[p + 1].action == Send([], chord.key, false)
  {
    var n := |chord.mods|;
    assert s[lead + n] == Timed(25 * n, ActionAt(chord, restore, n));
    assert s[lead + (n + 1)] == Timed(25 * (n + 1), ActionAt(chord, restore, n + 1));
  }

  lemma LeadOfSchedule(chord: Chord, window: Window, restore: Option<string>, s: seq<Timed>)
    requires chord.key != "Z" && IsTyped(chord, window, restore, s)
    ensures var focus := FocusActions(window);
            && |focus| + |chord.mods| <= |s|
            && Actions(s[..|focus| + |chord.mods|]) == focus + ModifierActions(chord.mods, true)
  {
    var focus, downs := FocusActions(window), ModifierActions(chord.mods, true);
    ModifierActionsAt(chord.mods, true);
    hide ModifierActions;
    forall i | 0 <= i < |focus| + |downs|
      ensures s[i].action == (focus + downs)[i]
    {
      if i >= |focus| {
        var m := i - |focus|;
        assert s[|focus| + m] == Timed(25 * m, ActionAt(chord, restore, m));
      }
    }
  }

  lemma NothingDown(window: Window)
    ensures DownAfter(FocusActions(window), {}) == {}
  {
    if !window.ActiveWindow? {
      DownAfterOne(Focus(window), {});
    }
  }

  /** The capture chord in the names the compositor knows, with Super still held from the trigger. */
  lemma CaptureChordInFull(window: Window)
    ensures var chord := Chord([Ctrl, Alt, Shift], "Z");
            [Focus(window)] + Released([Super], chord.mods) + KeyActions(chord)
            == [Focus(window), Send([], "Super_L", false),
                Send([], "Control_L", true), Send([], "Alt_L", true), Send([], "Shift_L", true),
                Send([], "Z", true), Send([], "Z", false),
                Send([], "Shift_L", false), Send([], "Alt_L", false), Send([], "Control_L", false)]
  {
    hide KeyActions, Released;
    CaptureKeys();
    SuperIsReleased();
  }

  lemma SuperIsReleased()
    ensures Released([Super], [Ctrl, Alt, Shift]) == [Send([], "Super_L", false)]
  {
    assert [Super][..0] == [];
  }

  lemma CaptureKeys()
    ensures KeyActions(Chord([Ctrl, Alt, Shift], "Z"))
         == [Send([], "Control_L", true), Send([], "Alt_L", true), Send([], "Shift_L", true),
             Send([], "Z", true), Send([], "Z", false),
             Send([], "Shift_L", false), Send([], "Alt_L", false), Send([], "Control_L", false)]
  {
    var chord := Chord([Ctrl, Alt, Shift], "Z");
    KeyActionsAt(chord, None);
    hide KeyActions;
    var actions := KeyActions(chord);
    assert actions + RestoreActions(None) == actions;
    assert actions[0] == ActionAt(chord, None, 0) && actions[1] == ActionAt(chord, None, 1);
    assert actions[2] == ActionAt(chord, None, 2) && actions[3] == ActionAt(chord, None, 3);
    assert actions[4] == ActionAt(chord, None, 4) && actions[5] == ActionAt(chord, None, 5);
    assert actions[6] == ActionAt(chord, None, 6) && actions[7] == ActionAt(chord, None, 7);
  }
}
