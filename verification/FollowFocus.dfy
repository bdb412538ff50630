/** The follow-focus router: debounced display switches driven by focus signals. */
module FollowFocus {
  import opened Basics

  type Display = string
  type Time = nat

  datatype Topology = Topology(displays: seq<Display>, focused: Option<Display>)

  /** The focused display, or else the first one. */
  function Preferred(topology: Topology): Option<Display> {
    if topology.focused.Some? then topology.focused
    else if topology.displays != [] then Some(topology.displays[0])
    else None
  }

  /** The display to stream: the focused one, and without focus the first. */
  predicate Prefers(topology: Topology, display: Display) {
    if topology.focused.Some? then topology.focused.value == display
    else topology.displays != [] && topology.displays[0] == display
  }

  function FollowTarget(topology: Topology, streamed: Display): Option<Display> {
    var target := Preferred(topology);
    if target == Some(streamed) then None else target
  }

  /** `streamed` is the display the router believes is being streamed. */
  datatype State = State(streamed: Option<Display>, pending: Option<Display>, deadline: Option<Time>)

  /** A focus signal and what reading the topology gave, or the debounce timer and what the switch gave. */
  datatype Event = Signal(read: Option<Topology>, now: Time) | Fire(switched: bool, now: Time)

  function Reevaluated(debounce: nat, st: State, read: Option<Topology>, now: Time): State {
    if read.None? then st
    else
      var streamed := if st.streamed.Some? then st.streamed else Preferred(read.value);
      if streamed.None? then st
      else
        var target := FollowTarget(read.value, streamed.value);
        State(streamed, target, if target.Some? then Some(now + debounce) else None)
  }

  function Committed(st: State, switched: bool): State {
    State(if st.pending.Some? && switched then st.pending else st.streamed, None, None)
  }

  function Next(debounce: nat, st: State, ev: Event): State {
    match ev
    case Signal(read, now) => Reevaluated(debounce, st, read, now)
    case Fire(switched, _) => Committed(st, switched)
  }

  class FollowFocusRouter {
    var streamed: Option<Display>
    var pending: Option<Display>
    var deadline: Option<Time>
    const debounce: nat
    /** The displays the controller was asked to switch to, with its answers. */
    var switches: seq<(Display, bool)>

    function Model(): State
      reads this
    {
      State(streamed, pending, deadline)
    }

    constructor (debounce: nat, initial: Option<Display>)
      ensures this.debounce == debounce && Model() == State(initial, None, None) && switches == []
    {
      this.debounce := debounce;
      this.streamed, this.pending, this.deadline, this.switches := initial, None, None, [];
    }

    method Reevaluate(read: Option<Topology>, now: Time)
      modifies this
      ensures Model() == Reevaluated(debounce, old(Model()), read, now) && switches == old(switches)
      ensures read.None? ==> Model() == old(Model())
      ensures read.Some? && (forall display :: !Prefers(read.value, display)) ==>
                Model() == if old(streamed).None? then old(Model()) else State(old(streamed), None, None)
      ensures forall display | read.Some? && Prefers(read.value, display) ::
                && streamed == (if old(streamed).Some? then old(streamed) else Some(display))
                && pending == (if streamed == Some(display) then None else Some(display))
                && deadline == (if streamed == Some(display) then None else Some(now + debounce))
    {
      if read.None? {
        return;
      }
      PreferredExactly(read.value);
      var current := streamed;
      if current.None? {
        current := Preferred(read.value);
      }
      if current.None? {
        return;
      }
      streamed := current;
      var target := FollowTarget(read.value, current.value);
      if target.Some? {
        pending := target;
        deadline := Some(now + debounce);
      } else {
        pending := None;
        deadline := None;
      }
    }

    method CommitPending(switched: bool)
      modifies this
      ensures Model() == Committed(old(Model()), switched)
      ensures pending.None? && deadline.None?
      ensures streamed == if old(pending).Some? && switched then old(pending) else old(streamed)
      ensures switches == old(switches) + if old(pending).Some? then [(old(pending).value, switched)] else []
    {
      deadline := None;
      if pending.None? {
        return;
      }
      var target := pending.value;
      pending := None;
      switches := switches + [(target, switched)];
      if switched {
        streamed := Some(target);
      }
    }

    /** The event loop, over the events it picks up until the signal channel closes. */
    method Run(events: seq<Event>)
      requires Model().pending.None? && Model().deadline.None? && switches == []
      modifies this
      ensures Model() == At(debounce, old(Model()).streamed, events, |events|)
      ensures switches == Attempts(debounce, old(Model()).streamed, events, |events|)
    {
      ghost var initial := streamed;
      for i := 0 to |events|
        invariant Model() == At(debounce, initial, events, i)
        invariant switches == Attempts(debounce, initial, events, i)
      {
        match events[i]
        case Signal(read, now) => Reevaluate(read, now);
        case Fire(switched, _) => CommitPending(switched);
      }
    }
  }

  lemma PreferredExactly(topology: Topology)
    ensures forall display :: Preferred(topology) == Some(display) <==> Prefers(topology, display)
  {
  }

  // ------------------------------------------------------------------
  // Runs
  // ------------------------------------------------------------------

  function At(debounce: nat, initial: Option<Display>, run: seq<Event>, n: nat): State
    requires n <= |run|
  {
    if n == 0 then State(initial, None, None) else Next(debounce, At(debounce, initial, run, n - 1), run[n - 1])
  }

  function Attempts(debounce: nat, initial: Option<Display>, run: seq<Event>, n: nat): seq<(Display, bool)>
    requires n <= |run|
  {
    if n == 0 then []
    else
      var st := At(debounce, initial, run, n - 1);
      Attempts(debounce, initial, run, n - 1)
      + if run[n - 1].Fire? && st.pending.Some? then [(st.pending.value, run[n - 1].switched)] else []
  }

  function Signals(run: seq<Event>, n: nat): nat
    requires n <= |run|
  {
    if n == 0 then 0 else Signals(run, n - 1) + (if run[n - 1].Signal? then 1 else 0)
  }

  /** The timer fires only once a deadline is set and reached. */
  ghost predicate TimerIsHonest(debounce: nat, initial: Option<Display>, run: seq<Event>) {
    forall i: nat {:trigger At(debounce, initial, run, i)} | i < |run| && run[i].Fire? ::
      var deadline := At(debounce, initial, run, i).deadline;
      deadline.Some? && deadline.value <= run[i].now
  }

  predicate WellFormed(st: State) {
    && (st.pending.Some? <==> st.deadline.Some?)
    && (st.pending.Some? ==> st.streamed.Some? && st.pending != st.streamed)
  }

  /** In every reachable state target and deadline are set together, and the target is another display. */
  lemma {:induction false} AlwaysWellFormed(debounce: nat, initial: Option<Display>, run: seq<Event>, n: nat)
    requires n <= |run|
    ensures WellFormed(At(debounce, initial, run, n))
  {
    if n > 0 {
      AlwaysWellFormed(debounce, initial, run, n - 1);
    }
  }

  /** Every timer that fires asks for exactly one switch, away from the display believed to be streamed. */
  lemma FiresSwitchAway(debounce: nat, initial: Option<Display>, run: seq<Event>, i: nat)
    requires i < |run| && run[i].Fire? && TimerIsHonest(debounce, initial, run)
    ensures var st := At(debounce, initial, run, i);
            && st.pending.Some? && st.streamed.Some? && st.pending.value != st.streamed.value
            && Attempts(debounce, initial, run, i + 1)
               == Attempts(debounce, initial, run, i) + [(st.pending.value, run[i].switched)]
  {
    AlwaysWellFormed(debounce, initial, run, i);
  }

  /** The belief after `n` events is the last display switched to, or else the one the router started with. */
  ghost predicate BelievesLastSuccess(initial: Option<Display>, attempts: seq<(Display, bool)>, st: State, k: int) {
    && -1 <= k < |attempts|
    && (forall j | k < j < |attempts| :: !attempts[j].1)
    && (k >= 0 ==> attempts[k].1 && st.streamed == Some(attempts[k].0))
    && (k < 0 && initial.Some? ==> st.streamed == initial)
  }

  lemma {:induction false} LastSuccess(debounce: nat, initial: Option<Display>, run: seq<Event>, n: nat)
    returns (k: int)
    requires n <= |run|
    ensures BelievesLastSuccess(initial, Attempts(debounce, initial, run, n), At(debounce, initial, run, n), k)
  {
    if n == 0 {
      k := -1;
    } else {
      k := LastSuccess(debounce, initial, run, n - 1);
      var st := At(debounce, initial, run, n - 1);
      if run[n - 1].Fire? && st.pending.Some? && run[n - 1].switched {
        k := |Attempts(debounce, initial, run, n - 1)|;
      }
    }
  }

  /** Two successful switches with only failures between them never go to the same display. */
  lemma {:induction false} SwitchesNeverRepeat(debounce: nat, initial: Option<Display>, run: seq<Event>,
    n: nat, j: nat, k: nat)
    requires n <= |run|
    requires var attempts := Attempts(debounce, initial, run, n);
             && j < k < |attempts| && attempts[j].1
             && forall l | j < l < k :: !attempts[l].1
    ensures Attempts(debounce, initial, run, n)[j].0 != Attempts(debounce, initial, run, n)[k].0
  {
    var attempts, before := Attempts(debounce, initial, run, n), Attempts(debounce, initial, run, n - 1);
    assert attempts[..|before|] == before;
    assert forall l | 0 <= l < |before| :: attempts[l] == before[l];
    if k < |before| {
      SwitchesNeverRepeat(debounce, initial, run, n - 1, j, k);
    } else {
      AlwaysWellFormed(debounce, initial, run, n - 1);
      var last := LastSuccess(debounce, initial, run, n - 1);
      assert last == j;
    }
  }

  /** Attempts never outnumber signals, pending target included: a timer alone cannot ask twice. */
  lemma {:induction false} AttemptsNeedSignals(debounce: nat, initial: Option<Display>, run: seq<Event>, n: nat)
    requires n <= |run|
    ensures |Attempts(debounce, initial, run, n)| + (if At(debounce, initial, run, n).pending.Some? then 1 else 0)
         <= Signals(run, n)
  {
    if n > 0 {
      AttemptsNeedSignals(debounce, initial, run, n - 1);
    }
  }

  /** The topology read at `r` is the last one that succeeded before event `n`, and nothing was committed since. */
  predicate LastRead(run: seq<Event>, r: nat, n: nat)
    requires n <= |run|
  {
    && r < n && run[r].Signal? && run[r].read.Some?
    && forall i | r < i < n :: run[i].Signal? && run[i].read.None?
  }

  lemma {:induction false} PendingComesFrom(debounce: nat, initial: Option<Display>, run: seq<Event>, n: nat)
    returns (r: nat)
    requires n <= |run| && At(debounce, initial, run, n).pending.Some?
    ensures LastRead(run, r, n)
    ensures At(debounce, initial, run, n).pending == Preferred(run[r].read.value)
    ensures At(debounce, initial, run, n).deadline == Some(run[r].now + debounce)
  {
    AlwaysWellFormed(debounce, initial, run, n - 1);
    var last := run[n - 1];
    if last.Signal? && last.read.Some? {
      r := n - 1;
    } else {
      r := PendingComesFrom(debounce, initial, run, n - 1);
    }
  }

  /**
    * What is asked for is the preferred display of the last topology that was read successfully, and the
    * debounce time has passed since that read without another.
    */
  lemma SwitchesFollowTheLastRead(debounce: nat, initial: Option<Display>, run: seq<Event>, i: nat) returns (r: nat)
    requires i < |run| && run[i].Fire? && TimerIsHonest(debounce, initial, run)
    ensures LastRead(run, r, i)
    ensures At(debounce, initial, run, i).pending.Some?
    ensures Prefers(run[r].read.value, At(debounce, initial, run, i).pending.value)
    ensures At(debounce, initial, run, i).deadline == Some(run[r].now + debounce)
    ensures run[r].now + debounce <= run[i].now
  {
    FiresSwitchAway(debounce, initial, run, i);
    r := PendingComesFrom(debounce, initial, run, i);
  }

  /** From event `s` on every successful read prefers `display`, and every switch succeeds. */
  predicate Settles(run: seq<Event>, s: nat, display: Display) {
    forall i | s <= i < |run| ::
      match run[i]
      case Signal(read, _) => read.Some? ==> Prefers(read.value, display)
      case Fire(switched, _) => switched
  }

  /**
    * Convergence. After one signal that reads the settled topology the stream is on the preferred display or a
    * switch to it is pending, and from the first timer on it stays there.
    */
  lemma {:induction false} Converges(debounce: nat, initial: Option<Display>, run: seq<Event>,
    s: nat, n: nat, display: Display)
    requires s < n <= |run| && Settles(run, s, display) && run[s].Signal? && run[s].read.Some?
    ensures var st := At(debounce, initial, run, n);
            && ((st.streamed == Some(display) && st.pending.None?) || st.pending == Some(display))
            && ((exists i :: s < i < n && run[i].Fire?) ==> st.streamed == Some(display))
    decreases n
  {
    assert n - 1 > s ==> Settles(run, s, display);
    if s < n - 1 {
      Converges(debounce, initial, run, s, n - 1, display);
    }
  }
}
