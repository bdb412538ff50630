/** The terminal client's session machine: keys, queued messages and connect tasks, in any interleaving. */
module Terminal {
  import opened Basics

  type NodeId = string

  const U64_LIMIT: nat := 0x1_0000_0000_0000_0000

  datatype Activity = Idle | Connecting

  datatype SessionAction = Focus | Switch | Start

  /** The part of the application state that sessions touch. */
  datatype Client = Client(activity: Activity, active: Option<NodeId>, pending: Option<NodeId>, generation: nat)

  /** `task` records which connect task sent the message; the client never looks at it. */
  datatype Message =
    | SessionStarted(task: nat, generation: nat, node: NodeId)
    | SessionEnded(task: nat, generation: nat)
    | Unrelated

  function ActionFor(active: Option<NodeId>, selected: NodeId): SessionAction {
    match active
    case Some(node) => if node == selected then Focus else Switch
    case None => Start
  }

  function Applied(client: Client, message: Message): Client {
    match message
    case SessionStarted(_, generation, node) =>
      if generation == client.generation then client.(activity := Idle, active := Some(node)) else client
    case SessionEnded(_, generation) =>
      if generation == client.generation then client.(activity := Idle, active := None) else client
    case Unrelated => client
  }

  function Preflight(client: Client): Client {
    client.(activity := Connecting, active := None, generation := (client.generation + 1) % U64_LIMIT)
  }

  /** The node Enter starts a connect task for, if any. */
  function EnterStarts(client: Client, selected: Option<NodeId>, blocked: bool): Option<NodeId> {
    if !blocked && selected.Some? && ActionFor(client.active, selected.value) == Start && client.activity == Idle
    then selected
    else None
  }

  function Entered(client: Client, selected: Option<NodeId>, blocked: bool, closed: bool): Client {
    if EnterStarts(client, selected, blocked).Some? then Preflight(client)
    else if !blocked && selected.Some? && ActionFor(client.active, selected.value) == Switch
    then client.(pending := if closed then selected else None)
    else client
  }

  /** The node the main loop starts a connect task for once the previous stream is gone, if any. */
  function TickStarts(client: Client): Option<NodeId> {
    if client.activity == Idle && client.active.None? then client.pending else None
  }

  function Ticked(client: Client): Client {
    if TickStarts(client).Some? then Preflight(client.(pending := None)) else client
  }

  class AppState {
    var activity: Activity
    var activeNode: Option<NodeId>
    var pendingNode: Option<NodeId>
    var sessionGeneration: nat

    function Model(): Client
      reads this
    {
      Client(activity, activeNode, pendingNode, sessionGeneration)
    }

    constructor ()
      ensures Model() == Client(Idle, None, None, 0)
    {
      activity, activeNode, pendingNode, sessionGeneration := Idle, None, None, 0;
    }

    method ApplyMessage(message: Message)
      modifies this
      ensures Model() == Applied(old(Model()), message)
      ensures pendingNode == old(pendingNode) && sessionGeneration == old(sessionGeneration)
      ensures if message.Unrelated? || message.generation != sessionGeneration then Model() == old(Model())
              else activity == Idle && activeNode == if message.SessionStarted? then Some(message.node) else None
    {
      match message
      case SessionStarted(_, generation, node) =>
        if generation == sessionGeneration {
          activity := Idle;
          activeNode := Some(node);
        }
      case SessionEnded(_, generation) =>
        if generation == sessionGeneration {
          activity := Idle;
          activeNode := None;
        }
      case Unrelated =>
    }

    /** Returns the generation the new connect task stamps on its messages. */
    method StartPreflight() returns (generation: nat)
      modifies this
      ensures Model() == Preflight(old(Model())) && generation == sessionGeneration
      ensures activity == Connecting && activeNode.None? && pendingNode == old(pendingNode)
      ensures sessionGeneration == (old(sessionGeneration) + 1) % 0x1_0000_0000_0000_0000
    {
      sessionGeneration := (sessionGeneration + 1) % U64_LIMIT;
      activity := Connecting;
      activeNode := None;
      generation := sessionGeneration;
    }

    method HandleEnter(selected: Option<NodeId>, blocked: bool, closed: bool) returns (started: Option<NodeId>)
      modifies this
      ensures started == EnterStarts(old(Model()), selected, blocked)
      ensures Model() == Entered(old(Model()), selected, blocked, closed)
    {
      started := None;
      if !blocked && selected.Some? {
        match ActionFor(activeNode, selected.value)
        case Focus =>
        case Switch =>
          pendingNode := selected;
          if !closed {
            pendingNode := None;
          }
        case Start =>
          if activity == Idle {
            var generation := StartPreflight();
            started := selected;
          }
      }
    }

    method StartPending() returns (started: Option<NodeId>)
      modifies this
      ensures started == TickStarts(old(Model()))
      ensures Model() == Ticked(old(Model()))
      ensures if old(activity) == Idle && old(activeNode).None? && old(pendingNode).Some?
              then started == old(pendingNode) && pendingNode.None? && activity == Connecting && activeNode.None?
              else started.None? && Model() == old(Model())
    {
      started := None;
      if activity == Idle && activeNode.None? && pendingNode.Some? {
        started := pendingNode;
        pendingNode := None;
        var generation := StartPreflight();
      }
    }
  }

  // ------------------------------------------------------------------
  // The client with its message queue and its connect tasks
  // ------------------------------------------------------------------

  /** A connect task: it may announce a start, and announces its end once, last. */
  datatype Task = Task(node: NodeId, generation: nat, started: bool, ended: bool)

  datatype System = System(client: Client, queue: seq<Message>, tasks: seq<Task>)

  datatype Event =
    | Enter(selected: Option<NodeId>, blocked: bool, closed: bool)
    | Tick
    | Receive
    | Announce(task: nat)
    | Finish(task: nat)
    | Chatter

  function Spawned(sys: System, client: Client, node: Option<NodeId>): System {
    System(client, sys.queue,
           if node.Some? then sys.tasks + [Task(node.value, client.generation, false, false)] else sys.tasks)
  }

  function Next(sys: System, ev: Event): System {
    match ev
    case Enter(selected, blocked, closed) =>
      Spawned(sys, Entered(sys.client, selected, blocked, closed), EnterStarts(sys.client, selected, blocked))
    case Tick => Spawned(sys, Ticked(sys.client), TickStarts(sys.client))
    case Receive =>
      if sys.queue == [] then sys
      else sys.(client := Applied(sys.client, sys.queue[0]), queue := sys.queue[1..])
    case Announce(task) =>
      if task < |sys.tasks| && !sys.tasks[task].started && !sys.tasks[task].ended
      then sys.(queue := sys.queue + [SessionStarted(task, sys.tasks[task].generation, sys.tasks[task].node)],
                tasks := sys.tasks[task := sys.tasks[task].(started := true)])
      else sys
    case Finish(task) =>
      if task < |sys.tasks| && !sys.tasks[task].ended
      then sys.(queue := sys.queue + [SessionEnded(task, sys.tasks[task].generation)],
                tasks := sys.tasks[task := sys.tasks[task].(ended := true)])
      else sys
    case Chatter => sys.(queue := sys.queue + [Unrelated])
  }

  function Exec(sys: System, run: seq<Event>): System
    decreases run
  {
    if run == [] then sys else Exec(Next(sys, run[0]), run[1..])
  }

  function Launched(): System {
    System(Client(Idle, None, None, 0), [], [])
  }

  /** The session messages of a queue, in order. */
  function About(queue: seq<Message>): seq<Message> {
    if queue == [] then []
    else if queue[0].Unrelated? then About(queue[1..])
    else [queue[0]] + About(queue[1..])
  }

  lemma {:induction false} AboutAdds(queue: seq<Message>, message: Message)
    ensures About(queue + [message]) == About(queue) + About([message])
  {
    if queue == [] {
      assert queue + [message] == [message];
    } else {
      AboutAdds(queue[1..], message);
      assert (queue + [message])[1..] == queue[1..] + [message];
    }
  }

  lemma {:induction false} AboutHolds(queue: seq<Message>, message: Message)
    requires !message.Unrelated?
    ensures message in queue <==> message in About(queue)
  {
    if queue != [] {
      AboutHolds(queue[1..], message);
      assert queue == [queue[0]] + queue[1..];
    }
  }

  /** The end of this task has not reached the client yet. */
  predicate Live(sys: System, task: nat) {
    task < |sys.tasks|
    && (!sys.tasks[task].ended || SessionEnded(task, sys.tasks[task].generation) in sys.queue)
  }

  /** What the newest task still has in the queue: its start unless the client shows it, and its end. */
  function InFlight(client: Client, last: Task, index: nat): seq<Message> {
    (if last.started && client.active.None? then [SessionStarted(index, last.generation, last.node)] else [])
    + (if last.ended then [SessionEnded(index, last.generation)] else [])
  }

  predicate Rest(sys: System) {
    && sys.client.activity == Idle && sys.client.active.None?
    && About(sys.queue) == []
    && forall i | 0 <= i < |sys.tasks| :: sys.tasks[i].ended
  }

  predicate Busy(sys: System) {
    && sys.tasks != []
    && var index := |sys.tasks| - 1; var last := sys.tasks[index];
       && last.generation == sys.client.generation
       && About(sys.queue) == InFlight(sys.client, last, index)
       && (sys.client.active.Some? ==> sys.client.activity == Idle && last.started
                                        && sys.client.active == Some(last.node))
       && (sys.client.active.None? ==> sys.client.activity == Connecting)
       && forall i | 0 <= i < index :: sys.tasks[i].ended
  }

  lemma StepKeepsPhase(sys: System, ev: Event)
    requires Rest(sys) || Busy(sys)
    ensures Rest(Next(sys, ev)) || Busy(Next(sys, ev))
  {
    hide Next, Rest, Busy;
    match ev
    case Enter(selected, blocked, closed) => EnterKeepsPhase(sys, selected, blocked, closed);
    case Tick => TickKeepsPhase(sys);
    case Receive => ReceiveKeepsPhase(sys);
    case Announce(task) => AnnounceKeepsPhase(sys, task);
    case Finish(task) => FinishKeepsPhase(sys, task);
    case Chatter => ChatterKeepsPhase(sys);
  }

  lemma EnterKeepsPhase(sys: System, selected: Option<NodeId>, blocked: bool, closed: bool)
    requires Rest(sys) || Busy(sys)
    ensures Rest(Next(sys, Enter(selected, blocked, closed))) || Busy(Next(sys, Enter(selected, blocked, closed)))
  {
  }

  lemma TickKeepsPhase(sys: System)
    requires Rest(sys) || Busy(sys)
    ensures Rest(Next(sys, Tick)) || Busy(Next(sys, Tick))
  {
  }

  lemma AnnounceKeepsPhase(sys: System, task: nat)
    requires Rest(sys) || Busy(sys)
    ensures Rest(Next(sys, Announce(task))) || Busy(Next(sys, Announce(task)))
  {
    if task < |sys.tasks| {
      AboutAdds(sys.queue, SessionStarted(task, sys.tasks[task].generation, sys.tasks[task].node));
    }
  }

  lemma FinishKeepsPhase(sys: System, task: nat)
    requires Rest(sys) || Busy(sys)
    ensures Rest(Next(sys, Finish(task))) || Busy(Next(sys, Finish(task)))
  {
    if task < |sys.tasks| {
      AboutAdds(sys.queue, SessionEnded(task, sys.tasks[task].generation));
    }
  }

  lemma ChatterKeepsPhase(sys: System)
    requires Rest(sys) || Busy(sys)
    ensures Rest(Next(sys, Chatter)) || Busy(Next(sys, Chatter))
  {
    AboutAdds(sys.queue, Unrelated);
  }

  lemma ReceiveKeepsPhase(sys: System)
    requires Rest(sys) || Busy(sys)
    ensures Rest(Next(sys, Receive)) || Busy(Next(sys, Receive))
  {
    if sys.queue != [] && !sys.queue[0].Unrelated? {
      assert About(sys.queue)[0] == sys.queue[0] && About(sys.queue)[1..] == About(sys.queue[1..]);
    }
  }

  lemma {:induction false} AlwaysRestOrBusy(sys: System, run: seq<Event>)
    requires Rest(sys) || Busy(sys)
    ensures Rest(Exec(sys, run)) || Busy(Exec(sys, run))
    decreases run
  {
    if run != [] {
      StepKeepsPhase(sys, run[0]);
      AlwaysRestOrBusy(Next(sys, run[0]), run[1..]);
    }
  }

  /**
    * One live stream, over every interleaving of keys, messages and tasks: at most one connect task has an end
    * the client has not applied; there is one exactly when the client is connecting or shows an active node,
    * and then it is for that node; and every session message in the queue carries the current generation, so
    * none is ever dropped as stale.
    */
  lemma OneLiveStream(run: seq<Event>)
    ensures var sys := Exec(Launched(), run);
            && (forall i: nat, j: nat | Live(sys, i) && Live(sys, j) :: i == j)
            && ((exists i: nat :: Live(sys, i)) <==> sys.client.activity == Connecting || sys.client.active.Some?)
            && (forall i: nat | Live(sys, i) && sys.client.active.Some? :: sys.tasks[i].node == sys.client.active.value)
            && (forall message | message in sys.queue && !message.Unrelated? ::
                 message.generation == sys.client.generation && Live(sys, message.task))
  {
    hide Exec, Rest, Busy, Live;
    var sys := Exec(Launched(), run);
    LaunchedRests();
    AlwaysRestOrBusy(Launched(), run);
    TasksByPhase(sys);
    MessagesByPhase(sys);
  }

  lemma LaunchedRests()
    ensures Rest(Launched())
  {
  }

  lemma QueueIsAbout(sys: System)
    ensures forall message: Message | !message.Unrelated? :: message in sys.queue <==> message in About(sys.queue)
  {
    forall message: Message | !message.Unrelated?
      ensures message in sys.queue <==> message in About(sys.queue)
    {
      AboutHolds(sys.queue, message);
    }
  }

  /** At rest no task is live; when busy the newest one is, and no other. */
  lemma TasksByPhase(sys: System)
    requires Rest(sys) || Busy(sys)
    ensures forall i: nat, j: nat | Live(sys, i) && Live(sys, j) :: i == j
    ensures (exists i: nat :: Live(sys, i)) <==> sys.client.activity == Connecting || sys.client.active.Some?
    ensures forall i: nat | Live(sys, i) && sys.client.active.Some? :: sys.tasks[i].node == sys.client.active.value
    ensures Rest(sys) <==> forall i: nat :: !Live(sys, i)
  {
    QueueIsAbout(sys);
    if Busy(sys) {
      var index := |sys.tasks| - 1;
      assert SessionEnded(index, sys.tasks[index].generation) in sys.queue <==> sys.tasks[index].ended;
      assert Live(sys, index);
    }
  }

  lemma MessagesByPhase(sys: System)
    requires Rest(sys) || Busy(sys)
    ensures forall message | message in sys.queue && !message.Unrelated? ::
              message.generation == sys.client.generation && Live(sys, message.task)
  {
    QueueIsAbout(sys);
    if Busy(sys) {
      var index := |sys.tasks| - 1;
      assert SessionEnded(index, sys.tasks[index].generation) in sys.queue <==> sys.tasks[index].ended;
    }
  }

  /** A connect task is only ever started when no other is live. */
  lemma StartsOnlyAtRest(run: seq<Event>, ev: Event)
    requires |Next(Exec(Launched(), run), ev).tasks| > |Exec(Launched(), run).tasks|
    ensures forall i: nat :: !Live(Exec(Launched(), run), i)
  {
    OneLiveStream(run);
  }

  /**
    * Exactly what Enter does, in every reachable state. Blocked, or with nothing selected, nothing. With no task live
    * it starts one for the selected node. On the active node it changes nothing; on another node while one is active
    * it waits for that node if the stream could be closed and for none otherwise; while connecting, nothing.
    */
  lemma EnterExactly(run: seq<Event>, selected: Option<NodeId>, blocked: bool, closed: bool)
    ensures var sys := Exec(Launched(), run); var next := Next(sys, Enter(selected, blocked, closed));
            var client := sys.client;
            if blocked || selected.None? then next == sys
            else if forall i: nat :: !Live(sys, i) then
              && next.tasks == sys.tasks + [Task(selected.value, next.client.generation, false, false)]
              && next.queue == sys.queue && next.client.active.None? && next.client.activity == Connecting
              && next.client.pending == client.pending
              && next.client.generation == if client.generation + 1 == U64_LIMIT then 0 else client.generation + 1
            else if client.active == selected || client.active.None? then next == sys
            else next == sys.(client := client.(pending := if closed then selected else None))
  {
    hide Exec;
    var sys := Exec(Launched(), run);
    LaunchedRests();
    AlwaysRestOrBusy(Launched(), run);
    TasksByPhase(sys);
    GenerationInRange(run);
    hide Live, About, InFlight;
  }

  lemma GenerationInRange(run: seq<Event>)
    ensures Exec(Launched(), run).client.generation < U64_LIMIT
  {
    RunKeepsRange(Launched(), run);
  }

  lemma {:induction false} RunKeepsRange(sys: System, run: seq<Event>)
    requires sys.client.generation < U64_LIMIT
    ensures Exec(sys, run).client.generation < U64_LIMIT
    decreases run
  {
    if run != [] {
      RunKeepsRange(Next(sys, run[0]), run[1..]);
    }
  }

  /** The first `count` tasks are still the only ones, and `node` is next. */
  predicate Awaits(sys: System, count: nat, node: NodeId) {
    sys.client.pending == Some(node) && |sys.tasks| == count
  }

  /** One more task has been started, for `node`, and nothing is next. */
  predicate HandedOver(sys: System, count: nat, node: NodeId) {
    sys.client.pending.None? && |sys.tasks| == count + 1 && sys.tasks[count].node == node
  }

  lemma StepHandsOver(sys: System, ev: Event, count: nat, node: NodeId)
    requires !ev.Enter?
    ensures Awaits(sys, count, node) ==> Awaits(Next(sys, ev), count, node) || HandedOver(Next(sys, ev), count, node)
    ensures HandedOver(sys, count, node) ==> HandedOver(Next(sys, ev), count, node)
  {
  }

  lemma {:induction false} RunHandsOver(sys: System, more: seq<Event>, count: nat, node: NodeId)
    requires Awaits(sys, count, node) || HandedOver(sys, count, node)
    requires forall ev | ev in more :: !ev.Enter?
    ensures Awaits(Exec(sys, more), count, node) || HandedOver(Exec(sys, more), count, node)
    decreases more
  {
    if more != [] {
      hide Next, Awaits, HandedOver;
      assert more[0] in more;
      StepHandsOver(sys, more[0], count, node);
      RunHandsOver(Next(sys, more[0]), more[1..], count, node);
    }
  }

  /**
    * A switch is a handover, whatever happens next. Choose another node while one is active; after any further
    * events short of another Enter, either no task has been added and the node is still waited for, or exactly
    * one has, for that node, and nothing is waited for. While it is waited for, a turn of the main loop starts it
    * exactly when no task is live, that is, once the old stream's end has been applied.
    */
  lemma SwitchHandsOver(run: seq<Event>, node: NodeId, more: seq<Event>)
    requires var sys := Exec(Launched(), run);
             sys.client.active.Some? && sys.client.active.value != node
    requires forall ev | ev in more :: !ev.Enter?
    ensures var sys := Exec(Launched(), run); var count := |sys.tasks|;
            var reached := Exec(Next(sys, Enter(Some(node), false, true)), more);
            && (Awaits(reached, count, node) || HandedOver(reached, count, node))
            && (Awaits(reached, count, node) ==>
                 && (HandedOver(Next(reached, Tick), count, node) <==> forall i: nat :: !Live(reached, i))
                 && ((exists i: nat :: Live(reached, i)) ==> Next(reached, Tick) == reached))
  {
    var sys := Exec(Launched(), run);
    var chosen := Next(sys, Enter(Some(node), false, true));
    assert Awaits(chosen, |sys.tasks|, node);
    RunHandsOver(chosen, more, |sys.tasks|, node);
    AlwaysRestOrBusy(Launched(), run);
    StepKeepsPhase(sys, Enter(Some(node), false, true));
    AlwaysRestOrBusy(chosen, more);
    var reached := Exec(chosen, more);
    TasksByPhase(reached);
    TickStartsAtRest(reached);
  }

  lemma TickStartsAtRest(sys: System)
    requires Rest(sys) || Busy(sys)
    ensures TickStarts(sys.client) == if Rest(sys) then sys.client.pending else None
  {
  }
}
