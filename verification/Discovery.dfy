/** Discovery: what a probe makes of a peer, and the list all probes add up to, whatever order they finish in. */
module Discovery {
  import opened Basics
  import Access = AccessStore
  import Auth = Authorization
  import Commands
  import Releases

  const MAX_DISCOVERY_PEERS: nat := 1024
  const U32_MAX: nat := 0xFFFF_FFFF

  type Release = seq<Releases.Byte>

  datatype Status = Ready | Blocked | Offline | Unavailable
  datatype BlockerCode = Incompatible | Denied | NeedsAccess
  datatype Side = OnThisComputer | OnTheRemote
  datatype Fix = RestartAgent | Install(release: Release) | AllowAccess(name: string)
  datatype Blocker = Blocker(code: BlockerCode, side: Side, fix: Fix)

  datatype Peer = Peer(
    nodeId: string, hostname: Option<string>, dnsName: Option<string>, addresses: seq<IpAddr>, online: bool,
    latencyMs: Option<nat>)

  datatype Node = Node(
    nodeId: string, name: string, address: IpAddr, status: Status, blockers: seq<Blocker>, latencyMs: Option<nat>,
    release: Option<Release>, isLocal: bool)

  datatype Health = Health(speaksProtocol: bool, release: Release, elapsedMs: nat)
  datatype InfoError = Unauthorized | CapabilityDenied | VersionIncompatible | OtherFailure

  /** What a peer's agent answers when it is probed; no health at all when it cannot be reached. */
  datatype Answers = Answers(health: Option<Health>, info: Result<Release, InfoError>)

  datatype Context = Context(
    current: Release, allowlist: seq<Access.AllowedController>, localName: string, includeAll: bool)

  datatype DiscoveryError = MeshFailed | PeerLimit

  // ------------------------------------------------------------------
  // One probe
  // ------------------------------------------------------------------

  /** The first IPv4 address, or else the first address. */
  function ChosenAddress(addresses: seq<IpAddr>): Option<IpAddr> {
    var v4 := FirstV4(addresses);
    if v4.Some? then v4 else if addresses == [] then None else Some(addresses[0])
  }

  function FirstV4(addresses: seq<IpAddr>): Option<IpAddr> {
    if addresses == [] then None else if addresses[0].V4? then Some(addresses[0]) else FirstV4(addresses[1..])
  }

  function Or<T>(first: Option<T>, otherwise: T): T {
    if first.Some? then first.value else otherwise
  }

  function NameOf(peer: Peer): string {
    Or(if peer.hostname.Some? then peer.hostname else peer.dnsName, peer.nodeId)
  }

  function MeasuredLatency(elapsedMs: nat, isLocal: bool): nat {
    if isLocal then 0
    else
      var ms := if elapsedMs > U32_MAX then U32_MAX else elapsedMs;
      if ms == 0 then 1 else ms
  }

  predicate IsCompatible(current: Release, health: Health) {
    health.speaksProtocol && Releases.IsCompatible(current, health.release)
  }

  predicate Newer(there: Releases.ReleaseLine, here: Releases.ReleaseLine) {
    there.major > here.major || (there.major == here.major && there.minor > here.minor)
  }

  function IncompatibleBlocker(current: Release, remote: Release, isLocal: bool): Blocker {
    var there, here := Releases.Parse(remote), Releases.Parse(current);
    if isLocal then Blocker(Incompatible, OnThisComputer, RestartAgent)
    else if there.Some? && here.Some? && Newer(there.value, here.value)
    then Blocker(Incompatible, OnThisComputer, Install(remote))
    else Blocker(Incompatible, OnTheRemote, Install(current))
  }

  /** The callback capabilities the first allowlist entry of a node does not grant. */
  function MissingCallbacks(allowlist: seq<Access.AllowedController>, nodeId: string): seq<Access.Capability> {
    var entry := Access.Lookup(allowlist, nodeId);
    (if entry.Some? && Access.SendShortcut in entry.value.capabilities then [] else [Access.SendShortcut])
    + (if entry.Some? && Access.CloseStream in entry.value.capabilities then [] else [Access.CloseStream])
  }

  function AccessBlockers(info: Result<Release, InfoError>, context: Context, nodeId: string, name: string)
    : seq<Blocker> {
    (if info.Err? && (info.error == Unauthorized || info.error == CapabilityDenied)
     then [Blocker(Denied, OnTheRemote, AllowAccess(context.localName))] else [])
    + (if MissingCallbacks(context.allowlist, nodeId) != []
       then [Blocker(NeedsAccess, OnThisComputer, AllowAccess(name))] else [])
  }

  function WithBlockers(node: Node, blockers: seq<Blocker>): Node {
    node.(status := if blockers == [] then Ready else Blocked, blockers := blockers)
  }

  function Probe(context: Context, peer: Peer, isLocal: bool, answers: Answers): Option<Node> {
    var address := ChosenAddress(peer.addresses);
    if address.None? then None
    else
      var bare := Node(peer.nodeId, NameOf(peer), address.value, Unavailable, [], peer.latencyMs, None, isLocal);
      if !peer.online then if context.includeAll then Some(bare.(status := Offline)) else None
      else if answers.health.None? then if context.includeAll then Some(bare) else None
      else
        var health := answers.health.value;
        var node := bare.(latencyMs := Some(MeasuredLatency(health.elapsedMs, isLocal)),
                         release := Some(health.release));
        var incompatible := IncompatibleBlocker(context.current, health.release, isLocal);
        if !IsCompatible(context.current, health) then Some(WithBlockers(node, [incompatible]))
        else if answers.info == Err(VersionIncompatible) then Some(WithBlockers(node, [incompatible]))
        else
          var blockers := if isLocal then [] else AccessBlockers(answers.info, context, node.nodeId, node.name);
          Some(WithBlockers(node, blockers).(release := if answers.info.Ok? then Some(answers.info.value)
                     else node.release))
  }

  predicate Connectable(node: Node) {
    !node.isLocal && node.status == Ready
  }

  /**
    * Exactly which peers are offered: remote, reachable, of a compatible release, not refusing this computer, and
    * allowed here to call back. A metadata request failing for any other reason does not stand in the way.
    */
  lemma ConnectableExactly(context: Context, peer: Peer, isLocal: bool, answers: Answers)
    ensures var node := Probe(context, peer, isLocal, answers);
            node.Some? && Connectable(node.value)
            <==> && !isLocal && peer.addresses != [] && peer.online && answers.health.Some?
                 && IsCompatible(context.current, answers.health.value)
                 && (answers.info.Ok? || answers.info.error == OtherFailure)
                 && MissingCallbacks(context.allowlist, peer.nodeId) == []
  {
    if peer.addresses == [] {
      assert FirstV4(peer.addresses) == None;
    }
  }

  /**
    * What discovery predicts, the agent at the other end finds: with the allowlist discovery read, a connectable
    * node is granted what it asks for when it checks, on attach, that it may call this computer back.
    */
  lemma ConnectableNodesMayCallBack(
    context: Context, peer: Peer, answers: Answers, request: Commands.Request, controller: Endpoint)
    requires var node := Probe(context, peer, false, answers); node.Some? && Connectable(node.value)
    requires controller.address == request.source
    ensures var here := Auth.Peer(context.allowlist, peer.nodeId);
            && here.Ok?
            && Commands.CallbackProblem(request, controller, Commands.Grants(here.value.capabilities)) == None
  {
    ConnectableExactly(context, peer, false, answers);
    var missing := MissingCallbacks(context.allowlist, peer.nodeId);
    assert |missing| == 0;
  }

  /** The address is the first IPv4 address, and without one the first address. */
  lemma {:induction false} AddressExactly(addresses: seq<IpAddr>)
    ensures ChosenAddress(addresses).None? <==> addresses == []
    ensures ChosenAddress(addresses).Some? ==>
              exists i :: 0 <= i < |addresses| && addresses[i] == ChosenAddress(addresses).value
                          && (if addresses[i].V4? then forall j | 0 <= j < i :: !addresses[j].V4?
                              else i == 0 && forall j | 0 <= j < |addresses| :: !addresses[j].V4?)
  {
    FirstV4Exactly(addresses);
    if addresses != [] && FirstV4(addresses).None? {
      assert addresses[0] == ChosenAddress(addresses).value;
    }
  }

  lemma {:induction false} FirstV4Exactly(addresses: seq<IpAddr>)
    ensures FirstV4(addresses).None? <==> forall j | 0 <= j < |addresses| :: !addresses[j].V4?
    ensures FirstV4(addresses).Some? ==>
              exists i :: 0 <= i < |addresses| && addresses[i] == FirstV4(addresses).value && addresses[i].V4?
                          && forall j | 0 <= j < i :: !addresses[j].V4?
  {
    if addresses != [] {
      FirstV4Exactly(addresses[1..]);
      if !addresses[0].V4? && FirstV4(addresses).Some? {
        var i :| 0 <= i < |addresses[1..]| && addresses[1..][i] == FirstV4(addresses).value && addresses[1..][i].V4?
          && forall j | 0 <= j < i :: !addresses[1..][j].V4?;
        assert addresses[i + 1] == FirstV4(addresses).value;
        forall j | 0 <= j < i + 1
          ensures !addresses[j].V4?
        {
          if j > 0 {
            assert addresses[1..][j - 1] == addresses[j];
          }
        }
      }
    }
  }

  /** The side that is behind has to install the other's release; a local agent is simply restarted. */
  lemma IncompatibleExactly(current: Release, remote: Release, isLocal: bool)
    ensures var blocker := IncompatibleBlocker(current, remote, isLocal);
            var there, here := Releases.Parse(remote), Releases.Parse(current);
            var behind := there.Some? && here.Some?
              && (here.value.major < there.value.major
                  || (here.value.major == there.value.major && here.value.minor < there.value.minor));
            blocker == if isLocal then Blocker(Incompatible, OnThisComputer, RestartAgent)
                       else if behind then Blocker(Incompatible, OnThisComputer, Install(remote))
                       else Blocker(Incompatible, OnTheRemote, Install(current))
  {
  }

  /** What stands in the way of a compatible remote peer, and on which side it is put right. */
  lemma AccessBlockedExactly(info: Result<Release, InfoError>, context: Context, nodeId: string, name: string)
    ensures var blockers := AccessBlockers(info, context, nodeId, name);
            var denied := Blocker(Denied, OnTheRemote, AllowAccess(context.localName));
            var needed := Blocker(NeedsAccess, OnThisComputer, AllowAccess(name));
            var here := Auth.Peer(context.allowlist, nodeId);
            && (denied in blockers <==> info == Err(Unauthorized) || info == Err(CapabilityDenied))
            && (needed in blockers <==> here.Err? || Access.SendShortcut !in here.value.capabilities
                                        || Access.CloseStream !in here.value.capabilities)
            && (forall blocker | blocker in blockers :: blocker == denied || blocker == needed)
            && |blockers| <= 2 && (|blockers| == 2 ==> blockers == [denied, needed])
  {
    assert |MissingCallbacks(context.allowlist, nodeId)| == 0 <==> MissingCallbacks(context.allowlist, nodeId) == [];
  }

  /** What a probe makes of a peer, whatever its agent answers. */
  lemma ProbedExactly(context: Context, peer: Peer, isLocal: bool, answers: Answers)
    ensures var node := Probe(context, peer, isLocal, answers);
            var reached := peer.online && answers.health.Some?;
            && (node.Some? <==> peer.addresses != [] && (reached || context.includeAll))
            && (node.Some? ==>
                 && node.value.nodeId == peer.nodeId && node.value.isLocal == isLocal
                 && ChosenAddress(peer.addresses) == Some(node.value.address)
                 && node.value.name == (if peer.hostname.Some? then peer.hostname.value
                                        else if peer.dnsName.Some? then peer.dnsName.value else peer.nodeId)
                 && if !reached then
                      && node.value.status == (if peer.online then Unavailable else Offline)
                      && node.value.blockers == [] && node.value.latencyMs == peer.latencyMs && node.value.release.None?
                    else
                      var health := answers.health.value;
                      var fits := IsCompatible(context.current, health) && answers.info != Err(VersionIncompatible);
                      && node.value.status == (if node.value.blockers == [] then Ready else Blocked)
                      && node.value.blockers
                         == (if !fits then [IncompatibleBlocker(context.current, health.release, isLocal)]
                             else if isLocal then []
                             else AccessBlockers(answers.info, context, peer.nodeId, node.value.name))
                      && node.value.release == Some(if fits && answers.info.Ok? then answers.info.value
                                                    else health.release)
                      && node.value.latencyMs
                         == Some(if isLocal then 0 else if health.elapsedMs < 1 then 1
                                 else if U32_MAX < health.elapsedMs then U32_MAX else health.elapsedMs))
  {
    AddressExactly(peer.addresses);
  }

  // ------------------------------------------------------------------
  // The order of the list
  // ------------------------------------------------------------------

  predicate NameLess(left: string, right: string) {
    if right == [] then false
    else if left == [] then true
    else if left[0] != right[0] then left[0] < right[0]
    else NameLess(left[1..], right[1..])
  }

  /** The local node first, then by name. */
  predicate Before(left: Node, right: Node) {
    (left.isLocal && !right.isLocal) || (left.isLocal == right.isLocal && NameLess(left.name, right.name))
  }

  /** Two nodes the order does not tell apart. */
  predicate Alike(left: Node, right: Node) {
    left.isLocal == right.isLocal && left.name == right.name
  }

  predicate Sorted(nodes: seq<Node>) {
    forall i, j | 0 <= i < j < |nodes| :: !Before(nodes[j], nodes[i])
  }

  function OnlyLike(nodes: seq<Node>, kind: Node): seq<Node> {
    if nodes == [] then []
    else (if Alike(nodes[0], kind) then [nodes[0]] else []) + OnlyLike(nodes[1..], kind)
  }

  /** The nodes are the same ones, and nodes the order does not tell apart come in the same order. */
  ghost predicate SameUpToOrder(left: seq<Node>, right: seq<Node>) {
    forall kind :: OnlyLike(left, kind) == OnlyLike(right, kind)
  }

  function Insert(nodes: seq<Node>, node: Node): seq<Node> {
    if nodes == [] || !Before(node, nodes[|nodes| - 1]) then nodes + [node]
    else Insert(nodes[..|nodes| - 1], node) + [nodes[|nodes| - 1]]
  }

  function StableSort(nodes: seq<Node>): seq<Node> {
    if nodes == [] then [] else Insert(StableSort(nodes[..|nodes| - 1]), nodes[|nodes| - 1])
  }

  /** Up to place `k` the names agree, and there the left one ends or has the smaller character. */
  predicate ComesFirstAt(left: string, right: string, k: nat) {
    k <= |left| && k < |right| && (forall i | 0 <= i < k :: left[i] == right[i]) && (k == |left| || left[k] < right[k])
  }

  lemma {:induction false} LessComesFirst(left: string, right: string) returns (k: nat)
    requires NameLess(left, right)
    ensures ComesFirstAt(left, right, k)
  {
    if left == [] || left[0] != right[0] {
      k := 0;
    } else {
      k := LessComesFirst(left[1..], right[1..]);
      forall i | 0 <= i < k + 1
        ensures left[i] == right[i]
      {
        if i > 0 {
          assert left[1..][i - 1] == right[1..][i - 1];
        }
      }
      k := k + 1;
    }
  }

  lemma {:induction false} FirstIsLess(left: string, right: string, k: nat)
    requires ComesFirstAt(left, right, k)
    ensures NameLess(left, right)
  {
    if k > 0 {
      assert left[0] == right[0];
      FirstIsLess(left[1..], right[1..], k - 1);
    }
  }

  /** Names are ordered like words in a dictionary: by the first place where they differ, shorter ones first. */
  lemma NameOrderExactly(left: string, right: string)
    ensures NameLess(left, right) <==> exists k: nat :: ComesFirstAt(left, right, k)
  {
    if NameLess(left, right) {
      var k := LessComesFirst(left, right);
    }
    if k: nat :| ComesFirstAt(left, right, k) {
      FirstIsLess(left, right, k);
    }
  }

  lemma {:induction false} NamesAreOrdered(a: string, b: string)
    ensures !NameLess(a, a)
    ensures NameLess(a, b) ==> !NameLess(b, a)
    ensures !NameLess(a, b) && !NameLess(b, a) ==> a == b
  {
    if a != [] {
      NamesAreOrdered(a[1..], if b == [] then [] else b[1..]);
      if b != [] && a[0] == b[0] && a[1..] == b[1..] {
        assert a == [a[0]] + a[1..] && b == [b[0]] + b[1..];
      }
    }
  }

  lemma {:induction false} NamesAreTransitive(a: string, b: string, c: string)
    requires !NameLess(b, a) && !NameLess(c, b)
    ensures !NameLess(c, a)
  {
    if a != [] && b != [] && c != [] && a[0] == b[0] == c[0] {
      NamesAreTransitive(a[1..], b[1..], c[1..]);
    }
  }

  lemma OrderIsTransitive(a: Node, b: Node, c: Node)
    requires !Before(b, a) && !Before(c, b)
    ensures !Before(c, a)
  {
    if a.isLocal == b.isLocal == c.isLocal {
      NamesAreTransitive(a.name, b.name, c.name);
    }
  }

  lemma NeitherBeforeMeansAlike(a: Node, b: Node)
    ensures !Before(a, b) && !Before(b, a) <==> Alike(a, b)
  {
    NamesAreOrdered(a.name, b.name);
    NamesAreOrdered(a.name, a.name);
  }

  lemma {:induction false} OnlyLikeAppend(left: seq<Node>, right: seq<Node>, kind: Node)
    ensures OnlyLike(left + right, kind) == OnlyLike(left, kind) + OnlyLike(right, kind)
  {
    if left == [] {
      assert left + right == right;
    } else {
      OnlyLikeAppend(left[1..], right, kind);
      FirstOf(left, right);
      Reassociate(if Alike(left[0], kind) then [left[0]] else [], OnlyLike(left[1..], kind), OnlyLike(right, kind));
    }
  }

  lemma {:induction false} InsertKeeps(nodes: seq<Node>, node: Node)
    requires Sorted(nodes)
    ensures Sorted(Insert(nodes, node))
    ensures multiset(Insert(nodes, node)) == multiset(nodes) + multiset{node}
  {
    if nodes != [] {
      var front, last := nodes[..|nodes| - 1], nodes[|nodes| - 1];
      assert nodes == front + [last];
      if Before(node, last) {
        InsertKeeps(front, node);
        NeitherBeforeMeansAlike(node, last);
        var rest := Insert(front, node);
        forall i | 0 <= i < |rest|
          ensures !Before(last, rest[i])
        {
          assert rest[i] in multiset(rest);
          if rest[i] == node {
            NamesAreOrdered(node.name, last.name);
          } else {
            assert rest[i] in front;
          }
        }
      } else {
        forall i | 0 <= i < |nodes|
          ensures !Before(node, nodes[i])
        {
          if i < |nodes| - 1 {
            OrderIsTransitive(nodes[i], last, node);
          }
        }
      }
    }
  }

  lemma {:induction false} InsertIsStable(nodes: seq<Node>, node: Node, kind: Node)
    ensures OnlyLike(Insert(nodes, node), kind) == OnlyLike(nodes + [node], kind)
  {
    if nodes != [] && Before(node, nodes[|nodes| - 1]) {
      var front, last := nodes[..|nodes| - 1], nodes[|nodes| - 1];
      assert nodes == front + [last];
      InsertIsStable(front, node, kind);
      NeitherBeforeMeansAlike(node, last);
      OnlyLikeAppend(Insert(front, node), [last], kind);
      OnlyLikeAppend(front, [node], kind);
      OnlyLikeAppend(front, [last], kind);
      OnlyLikeAppend(nodes, [node], kind);
    }
  }

  /** The sort orders the nodes, loses and invents none, and keeps the order of nodes it cannot tell apart. */
  lemma {:induction false} SortKeeps(nodes: seq<Node>)
    ensures Sorted(StableSort(nodes)) && multiset(StableSort(nodes)) == multiset(nodes)
    ensures SameUpToOrder(StableSort(nodes), nodes)
  {
    if nodes != [] {
      var front, last := nodes[..|nodes| - 1], nodes[|nodes| - 1];
      assert nodes == front + [last];
      SortKeeps(front);
      InsertKeeps(StableSort(front), last);
      forall kind
        ensures OnlyLike(StableSort(nodes), kind) == OnlyLike(nodes, kind)
      {
        InsertIsStable(StableSort(front), last, kind);
        OnlyLikeAppend(StableSort(front), [last], kind);
        OnlyLikeAppend(front, [last], kind);
      }
    }
  }

  lemma {:induction false} LikeMeansIn(nodes: seq<Node>, kind: Node)
    ensures OnlyLike(nodes, kind) != [] ==> exists i :: 0 <= i < |nodes| && Alike(nodes[i], kind)
    ensures nodes != [] ==> OnlyLike(nodes, nodes[0]) != [] && OnlyLike(nodes, nodes[0])[0] == nodes[0]
  {
    if nodes != [] && !Alike(nodes[0], kind) {
      LikeMeansIn(nodes[1..], kind);
      if OnlyLike(nodes[1..], kind) != [] {
        var i :| 0 <= i < |nodes[1..]| && Alike(nodes[1..][i], kind);
        assert nodes[i + 1] == nodes[1..][i];
      }
    }
  }

  lemma FirstIsLeast(left: seq<Node>, right: seq<Node>)
    requires Sorted(left) && Sorted(right) && SameUpToOrder(left, right) && left != []
    ensures right != [] && !Before(left[0], right[0])
  {
    LikeMeansIn(left, left[0]);
    LikeMeansIn(right, left[0]);
    var i :| 0 <= i < |right| && Alike(right[i], left[0]);
    if i > 0 {
      NeitherBeforeMeansAlike(right[i], left[0]);
      OrderIsTransitive(right[0], right[i], left[0]);
    } else {
      NeitherBeforeMeansAlike(right[0], left[0]);
    }
  }

  /** There is only one stable way to sort a list: which algorithm does it makes no difference. */
  lemma {:induction false} StableOrderIsUnique(left: seq<Node>, right: seq<Node>)
    requires Sorted(left) && Sorted(right) && SameUpToOrder(left, right)
    ensures left == right
  {
    if left == [] {
      if right != [] {
        FirstIsLeast(right, left);
      }
    } else {
      FirstIsLeast(left, right);
      FirstIsLeast(right, left);
      NeitherBeforeMeansAlike(left[0], right[0]);
      LikeMeansIn(left, left[0]);
      LikeMeansIn(right, right[0]);
      LikeKindsAgree(left, left[0], right[0]);
      assert left[0] == right[0];
      forall kind
        ensures OnlyLike(left[1..], kind) == OnlyLike(right[1..], kind)
      {
        var first := if Alike(left[0], kind) then [left[0]] else [];
        assert OnlyLike(left, kind)[|first|..] == OnlyLike(left[1..], kind);
        assert OnlyLike(right, kind)[|first|..] == OnlyLike(right[1..], kind);
      }
      StableOrderIsUnique(left[1..], right[1..]);
      assert left == [left[0]] + left[1..] && right == [right[0]] + right[1..];
    }
  }

  lemma {:induction false} LikeKindsAgree(nodes: seq<Node>, kind: Node, other: Node)
    requires Alike(kind, other)
    ensures OnlyLike(nodes, kind) == OnlyLike(nodes, other)
  {
    if nodes != [] {
      LikeKindsAgree(nodes[1..], kind, other);
    }
  }

  // ------------------------------------------------------------------
  // Independence of scheduling
  // ------------------------------------------------------------------

  /** Nodes the order cannot tell apart are identical. */
  predicate NamesTellApart(nodes: seq<Node>) {
    forall i, j | 0 <= i < |nodes| && 0 <= j < |nodes| && Alike(nodes[i], nodes[j]) :: nodes[i] == nodes[j]
  }

  lemma {:induction false} SortedByNameIsUnique(left: seq<Node>, right: seq<Node>)
    requires Sorted(left) && Sorted(right) && multiset(left) == multiset(right) && NamesTellApart(left)
    ensures left == right
    decreases |left|
  {
    assert |multiset(left)| == |left| && |multiset(right)| == |right|;
    if left != [] {
      SameFirst(left, right);
      SameTails(left, right);
      TailKeeps(left);
      TailKeeps(right);
      hide Sorted, NamesTellApart;
      SortedByNameIsUnique(left[1..], right[1..]);
      assert left == [left[0]] + left[1..] && right == [right[0]] + right[1..];
    }
  }

  lemma TailKeeps(nodes: seq<Node>)
    requires nodes != []
    ensures Sorted(nodes) ==> Sorted(nodes[1..])
    ensures NamesTellApart(nodes) ==> NamesTellApart(nodes[1..])
  {
  }

  lemma SameFirst(left: seq<Node>, right: seq<Node>)
    requires Sorted(left) && Sorted(right) && multiset(left) == multiset(right) && NamesTellApart(left)
    requires left != [] && right != []
    ensures left[0] == right[0]
  {
    hide Before, Alike;
    assert right[0] in multiset(left) && left[0] in multiset(right);
    NeitherBeforeMeansAlike(left[0], right[0]);
    NeitherBeforeMeansAlike(left[0], left[0]);
    NeitherBeforeMeansAlike(right[0], right[0]);
    LikeItself(left[0]);
    LikeItself(right[0]);
  }

  lemma LikeItself(node: Node)
    ensures Alike(node, node)
  {
  }

  lemma SameTails<T>(left: seq<T>, right: seq<T>)
    requires left != [] && right != [] && left[0] == right[0] && multiset(left) == multiset(right)
    ensures multiset(left[1..]) == multiset(right[1..])
  {
    assert left == [left[0]] + left[1..] && right == [right[0]] + right[1..];
    assert multiset(left[1..]) == multiset(left) - multiset{left[0]};
    assert multiset(right[1..]) == multiset(right) - multiset{left[0]};
  }

  /** The finished list: the local node, if it has one, and the remote nodes in the order their probes finished. */
  function Listing(local: Option<Node>, remotes: seq<Node>): seq<Node> {
    StableSort(Unsorted(local, remotes))
  }

  function Unsorted(local: Option<Node>, remotes: seq<Node>): seq<Node> {
    (if local.Some? then [local.value] else []) + remotes
  }

  /** Probes are marked as what they are: one local, all others remote. */
  predicate Marked(local: Option<Node>, remotes: seq<Node>) {
    (local.Some? ==> local.value.isLocal) && forall i | 0 <= i < |remotes| :: !remotes[i].isLocal
  }

  ghost predicate SameForAllSchedules(local: Option<Node>, remotes: seq<Node>) {
    forall other | multiset(other) == multiset(remotes) :: Listing(local, other) == Listing(local, remotes)
  }

  lemma LocalNodeComesFirst(local: Node, remotes: seq<Node>)
    requires Marked(Some(local), remotes)
    ensures Listing(Some(local), remotes) != [] && Listing(Some(local), remotes)[0] == local
  {
    var nodes := [local] + remotes;
    var sorted := StableSort(nodes);
    SortKeeps(nodes);
    assert local in multiset(nodes) && |multiset(sorted)| == |sorted|;
    assert sorted[0] in multiset(sorted) && local in multiset(sorted);
    var i :| 0 <= i < |sorted| && sorted[i] == local;
    NamesAreOrdered(local.name, local.name);
    assert !Before(local, sorted[0]);
  }

  lemma {:induction false} NamedApartAnyOrder(nodes: seq<Node>, other: seq<Node>)
    requires multiset(other) == multiset(nodes) && NamesTellApart(nodes)
    ensures NamesTellApart(other)
  {
    forall i, j | 0 <= i < |other| && 0 <= j < |other| && Alike(other[i], other[j])
      ensures other[i] == other[j]
    {
      assert other[i] in multiset(nodes) && other[j] in multiset(nodes);
    }
  }

  lemma LikeTheFirstTwo(local: Option<Node>, a: Node, b: Node, rest: seq<Node>)
    requires Marked(local, [a, b]) && Alike(a, b)
    ensures OnlyLike(Unsorted(local, [a, b] + rest), a) == [a, b] + OnlyLike(rest, a)
  {
    var front := Unsorted(local, []);
    assert [a, b][0] == a;
    assert [a, b][1..] == [b] && [b][1..] == [];
    assert OnlyLike([b], a) == [b];
    assert [a] + [b] == [a, b];
    OnlyLikeAppend(front, [a, b] + rest, a);
    OnlyLikeAppend([a, b], rest, a);
    assert OnlyLike(front, a) == [];
    assert Unsorted(local, [a, b] + rest) == front + ([a, b] + rest);
  }

  /** Two remote nodes that share a name but differ swap places with their probes. */
  lemma SwappedProbesShow(local: Option<Node>, a: Node, b: Node, rest: seq<Node>)
    requires Marked(local, [a, b]) && Alike(a, b) && a != b
    ensures Listing(local, [a, b] + rest) != Listing(local, [b, a] + rest)
  {
    hide StableSort, Sorted, OnlyLike;
    var ab, ba := Unsorted(local, [a, b] + rest), Unsorted(local, [b, a] + rest);
    SortKeeps(ab);
    SortKeeps(ba);
    assert OnlyLike(StableSort(ab), a) == OnlyLike(ab, a) && OnlyLike(StableSort(ba), a) == OnlyLike(ba, a);
    assert [a, b][0] == a && [a, b][1] == b && [b, a][0] == b && [b, a][1] == a;
    assert Marked(local, [b, a]);
    LikeTheFirstTwo(local, a, b, rest);
    LikeTheFirstTwo(local, b, a, rest);
    LikeKindsAgree(ba, a, b);
    LikeKindsAgree(rest, a, b);
    assert ([a, b] + OnlyLike(rest, a))[0] == a && ([b, a] + OnlyLike(rest, a))[0] == b;
  }

  lemma PickTwo(nodes: seq<Node>, i: nat, j: nat) returns (rest: seq<Node>)
    requires i < j < |nodes|
    ensures multiset([nodes[i], nodes[j]] + rest) == multiset(nodes) == multiset([nodes[j], nodes[i]] + rest)
  {
    rest := nodes[..i] + nodes[i + 1..j] + nodes[j + 1..];
    assert nodes == nodes[..i] + [nodes[i]] + nodes[i + 1..j] + [nodes[j]] + nodes[j + 1..];
  }

  lemma LocalStandsApart(local: Option<Node>, remotes: seq<Node>)
    requires Marked(local, remotes) && NamesTellApart(remotes)
    ensures NamesTellApart(Unsorted(local, remotes))
  {
    var front := if local.Some? then 1 else 0;
    forall i, j | 0 <= i < |remotes| + front && 0 <= j < |remotes| + front
                  && Alike(Unsorted(local, remotes)[i], Unsorted(local, remotes)[j])
      ensures Unsorted(local, remotes)[i] == Unsorted(local, remotes)[j]
    {
      if i >= front && j >= front {
        assert Alike(remotes[i - front], remotes[j - front]);
      }
    }
  }

  lemma ApartMeansSame(local: Option<Node>, remotes: seq<Node>, other: seq<Node>)
    requires Marked(local, remotes) && NamesTellApart(remotes) && multiset(other) == multiset(remotes)
    ensures Listing(local, other) == Listing(local, remotes)
  {
    SortKeeps(Unsorted(local, other));
    SortKeeps(Unsorted(local, remotes));
    LocalStandsApart(local, remotes);
    hide StableSort, Sorted, NamesTellApart;
    NamedApartAnyOrder(Unsorted(local, remotes), Listing(local, remotes));
    SortedByNameIsUnique(Listing(local, remotes), Listing(local, other));
  }

  /**
    * The list comes out the same for every order in which probes can finish, exactly when names tell the nodes
    * apart.
    */
  lemma SchedulingIsInvisibleExactly(local: Option<Node>, remotes: seq<Node>)
    requires Marked(local, remotes)
    ensures SameForAllSchedules(local, remotes) <==> NamesTellApart(remotes)
  {
    hide Listing, StableSort;
    if NamesTellApart(remotes) {
      forall other | multiset(other) == multiset(remotes)
        ensures Listing(local, other) == Listing(local, remotes)
      {
        ApartMeansSame(local, remotes, other);
      }
    } else {
      var i: nat, j: nat :| i < |remotes| && j < |remotes| && Alike(remotes[i], remotes[j]) && remotes[i] != remotes[j];
      var low, high := if i < j then i else j, if i < j then j else i;
      var rest := PickTwo(remotes, low, high);
      SwappedProbesShow(local, remotes[low], remotes[high], rest);
    }
  }

  // ------------------------------------------------------------------
  // Discovery as a whole
  // ------------------------------------------------------------------

  datatype Report = Report(peer: Peer, answers: Answers)

  /** The nodes that probing remote peers yields, in the order the probes finish. */
  function Found(context: Context, reports: seq<Report>): seq<Node> {
    if reports == [] then []
    else
      var last := reports[|reports| - 1];
      var node := Probe(context, last.peer, false, last.answers);
      Found(context, reports[..|reports| - 1]) + if node.Some? then [node.value] else []
  }

  lemma {:induction false} FoundAppend(context: Context, left: seq<Report>, right: seq<Report>)
    ensures Found(context, left + right) == Found(context, left) + Found(context, right)
  {
    if right == [] {
      assert left + right == left;
    } else {
      FoundAppend(context, left, right[..|right| - 1]);
      assert (left + right)[..|left + right| - 1] == left + right[..|right| - 1];
    }
  }

  /** What is found is what some probe yields, as many times as probes yield it. */
  lemma {:induction false} FoundExactly(context: Context, reports: seq<Report>, node: Node)
    ensures node in Found(context, reports)
        <==> exists i :: 0 <= i < |reports| && Probe(context, reports[i].peer, false, reports[i].answers) == Some(node)
    ensures |Found(context, reports)| == Yielding(context, reports)
  {
    hide Probe;
    if reports != [] {
      var front, last := reports[..|reports| - 1], reports[|reports| - 1];
      FoundExactly(context, front, node);
      assert forall i | 0 <= i < |front| :: front[i] == reports[i];
    }
  }

  /** How many of the probes yield a node. */
  function Yielding(context: Context, reports: seq<Report>): nat {
    if reports == [] then 0
    else
      var last := reports[|reports| - 1];
      Yielding(context, reports[..|reports| - 1])
      + if Probe(context, last.peer, false, last.answers).Some? then 1 else 0
  }

  lemma {:induction false} FoundIsRemote(context: Context, reports: seq<Report>)
    ensures forall i | 0 <= i < |Found(context, reports)| :: !Found(context, reports)[i].isLocal
  {
    if reports != [] {
      FoundIsRemote(context, reports[..|reports| - 1]);
    }
  }

  /** Which place a report takes makes no difference to what is found. */
  lemma FoundAroundOne(context: Context, before: seq<Report>, report: Report, after: seq<Report>)
    ensures multiset(Found(context, before + [report] + after))
         == multiset(Found(context, before + after)) + multiset(Found(context, [report]))
  {
    hide Found;
    FoundAppend(context, before + [report], after);
    FoundAppend(context, before, [report]);
    FoundAppend(context, before, after);
  }

  /** Finds one item in another order of the same items. */
  lemma TakeOut<T>(front: seq<T>, item: T, right: seq<T>) returns (before: seq<T>, after: seq<T>)
    requires multiset(front + [item]) == multiset(right)
    ensures right == before + [item] + after && multiset(front) == multiset(before + after)
  {
    assert item in multiset(front + [item]);
    var k :| 0 <= k < |right| && right[k] == item;
    before, after := right[..k], right[k + 1..];
    assert right == before + [item] + after;
    assert multiset(right) == multiset(before + after) + multiset{item};
    assert multiset(front) == multiset(right) - multiset{item};
  }

  lemma {:induction false} FoundInAnyOrder(context: Context, left: seq<Report>, right: seq<Report>)
    requires multiset(left) == multiset(right)
    ensures multiset(Found(context, left)) == multiset(Found(context, right))
    decreases |left|
  {
    hide Found;
    if left == [] {
      assert |multiset(right)| == |right|;
    } else {
      var report, front := left[|left| - 1], left[..|left| - 1];
      assert left == front + [report] && left == front + [report] + [] && front + [] == front;
      var before, after := TakeOut(front, report, right);
      FoundInAnyOrder(context, front, before + after);
      FoundAroundOne(context, front, report, []);
      FoundAroundOne(context, before, report, after);
    }
  }

  /** What a run of discovery returns when its probes finish in the order of `reports`. */
  function Discovered(context: Context, here: Report, reports: seq<Report>): seq<Node> {
    Listing(Probe(context, here.peer, true, here.answers), Found(context, reports))
  }

  /**
    * Two runs over the same peers with the same answers return the same list, in whatever order their probes
    * finish, as long as no two different remote nodes share a name.
    */
  lemma DiscoveryIgnoresScheduling(context: Context, here: Report, left: seq<Report>, right: seq<Report>)
    requires multiset(left) == multiset(right) && NamesTellApart(Found(context, left))
    ensures Discovered(context, here, left) == Discovered(context, here, right)
  {
    FoundInAnyOrder(context, left, right);
    FoundIsRemote(context, left);
    SchedulingIsInvisibleExactly(Probe(context, here.peer, true, here.answers), Found(context, left));
  }

  lemma InsertPasses(nodes: seq<Node>, i: nat, j: nat, node: Node)
    requires 0 < j <= i <= |nodes| && Before(node, nodes[j - 1])
    ensures Insert(nodes[..j], node) + nodes[j..i] == Insert(nodes[..j - 1], node) + nodes[j - 1..i]
  {
    assert nodes[..j][..j - 1] == nodes[..j - 1];
    assert [nodes[j - 1]] + nodes[j..i] == nodes[j - 1..i];
    hide Before;
    var front := Insert(nodes[..j - 1], node);
    assert (front + [nodes[j - 1]]) + nodes[j..i] == front + ([nodes[j - 1]] + nodes[j..i]);
  }

  lemma InsertStops(nodes: seq<Node>, j: nat, node: Node)
    requires j <= |nodes| && (j > 0 ==> !Before(node, nodes[j - 1]))
    ensures Insert(nodes[..j], node) == nodes[..j] + [node]
  {
  }

  /** Moves node `i` down into the sorted stretch before it. */
  method InsertInPlace(nodes: array<Node>, i: nat)
    requires i < nodes.Length
    modifies nodes
    ensures nodes[..i + 1] == Insert(old(nodes[..i]), old(nodes[i]))
    ensures nodes[i + 1..] == old(nodes[i + 1..])
  {
    hide Insert;
    ghost var was := nodes[..];
    var node := nodes[i];
    var j := i;
    assert Insert(was[..i], node) + was[i..i] == Insert(was[..i], node);
    while j > 0 && Before(node, nodes[j - 1])
      invariant j <= i
      invariant forall k | 0 <= k < j || i < k < nodes.Length :: nodes[k] == was[k]
      invariant forall k | j < k <= i :: nodes[k] == was[k - 1]
      invariant Insert(was[..i], node) == Insert(was[..j], node) + was[j..i]
    {
      InsertPasses(was, i, j, node);
      nodes[j] := nodes[j - 1];
      j := j - 1;
    }
    InsertStops(was, j, node);
    nodes[j] := node;
    Assembled(was, nodes[..], i, j, node);
  }

  lemma Assembled(was: seq<Node>, nodes: seq<Node>, i: nat, j: nat, node: Node)
    requires |was| == |nodes| && j <= i < |nodes| && nodes[j] == node
    requires forall k | 0 <= k < j || i < k < |nodes| :: nodes[k] == was[k]
    requires forall k | j < k <= i :: nodes[k] == was[k - 1]
    ensures nodes[..i + 1] == (was[..j] + [node]) + was[j..i] && nodes[i + 1..] == was[i + 1..]
  {
  }

  /** The library's stable sort, here by insertion; `StableOrderIsUnique` says why the choice does not show. */
  method SortNodes(nodes: array<Node>)
    modifies nodes
    ensures nodes[..] == StableSort(old(nodes[..]))
  {
    ghost var was := nodes[..];
    var i := 0;
    while i < nodes.Length
      invariant i <= nodes.Length
      invariant nodes[..i] == StableSort(was[..i]) && nodes[i..] == was[i..]
    {
      assert nodes[i] == was[i..][0] == was[i];
      assert was[..i + 1][..i] == was[..i];
      InsertInPlace(nodes, i);
      i := i + 1;
    }
    assert was[..i] == was;
  }

  lemma LocalIsMarked(context: Context, peer: Peer, answers: Answers)
    ensures var node := Probe(context, peer, true, answers); node.Some? ==> node.value.isLocal
  {
  }

  /** Gathers the nodes the remote probes yield, one probe after the other. */
  method Collect(context: Context, finished: seq<Report>) returns (found: seq<Node>)
    ensures found == Found(context, finished)
  {
    hide Probe;
    found := [];
    var i := 0;
    while i < |finished|
      invariant i <= |finished|
      invariant found == Found(context, finished[..i])
    {
      assert finished[..i + 1][..i] == finished[..i];
      var remote := Probe(context, finished[i].peer, false, finished[i].answers);
      if remote.Some? {
        found := found + [remote.value];
      }
      i := i + 1;
    }
    assert finished[..i] == finished;
  }

  function PeersOf(reports: seq<Report>): seq<Peer> {
    seq(|reports|, i requires 0 <= i < |reports| => reports[i].peer)
  }

  /**
    * The whole operation. `local` and `here` are this computer and its agent's answers; `finished` holds the
    * peers with theirs, in the order the probes finish; `stored` is the allowlist, read as empty when it cannot be.
    */
  method Execute(current: Release, local: Option<Peer>, here: Answers, peers: Option<seq<Peer>>, finished: seq<Report>,
                 stored: Option<seq<Access.AllowedController>>, includeAll: bool)
    returns (answer: Result<seq<Node>, DiscoveryError>)
    requires peers.Some? ==> multiset(PeersOf(finished)) == multiset(peers.value)
    ensures answer.Err? <==> local.None? || peers.None? || |peers.value| > MAX_DISCOVERY_PEERS
    ensures answer == Err(PeerLimit) <==> local.Some? && peers.Some? && |peers.value| > MAX_DISCOVERY_PEERS
    ensures answer.Ok? ==>
              var context := Context(current, Or(stored, []), Or(local.value.hostname, local.value.nodeId), includeAll);
              && answer.value == Discovered(context, Report(local.value, here), finished)
              && Sorted(answer.value)
              && (var node := Probe(context, local.value, true, here);
                  && multiset(answer.value)
                     == multiset(Found(context, finished)) + (if node.Some? then multiset{node.value} else multiset{})
                  && (node.Some? ==> answer.value != [] && answer.value[0] == node.value))
  {
    hide Probe, Found, StableSort, Sorted;
    if local.None? || peers.None? {
      return Err(MeshFailed);
    }
    if |peers.value| > MAX_DISCOVERY_PEERS {
      return Err(PeerLimit);
    }
    var context := Context(current, Or(stored, []), Or(local.value.hostname, local.value.nodeId), includeAll);
    var found := [];
    var node := Probe(context, local.value, true, here);
    if node.Some? {
      found := [node.value];
    }
    var remotes := Collect(context, finished);
    found := found + remotes;
    assert found == Unsorted(node, remotes);
    var nodes := new Node[|found|](k requires 0 <= k < |found| => found[k]);
    assert nodes[..] == found;
    SortNodes(nodes);
    SortKeeps(found);
    FoundIsRemote(context, finished);
    LocalIsMarked(context, local.value, here);
    if node.Some? {
      LocalNodeComesFirst(node.value, remotes);
    }
    answer := Ok(nodes[..]);
  }
}
