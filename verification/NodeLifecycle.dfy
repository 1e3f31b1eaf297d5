/**
 The node status graph and the repository operations on it: a read, a check against the
 graph, and a compare-and-swap that also appends to the audit log.
 */
module NodeLifecycle {
  import opened Basics

  datatype NodeStatus = Provisioning | Active | Unhealthy | Offline | Recovering | Returning | Draining | Failed

  function ValidTargets(from: NodeStatus): set<NodeStatus> {
    match from
    case Provisioning => {Active, Failed}
    case Active => {Unhealthy, Draining}
    case Unhealthy => {Active, Offline}
    case Offline => {Recovering, Returning}
    case Recovering => {Offline, Returning}
    case Returning => {Active, Failed}
    case Draining => {Offline, Active}
    case Failed => {Returning}
  }

  predicate IsValidTransition(from: NodeStatus, to: NodeStatus) { to in ValidTargets(from) }

  /** The same graph by target: from where a node may come. */
  predicate MayBecome(from: NodeStatus, to: NodeStatus) {
    match to
    case Provisioning => false
    case Active => from in {Provisioning, Unhealthy, Returning, Draining}
    case Unhealthy => from == Active
    case Offline => from in {Unhealthy, Recovering, Draining}
    case Recovering => from == Offline
    case Returning => from in {Offline, Recovering, Failed}
    case Draining => from == Active
    case Failed => from in {Provisioning, Returning}
  }

  lemma EdgesIff(from: NodeStatus, to: NodeStatus)
    ensures IsValidTransition(from, to) <==> MayBecome(from, to)
  {
    assert ValidTargets(from) == set t | MayBecome(from, t);
  }

  predicate IsDead(status: NodeStatus) { status in {Offline, Recovering, Failed} }

  datatype Node = Node(status: NodeStatus, capacityMb: int, usedMb: int)
  datatype NodeTransition = NodeTransition(node: string, from: NodeStatus, to: NodeStatus)

  /** The nodes table and the node_transitions table, oldest row first. */
  datatype Registry = Registry(nodes: map<string, Node>, log: seq<NodeTransition>)

  datatype Outcome = Moved | NodeNotFound | InvalidMove | ConcurrentMove | DuplicateNode

  // ---- The two halves of transition() ----

  /** Read the node outside the transaction and check the graph. */
  function CheckMove(r: Registry, id: string, to: NodeStatus): Outcome {
    if id !in r.nodes then NodeNotFound
    else if !IsValidTransition(r.nodes[id].status, to) then InvalidMove
    else Moved
  }

  /** `UPDATE ... WHERE status = from`, and the log row if it hit. */
  function Swap(r: Registry, id: string, from: NodeStatus, to: NodeStatus): (Registry, Outcome) {
    if id in r.nodes && r.nodes[id].status == from then
      (Registry(r.nodes[id := r.nodes[id].(status := to)], r.log + [NodeTransition(id, from, to)]), Moved)
    else (r, ConcurrentMove)
  }

  /** transition() with nothing in between. */
  function Move(r: Registry, id: string, to: NodeStatus): (Registry, Outcome) {
    if CheckMove(r, id, to) == Moved then Swap(r, id, r.nodes[id].status, to) else (r, CheckMove(r, id, to))
  }

  // ---- The audit log as a path ----

  function LogOf(log: seq<NodeTransition>, id: string): seq<NodeTransition> {
    if log == [] then [] else
      var last := log[|log| - 1];
      LogOf(log[..|log| - 1], id) + if last.node == id then [last] else []
  }

  /** `path` walks the graph from `from` to `to` without a gap. */
  ghost predicate Path(path: seq<NodeTransition>, from: NodeStatus, to: NodeStatus) {
    if path == [] then from == to else
      var last := path[|path| - 1];
      last.to == to && IsValidTransition(last.from, last.to) && Path(path[..|path| - 1], from, last.from)
  }

  /** The node's log leads from provisioning to its status. */
  ghost predicate Explained(r: Registry, id: string)
    requires id in r.nodes
  {
    Path(LogOf(r.log, id), Provisioning, r.nodes[id].status)
  }

  /** Every node's log leads from provisioning to its status; nobody else has a log. */
  ghost predicate Audited(r: Registry) {
    && (forall id {:trigger Explained(r, id)} | id in r.nodes :: Explained(r, id))
    && (forall t | t in r.log :: t.node in r.nodes)
  }

  lemma LogOfAppended(log: seq<NodeTransition>, t: NodeTransition, id: string)
    ensures LogOf(log + [t], id) == LogOf(log, id) + if t.node == id then [t] else []
  {
    assert (log + [t])[..|log|] == log;
  }

  lemma PathAppended(path: seq<NodeTransition>, from: NodeStatus, t: NodeTransition)
    requires Path(path, from, t.from) && IsValidTransition(t.from, t.to)
    ensures Path(path + [t], from, t.to)
  {
    assert (path + [t])[..|path|] == path;
  }

  lemma SwapExplains(r: Registry, r': Registry, id: string, t: NodeTransition, other: string)
    requires Audited(r) && id in r.nodes && other in r.nodes && r.nodes[id].status == t.from
    requires t.node == id && IsValidTransition(t.from, t.to)
    requires r' == Registry(r.nodes[id := r.nodes[id].(status := t.to)], r.log + [t])
    ensures Explained(r', other)
  {
    LogOfAppended(r.log, t, other);
    assert Explained(r, other);
    if other == id {
      PathAppended(LogOf(r.log, id), Provisioning, t);
    } else {
      assert LogOf(r.log, other) + [] == LogOf(r.log, other);
    }
  }

  /** A swap along an edge of the graph, however stale the read, keeps every log a path. */
  lemma SwapKeepsAudit(r: Registry, id: string, from: NodeStatus, to: NodeStatus)
    requires Audited(r) && IsValidTransition(from, to)
    ensures Audited(Swap(r, id, from, to).0)
  {
    var r' := Swap(r, id, from, to).0;
    if Swap(r, id, from, to).1 == Moved {
      forall other | other in r'.nodes ensures Explained(r', other) {
        SwapExplains(r, r', id, NodeTransition(id, from, to), other);
      }
    }
  }

  /** Changes that leave the status alone leave the audit alone. */
  lemma SameStatusKeepsAudit(r: Registry, id: string, node: Node)
    requires Audited(r) && id in r.nodes && node.status == r.nodes[id].status
    ensures Audited(r.(nodes := r.nodes[id := node]))
  {
    var r' := r.(nodes := r.nodes[id := node]);
    forall other | other in r'.nodes ensures Explained(r', other) { assert Explained(r, other); }
  }

  lemma {:induction false} NoLogForStrangers(log: seq<NodeTransition>, id: string)
    requires forall t | t in log :: t.node != id
    ensures LogOf(log, id) == []
  {
    if log != [] {
      assert log[|log| - 1] in log;
      NoLogForStrangers(log[..|log| - 1], id);
    }
  }

  /** A new row starts an empty path. */
  lemma InsertKeepsAudit(r: Registry, id: string, node: Node)
    requires Audited(r) && id !in r.nodes && node.status == Provisioning
    ensures Audited(r.(nodes := r.nodes[id := node]))
  {
    var r' := r.(nodes := r.nodes[id := node]);
    assert forall t | t in r.log :: t.node != id;
    NoLogForStrangers(r.log, id);
    forall other | other in r'.nodes ensures Explained(r', other) {
      if other != id { assert Explained(r, other); }
    }
  }

  // ---- Any interleaving of calls ----

  /** A call of transition(id, to): before its read, between read and swap, or ended. */
  datatype Call =
    | Asked(id: string, to: NodeStatus)
    | Read(id: string, from: NodeStatus, to: NodeStatus)
    | Ended(outcome: Outcome)

  /** One half of a call, or another statement on the nodes table. */
  datatype Event =
    | Advance(call: nat)
    | Insert(id: string, capacityMb: int)
    | Touch(id: string, capacityMb: int, usedMb: int)

  datatype World = World(registry: Registry, calls: seq<Call>)

  function Step(w: World, e: Event): World {
    match e
    case Advance(i) =>
      if i >= |w.calls| then w else
        (match w.calls[i]
         case Asked(id, to) =>
           var c := if CheckMove(w.registry, id, to) == Moved then Read(id, w.registry.nodes[id].status, to)
                    else Ended(CheckMove(w.registry, id, to));
           w.(calls := w.calls[i := c])
         case Read(id, from, to) =>
           var (r, outcome) := Swap(w.registry, id, from, to);
           World(r, w.calls[i := Ended(outcome)])
         case Ended(_) => w)
    case Insert(id, capacityMb) =>
      if id in w.registry.nodes then w
      else w.(registry := w.registry.(nodes := w.registry.nodes[id := Node(Provisioning, capacityMb, 0)]))
    case Touch(id, capacityMb, usedMb) =>
      if id !in w.registry.nodes then w
      else
        var node := w.registry.nodes[id].(capacityMb := capacityMb, usedMb := usedMb);
        w.(registry := w.registry.(nodes := w.registry.nodes[id := node]))
  }

  function Run(w: World, events: seq<Event>): World {
    if events == [] then w else Step(Run(w, events[..|events| - 1]), events[|events| - 1])
  }

  ghost predicate ReadsFollowGraph(calls: seq<Call>) {
    forall c | c in calls && c.Read? :: IsValidTransition(c.from, c.to)
  }

  function Moves(calls: seq<Call>): nat {
    if calls == [] then 0 else Moves(calls[..|calls| - 1]) + if calls[|calls| - 1] == Ended(Moved) then 1 else 0
  }

  lemma {:induction false} MovesAfterUpdate(calls: seq<Call>, i: nat, c: Call)
    requires i < |calls|
    ensures Moves(calls[i := c]) - (if c == Ended(Moved) then 1 else 0)
      == Moves(calls) - (if calls[i] == Ended(Moved) then 1 else 0)
  {
    var rest, rest' := calls[..|calls| - 1], calls[i := c][..|calls| - 1];
    if i < |calls| - 1 {
      assert rest' == rest[i := c];
      MovesAfterUpdate(rest, i, c);
    } else {
      assert rest' == rest;
    }
  }

  lemma StepKeepsAudit(w: World, e: Event)
    requires Audited(w.registry) && ReadsFollowGraph(w.calls)
    ensures Audited(Step(w, e).registry) && ReadsFollowGraph(Step(w, e).calls)
    ensures |Step(w, e).registry.log| - Moves(Step(w, e).calls) == |w.registry.log| - Moves(w.calls)
  {
    match e
    case Advance(i) =>
      if i < |w.calls| {
        assert w.calls[i] in w.calls;
        MovesAfterUpdate(w.calls, i, Step(w, e).calls[i]);
        if w.calls[i].Read? { SwapKeepsAudit(w.registry, w.calls[i].id, w.calls[i].from, w.calls[i].to); }
      }
    case Insert(id, capacityMb) =>
      if id !in w.registry.nodes { InsertKeepsAudit(w.registry, id, Node(Provisioning, capacityMb, 0)); }
    case Touch(id, capacityMb, usedMb) =>
      if id in w.registry.nodes {
        SameStatusKeepsAudit(w.registry, id, w.registry.nodes[id].(capacityMb := capacityMb, usedMb := usedMb));
      }
  }

  /**
   In every interleaving each node's log is a path of the graph that ends at its status, with one row per successful
   call.
   */
  lemma {:induction false} AuditHoldsInEveryRun(w: World, events: seq<Event>)
    requires Audited(w.registry) && ReadsFollowGraph(w.calls)
    ensures var w' := Run(w, events);
      && Audited(w'.registry) && ReadsFollowGraph(w'.calls)
      && |w'.registry.log| - |w.registry.log| == Moves(w'.calls) - Moves(w.calls)
  {
    if events != [] {
      AuditHoldsInEveryRun(w, events[..|events| - 1]);
      StepKeepsAudit(Run(w, events[..|events| - 1]), events[|events| - 1]);
    }
  }

  // ---- 'returning' is the only gate out of the dead states ----

  lemma {:induction false} PathSplits(path: seq<NodeTransition>, from: NodeStatus, to: NodeStatus, i: nat)
    requires Path(path, from, to) && i < |path|
    ensures IsValidTransition(path[i].from, path[i].to)
    ensures i + 1 < |path| ==> path[i + 1].from == path[i].to
    ensures i + 1 == |path| ==> path[i].to == to
    ensures i == 0 ==> path[i].from == from
  {
    if i + 1 < |path| {
      var last := path[|path| - 1];
      PathSplits(path[..|path| - 1], from, last.from, i);
    }
  }

  /** Leaving a dead state (at row i) and being active again (after row j) takes a 'returning' in between. */
  lemma {:induction false} ReturningIsTheOnlyGate(path: seq<NodeTransition>, from: NodeStatus, to: NodeStatus, i: nat,
                                                  j: nat)
    requires Path(path, from, to) && i <= j < |path|
    requires IsDead(path[i].from) && path[j].to == Active
    decreases j - i
    ensures exists k :: i <= k < j && path[k].to == Returning
  {
    PathSplits(path, from, to, i);
    if path[i].to == Returning {
      assert i < j;
    } else {
      assert IsDead(path[i].to) && i < j;
      ReturningIsTheOnlyGate(path, from, to, i + 1, j);
    }
  }

  /** The gate, for the log of a node in any run. */
  lemma NoRunSkipsTheGate(w: World, events: seq<Event>, id: string, i: nat, j: nat)
    requires Audited(w.registry) && ReadsFollowGraph(w.calls)
    requires var log := LogOf(Run(w, events).registry.log, id);
      id in Run(w, events).registry.nodes && i <= j < |log| && IsDead(log[i].from) && log[j].to == Active
    ensures exists k :: i <= k < j && LogOf(Run(w, events).registry.log, id)[k].to == Returning
  {
    AuditHoldsInEveryRun(w, events);
    var r := Run(w, events).registry;
    assert Explained(r, id);
    ReturningIsTheOnlyGate(LogOf(r.log, id), Provisioning, r.nodes[id].status, i, j);
  }

  // ---- Writes that go around the state machine ----

  /** markFailed: the status is overwritten and nothing is logged. */
  function MarkFailed(r: Registry, id: string): Registry {
    if id in r.nodes then r.(nodes := r.nodes[id := r.nodes[id].(status := Failed)]) else r
  }

  /** updateHeartbeatWithStatus: any status, and nothing logged. */
  function Heartbeat(r: Registry, id: string, usedMb: int, status: Option<NodeStatus>): Registry {
    if id !in r.nodes then r else
      var node := r.nodes[id].(usedMb := usedMb);
      r.(nodes := r.nodes[id := if status.Some? then node.(status := status.value) else node])
  }

  lemma {:induction false} PathEndIsUnique(path: seq<NodeTransition>, from: NodeStatus, a: NodeStatus, b: NodeStatus)
    requires Path(path, from, a) && Path(path, from, b)
    ensures a == b
  {}

  /** The log still ends at the status exactly when the overwritten status was the same. */
  lemma OverwriteKeepsAuditIff(r: Registry, id: string, status: NodeStatus)
    requires Audited(r) && id in r.nodes
    ensures Audited(r.(nodes := r.nodes[id := r.nodes[id].(status := status)])) <==> r.nodes[id].status == status
  {
    var r' := r.(nodes := r.nodes[id := r.nodes[id].(status := status)]);
    if r.nodes[id].status == status { SameStatusKeepsAudit(r, id, r.nodes[id]); }
    if Audited(r') {
      assert Explained(r, id) && Explained(r', id);
      PathEndIsUnique(LogOf(r.log, id), Provisioning, r.nodes[id].status, status);
    }
  }

  lemma MarkFailedKeepsAuditIff(r: Registry, id: string)
    requires Audited(r)
    ensures Audited(MarkFailed(r, id)) <==> id !in r.nodes || r.nodes[id].status == Failed
  {
    if id in r.nodes { OverwriteKeepsAuditIff(r, id, Failed); }
  }

  lemma HeartbeatKeepsAuditIff(r: Registry, id: string, usedMb: int, status: Option<NodeStatus>)
    requires Audited(r)
    ensures Audited(Heartbeat(r, id, usedMb, status))
      <==> id !in r.nodes || status.None? || status.value == r.nodes[id].status
  {
    if id in r.nodes {
      var touched := r.(nodes := r.nodes[id := r.nodes[id].(usedMb := usedMb)]);
      SameStatusKeepsAudit(r, id, r.nodes[id].(usedMb := usedMb));
      if status.Some? {
        OverwriteKeepsAuditIff(touched, id, status.value);
        assert Heartbeat(r, id, usedMb, status)
          == touched.(nodes := touched.nodes[id := touched.nodes[id].(status := status.value)]);
      }
    }
  }

  // ---- Capacity ----

  function Free(n: Node): int { n.capacityMb - n.usedMb }

  predicate Eligible(nodes: map<string, Node>, exclude: string, requiredMb: int, id: string) {
    id in nodes && id != exclude && nodes[id].status == Active && Free(nodes[id]) >= requiredMb
  }

  function Charged(n: Node, deltaMb: int): Node {
    n.(usedMb := if n.usedMb + deltaMb > 0 then n.usedMb + deltaMb else 0)
  }

  class NodeRepository {
    var nodes: map<string, Node>
    var log: seq<NodeTransition>

    function Contents(): Registry
      reads this
    {
      Registry(nodes, log)
    }

    ghost predicate Valid()
      reads this
    {
      Audited(Contents())
    }

    constructor ()
      ensures Valid() && Contents() == Registry(map[], [])
    {
      nodes, log := map[], [];
    }

    method Transition(id: string, to: NodeStatus) returns (outcome: Outcome)
      requires Valid()
      modifies this
      ensures Valid()
      ensures (Contents(), outcome) == Move(old(Contents()), id, to)
      ensures outcome == if id !in old(nodes) then NodeNotFound
                         else if MayBecome(old(nodes)[id].status, to) then Moved else InvalidMove
      ensures outcome == Moved ==> nodes == old(nodes)[id := old(nodes)[id].(status := to)]
      ensures outcome == Moved ==> log == old(log) + [NodeTransition(id, old(nodes)[id].status, to)]
      ensures outcome != Moved ==> nodes == old(nodes) && log == old(log)
    {
      if id !in nodes { return NodeNotFound; }
      EdgesIff(nodes[id].status, to);
      if !IsValidTransition(nodes[id].status, to) { return InvalidMove; }
      var from := nodes[id].status;
      SwapKeepsAudit(Contents(), id, from, to);
      nodes := nodes[id := nodes[id].(status := to)];
      log := log + [NodeTransition(id, from, to)];
      outcome := Moved;
    }

    /** A new node becomes active, a dead one returning; any other keeps its status. */
    method Register(id: string, capacityMb: int) returns (outcome: Outcome)
      requires Valid()
      modifies this
      ensures Valid() && id in nodes
      ensures nodes[id].capacityMb == capacityMb
      ensures nodes[id].status == if id !in old(nodes) then Active
                                  else if old(nodes)[id].status in {Offline, Recovering, Failed} then Returning
                                  else old(nodes)[id].status
      ensures nodes[id].usedMb == if id in old(nodes) then old(nodes)[id].usedMb else 0
      ensures forall other | other != id ::
        (other in nodes <==> other in old(nodes)) && (other in nodes ==> nodes[other] == old(nodes)[other])
      ensures outcome == Moved
    {
      if id !in nodes {
        outcome := RegisterSelfHosted(id, capacityMb);
      } else {
        var dead := IsDead(nodes[id].status);
        SameStatusKeepsAudit(Contents(), id, nodes[id].(capacityMb := capacityMb));
        nodes := nodes[id := nodes[id].(capacityMb := capacityMb)];
        if dead { outcome := Transition(id, Returning); } else { outcome := Moved; }
      }
    }

    /** Insert as provisioning, then activate; inserting an id twice fails. */
    method RegisterSelfHosted(id: string, capacityMb: int) returns (outcome: Outcome)
      requires Valid()
      modifies this
      ensures Valid()
      ensures id in old(nodes) ==> outcome == DuplicateNode && Contents() == old(Contents())
      ensures id !in old(nodes) ==> outcome == Moved && nodes == old(nodes)[id := Node(Active, capacityMb, 0)]
                                    && log == old(log) + [NodeTransition(id, Provisioning, Active)]
    {
      if id in nodes { return DuplicateNode; }
      InsertKeepsAudit(Contents(), id, Node(Provisioning, capacityMb, 0));
      nodes := nodes[id := Node(Provisioning, capacityMb, 0)];
      outcome := Transition(id, Active);
    }

    /** An active node with the most free capacity, any of them if several have it. */
    method FindBestTarget(exclude: string, requiredMb: int) returns (best: Option<string>)
      ensures best.None? <==> forall id :: !Eligible(nodes, exclude, requiredMb, id)
      ensures best.Some? ==> Eligible(nodes, exclude, requiredMb, best.value)
      ensures best.Some? ==>
        forall id | Eligible(nodes, exclude, requiredMb, id) :: Free(nodes[id]) <= Free(nodes[best.value])
      ensures best.Some? ==> best.value in nodes && best.value != exclude && nodes[best.value].status == Active
      ensures best.Some? ==> nodes[best.value].capacityMb >= nodes[best.value].usedMb + requiredMb
      ensures best.Some? ==> forall id | id in nodes && id != exclude && nodes[id].status == Active ::
        nodes[id].capacityMb - nodes[id].usedMb <= nodes[best.value].capacityMb - nodes[best.value].usedMb
    {
      best := None;
      var rows := nodes.Keys;
      while rows != {}
        invariant rows <= nodes.Keys
        invariant best.Some? ==> Eligible(nodes, exclude, requiredMb, best.value)
        invariant forall id | Eligible(nodes, exclude, requiredMb, id) && id !in rows ::
          best.Some? && Free(nodes[id]) <= Free(nodes[best.value])
        decreases rows
      {
        var id :| id in rows;
        rows := rows - {id};
        if Eligible(nodes, exclude, requiredMb, id) && (best.None? || Free(nodes[best.value]) < Free(nodes[id])) {
          best := Some(id);
        }
      }
    }

    method AddCapacity(id: string, deltaMb: int) returns (found: bool)
      requires Valid()
      modifies this
      ensures Valid() && log == old(log)
      ensures found <==> id in old(nodes)
      ensures nodes == if found then old(nodes)[id := Charged(old(nodes)[id], deltaMb)] else old(nodes)
      ensures found ==> var before, after := old(nodes)[id], nodes[id];
        && after.status == before.status && after.capacityMb == before.capacityMb && after.usedMb >= 0
        && (after.usedMb > 0 ==> after.usedMb == before.usedMb + deltaMb)
        && (after.usedMb == 0 ==> before.usedMb + deltaMb <= 0)
    {
      found := id in nodes;
      if found {
        SameStatusKeepsAudit(Contents(), id, Charged(nodes[id], deltaMb));
        nodes := nodes[id := Charged(nodes[id], deltaMb)];
      }
    }
  }
}
