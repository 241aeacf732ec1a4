/**
 What the worklist of `generate_graph` keeps true of the partial graph, proved one primitive
 change at a time. Between turns every slot, one input port of one node, is either wired by an edge
 or awaited by exactly one queued entry; within a turn it may also be an open hole.
 */
module GraphInvariant {
  import opened Wrappers
  import opened Trace
  import opened DataflowGraph

  /** Why a node exists: it was made for a tensor, it is a model output, or it is a passthrough nop. */
  datatype Role = Made(t: Tensor) | OutputFor(t: Tensor) | Bypass(t: Tensor)

  datatype Slot = Slot(node: nat, port: nat)

  datatype Pending = Pending(tensor: Tensor, consumer: nat, port: nat, broadcasts: seq<Broadcast>, subgraph: nat)

  /**
   A snapshot of the generator. `roles` (why a node exists) and `wired` (which edge fills a slot)
   exist for the proof only.
   */
  datatype State = State(
    nodes: seq<Node>, edges: seq<Edge>, visited: map<Tensor, nat>, recorded: map<string, nat>, pending: seq<Pending>,
    roles: seq<Role>, wired: map<Slot, nat>)

  ghost function Arity(tr: Trace, role: Role): nat {
    match role
    case Made(t) => if t < |tr| && tr[t].Produced? then |tr[t].operands| else 0
    case _ => 1
  }

  /** The tensor that must arrive at port `p` of a node with this role. */
  ghost function Wanted(tr: Trace, role: Role, p: nat): Tensor
    requires p < Arity(tr, role)
  {
    if role.Made? then tr[role.t].operands[p] else role.t
  }

  ghost function WantedStretch(tr: Trace, role: Role, p: nat): seq<(int, int)>
    requires p < Arity(tr, role)
  {
    if role.Made? then Select(tr[role.t].broadcasts, p) else []
  }

  ghost predicate MadeFits(src: Source, node: Node) {
    match src
    case Param(name) => node.ParameterInput? && (name.Some? ==> node.name == name.value)
    case Plain(c) =>
      if node.ConstantInput? then c == Some(node.value)
      else !node.OpNode? && !node.Output?
    case Literal(v, _) => node.ConstantInput? && node.value == v
    case Produced(op, name, _, _) => node.OpNode? && node.op == op && node.name == name
  }

  ghost predicate RoleFits(tr: Trace, node: Node, role: Role) {
    role.t < |tr| &&
    match role
    case OutputFor(t) => node.Output?
    case Bypass(t) => node.OpNode? && node.op.Nop? && tr[t].Plain?
    case Made(t) => MadeFits(tr[t], node)
  }

  ghost predicate NodesOk(tr: Trace, outputs: seq<Tensor>, nodes: seq<Node>, roles: seq<Role>)
    requires Acyclic(tr)
  {
    && |roles| == |nodes|
    && (forall n :: 0 <= n < |nodes| ==> RoleFits(tr, nodes[n], roles[n]))
    && (forall n :: 0 <= n < |nodes| ==> Reachable(tr, outputs, roles[n].t))
    && (forall n :: 0 <= n < |nodes| ==> (roles[n].OutputFor? <==> n < |outputs|))
    && (forall n :: 0 <= n < |nodes| && n < |outputs| ==> roles[n].t == outputs[n])
    && (forall i, j :: 0 <= i < j < |nodes| ==> nodes[i].name != nodes[j].name)
  }

  /** `visited` is exactly the inverse of "made for": one node per distinct tensor. */
  ghost predicate VisitedOk(roles: seq<Role>, visited: map<Tensor, nat>) {
    && (forall t :: t in visited ==> visited[t] < |roles| && roles[visited[t]] == Made(t))
    && (forall n :: 0 <= n < |roles| && roles[n].Made? ==> roles[n].t in visited && visited[roles[n].t] == n)
  }

  ghost predicate RecordedOk(nodes: seq<Node>, recorded: map<string, nat>) {
    forall x :: x in recorded ==>
      recorded[x] < |nodes| && nodes[recorded[x]].ParameterInput? && nodes[recorded[x]].name == x
  }

  function SlotOf(e: Edge): Slot { Slot(e.consumer, e.port) }

  function PendingSlot(p: Pending): Slot { Slot(p.consumer, p.port) }

  /** The name of a parameter, or one made from its first consumer. */
  function ParameterNameAt(src: Source, consumer: string): string
    requires src.Param?
  {
    if src.paramName.Some? then src.paramName.value else "parameter_" + consumer
  }

  /** `want` is a parameter that the code looks up under the name of this parameter node of another subgraph. */
  ghost predicate SharesName(tr: Trace, node: Node, consumer: Node, want: Tensor) {
    && want < |tr| && tr[want].Param? && node.ParameterInput? && node.subgraph != consumer.subgraph
    && node.name == ParameterNameAt(tr[want], consumer.name)
  }

  /** Node `producer` delivers tensor `want` to node `consumer`. */
  ghost predicate Supplies(tr: Trace, nodes: seq<Node>, roles: seq<Role>, producer: nat, consumer: nat, want: Tensor)
    requires |roles| == |nodes| && producer < |nodes| && consumer < |nodes|
  {
    || roles[producer] == Made(want)
    || (roles[producer] == Bypass(want) && roles[consumer].OutputFor?)
    || SharesName(tr, nodes[producer], nodes[consumer], want)
  }

  ghost predicate EdgeOk(tr: Trace, nodes: seq<Node>, roles: seq<Role>, e: Edge)
    requires |roles| == |nodes|
  {
    && e.consumer < |nodes| && e.producer < |nodes| && e.producerPort == 0
    && e.port < Arity(tr, roles[e.consumer])
    && e.stretch == WantedStretch(tr, roles[e.consumer], e.port)
    && Supplies(tr, nodes, roles, e.producer, e.consumer, Wanted(tr, roles[e.consumer], e.port))
  }

  ghost predicate EdgesOk(tr: Trace, nodes: seq<Node>, roles: seq<Role>, edges: seq<Edge>)
    requires |roles| == |nodes|
  {
    forall i :: 0 <= i < |edges| ==> EdgeOk(tr, nodes, roles, edges[i])
  }

  /** `wired` is a one-to-one index of the edges by slot. */
  ghost predicate WiredOk(edges: seq<Edge>, wired: map<Slot, nat>) {
    && (forall i :: 0 <= i < |edges| ==> SlotOf(edges[i]) in wired && wired[SlotOf(edges[i])] == i)
    && (forall x :: x in wired ==> wired[x] < |edges| && SlotOf(edges[wired[x]]) == x)
  }

  ghost predicate EntryOk(tr: Trace, nodes: seq<Node>, roles: seq<Role>, p: Pending)
    requires |roles| == |nodes|
  {
    && p.consumer < |nodes| && p.port < Arity(tr, roles[p.consumer])
    && p.tensor == Wanted(tr, roles[p.consumer], p.port)
    && Select(p.broadcasts, p.port) == WantedStretch(tr, roles[p.consumer], p.port)
    && p.subgraph == nodes[p.consumer].subgraph
    && (roles[p.consumer].OutputFor? ==> p.broadcasts == []) && !roles[p.consumer].Bypass?
  }

  ghost predicate EntriesOk(tr: Trace, nodes: seq<Node>, roles: seq<Role>, pending: seq<Pending>)
    requires |roles| == |nodes|
  {
    && (forall i :: 0 <= i < |pending| ==> EntryOk(tr, nodes, roles, pending[i]))
    && (forall i, j :: 0 <= i < j < |pending| ==> PendingSlot(pending[i]) != PendingSlot(pending[j]))
  }

  ghost function Slots(q: seq<Pending>): set<Slot> {
    set i | 0 <= i < |q| :: PendingSlot(q[i])
  }

  /** Each slot of the graph is wired, or waits in the queue, or is one of `holes`; never two of these. */
  ghost predicate Covered(tr: Trace, roles: seq<Role>, wired: set<Slot>, waiting: set<Slot>, holes: set<Slot>) {
    && waiting !! wired && holes !! wired && holes !! waiting
    && (forall n, p :: 0 <= n < |roles| && 0 <= p < Arity(tr, roles[n]) ==> Slot(n, p) in wired + waiting + holes)
    && (forall x :: x in wired + waiting + holes ==> x.node < |roles|)
  }

  ghost predicate Inv(tr: Trace, outputs: seq<Tensor>, s: State, holes: set<Slot>)
    requires Acyclic(tr)
  {
    && NodesOk(tr, outputs, s.nodes, s.roles)
    && VisitedOk(s.roles, s.visited) && RecordedOk(s.nodes, s.recorded)
    && EdgesOk(tr, s.nodes, s.roles, s.edges) && WiredOk(s.edges, s.wired)
    && EntriesOk(tr, s.nodes, s.roles, s.pending)
    && Covered(tr, s.roles, s.wired.Keys, Slots(s.pending), holes)
  }

  lemma SlotsOfTail(q: seq<Pending>)
    requires q != []
    requires forall i, j :: 0 <= i < j < |q| ==> PendingSlot(q[i]) != PendingSlot(q[j])
    ensures Slots(q) == Slots(q[1..]) + {PendingSlot(q[0])}
    ensures PendingSlot(q[0]) !in Slots(q[1..])
  {
    forall x | x in Slots(q)
      ensures x in Slots(q[1..]) + {PendingSlot(q[0])}
    {
      var i :| 0 <= i < |q| && x == PendingSlot(q[i]);
      if i > 0 {
        assert q[i] == q[1..][i - 1];
      }
    }
  }

  lemma SlotsOfSnoc(q: seq<Pending>, p: Pending)
    ensures Slots(q + [p]) == Slots(q) + {PendingSlot(p)}
  {
    forall x | x in Slots(q) + {PendingSlot(p)}
      ensures x in Slots(q + [p])
    {
      if x == PendingSlot(p) {
        assert (q + [p])[|q|] == p;
      } else {
        var i :| 0 <= i < |q| && x == PendingSlot(q[i]);
        assert (q + [p])[i] == q[i];
      }
    }
  }

  // ----- the primitive changes

  ghost function Pop(s: State): State
    requires s.pending != []
  {
    s.(pending := s.pending[1..])
  }

  lemma WantedReachable(tr: Trace, outputs: seq<Tensor>, s: State, p: Pending)
    requires Acyclic(tr) && NodesOk(tr, outputs, s.nodes, s.roles) && EntryOk(tr, s.nodes, s.roles, p)
    ensures Reachable(tr, outputs, p.tensor)
  {
    var u := s.roles[p.consumer].t;
    if s.roles[p.consumer].Made? {
      assert Feeds(tr, p.tensor, u);
    }
  }

  lemma PopKeeps(tr: Trace, outputs: seq<Tensor>, s: State)
    requires Acyclic(tr) && Inv(tr, outputs, s, {}) && s.pending != []
    ensures Inv(tr, outputs, Pop(s), {PendingSlot(s.pending[0])})
    ensures EntryOk(tr, s.nodes, s.roles, s.pending[0]) && Reachable(tr, outputs, s.pending[0].tensor)
  {
    SlotsOfTail(s.pending);
    WantedReachable(tr, outputs, s, s.pending[0]);
  }

  ghost function Push(s: State, p: Pending): State {
    s.(pending := s.pending + [p])
  }

  lemma CoveredMoves(tr: Trace, roles: seq<Role>, wired: set<Slot>, waiting: set<Slot>, holes: set<Slot>, x: Slot)
    requires Covered(tr, roles, wired, waiting, holes) && x in holes
    ensures Covered(tr, roles, wired + {x}, waiting, holes - {x})
    ensures Covered(tr, roles, wired, waiting + {x}, holes - {x})
  {
    assert wired + {x} + waiting + (holes - {x}) == wired + waiting + holes;
    assert wired + (waiting + {x}) + (holes - {x}) == wired + waiting + holes;
  }

  lemma EntryQueued(tr: Trace, nodes: seq<Node>, roles: seq<Role>, pending: seq<Pending>, p: Pending,
                    wired: set<Slot>, holes: set<Slot>)
    requires |roles| == |nodes| && EntriesOk(tr, nodes, roles, pending) && EntryOk(tr, nodes, roles, p)
    requires Covered(tr, roles, wired, Slots(pending), holes) && PendingSlot(p) in holes
    ensures EntriesOk(tr, nodes, roles, pending + [p])
    ensures Covered(tr, roles, wired, Slots(pending + [p]), holes - {PendingSlot(p)})
  {
    SlotsOfSnoc(pending, p);
    CoveredMoves(tr, roles, wired, Slots(pending), holes, PendingSlot(p));
    forall i | 0 <= i < |pending|
      ensures PendingSlot(pending[i]) != PendingSlot(p)
    {
      assert PendingSlot(pending[i]) in Slots(pending);
    }
  }

  lemma PushKeeps(tr: Trace, outputs: seq<Tensor>, s: State, holes: set<Slot>, p: Pending)
    requires Acyclic(tr) && Inv(tr, outputs, s, holes)
    requires EntryOk(tr, s.nodes, s.roles, p) && PendingSlot(p) in holes
    ensures Inv(tr, outputs, Push(s, p), holes - {PendingSlot(p)})
  {
    EntryQueued(tr, s.nodes, s.roles, s.pending, p, s.wired.Keys, holes);
  }

  ghost function AddEdge(s: State, e: Edge): State {
    s.(edges := s.edges + [e], wired := s.wired[SlotOf(e) := |s.edges|])
  }

  lemma WiredKeeps(edges: seq<Edge>, wired: map<Slot, nat>, e: Edge)
    requires WiredOk(edges, wired) && SlotOf(e) !in wired
    ensures WiredOk(edges + [e], wired[SlotOf(e) := |edges|])
    ensures wired[SlotOf(e) := |edges|].Keys == wired.Keys + {SlotOf(e)}
  {
  }

  lemma AddEdgeKeeps(tr: Trace, outputs: seq<Tensor>, s: State, holes: set<Slot>, e: Edge)
    requires Acyclic(tr) && Inv(tr, outputs, s, holes)
    requires EdgeOk(tr, s.nodes, s.roles, e) && SlotOf(e) in holes
    ensures Inv(tr, outputs, AddEdge(s, e), holes - {SlotOf(e)})
  {
    WiredKeeps(s.edges, s.wired, e);
    CoveredMoves(tr, s.roles, s.wired.Keys, Slots(s.pending), holes, SlotOf(e));
  }

  ghost function AddNode(s: State, node: Node, role: Role): State {
    s.(nodes := s.nodes + [node], roles := s.roles + [role],
        visited := if role.Made? then s.visited[role.t := |s.nodes|] else s.visited)
  }

  ghost function NewSlots(tr: Trace, n: nat, role: Role): set<Slot> {
    set p | 0 <= p < Arity(tr, role) :: Slot(n, p)
  }

  lemma NodesGrow(tr: Trace, outputs: seq<Tensor>, nodes: seq<Node>, roles: seq<Role>, node: Node, role: Role)
    requires Acyclic(tr) && NodesOk(tr, outputs, nodes, roles)
    requires RoleFits(tr, node, role) && Reachable(tr, outputs, role.t)
    requires role.OutputFor? <==> |nodes| < |outputs|
    requires role.OutputFor? ==> role.t == outputs[|nodes|]
    requires forall n :: 0 <= n < |nodes| ==> nodes[n].name != node.name
    ensures NodesOk(tr, outputs, nodes + [node], roles + [role])
  {
    forall n | 0 <= n < |nodes|
      ensures RoleFits(tr, nodes[n], roles[n])
    {
      assert RoleFits(tr, nodes[n], roles[n]);
    }
  }

  lemma VisitedGrows(roles: seq<Role>, visited: map<Tensor, nat>, role: Role)
    requires VisitedOk(roles, visited)
    requires role.Made? ==> role.t !in visited
    ensures VisitedOk(roles + [role], if role.Made? then visited[role.t := |roles|] else visited)
  {
  }

  lemma CoveredGrows(tr: Trace, roles: seq<Role>, wired: set<Slot>, waiting: set<Slot>, holes: set<Slot>, role: Role)
    requires Covered(tr, roles, wired, waiting, holes)
    ensures Covered(tr, roles + [role], wired, waiting, holes + NewSlots(tr, |roles|, role))
  {
    var added := NewSlots(tr, |roles|, role);
    assert forall x :: x in added ==> x.node == |roles|;
    assert wired + waiting + (holes + added) == wired + waiting + holes + added;
  }

  lemma EdgesGrow(tr: Trace, nodes: seq<Node>, roles: seq<Role>, edges: seq<Edge>,
                  newNodes: seq<Node>, newRoles: seq<Role>)
    requires |roles| == |nodes| && |newRoles| == |newNodes|
    requires EdgesOk(tr, nodes, roles, edges)
    ensures EdgesOk(tr, nodes + newNodes, roles + newRoles, edges)
  {
    forall i | 0 <= i < |edges|
      ensures EdgeOk(tr, nodes + newNodes, roles + newRoles, edges[i])
    {
      assert EdgeOk(tr, nodes, roles, edges[i]);
    }
  }

  lemma EntriesGrow(tr: Trace, nodes: seq<Node>, roles: seq<Role>, pending: seq<Pending>,
                    newNodes: seq<Node>, newRoles: seq<Role>)
    requires |roles| == |nodes| && |newRoles| == |newNodes|
    requires EntriesOk(tr, nodes, roles, pending)
    ensures EntriesOk(tr, nodes + newNodes, roles + newRoles, pending)
  {
    forall i | 0 <= i < |pending|
      ensures EntryOk(tr, nodes + newNodes, roles + newRoles, pending[i])
    {
      assert EntryOk(tr, nodes, roles, pending[i]);
    }
  }

  lemma AddNodeKeeps(tr: Trace, outputs: seq<Tensor>, s: State, holes: set<Slot>, node: Node, role: Role)
    requires Acyclic(tr) && Inv(tr, outputs, s, holes)
    requires RoleFits(tr, node, role) && Reachable(tr, outputs, role.t)
    requires role.OutputFor? <==> |s.nodes| < |outputs|
    requires role.OutputFor? ==> role.t == outputs[|s.nodes|]
    requires role.Made? ==> role.t !in s.visited
    requires forall n :: 0 <= n < |s.nodes| ==> s.nodes[n].name != node.name
    ensures Inv(tr, outputs, AddNode(s, node, role), holes + NewSlots(tr, |s.nodes|, role))
  {
    NodesGrow(tr, outputs, s.nodes, s.roles, node, role);
    VisitedGrows(s.roles, s.visited, role);
    CoveredGrows(tr, s.roles, s.wired.Keys, Slots(s.pending), holes, role);
    EdgesGrow(tr, s.nodes, s.roles, s.edges, [node], [role]);
    EntriesGrow(tr, s.nodes, s.roles, s.pending, [node], [role]);
  }
}
