/**
 How one turn of the worklist of `generate_graph` changes the partial graph, case by case, what every
 turn keeps true, and when a turn is refused.

 Each case of the loop body has its lemma: the popped entry is settled, nothing settled before is lost,
 and the entries still queued account for every open port. A refused turn is then explained by the
 request: two names that meet, or a parameter used twice within one subgraph.
 */
module GraphTurns {
  import opened Wrappers
  import opened Trace
  import opened DataflowGraph
  import opened GraphInvariant
  import opened GraphNames

  // ----- the order of the queue

  ghost predicate OutputWaits(pending: seq<Pending>, outputCount: nat, t: Tensor) {
    exists i :: 0 <= i < |pending| && pending[i].tensor == t && pending[i].consumer < outputCount
  }

  /** Entries for model outputs precede all others, so a passed-through input is first seen by an output. */
  ghost predicate Fifo(tr: Trace, outputs: seq<Tensor>, pending: seq<Pending>, seen: set<Tensor>) {
    && (forall i, j :: 0 <= i < j < |pending| && pending[j].consumer < |outputs| ==> pending[i].consumer < |outputs|)
    && (forall t :: t in outputs ==>
          t < |tr| && (tr[t].Param? || t in seen || OutputWaits(pending, |outputs|, t)))
  }

  lemma PassthroughMeetsOutputFirst(tr: Trace, outputs: seq<Tensor>, pending: seq<Pending>, seen: set<Tensor>)
    requires Fifo(tr, outputs, pending, seen) && pending != []
    requires pending[0].tensor in outputs && pending[0].tensor !in seen && !tr[pending[0].tensor].Param?
    ensures pending[0].consumer < |outputs|
  {
    assert OutputWaits(pending, |outputs|, pending[0].tensor);
  }

  lemma FifoStep(tr: Trace, outputs: seq<Tensor>, pending: seq<Pending>, seen: set<Tensor>,
                 pending': seq<Pending>, seen': set<Tensor>)
    requires Fifo(tr, outputs, pending, seen) && pending != []
    requires pending[1..] <= pending' && seen <= seen'
    requires forall i :: |pending| - 1 <= i < |pending'| ==> pending'[i].consumer >= |outputs|
    requires pending[0].tensor < |tr| && (tr[pending[0].tensor].Param? || pending[0].tensor in seen')
    ensures Fifo(tr, outputs, pending', seen')
  {
    forall i | 0 <= i < |pending| - 1
      ensures pending'[i] == pending[i + 1]
    {
      assert pending'[i] == pending'[..|pending| - 1][i] == pending[1..][i];
    }
    forall t | t in outputs && !tr[t].Param? && t !in seen'
      ensures OutputWaits(pending', |outputs|, t)
    {
      var i :| 0 <= i < |pending| && pending[i].tensor == t && pending[i].consumer < |outputs|;
      assert pending'[i - 1] == pending[i];
    }
  }

  ghost function TensorsBelow(n: nat): (ts: set<Tensor>)
    ensures forall t :: t in ts <==> 0 <= t < n
  {
    if n == 0 then {} else TensorsBelow(n - 1) + {n - 1}
  }

  // ----- handling one popped entry, as a relation between snapshots

  ghost predicate Handling(tr: Trace, outputs: seq<Tensor>, s: State, e: Pending)
    requires Acyclic(tr)
  {
    && Inv(tr, outputs, s, {PendingSlot(e)}) && |outputs| <= |s.nodes|
    && EntryOk(tr, s.nodes, s.roles, e) && Reachable(tr, outputs, e.tensor)
  }

  /** New entries are for operands, and come only with a newly visited tensor. */
  ghost predicate Grows(tr: Trace, outputs: seq<Tensor>, s: State, s': State, e: Pending) {
    && s.visited.Keys <= s'.visited.Keys && s.pending <= s'.pending
    && e.tensor < |tr| && (e.tensor in s'.visited || tr[e.tensor].Param?)
    && (s'.pending == s.pending || s.visited.Keys < s'.visited.Keys)
    && (forall i :: |s.pending| <= i < |s'.pending| ==> s'.pending[i].consumer >= |outputs|)
  }

  ghost predicate Handled(tr: Trace, outputs: seq<Tensor>, s: State, s': State, e: Pending)
    requires Acyclic(tr)
  {
    Inv(tr, outputs, s', {}) && |outputs| <= |s'.nodes| && Grows(tr, outputs, s, s', e)
  }

  ghost predicate NameFree(s: State, name: string) {
    forall n :: 0 <= n < |s.nodes| ==> s.nodes[n].name != name
  }

  ghost function EdgeFor(producer: nat, e: Pending): Edge {
    Edge(producer, 0, e.consumer, e.port, Select(e.broadcasts, e.port))
  }

  lemma EdgeHandles(tr: Trace, outputs: seq<Tensor>, s: State, e: Pending, producer: nat)
    requires Acyclic(tr) && Handling(tr, outputs, s, e)
    requires producer < |s.nodes| && Supplies(tr, s.nodes, s.roles, producer, e.consumer, e.tensor)
    requires e.tensor in s.visited || tr[e.tensor].Param?
    ensures Handled(tr, outputs, s, AddEdge(s, EdgeFor(producer, e)), e)
  {
    AddEdgeKeeps(tr, outputs, s, {PendingSlot(e)}, EdgeFor(producer, e));
    assert {PendingSlot(e)} - {PendingSlot(e)} == {};
  }

  lemma NodeReady(tr: Trace, outputs: seq<Tensor>, s: State, e: Pending, node: Node)
    requires Acyclic(tr) && Handling(tr, outputs, s, e) && e.tensor !in s.visited
    requires MadeFits(tr[e.tensor], node) && NameFree(s, node.name)
    ensures Inv(tr, outputs, AddNode(s, node, Made(e.tensor)),
                {PendingSlot(e)} + NewSlots(tr, |s.nodes|, Made(e.tensor)))
    ensures EntryOk(tr, s.nodes + [node], s.roles + [Made(e.tensor)], e)
  {
    AddNodeKeeps(tr, outputs, s, {PendingSlot(e)}, node, Made(e.tensor));
  }

  /** A node for the entry's tensor, connected to the consumer. */
  ghost function InputAdded(s: State, e: Pending, node: Node): State {
    AddEdge(AddNode(s, node, Made(e.tensor)), EdgeFor(|s.nodes|, e))
  }

  lemma InputHandles(tr: Trace, outputs: seq<Tensor>, s: State, e: Pending, node: Node)
    requires Acyclic(tr) && Handling(tr, outputs, s, e) && e.tensor !in s.visited
    requires MadeFits(tr[e.tensor], node) && !tr[e.tensor].Produced? && NameFree(s, node.name)
    ensures Handled(tr, outputs, s, InputAdded(s, e, node), e)
  {
    NodeReady(tr, outputs, s, e, node);
    assert {PendingSlot(e)} + NewSlots(tr, |s.nodes|, Made(e.tensor)) == {PendingSlot(e)};
    EdgeHandles(tr, outputs, AddNode(s, node, Made(e.tensor)), e, |s.nodes|);
  }

  ghost function Recorded(s: State, name: string, n: nat): State {
    s.(recorded := s.recorded[name := n])
  }

  lemma RecordHandles(tr: Trace, outputs: seq<Tensor>, s: State, s': State, e: Pending, n: nat)
    requires Acyclic(tr) && Handled(tr, outputs, s, s', e)
    requires n < |s'.nodes| && s'.nodes[n].ParameterInput?
    ensures Handled(tr, outputs, s, Recorded(s', s'.nodes[n].name, n), e)
  {
  }

  // ----- parameters and other leaves

  ghost function ParameterAdded(s: State, e: Pending, name: string): State {
    Recorded(InputAdded(s, e, ParameterInput(name, e.subgraph)), name, |s.nodes|)
  }

  /** A second parameter of the same name is loaded from the first one's node. */
  lemma SharedParameterHandles(tr: Trace, outputs: seq<Tensor>, s: State, e: Pending)
    requires Acyclic(tr) && Handling(tr, outputs, s, e) && tr[e.tensor].Param?
    requires var name := ParameterNameAt(tr[e.tensor], s.nodes[e.consumer].name);
             name in s.recorded && s.nodes[s.recorded[name]].subgraph != e.subgraph
    ensures var producer := s.recorded[ParameterNameAt(tr[e.tensor], s.nodes[e.consumer].name)];
            Handled(tr, outputs, s, AddEdge(s, EdgeFor(producer, e)), e)
  {
    EdgeHandles(tr, outputs, s, e, s.recorded[ParameterNameAt(tr[e.tensor], s.nodes[e.consumer].name)]);
  }

  lemma ParameterHandles(tr: Trace, outputs: seq<Tensor>, s: State, e: Pending, name: string)
    requires Acyclic(tr) && Handling(tr, outputs, s, e) && e.tensor !in s.visited && tr[e.tensor].Param?
    requires name == ParameterNameAt(tr[e.tensor], s.nodes[e.consumer].name) && NameFree(s, name)
    ensures Handled(tr, outputs, s, ParameterAdded(s, e, name), e)
  {
    var node := ParameterInput(name, e.subgraph);
    InputHandles(tr, outputs, s, e, node);
    RecordHandles(tr, outputs, s, InputAdded(s, e, node), e, |s.nodes|);
  }

  /** The kind of graph input that a tensor without a source op becomes, unless it is passed through. */
  ghost function PlainNode(rq: Request, src: Source, e: Pending, name: string): Node
    requires src.Plain?
  {
    if e.tensor in rq.targets then TargetInput(name, e.subgraph)
    else if src.constant.Some? then ConstantInput(name, e.subgraph, src.constant.value)
    else if name !in rq.loopbackInputs then ActivationInput(name, e.subgraph)
    else ParameterInput(name, e.subgraph)
  }

  lemma PlainNodeFits(rq: Request, src: Source, e: Pending, name: string)
    requires src.Plain?
    ensures var node := PlainNode(rq, src, e, name);
            && MadeFits(src, node) && node.name == name
            && (node.ParameterInput? ==> node == ParameterInput(name, e.subgraph))
  {
  }

  ghost function PlainAdded(tr: Trace, rq: Request, s: State, e: Pending, name: string): State
    requires e.tensor < |tr| && tr[e.tensor].Plain?
  {
    var node := PlainNode(rq, tr[e.tensor], e, name);
    if node.ParameterInput? then ParameterAdded(s, e, name) else InputAdded(s, e, node)
  }

  lemma PlainHandles(tr: Trace, rq: Request, s: State, e: Pending, name: string)
    requires Acyclic(tr) && Handling(tr, rq.outputs, s, e) && e.tensor !in s.visited && tr[e.tensor].Plain?
    requires NameFree(s, name)
    ensures Handled(tr, rq.outputs, s, PlainAdded(tr, rq, s, e, name), e)
  {
    var node := PlainNode(rq, tr[e.tensor], e, name);
    PlainNodeFits(rq, tr[e.tensor], e, name);
    InputHandles(tr, rq.outputs, s, e, node);
    if node.ParameterInput? {
      RecordHandles(tr, rq.outputs, s, InputAdded(s, e, node), e, |s.nodes|);
    }
  }

  // ----- an input that is passed through to an output

  /** The identity node and its two edges, once the input node exists. */
  ghost function NopAdded(rq: Request, s: State, e: Pending, inq: nat): State {
    var s1 := AddNode(s, OpNode(NopName(rq, e.consumer), e.subgraph, Nop), Bypass(e.tensor));
    AddEdge(AddEdge(s1, Edge(inq, 0, |s.nodes|, 0, Select(e.broadcasts, 0))),
            Edge(|s.nodes|, 0, e.consumer, 0, Select(e.broadcasts, 0)))
  }

  ghost function ActivationAdded(s: State, e: Pending, name: string): State {
    AddNode(s, ActivationInput(name, e.subgraph), Made(e.tensor))
  }

  /** An identity node is put between the input and the model output. */
  ghost function BypassAdded(rq: Request, s: State, e: Pending, name: string): State {
    NopAdded(rq, ActivationAdded(s, e, name), e, |s.nodes|)
  }

  lemma BypassEntry(tr: Trace, outputs: seq<Tensor>, s: State, e: Pending)
    requires Acyclic(tr) && Handling(tr, outputs, s, e) && e.consumer < |outputs|
    ensures s.roles[e.consumer].OutputFor? && e.port == 0 && e.broadcasts == []
  {
  }

  lemma BypassInput(tr: Trace, outputs: seq<Tensor>, s: State, e: Pending, name: string)
    requires Acyclic(tr) && Handling(tr, outputs, s, e) && e.tensor !in s.visited
    requires tr[e.tensor].Plain? && NameFree(s, name)
    ensures Handling(tr, outputs, ActivationAdded(s, e, name), e)
  {
    NodeReady(tr, outputs, s, e, ActivationInput(name, e.subgraph));
    assert {PendingSlot(e)} + NewSlots(tr, |s.nodes|, Made(e.tensor)) == {PendingSlot(e)};
  }

  lemma BypassNop(tr: Trace, rq: Request, s: State, e: Pending)
    requires Acyclic(tr) && Handling(tr, rq.outputs, s, e) && tr[e.tensor].Plain?
    requires NameFree(s, NopName(rq, e.consumer))
    ensures var s' := AddNode(s, OpNode(NopName(rq, e.consumer), e.subgraph, Nop), Bypass(e.tensor));
            Inv(tr, rq.outputs, s', {PendingSlot(e), Slot(|s.nodes|, 0)}) && EntryOk(tr, s'.nodes, s'.roles, e)
  {
    var nop := OpNode(NopName(rq, e.consumer), e.subgraph, Nop);
    AddNodeKeeps(tr, rq.outputs, s, {PendingSlot(e)}, nop, Bypass(e.tensor));
    assert NewSlots(tr, |s.nodes|, Bypass(e.tensor)) == {Slot(|s.nodes|, 0)};
    assert {PendingSlot(e)} + {Slot(|s.nodes|, 0)} == {PendingSlot(e), Slot(|s.nodes|, 0)};
  }

  lemma BypassEdge(tr: Trace, outputs: seq<Tensor>, s: State, e: Pending, inq: nat, nop: nat)
    requires Acyclic(tr) && |outputs| <= nop < |s.nodes| && inq < |s.nodes| && e.consumer < nop
    requires Inv(tr, outputs, s, {PendingSlot(e), Slot(nop, 0)})
    requires EntryOk(tr, s.nodes, s.roles, e) && Reachable(tr, outputs, e.tensor)
    requires s.roles[inq] == Made(e.tensor) && s.roles[nop] == Bypass(e.tensor)
    ensures Handling(tr, outputs, AddEdge(s, Edge(inq, 0, nop, 0, [])), e)
  {
    AddEdgeKeeps(tr, outputs, s, {PendingSlot(e), Slot(nop, 0)}, Edge(inq, 0, nop, 0, []));
    assert {PendingSlot(e), Slot(nop, 0)} - {Slot(nop, 0)} == {PendingSlot(e)};
  }

  lemma BypassEdgesHandle(tr: Trace, outputs: seq<Tensor>, s: State, e: Pending, inq: nat, nop: nat)
    requires Acyclic(tr) && |outputs| <= nop < |s.nodes| && inq < |s.nodes| && e.consumer < |outputs|
    requires Inv(tr, outputs, s, {PendingSlot(e), Slot(nop, 0)})
    requires EntryOk(tr, s.nodes, s.roles, e) && Reachable(tr, outputs, e.tensor) && e.tensor in s.visited
    requires s.roles[inq] == Made(e.tensor) && s.roles[nop] == Bypass(e.tensor)
    ensures Handled(tr, outputs, s, AddEdge(AddEdge(s, Edge(inq, 0, nop, 0, [])), EdgeFor(nop, e)), e)
  {
    BypassEdge(tr, outputs, s, e, inq, nop);
    EdgeHandles(tr, outputs, AddEdge(s, Edge(inq, 0, nop, 0, [])), e, nop);
  }

  lemma NopHandles(tr: Trace, rq: Request, s: State, e: Pending, inq: nat)
    requires Acyclic(tr) && Handling(tr, rq.outputs, s, e) && e.tensor in s.visited
    requires tr[e.tensor].Plain? && e.consumer < |rq.outputs| && NameFree(s, NopName(rq, e.consumer))
    requires inq < |s.nodes| && s.roles[inq] == Made(e.tensor)
    ensures Handled(tr, rq.outputs, s, NopAdded(rq, s, e, inq), e)
  {
    BypassEntry(tr, rq.outputs, s, e);
    BypassNop(tr, rq, s, e);
    var s1 := AddNode(s, OpNode(NopName(rq, e.consumer), e.subgraph, Nop), Bypass(e.tensor));
    BypassEdgesHandle(tr, rq.outputs, s1, e, inq, |s.nodes|);
  }

  lemma HandledSince(tr: Trace, outputs: seq<Tensor>, s: State, s1: State, s': State, e: Pending)
    requires Acyclic(tr) && Handled(tr, outputs, s1, s', e)
    requires s.visited.Keys <= s1.visited.Keys && s.pending == s1.pending && s'.pending == s1.pending
    ensures Handled(tr, outputs, s, s', e)
  {
  }

  lemma BypassHandles(tr: Trace, rq: Request, s: State, e: Pending, name: string)
    requires Acyclic(tr) && Handling(tr, rq.outputs, s, e) && e.tensor !in s.visited
    requires tr[e.tensor].Plain? && e.consumer < |rq.outputs|
    requires NameFree(s, name) && NameFree(s, NopName(rq, e.consumer)) && name != NopName(rq, e.consumer)
    ensures Handled(tr, rq.outputs, s, BypassAdded(rq, s, e, name), e)
  {
    BypassInput(tr, rq.outputs, s, e, name);
    var s1 := ActivationAdded(s, e, name);
    NopHandles(tr, rq, s1, e, |s.nodes|);
    HandledSince(tr, rq.outputs, s, s1, BypassAdded(rq, s, e, name), e);
  }

  // ----- an op and its operands

  ghost function OperandEntries(src: Source, op: nat, subgraph: nat, n: nat): (q: seq<Pending>)
    requires src.Produced? && n <= |src.operands|
    ensures |q| == n && forall i :: 0 <= i < n ==> q[i] == Pending(src.operands[i], op, i, src.broadcasts, subgraph)
  {
    seq(n, i requires 0 <= i < n => Pending(src.operands[i], op, i, src.broadcasts, subgraph))
  }

  ghost function PortsFrom(op: nat, i: nat, n: nat): set<Slot> {
    set p | i <= p < n :: Slot(op, p)
  }

  lemma {:induction false} OperandsQueued(tr: Trace, nodes: seq<Node>, roles: seq<Role>, pending: seq<Pending>,
                                          wired: set<Slot>, op: nat, t: Tensor, i: nat)
    requires t < |tr| && tr[t].Produced? && i <= |tr[t].operands|
    requires op < |nodes| && |roles| == |nodes| && roles[op] == Made(t)
    requires EntriesOk(tr, nodes, roles, pending)
    requires Covered(tr, roles, wired, Slots(pending), PortsFrom(op, 0, |tr[t].operands|))
    ensures var pending' := pending + OperandEntries(tr[t], op, nodes[op].subgraph, i);
            && EntriesOk(tr, nodes, roles, pending')
            && Covered(tr, roles, wired, Slots(pending'), PortsFrom(op, i, |tr[t].operands|))
  {
    var n := |tr[t].operands|;
    if i == 0 {
      assert pending + OperandEntries(tr[t], op, nodes[op].subgraph, 0) == pending;
    } else {
      OperandsQueued(tr, nodes, roles, pending, wired, op, t, i - 1);
      var p := Pending(tr[t].operands[i - 1], op, i - 1, tr[t].broadcasts, nodes[op].subgraph);
      var before := pending + OperandEntries(tr[t], op, nodes[op].subgraph, i - 1);
      EntryQueued(tr, nodes, roles, before, p, wired, PortsFrom(op, i - 1, n));
      assert before + [p] == pending + OperandEntries(tr[t], op, nodes[op].subgraph, i);
      assert PortsFrom(op, i - 1, n) - {Slot(op, i - 1)} == PortsFrom(op, i, n);
    }
  }

  ghost function OpAdded(tr: Trace, s: State, e: Pending): State
    requires e.tensor < |tr| && tr[e.tensor].Produced?
  {
    var s1 := InputAdded(s, e, OpNode(tr[e.tensor].opName, e.subgraph, tr[e.tensor].op));
    s1.(pending := s.pending + OperandEntries(tr[e.tensor], |s.nodes|, e.subgraph, |tr[e.tensor].operands|))
  }

  /** Once the op node feeds its consumer, exactly its own ports are open. */
  lemma OpConnected(tr: Trace, outputs: seq<Tensor>, s: State, e: Pending)
    requires Acyclic(tr) && Handling(tr, outputs, s, e) && e.tensor !in s.visited
    requires tr[e.tensor].Produced? && NameFree(s, tr[e.tensor].opName)
    ensures Inv(tr, outputs, InputAdded(s, e, OpNode(tr[e.tensor].opName, e.subgraph, tr[e.tensor].op)),
                PortsFrom(|s.nodes|, 0, |tr[e.tensor].operands|))
  {
    var node := OpNode(tr[e.tensor].opName, e.subgraph, tr[e.tensor].op);
    var op, x, ports := |s.nodes|, PendingSlot(e), PortsFrom(|s.nodes|, 0, |tr[e.tensor].operands|);
    NodeReady(tr, outputs, s, e, node);
    assert NewSlots(tr, op, Made(e.tensor)) == ports;
    AddEdgeKeeps(tr, outputs, AddNode(s, node, Made(e.tensor)), {x} + ports, EdgeFor(op, e));
    assert {x} + ports - {x} == ports;
  }

  lemma OpHandles(tr: Trace, outputs: seq<Tensor>, s: State, e: Pending)
    requires Acyclic(tr) && Handling(tr, outputs, s, e) && e.tensor !in s.visited
    requires tr[e.tensor].Produced? && NameFree(s, tr[e.tensor].opName)
    ensures Handled(tr, outputs, s, OpAdded(tr, s, e), e)
  {
    OpConnected(tr, outputs, s, e);
    var s1 := InputAdded(s, e, OpNode(tr[e.tensor].opName, e.subgraph, tr[e.tensor].op));
    var t, n := e.tensor, |tr[e.tensor].operands|;
    OperandsQueued(tr, s1.nodes, s1.roles, s1.pending, s1.wired.Keys, |s.nodes|, t, n);
    assert PortsFrom(|s.nodes|, n, n) == {};
  }

  // ----- one turn

  /** The name a node for the entry's tensor is given. */
  ghost function NameFor(tr: Trace, rq: Request, s: State, e: Pending): Option<string>
    requires e.tensor < |tr| && e.consumer < |s.nodes|
  {
    TensorName(tr, rq, e.tensor, s.nodes[e.consumer].name, e.port)
  }

  /** A tensor seen for the first time gets a node of its own, under a free name. */
  ghost predicate Created(tr: Trace, rq: Request, s: State, s': State, e: Pending, name: string)
    requires e.tensor < |tr| && e.consumer < |s.nodes|
  {
    && NameFree(s, name)
    && match tr[e.tensor]
       case Param(_) => s' == ParameterAdded(s, e, name)
       case Plain(_) =>
         if e.tensor in rq.outputs then
           NameFree(s, NopName(rq, e.consumer)) && name != NopName(rq, e.consumer) && s' == BypassAdded(rq, s, e, name)
         else s' == PlainAdded(tr, rq, s, e, name)
       case Literal(v, _) => s' == InputAdded(s, e, ConstantInput(name, e.subgraph, v))
       case Produced(_, _, _, _) => s' == OpAdded(tr, s, e)
  }

  /** The entry's tensor is a parameter whose name has been recorded. */
  ghost predicate NameRecorded(tr: Trace, s: State, e: Pending, name: string)
    requires e.tensor < |tr|
  {
    tr[e.tensor].Param? && name in s.recorded && s.recorded[name] < |s.nodes|
  }

  /** How one turn of the loop changes the snapshot. */
  ghost predicate Turn(tr: Trace, rq: Request, s: State, s': State, e: Pending)
    requires e.tensor < |tr| && e.consumer < |s.nodes|
  {
    if e.tensor in s.visited then s' == AddEdge(s, EdgeFor(s.visited[e.tensor], e))
    else
      match NameFor(tr, rq, s, e)
      case None => false
      case Some(name) =>
        if NameRecorded(tr, s, e, name) then
          s.nodes[s.recorded[name]].subgraph != e.subgraph && s' == AddEdge(s, EdgeFor(s.recorded[name], e))
        else Created(tr, rq, s, s', e, name)
  }

  /** Why a turn is refused. */
  ghost predicate Refused(tr: Trace, rq: Request, s: State, e: Pending, err: Error)
    requires e.tensor < |tr| && e.consumer < |s.nodes|
  {
    && e.tensor !in s.visited
    && match NameFor(tr, rq, s, e)
       case None => err == InputNameMissing(e.tensor)
       case Some(name) =>
         if NameRecorded(tr, s, e, name) then
           s.nodes[s.recorded[name]].subgraph == e.subgraph && err == ParameterReused(name, e.tensor)
         else if !NameFree(s, name) then err == NameTaken(name)
         else
           && tr[e.tensor].Plain? && e.tensor in rq.outputs && err == NameTaken(NopName(rq, e.consumer))
           && (!NameFree(s, NopName(rq, e.consumer)) || name == NopName(rq, e.consumer))
  }

  lemma CreatedHandles(tr: Trace, rq: Request, s: State, s': State, e: Pending, name: string)
    requires Acyclic(tr) && Handling(tr, rq.outputs, s, e) && e.tensor !in s.visited
    requires e.tensor in rq.outputs && tr[e.tensor].Plain? ==> e.consumer < |rq.outputs|
    requires NameFor(tr, rq, s, e) == Some(name) && Created(tr, rq, s, s', e, name)
    ensures Handled(tr, rq.outputs, s, s', e)
  {
    match tr[e.tensor]
    case Param(_) => ParameterHandles(tr, rq.outputs, s, e, name);
    case Plain(_) =>
      if e.tensor in rq.outputs {
        BypassHandles(tr, rq, s, e, name);
      } else {
        PlainHandles(tr, rq, s, e, name);
      }
    case Literal(v, _) => InputHandles(tr, rq.outputs, s, e, ConstantInput(name, e.subgraph, v));
    case Produced(_, _, _, _) => OpHandles(tr, rq.outputs, s, e);
  }

  lemma TurnHandles(tr: Trace, rq: Request, s: State, s': State, e: Pending)
    requires Acyclic(tr) && Handling(tr, rq.outputs, s, e)
    requires e.tensor in rq.outputs && e.tensor !in s.visited && tr[e.tensor].Plain? ==> e.consumer < |rq.outputs|
    requires Turn(tr, rq, s, s', e)
    ensures Handled(tr, rq.outputs, s, s', e)
  {
    if e.tensor in s.visited {
      EdgeHandles(tr, rq.outputs, s, e, s.visited[e.tensor]);
    } else {
      var name := NameFor(tr, rq, s, e).value;
      if NameRecorded(tr, s, e, name) {
        SharedParameterHandles(tr, rq.outputs, s, e);
      } else {
        CreatedHandles(tr, rq, s, s', e, name);
      }
    }
  }

  // ----- names

  /** The entry's consumer uses its tensor. */
  ghost predicate Used(tr: Trace, rq: Request, s: State, e: Pending)
    requires ValidRequest(tr, rq)
  {
    && e.tensor < |tr| && e.consumer < |s.nodes|
    && UsedAs(tr, rq, e.tensor, s.nodes[e.consumer].name, e.port) && UsedIn(tr, rq, e.tensor, e.subgraph)
  }

  lemma MadeNamed(tr: Trace, rq: Request, s: State, e: Pending, node: Node, n: nat)
    requires ValidRequest(tr, rq) && NamesOk(tr, rq, s) && Used(tr, rq, s, e)
    requires NameFor(tr, rq, s, e) == Some(node.name) && node.subgraph == e.subgraph
    requires tr[e.tensor].Plain? ==> KindFits(tr, rq, e.tensor, node)
    ensures NodeNamed(tr, rq, node, Made(e.tensor), n)
  {
  }

  /** A well-named node more. */
  lemma NamesGrow(tr: Trace, rq: Request, s: State, s': State, node: Node, role: Role)
    requires ValidRequest(tr, rq) && NamesOk(tr, rq, s) && NodeNamed(tr, rq, node, role, |s.nodes|)
    requires s'.nodes == s.nodes + [node] && s'.roles == s.roles + [role]
    requires s.recorded.Keys <= s'.recorded.Keys && s.visited.Keys <= s'.visited.Keys
    requires node.ParameterInput? ==> node.name in s'.recorded
    requires role.Bypass? ==> role.t in s'.visited
    ensures NamesOk(tr, rq, s')
  {
  }

  lemma BypassNames(tr: Trace, rq: Request, s: State, e: Pending, name: string)
    requires ValidRequest(tr, rq) && NamesOk(tr, rq, s) && Used(tr, rq, s, e) && NameFor(tr, rq, s, e) == Some(name)
    requires e.consumer < |rq.outputs| && rq.outputs[e.consumer] == e.tensor
    ensures NamesOk(tr, rq, BypassAdded(rq, s, e, name))
  {
    var s1 := ActivationAdded(s, e, name);
    MadeNamed(tr, rq, s, e, ActivationInput(name, e.subgraph), |s.nodes|);
    NamesGrow(tr, rq, s, s1, ActivationInput(name, e.subgraph), Made(e.tensor));
    var nop := OpNode(NopName(rq, e.consumer), e.subgraph, Nop);
    assert NodeNamed(tr, rq, nop, Bypass(e.tensor), |s1.nodes|);
    NamesGrow(tr, rq, s1, BypassAdded(rq, s, e, name), nop, Bypass(e.tensor));
  }

  lemma InputNames(tr: Trace, rq: Request, s: State, s': State, e: Pending, node: Node)
    requires ValidRequest(tr, rq) && NamesOk(tr, rq, s) && Used(tr, rq, s, e)
    requires NameFor(tr, rq, s, e) == Some(node.name) && node.subgraph == e.subgraph
    requires tr[e.tensor].Plain? ==> KindFits(tr, rq, e.tensor, node)
    requires s'.nodes == s.nodes + [node] && s'.roles == s.roles + [Made(e.tensor)]
    requires s'.recorded == (if node.ParameterInput? then s.recorded[node.name := |s.nodes|] else s.recorded)
    requires s'.visited == s.visited[e.tensor := |s.nodes|]
    ensures NamesOk(tr, rq, s')
  {
    MadeNamed(tr, rq, s, e, node, |s.nodes|);
    NamesGrow(tr, rq, s, s', node, Made(e.tensor));
  }

  lemma CreatedNames(tr: Trace, rq: Request, s: State, s': State, e: Pending, name: string)
    requires ValidRequest(tr, rq) && NamesOk(tr, rq, s) && Used(tr, rq, s, e)
    requires e.tensor in rq.outputs && tr[e.tensor].Plain? ==>
               e.consumer < |rq.outputs| && rq.outputs[e.consumer] == e.tensor
    requires NameFor(tr, rq, s, e) == Some(name) && Created(tr, rq, s, s', e, name)
    ensures NamesOk(tr, rq, s')
  {
    match tr[e.tensor]
    case Param(_) => InputNames(tr, rq, s, s', e, ParameterInput(name, e.subgraph));
    case Plain(_) =>
      if e.tensor in rq.outputs {
        BypassNames(tr, rq, s, e, name);
      } else {
        InputNames(tr, rq, s, s', e, PlainNode(rq, tr[e.tensor], e, name));
      }
    case Literal(v, _) => InputNames(tr, rq, s, s', e, ConstantInput(name, e.subgraph, v));
    case Produced(op, _, _, _) => InputNames(tr, rq, s, s', e, OpNode(name, e.subgraph, op));
  }

  lemma TurnNames(tr: Trace, rq: Request, s: State, s': State, e: Pending)
    requires ValidRequest(tr, rq) && NamesOk(tr, rq, s) && Handling(tr, rq.outputs, s, e)
    requires e.tensor in rq.outputs && e.tensor !in s.visited && tr[e.tensor].Plain? ==> e.consumer < |rq.outputs|
    requires Turn(tr, rq, s, s', e)
    ensures NamesOk(tr, rq, s')
  {
    EntryUse(tr, rq, s, e);
    if e.tensor !in s.visited && !NameRecorded(tr, s, e, NameFor(tr, rq, s, e).value) {
      CreatedNames(tr, rq, s, s', e, NameFor(tr, rq, s, e).value);
    }
  }

  // ----- every refusal is due to the request

  lemma ReuseIsExplained(tr: Trace, rq: Request, s: State, e: Pending, name: string)
    requires ValidRequest(tr, rq) && NamesOk(tr, rq, s) && Handling(tr, rq.outputs, s, e) && e.tensor !in s.visited
    requires NameFor(tr, rq, s, e) == Some(name) && NameRecorded(tr, s, e, name)
    requires s.nodes[s.recorded[name]].subgraph == e.subgraph
    ensures Explained(tr, rq, ParameterReused(name, e.tensor))
  {
    EntryUse(tr, rq, s, e);
    var n := s.recorded[name];
    assert NodeNamed(tr, rq, s.nodes[n], s.roles[n], n) && RoleFits(tr, s.nodes[n], s.roles[n]);
    assert CouldName(tr, rq, e.tensor, name);
    assert Reuse(tr, rq, e.tensor, s.roles[n].t, name, e.subgraph);
  }

  lemma TakenIsExplained(tr: Trace, rq: Request, s: State, e: Pending, name: string)
    requires ValidRequest(tr, rq) && NamesOk(tr, rq, s) && Handling(tr, rq.outputs, s, e) && e.tensor !in s.visited
    requires NameFor(tr, rq, s, e) == Some(name) && !NameRecorded(tr, s, e, name) && !NameFree(s, name)
    ensures Explained(tr, rq, NameTaken(name))
  {
    EntryUse(tr, rq, s, e);
    assert CouldName(tr, rq, e.tensor, name);
    var n :| 0 <= n < |s.nodes| && s.nodes[n].name == name;
    assert RoleFits(tr, s.nodes[n], s.roles[n]);
    RefusalIsClash(tr, rq, s, n, OfTensor(e.tensor));
  }

  lemma NopTakenIsExplained(tr: Trace, rq: Request, s: State, e: Pending, name: string)
    requires ValidRequest(tr, rq) && NamesOk(tr, rq, s) && Handling(tr, rq.outputs, s, e) && e.tensor !in s.visited
    requires NameFor(tr, rq, s, e) == Some(name) && tr[e.tensor].Plain? && e.consumer < |rq.outputs|
    requires !NameFree(s, NopName(rq, e.consumer)) || name == NopName(rq, e.consumer)
    ensures Explained(tr, rq, NameTaken(NopName(rq, e.consumer)))
  {
    var x := NopName(rq, e.consumer);
    assert RoleFits(tr, s.nodes[e.consumer], s.roles[e.consumer]);
    assert Named(tr, rq, OfNop(e.consumer), x);
    if name == x {
      EntryUse(tr, rq, s, e);
      assert Named(tr, rq, OfTensor(e.tensor), x);
      ClashOf(tr, rq, OfTensor(e.tensor), OfNop(e.consumer), x);
    } else {
      var n :| 0 <= n < |s.nodes| && s.nodes[n].name == x;
      assert RoleFits(tr, s.nodes[n], s.roles[n]);
      RefusalIsClash(tr, rq, s, n, OfNop(e.consumer));
    }
  }

  lemma MissingIsExplained(tr: Trace, rq: Request, s: State, e: Pending)
    requires ValidRequest(tr, rq) && Handling(tr, rq.outputs, s, e) && NameFor(tr, rq, s, e).None?
    ensures Explained(tr, rq, InputNameMissing(e.tensor))
  {
  }

  lemma RefusedIsExplained(tr: Trace, rq: Request, s: State, e: Pending, err: Error)
    requires ValidRequest(tr, rq) && NamesOk(tr, rq, s) && Handling(tr, rq.outputs, s, e)
    requires e.tensor in rq.outputs && e.tensor !in s.visited && tr[e.tensor].Plain? ==> e.consumer < |rq.outputs|
    requires Refused(tr, rq, s, e, err)
    ensures Explained(tr, rq, err)
  {
    match NameFor(tr, rq, s, e)
    case None => MissingIsExplained(tr, rq, s, e);
    case Some(name) =>
      if NameRecorded(tr, s, e, name) {
        ReuseIsExplained(tr, rq, s, e, name);
      } else if !NameFree(s, name) {
        TakenIsExplained(tr, rq, s, e, name);
      } else {
        NopTakenIsExplained(tr, rq, s, e, name);
      }
  }

  // ----- the model outputs

  ghost function OutputAdded(s: State, t: Tensor, node: Node): State {
    Push(AddNode(s, node, OutputFor(t)), Pending(t, |s.nodes|, 0, [], node.subgraph))
  }

  lemma OutputKeeps(tr: Trace, outputs: seq<Tensor>, s: State, t: Tensor, node: Node)
    requires Acyclic(tr) && Inv(tr, outputs, s, {}) && |s.nodes| < |outputs| && outputs[|s.nodes|] == t < |tr|
    requires node.Output? && NameFree(s, node.name)
    ensures Inv(tr, outputs, OutputAdded(s, t, node), {})
  {
    var slot := Slot(|s.nodes|, 0);
    AddNodeKeeps(tr, outputs, s, {}, node, OutputFor(t));
    assert {} + NewSlots(tr, |s.nodes|, OutputFor(t)) == {slot};
    PushKeeps(tr, outputs, AddNode(s, node, OutputFor(t)), {slot}, Pending(t, |s.nodes|, 0, [], node.subgraph));
    assert {slot} - {slot} == {};
  }

  /** After `k` outputs: node i is output i, and entry i of the queue asks for its tensor. */
  ghost predicate OutputsPlaced(tr: Trace, rq: Request, s: State, k: nat) {
    && ValidRequest(tr, rq) && k <= |rq.outputs|
    && Inv(tr, rq.outputs, s, {}) && NamesOk(tr, rq, s) && |s.nodes| == k == |s.pending| && s.visited == map[]
    && (forall i :: 0 <= i < k ==> s.pending[i].consumer == i && s.pending[i].tensor == rq.outputs[i])
  }

  ghost function OutputNode(tr: Trace, rq: Request, k: nat): Node
    requires ValidRequest(tr, rq) && k < |rq.outputs|
  {
    Output(OutputName(tr, rq, k), SubgraphOf(rq, rq.outputs[k]))
  }

  lemma OutputPlacedNext(tr: Trace, rq: Request, s: State, k: nat)
    requires OutputsPlaced(tr, rq, s, k) && k < |rq.outputs| && NameFree(s, OutputName(tr, rq, k))
    ensures OutputsPlaced(tr, rq, OutputAdded(s, rq.outputs[k], OutputNode(tr, rq, k)), k + 1)
  {
    var t, node := rq.outputs[k], OutputNode(tr, rq, k);
    assert t in rq.outputs;
    OutputKeeps(tr, rq.outputs, s, t, node);
    UsedInByOutput(tr, rq, t);
    NamesGrow(tr, rq, s, OutputAdded(s, t, node), node, OutputFor(t));
  }

  lemma OutputTakenIsExplained(tr: Trace, rq: Request, s: State, k: nat)
    requires OutputsPlaced(tr, rq, s, k) && k < |rq.outputs| && !NameFree(s, OutputName(tr, rq, k))
    ensures Explained(tr, rq, NameTaken(OutputName(tr, rq, k)))
  {
    var n :| 0 <= n < |s.nodes| && s.nodes[n].name == OutputName(tr, rq, k);
    assert RoleFits(tr, s.nodes[n], s.roles[n]);
    RefusalIsClash(tr, rq, s, n, OfOutput(k));
  }

  lemma PassthroughsSnoc(tr: Trace, ts: seq<Tensor>, k: nat)
    requires k < |ts| && ts[k] < |tr|
    ensures Passthroughs(tr, ts[..k + 1]) ==
            if HasSource(tr[ts[k]]) then Passthroughs(tr, ts[..k]) else Passthroughs(tr, ts[..k]) + {ts[k]}
  {
    assert ts[..k + 1] == ts[..k] + [ts[k]];
  }

  lemma StartOk(tr: Trace, rq: Request)
    requires ValidRequest(tr, rq)
    ensures OutputsPlaced(tr, rq, State([], [], map[], map[], [], [], map[]), 0)
  {
  }

  // ----- the loop

  /** What the loop keeps true. */
  ghost predicate LoopOk(tr: Trace, rq: Request, s: State) {
    && ValidRequest(tr, rq) && |rq.outputs| <= |s.nodes|
    && Inv(tr, rq.outputs, s, {}) && NamesOk(tr, rq, s) && Fifo(tr, rq.outputs, s.pending, s.visited.Keys)
  }

  lemma OutputsStartLoop(tr: Trace, rq: Request, s: State)
    requires OutputsPlaced(tr, rq, s, |rq.outputs|)
    ensures LoopOk(tr, rq, s)
  {
    forall t | t in rq.outputs
      ensures OutputWaits(s.pending, |rq.outputs|, t)
    {
      var i :| 0 <= i < |rq.outputs| && rq.outputs[i] == t;
      assert s.pending[i].tensor == t;
    }
  }

  ghost predicate Progress(s: State, s': State) {
    s.visited.Keys < s'.visited.Keys || (s.visited.Keys == s'.visited.Keys && |s'.pending| < |s.pending|)
  }

  /** The first entry of the queue can be handled; if it is for an input passed through, an output asks for it. */
  lemma FirstIsReady(tr: Trace, rq: Request, s: State)
    requires LoopOk(tr, rq, s) && s.pending != []
    ensures var e := s.pending[0];
            && Handling(tr, rq.outputs, Pop(s), e) && NamesOk(tr, rq, Pop(s))
            && e.tensor < |tr| && e.consumer < |s.nodes|
            && (e.tensor in rq.outputs && e.tensor !in s.visited && tr[e.tensor].Plain? ==> e.consumer < |rq.outputs|)
  {
    PopKeeps(tr, rq.outputs, s);
    var e := s.pending[0];
    if e.tensor in rq.outputs && e.tensor !in s.visited && tr[e.tensor].Plain? {
      PassthroughMeetsOutputFirst(tr, rq.outputs, s.pending, s.visited.Keys);
    }
  }

  lemma GrowthKeepsOrder(tr: Trace, outputs: seq<Tensor>, s: State, s': State)
    requires s.pending != [] && Fifo(tr, outputs, s.pending, s.visited.Keys)
    requires Grows(tr, outputs, Pop(s), s', s.pending[0])
    ensures Fifo(tr, outputs, s'.pending, s'.visited.Keys) && Progress(s, s')
  {
    FifoStep(tr, outputs, s.pending, s.visited.Keys, s'.pending, s'.visited.Keys);
  }

  lemma HandledKeepsLoop(tr: Trace, rq: Request, s: State, s': State)
    requires LoopOk(tr, rq, s) && s.pending != [] && NamesOk(tr, rq, s')
    requires Handled(tr, rq.outputs, Pop(s), s', s.pending[0])
    ensures LoopOk(tr, rq, s') && Progress(s, s')
  {
    GrowthKeepsOrder(tr, rq.outputs, s, s');
  }

  lemma TurnKeepsLoop(tr: Trace, rq: Request, s: State, s': State)
    requires LoopOk(tr, rq, s) && s.pending != []
    requires s.pending[0].tensor < |tr| && s.pending[0].consumer < |s.nodes|
    requires Turn(tr, rq, Pop(s), s', s.pending[0])
    ensures LoopOk(tr, rq, s') && Progress(s, s')
  {
    FirstIsReady(tr, rq, s);
    TurnHandles(tr, rq, Pop(s), s', s.pending[0]);
    TurnNames(tr, rq, Pop(s), s', s.pending[0]);
    HandledKeepsLoop(tr, rq, s, s');
  }

  lemma FirstInRange(tr: Trace, rq: Request, s: State)
    requires LoopOk(tr, rq, s) && s.pending != []
    ensures var e := s.pending[0]; e.tensor < |tr| && e.consumer < |s.nodes| && RecordedOk(s.nodes, s.recorded)
  {
    FirstIsReady(tr, rq, s);
  }

  lemma VisitedBelow(tr: Trace, outputs: seq<Tensor>, s: State, holes: set<Slot>)
    requires Acyclic(tr) && Inv(tr, outputs, s, holes)
    ensures s.visited.Keys <= TensorsBelow(|tr|)
  {
    forall t | t in s.visited
      ensures t < |tr|
    {
      assert RoleFits(tr, s.nodes[s.visited[t]], s.roles[s.visited[t]]);
    }
  }

  ghost function Unvisited(tr: Trace, s: State): set<Tensor> { TensorsBelow(|tr|) - s.visited.Keys }

  /** The loop is nearer to its end. */
  ghost predicate Nearer(tr: Trace, s: State, s': State) {
    Unvisited(tr, s') < Unvisited(tr, s) || (Unvisited(tr, s') == Unvisited(tr, s) && |s'.pending| < |s.pending|)
  }

  lemma ProgressIsNearer(tr: Trace, s: State, s': State)
    requires Progress(s, s') && s'.visited.Keys <= TensorsBelow(|tr|)
    ensures Nearer(tr, s, s')
  {
    if s.visited.Keys < s'.visited.Keys {
      var t :| t in s'.visited.Keys && t !in s.visited.Keys;
      assert t in Unvisited(tr, s) && t !in Unvisited(tr, s');
    }
  }

  lemma TurnIsNearer(tr: Trace, rq: Request, s: State, s': State)
    requires LoopOk(tr, rq, s) && s.pending != []
    requires s.pending[0].tensor < |tr| && s.pending[0].consumer < |s.nodes|
    requires Turn(tr, rq, Pop(s), s', s.pending[0])
    ensures LoopOk(tr, rq, s') && Nearer(tr, s, s')
  {
    TurnKeepsLoop(tr, rq, s, s');
    VisitedBelow(tr, rq.outputs, s', {});
    ProgressIsNearer(tr, s, s');
  }
}
