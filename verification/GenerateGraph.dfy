/**
 The worklist of `generate_graph`: it drains a FIFO queue of (tensor, consumer, port) entries and
 grows the graph in place. Visiting an entry is a `Turn` of `GraphTurns`, and an error is a refused
 turn, so what is proved of the turns holds of the generator.
 */
module GenerateGraph {
  import opened Wrappers
  import opened Trace
  import opened DataflowGraph
  import opened GraphInvariant
  import opened GraphMeaning
  import opened GraphNames
  import opened GraphTurns
  import opened GraphRegister
  import opened GraphRuns
  import opened Runs
  import Decimal

  class GraphGenerator {
    const tr: Trace
    const rq: Request

    var nodes: seq<Node>
    var edges: seq<Edge>
    var visited: map<Tensor, nat>
    var recorded: map<string, nat>
    var pending: seq<Pending>
    var passthroughs: set<Tensor>
    var inputNodes: map<Tensor, nat>
    var outputNodes: map<Tensor, nat>
    var targetNodes: map<Tensor, nat>
    var loopbackNodes: map<Tensor, nat>

    ghost var roles: seq<Role>
    ghost var wired: map<Slot, nat>

    constructor (tr: Trace, rq: Request)
      ensures this.tr == tr && this.rq == rq && Fresh()
    {
      this.tr, this.rq := tr, rq;
      nodes, edges, visited, recorded, pending := [], [], map[], map[], [];
      passthroughs, inputNodes, outputNodes, targetNodes, loopbackNodes := {}, map[], map[], map[], map[];
      roles, wired := [], map[];
    }

    ghost function Snapshot(): State
      reads this
    {
      State(nodes, edges, visited, recorded, pending, roles, wired)
    }

    /** Nothing has been generated yet. */
    ghost predicate Fresh()
      reads this
    {
      && Snapshot() == State([], [], map[], map[], [], [], map[])
      && passthroughs == {} && inputNodes == outputNodes == targetNodes == loopbackNodes == map[]
    }

    ghost predicate MapsOk()
      reads this
    {
      RegistersOk(tr, nodes, visited, inputNodes, targetNodes, loopbackNodes)
    }

    // ----- nodes and edges

    /** The graph library refuses a second node of the same name. */
    method CreateNode(node: Node, ghost role: Role) returns (r: Result<nat, Error>)
      modifies this`nodes, this`roles
      ensures r.Ok? <==> NameFree(old(Snapshot()), node.name)
      ensures r.Ok? ==> r.value == old(|nodes|) && nodes == old(nodes) + [node] && roles == old(roles) + [role]
      ensures r.Err? ==> r.error == NameTaken(node.name) && nodes == old(nodes) && roles == old(roles)
    {
      if exists n :: 0 <= n < |nodes| && nodes[n].name == node.name {
        return Err(NameTaken(node.name));
      }
      nodes, roles := nodes + [node], roles + [role];
      return Ok(|nodes| - 1);
    }

    /** Only the broadcast entries for the edge's own port are attached to it. */
    method CreateDataEdge(producer: nat, consumer: nat, port: nat, broadcasts: seq<Broadcast>)
      modifies this`edges, this`wired
      ensures edges == old(edges) + [Edge(producer, 0, consumer, port, Select(broadcasts, port))]
      ensures Stretches(broadcasts, port, edges[old(|edges|)].stretch)
      ensures wired == old(wired)[Slot(consumer, port) := old(|edges|)]
    {
      SelectStretches(broadcasts, port);
      var stretch := [];
      for i := 0 to |broadcasts|
        invariant stretch == Select(broadcasts[..i], port)
      {
        assert broadcasts[..i + 1][..i] == broadcasts[..i];
        if broadcasts[i].operand == port {
          stretch := stretch + [(broadcasts[i].dim, broadcasts[i].size)];
        }
      }
      assert broadcasts[..|broadcasts|] == broadcasts;
      edges, wired := edges + [Edge(producer, 0, consumer, port, stretch)], wired[Slot(consumer, port) := |edges|];
    }

    /** A node for the entry's tensor, connected to the consumer and marked as visited. */
    method CreateInput(e: Pending, node: Node) returns (r: Result<nat, Error>)
      modifies this`nodes, this`roles, this`edges, this`wired, this`visited
      ensures r.Ok? <==> NameFree(old(Snapshot()), node.name)
      ensures r.Ok? ==> r.value == old(|nodes|) && Snapshot() == InputAdded(old(Snapshot()), e, node)
      ensures r.Err? ==> r.error == NameTaken(node.name) && Snapshot() == old(Snapshot())
    {
      r := CreateNode(node, Made(e.tensor));
      if r.Err? { return; }
      var inq := r.value;
      CreateDataEdge(inq, e.consumer, e.port, e.broadcasts);
      visited := visited[e.tensor := inq];
    }

    // ----- one entry

    method VisitParameter(e: Pending) returns (r: Result<(), Error>)
      requires e.tensor < |tr| && tr[e.tensor].Param? && e.consumer < |nodes| && e.tensor !in visited
      requires RecordedOk(nodes, recorded) && MapsOk()
      modifies this`nodes, this`roles, this`edges, this`wired, this`visited, this`recorded
      ensures r.Ok? ==> Turn(tr, rq, old(Snapshot()), Snapshot(), e) && MapsOk()
      ensures r.Err? ==> Refused(tr, rq, old(Snapshot()), e, r.error)
    {
      var name := if tr[e.tensor].paramName.Some? then tr[e.tensor].paramName.value
                  else "parameter_" + nodes[e.consumer].name;
      if name in recorded {
        if nodes[recorded[name]].subgraph == e.subgraph {
          return Err(ParameterReused(name, e.tensor));
        }
        CreateDataEdge(recorded[name], e.consumer, e.port, e.broadcasts);
        return Ok(());
      }
      var created := CreateInput(e, ParameterInput(name, e.subgraph));
      if created.Err? { return Err(created.error); }
      recorded := recorded[name := created.value];
      RegisterKeeps(tr, old(nodes), nodes, old(visited), inputNodes, targetNodes, loopbackNodes, e.tensor,
                    created.value);
      return Ok(());
    }

    /** A passed-through input gets an identity node between itself and the model output. */
    method CreateBypass(e: Pending, name: string) returns (r: Result<nat, Error>)
      modifies this`nodes, this`roles, this`edges, this`wired, this`visited
      ensures r.Ok? <==>
                && NameFree(old(Snapshot()), name) && NameFree(old(Snapshot()), NopName(rq, e.consumer))
                && name != NopName(rq, e.consumer)
      ensures r.Ok? ==> r.value == old(|nodes|) && Snapshot() == BypassAdded(rq, old(Snapshot()), e, name)
      ensures r.Err? ==>
                r.error == NameTaken(if NameFree(old(Snapshot()), name) then NopName(rq, e.consumer) else name)
    {
      r := CreateNode(ActivationInput(name, e.subgraph), Made(e.tensor));
      if r.Err? { return; }
      ghost var before := nodes;
      assert before[|before| - 1].name == name;
      assert forall n :: 0 <= n < |before| - 1 ==> before[n] == old(nodes)[n];
      var created := CreateNode(OpNode(NopName(rq, e.consumer), e.subgraph, Nop), Bypass(e.tensor));
      if created.Err? { return created; }
      CreateDataEdge(r.value, created.value, 0, e.broadcasts);
      CreateDataEdge(created.value, e.consumer, 0, e.broadcasts);
      visited := visited[e.tensor := r.value];
    }

    /** The input's kind is tried in the order target, constant, activation, loopback parameter. */
    method VisitInput(e: Pending, name: string) returns (r: Result<(), Error>)
      requires e.tensor < |tr| && tr[e.tensor].Plain? && e.tensor !in visited && e.tensor !in rq.outputs && MapsOk()
      modifies this`nodes, this`roles, this`edges, this`wired, this`visited, this`recorded
      modifies this`inputNodes, this`targetNodes, this`loopbackNodes
      ensures r.Ok? <==> NameFree(old(Snapshot()), name)
      ensures r.Ok? ==> Snapshot() == PlainAdded(tr, rq, old(Snapshot()), e, name) && MapsOk()
      ensures r.Err? ==> r.error == NameTaken(name)
    {
      ghost var ins, ts, ls := inputNodes, targetNodes, loopbackNodes;
      ghost var n := |nodes|;
      if e.tensor in rq.targets {
        var created := CreateInput(e, TargetInput(name, e.subgraph));
        if created.Err? { return Err(created.error); }
        targetNodes := targetNodes[e.tensor := created.value];
      } else if tr[e.tensor].constant.Some? {
        var created := CreateInput(e, ConstantInput(name, e.subgraph, tr[e.tensor].constant.value));
        if created.Err? { return Err(created.error); }
        targetNodes := targetNodes[e.tensor := created.value];
      } else if name !in rq.loopbackInputs {
        var created := CreateInput(e, ActivationInput(name, e.subgraph));
        if created.Err? { return Err(created.error); }
        inputNodes := inputNodes[e.tensor := created.value];
      } else {
        var created := CreateInput(e, ParameterInput(name, e.subgraph));
        if created.Err? { return Err(created.error); }
        loopbackNodes := loopbackNodes[e.tensor := created.value];
        recorded := recorded[name := created.value];
      }
      RegisterKeeps(tr, old(nodes), nodes, old(visited), ins, ts, ls, e.tensor, n);
      return Ok(());
    }

    method VisitPlain(e: Pending) returns (r: Result<(), Error>)
      requires e.tensor < |tr| && tr[e.tensor].Plain? && e.consumer < |nodes| && e.tensor !in visited && MapsOk()
      requires passthroughs == Passthroughs(tr, rq.outputs)
      modifies this`nodes, this`roles, this`edges, this`wired, this`visited, this`recorded
      modifies this`inputNodes, this`targetNodes, this`loopbackNodes
      ensures r.Ok? ==> Turn(tr, rq, old(Snapshot()), Snapshot(), e) && MapsOk()
      ensures r.Err? ==> Refused(tr, rq, old(Snapshot()), e, r.error)
    {
      var named := InputNameAt(rq, e.tensor, nodes[e.consumer].name, e.port);
      if named.None? { return Err(InputNameMissing(e.tensor)); }
      if e.tensor in passthroughs {
        var created := CreateBypass(e, named.value);
        if created.Err? { return Err(created.error); }
        RegisterKeeps(tr, old(nodes), nodes, old(visited), inputNodes, targetNodes, loopbackNodes, e.tensor,
                      created.value);
        inputNodes := inputNodes[e.tensor := created.value];
        return Ok(());
      }
      r := VisitInput(e, named.value);
    }

    method VisitLiteral(e: Pending) returns (r: Result<(), Error>)
      requires e.tensor < |tr| && tr[e.tensor].Literal? && e.consumer < |nodes| && e.tensor !in visited && MapsOk()
      modifies this`nodes, this`roles, this`edges, this`wired, this`visited
      ensures r.Ok? ==> Turn(tr, rq, old(Snapshot()), Snapshot(), e) && MapsOk()
      ensures r.Err? ==> Refused(tr, rq, old(Snapshot()), e, r.error)
    {
      var name := "constant_" + Decimal.Render(e.port) + "_" + nodes[e.consumer].name;
      var created := CreateInput(e, ConstantInput(name, e.subgraph, tr[e.tensor].literal));
      if created.Err? { return Err(created.error); }
      RegisterKeeps(tr, old(nodes), nodes, old(visited), inputNodes, targetNodes, loopbackNodes, e.tensor,
                    created.value);
      return Ok(());
    }

    method PushOperands(src: Source, op: nat, subgraph: nat)
      requires src.Produced?
      modifies this`pending
      ensures pending == old(pending) + OperandEntries(src, op, subgraph, |src.operands|)
    {
      for i := 0 to |src.operands|
        invariant pending == old(pending) + OperandEntries(src, op, subgraph, i)
      {
        assert OperandEntries(src, op, subgraph, i + 1) ==
               OperandEntries(src, op, subgraph, i) + [Pending(src.operands[i], op, i, src.broadcasts, subgraph)];
        pending := pending + [Pending(src.operands[i], op, i, src.broadcasts, subgraph)];
      }
    }

    method VisitProduced(e: Pending) returns (r: Result<(), Error>)
      requires e.tensor < |tr| && tr[e.tensor].Produced? && e.consumer < |nodes| && e.tensor !in visited && MapsOk()
      modifies this`nodes, this`roles, this`edges, this`wired, this`visited, this`pending
      ensures r.Ok? ==> Turn(tr, rq, old(Snapshot()), Snapshot(), e) && MapsOk()
      ensures r.Err? ==> Refused(tr, rq, old(Snapshot()), e, r.error)
    {
      var src := tr[e.tensor];
      var created := CreateNode(OpNode(src.opName, e.subgraph, src.op), Made(e.tensor));
      if created.Err? { return Err(created.error); }
      var op := created.value;
      visited := visited[e.tensor := op];
      CreateDataEdge(op, e.consumer, e.port, e.broadcasts);
      PushOperands(src, op, e.subgraph);
      RegisterKeeps(tr, old(nodes), nodes, old(visited), inputNodes, targetNodes, loopbackNodes, e.tensor, op);
      return Ok(());
    }

    method Visit(e: Pending) returns (r: Result<(), Error>)
      requires e.tensor < |tr| && e.consumer < |nodes| && RecordedOk(nodes, recorded) && MapsOk()
      requires passthroughs == Passthroughs(tr, rq.outputs)
      modifies this`nodes, this`roles, this`edges, this`wired, this`visited, this`recorded, this`pending
      modifies this`inputNodes, this`targetNodes, this`loopbackNodes
      ensures r.Ok? ==> Turn(tr, rq, old(Snapshot()), Snapshot(), e) && MapsOk()
      ensures r.Err? ==> Refused(tr, rq, old(Snapshot()), e, r.error)
    {
      if e.tensor in visited {
        CreateDataEdge(visited[e.tensor], e.consumer, e.port, e.broadcasts);
        return Ok(());
      }
      match tr[e.tensor]
      case Param(_) => r := VisitParameter(e);
      case Plain(_) => r := VisitPlain(e);
      case Literal(_, _) => r := VisitLiteral(e);
      case Produced(_, _, _, _) => r := VisitProduced(e);
    }

    // ----- the worklist

    ghost predicate LoopValid()
      reads this
    {
      LoopOk(tr, rq, Snapshot()) && MapsOk() && passthroughs == Passthroughs(tr, rq.outputs)
    }

    method PopEntry() returns (e: Pending)
      requires pending != []
      modifies this`pending
      ensures e == old(pending)[0] && Snapshot() == Pop(old(Snapshot()))
    {
      e := pending[0];
      pending := pending[1..];
    }

    method HandleFirst() returns (r: Result<(), Error>)
      requires pending != [] && pending[0].tensor < |tr| && pending[0].consumer < |nodes|
      requires RecordedOk(nodes, recorded) && MapsOk() && passthroughs == Passthroughs(tr, rq.outputs)
      modifies this`nodes, this`roles, this`edges, this`wired, this`visited, this`recorded, this`pending
      modifies this`inputNodes, this`targetNodes, this`loopbackNodes
      ensures r.Ok? ==> Turn(tr, rq, Pop(old(Snapshot())), Snapshot(), old(pending)[0]) && MapsOk()
      ensures r.Err? ==> Refused(tr, rq, Pop(old(Snapshot())), old(pending)[0], r.error)
    {
      var e := PopEntry();
      r := Visit(e);
    }

    /** One turn of the loop. */
    method Step() returns (r: Result<(), Error>)
      requires LoopValid() && pending != []
      modifies this`nodes, this`roles, this`edges, this`wired, this`visited, this`recorded, this`pending
      modifies this`inputNodes, this`targetNodes, this`loopbackNodes
      ensures r.Ok? ==> TakesTurn(tr, rq, old(Snapshot()), Snapshot()) && MapsOk()
      ensures r.Err? ==> FirstRefused(tr, rq, old(Snapshot()), r.error)
    {
      FirstInRange(tr, rq, Snapshot());
      r := HandleFirst();
    }

    /** After a turn the loop can go on, nearer to its end. */
    method Turned() returns (r: Result<(), Error>)
      requires LoopValid() && pending != []
      modifies this`nodes, this`roles, this`edges, this`wired, this`visited, this`recorded, this`pending
      modifies this`inputNodes, this`targetNodes, this`loopbackNodes
      ensures r.Ok? ==> TakesTurn(tr, rq, old(Snapshot()), Snapshot())
      ensures r.Ok? ==> LoopValid() && Nearer(tr, old(Snapshot()), Snapshot())
      ensures r.Err? ==> FirstRefused(tr, rq, old(Snapshot()), r.error)
    {
      ghost var s := Snapshot();
      r := Step();
      ghost var s' := Snapshot();
      if r.Ok? { TakenIsNearer(tr, rq, s, s'); }
    }

    /** Either the queue shrinks, or one more tensor has been visited; and what turns preserve is preserved. */
    method Advance(ghost inv: State -> bool) returns (r: Result<(), Error>)
      requires LoopValid() && pending != [] && inv(Snapshot()) && Preserved(Turns(tr, rq), inv)
      modifies this`nodes, this`roles, this`edges, this`wired, this`visited, this`recorded, this`pending
      modifies this`inputNodes, this`targetNodes, this`loopbackNodes
      ensures r.Ok? ==> LoopValid() && inv(Snapshot()) && Nearer(tr, old(Snapshot()), Snapshot())
      ensures r.Err? ==> Fails(tr, rq, inv, r.error)
    {
      ghost var s := Snapshot();
      r := Turned();
      if r.Ok? { TurnPreserves(tr, rq, inv, s, Snapshot()); }
    }

    /** The loop ends, whatever the trace, and goes through states with every property that turns preserve. */
    method Drain(ghost inv: State -> bool) returns (r: Result<(), Error>)
      requires LoopValid() && inv(Snapshot()) && Preserved(Turns(tr, rq), inv)
      modifies this`nodes, this`roles, this`edges, this`wired, this`visited, this`recorded, this`pending
      modifies this`inputNodes, this`targetNodes, this`loopbackNodes
      ensures r.Ok? ==> LoopValid() && inv(Snapshot()) && pending == []
      ensures r.Err? ==> Fails(tr, rq, inv, r.error)
    {
      while pending != []
        invariant LoopValid() && inv(Snapshot())
        decreases Unvisited(tr, Snapshot()), |pending|
      {
        var stepped := Advance(inv);
        if stepped.Err? { return stepped; }
      }
      return Ok(());
    }

    // ----- the model outputs

    /** The output's name; an output without a source must be an input, and is then passed through. */
    method NameOutput(k: nat) returns (r: Result<string, Error>)
      requires ValidRequest(tr, rq) && k < |rq.outputs| && rq.outputs[k] < |tr|
      requires passthroughs == Passthroughs(tr, rq.outputs[..k])
      modifies this`passthroughs
      ensures r.Ok? <==> HasSource(tr[rq.outputs[k]]) || rq.outputs[k] in rq.inputs
      ensures r.Ok? ==> r.value == OutputName(tr, rq, k) && passthroughs == Passthroughs(tr, rq.outputs[..k + 1])
      ensures r.Err? ==> r.error == UntracedOutput(rq.outputs[k])
    {
      var t := rq.outputs[k];
      assert t in rq.outputs;
      PassthroughsSnoc(tr, rq.outputs, k);
      var prefix := rq.moduleName[t] + ".output_";
      var src := tr[t];
      if HasSource(src) {
        return Ok(prefix + if src.Literal? then src.literalName else src.opName);
      } else if t in rq.inputs {
        var name := prefix + ("passthrough_" + Decimal.Render(|passthroughs|));
        passthroughs := passthroughs + {t};
        return Ok(name);
      }
      return Err(UntracedOutput(t));
    }

    method CreateOutput(k: nat) returns (r: Result<(), Error>)
      requires ValidRequest(tr, rq) && k < |rq.outputs| && |nodes| == k && rq.outputs[k] < |tr|
      requires passthroughs == Passthroughs(tr, rq.outputs[..k])
      modifies this`nodes, this`roles, this`pending, this`passthroughs, this`outputNodes
      ensures r.Ok? <==>
                && (HasSource(tr[rq.outputs[k]]) || rq.outputs[k] in rq.inputs)
                && NameFree(old(Snapshot()), OutputName(tr, rq, k))
      ensures r.Ok? ==> Snapshot() == OutputAdded(old(Snapshot()), rq.outputs[k], OutputNode(tr, rq, k))
      ensures r.Ok? ==> outputNodes == old(outputNodes)[rq.outputs[k] := k]
      ensures r.Ok? ==> passthroughs == Passthroughs(tr, rq.outputs[..k + 1])
      ensures r.Err? && (HasSource(tr[rq.outputs[k]]) || rq.outputs[k] in rq.inputs) ==>
                r.error == NameTaken(OutputName(tr, rq, k))
      ensures r.Err? && !HasSource(tr[rq.outputs[k]]) && rq.outputs[k] !in rq.inputs ==>
                r.error == UntracedOutput(rq.outputs[k])
    {
      var t := rq.outputs[k];
      var name := NameOutput(k);
      if name.Err? { return Err(name.error); }
      var created := CreateNode(Output(name.value, SubgraphOf(rq, t)), OutputFor(t));
      if created.Err? { return Err(created.error); }
      outputNodes := outputNodes[t := created.value];
      pending := pending + [Pending(t, created.value, 0, [], SubgraphOf(rq, t))];
      return Ok(());
    }

    ghost predicate Placed(k: nat)
      requires k <= |rq.outputs|
      reads this
    {
      && OutputsPlaced(tr, rq, Snapshot(), k) && Snapshot() == Start(tr, rq, k)
      && LastIndices(rq.outputs[..k], outputNodes)
      && passthroughs == Passthroughs(tr, rq.outputs[..k])
    }

    lemma FreshIsPlaced()
      requires ValidRequest(tr, rq) && Fresh()
      ensures Placed(0) && MapsOk()
    {
      StartOk(tr, rq);
      assert Start(tr, rq, 0) == State([], [], map[], map[], [], [], map[]);
    }

    method PlaceOutput(k: nat) returns (r: Result<(), Error>)
      requires k < |rq.outputs| && Placed(k)
      modifies this`nodes, this`roles, this`pending, this`passthroughs, this`outputNodes
      ensures r.Ok? ==> Placed(k + 1) && (HasSource(tr[rq.outputs[k]]) || rq.outputs[k] in rq.inputs)
      ensures r.Err? ==> Explained(tr, rq, r.error) && !Translatable(tr, rq)
    {
      ghost var s := Snapshot();
      assert rq.outputs[k] in rq.outputs;
      LastIndicesSnoc(rq.outputs, k, outputNodes);
      r := CreateOutput(k);
      if r.Ok? {
        OutputPlacedNext(tr, rq, s, k);
        StartNext(tr, rq, k);
      } else {
        NotPlacedIsExplained(tr, rq, k, r.error);
        NotStartableIsNotTranslatable(tr, rq);
      }
    }

    method PlaceOutputs() returns (r: Result<(), Error>)
      requires Placed(0)
      modifies this`nodes, this`roles, this`pending, this`passthroughs, this`outputNodes
      ensures r.Ok? ==> Placed(|rq.outputs|) && OutputsTraced(tr, rq)
      ensures r.Err? ==> Explained(tr, rq, r.error) && !Translatable(tr, rq)
    {
      for k := 0 to |rq.outputs|
        invariant Placed(k)
        invariant forall i :: 0 <= i < k ==> HasSource(tr[rq.outputs[i]]) || rq.outputs[i] in rq.inputs
      {
        var placed := PlaceOutput(k);
        if placed.Err? { return placed; }
      }
      return Ok(());
    }

    /** Placing every output leaves the queue as the loop needs it. */
    method CreateOutputs() returns (r: Result<(), Error>)
      requires Placed(0) && MapsOk()
      modifies this`nodes, this`roles, this`pending, this`passthroughs, this`outputNodes
      ensures r.Ok? ==> LoopValid() && LastIndices(rq.outputs, outputNodes)
      ensures r.Ok? ==> Startable(tr, rq) && Snapshot() == Start(tr, rq, |rq.outputs|)
      ensures r.Err? ==> Explained(tr, rq, r.error) && !Translatable(tr, rq)
    {
      r := PlaceOutputs();
      if r.Ok? {
        OutputsStartLoop(tr, rq, Snapshot());
        PlacedIsStartable(tr, rq);
        assert rq.outputs[..|rq.outputs|] == rq.outputs;
      }
    }

    // ----- registration

    method RegisterNodes(ts: seq<Tensor>, made: map<Tensor, nat>) returns (r: seq<nat>)
      ensures r == NodesOf(ts, made)
    {
      r := [];
      for i := 0 to |ts|
        invariant r == NodesOf(ts[..i], made)
      {
        assert ts[..i + 1][..i] == ts[..i];
        if ts[i] in made {
          r := r + [made[ts[i]]];
        }
      }
      assert ts[..|ts|] == ts;
    }

    method KeepInputs() returns (r: seq<Tensor>)
      ensures r == Kept(rq.inputs, inputNodes.Keys, outputNodes.Keys, loopbackNodes.Keys)
    {
      r := [];
      for i := 0 to |rq.inputs|
        invariant r == Kept(rq.inputs[..i], inputNodes.Keys, outputNodes.Keys, loopbackNodes.Keys)
      {
        assert rq.inputs[..i + 1][..i] == rq.inputs[..i];
        var t := rq.inputs[i];
        if (t in inputNodes || t in outputNodes) && t !in loopbackNodes {
          r := r + [t];
        }
      }
      assert rq.inputs[..|rq.inputs|] == rq.inputs;
    }

    /** Fails exactly when some target has no target node. */
    method Register() returns (r: Result<Registered, Error>)
      ensures r.Ok? <==> forall t :: t in rq.targets ==> t in targetNodes
      ensures r.Ok? ==> r.value.inputs == NodesOf(rq.inputs, inputNodes)
      ensures r.Ok? ==> r.value.outputs == NodesOf(rq.outputs, outputNodes)
      ensures r.Ok? ==> r.value.keptInputs == Kept(rq.inputs, inputNodes.Keys, outputNodes.Keys, loopbackNodes.Keys)
      ensures r.Ok? ==> |r.value.targets| == |rq.targets|
      ensures r.Ok? ==> forall i :: 0 <= i < |rq.targets| ==> r.value.targets[i] == targetNodes[rq.targets[i]]
      ensures r.Err? ==> r.error.TargetUnused? && r.error.t in rq.targets && r.error.t !in targetNodes
    {
      var inputs := RegisterNodes(rq.inputs, inputNodes);
      var outputs := RegisterNodes(rq.outputs, outputNodes);
      var targets := [];
      for i := 0 to |rq.targets|
        invariant |targets| == i
        invariant forall j :: 0 <= j < i ==> rq.targets[j] in targetNodes && targets[j] == targetNodes[rq.targets[j]]
      {
        if rq.targets[i] !in targetNodes { return Err(TargetUnused(rq.targets[i])); }
        targets := targets + [targetNodes[rq.targets[i]]];
      }
      var kept := KeepInputs();
      return Ok(Registered(inputs, targets, outputs, kept));
    }

    /** The registration of a finished graph: it succeeds exactly when every target is a leaf of the graph. */
    method RegisterFinished() returns (r: Result<Registered, Error>)
      requires ValidRequest(tr, rq) && Finished(tr, rq.outputs, Snapshot()) && NamesOk(tr, rq, Snapshot()) && MapsOk()
      requires LastIndices(rq.outputs, outputNodes)
      ensures r.Ok? <==> TargetsRegistrable(tr, rq)
      ensures r.Ok? ==> RegisteredOk(tr, rq, Snapshot(), r.value)
      ensures r.Err? ==> Explained(tr, rq, r.error)
    {
      forall t | t in rq.targets
        ensures t in targetNodes <==> Registrable(tr, rq, t)
      {
        TargetNodesExactly(tr, rq, Snapshot(), inputNodes, targetNodes, loopbackNodes, t);
      }
      r := Register();
      if r.Ok? {
        RegistrationIsOk(tr, rq, Snapshot(), inputNodes, targetNodes, loopbackNodes, outputNodes, r.value);
      }
    }

    /** The worklist, once the outputs are queued. */
    method Work() returns (r: Result<(), Error>)
      requires ValidRequest(tr, rq) && Startable(tr, rq)
      requires LoopValid() && Snapshot() == Start(tr, rq, |rq.outputs|)
      modifies this`nodes, this`roles, this`edges, this`wired, this`visited, this`recorded, this`pending
      modifies this`inputNodes, this`targetNodes, this`loopbackNodes
      ensures r.Ok? ==> LoopValid() && Empties(tr, rq, Snapshot())
      ensures r.Err? ==> Explained(tr, rq, r.error) && !Translatable(tr, rq)
    {
      RunStarts(tr, rq, Snapshot());
      r := Drain(OnRun(tr, rq));
      RunEnds(tr, rq, Snapshot(), r);
    }

    /** The outputs and the worklist. */
    method Build() returns (r: Result<(), Error>)
      requires ValidRequest(tr, rq) && Fresh()
      modifies this
      ensures r.Ok? ==> LoopValid() && LastIndices(rq.outputs, outputNodes)
      ensures r.Ok? ==> Empties(tr, rq, Snapshot())
      ensures r.Err? ==> Explained(tr, rq, r.error) && !Translatable(tr, rq)
    {
      FreshIsPlaced();
      r := CreateOutputs();
      if r.Err? { return; }
      r := Work();
    }

    method GenerateOrExplain() returns (r: Result<Registered, Error>)
      requires ValidRequest(tr, rq) && Fresh()
      modifies this
      ensures r.Ok? ==> Finished(tr, rq.outputs, Snapshot()) && NamesOk(tr, rq, Snapshot())
      ensures r.Ok? ==> RegisteredOk(tr, rq, Snapshot(), r.value) && Translates(tr, rq, Snapshot())
      ensures r.Err? ==> Explained(tr, rq, r.error) && !Translatable(tr, rq)
    {
      var built := Build();
      if built.Err? { return Err(built.error); }
      r := RegisterFinished();
    }

    /**
     The whole translation. It succeeds exactly when the request can be translated, and then the graph is
     that translation and finished. It succeeds on every well-posed request, and an error always has its
     cause in the request.
     */
    method Generate() returns (r: Result<Registered, Error>)
      requires ValidRequest(tr, rq) && Fresh()
      modifies this
      ensures r.Ok? <==> Translatable(tr, rq)
      ensures r.Ok? ==> Translates(tr, rq, Snapshot()) && RegisteredOk(tr, rq, Snapshot(), r.value)
      ensures r.Ok? ==> Finished(tr, rq.outputs, Snapshot()) && NamesOk(tr, rq, Snapshot())
      ensures r.Err? ==> Explained(tr, rq, r.error)
      ensures WellPosed(tr, rq) ==> r.Ok?
    {
      r := GenerateOrExplain();
      if r.Err? && WellPosed(tr, rq) {
        WellPosedHasNoError(tr, rq, r.error);
      }
    }
  }
}
