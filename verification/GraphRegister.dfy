/**
 What `generate_graph` registers on the finished graph: which nodes stand for the module inputs,
 targets and outputs, and which inputs are left to be fed.
 */
module GraphRegister {
  import opened Wrappers
  import opened Trace
  import opened DataflowGraph
  import opened GraphInvariant
  import opened GraphMeaning
  import opened GraphNames

  // ----- which map a leaf is put into

  ghost predicate MadeFor(visited: map<Tensor, nat>, made: map<Tensor, nat>) {
    forall t :: t in made ==> t in visited && made[t] == visited[t]
  }

  /** A tensor without a source is put into the map for the kind of its node; parameters and ops are in none. */
  ghost predicate Sorted(tr: Trace, node: Node, inputs: set<Tensor>, targets: set<Tensor>, loopbacks: set<Tensor>,
                         t: Tensor) {
    && t < |tr|
    && (t in inputs <==> tr[t].Plain? && node.ActivationInput?)
    && (t in targets <==> tr[t].Plain? && (node.TargetInput? || node.ConstantInput?))
    && (t in loopbacks <==> tr[t].Plain? && node.ParameterInput?)
  }

  ghost predicate AllSorted(tr: Trace, nodes: seq<Node>, visited: map<Tensor, nat>, inputs: set<Tensor>,
                            targets: set<Tensor>, loopbacks: set<Tensor>)
  {
    forall t :: t in visited ==>
      visited[t] < |nodes| && Sorted(tr, nodes[visited[t]], inputs, targets, loopbacks, t)
  }

  ghost predicate RegistersOk(tr: Trace, nodes: seq<Node>, visited: map<Tensor, nat>, inputs: map<Tensor, nat>,
                              targets: map<Tensor, nat>, loopbacks: map<Tensor, nat>)
  {
    && MadeFor(visited, inputs) && MadeFor(visited, targets) && MadeFor(visited, loopbacks)
    && AllSorted(tr, nodes, visited, inputs.Keys, targets.Keys, loopbacks.Keys)
  }

  ghost function With(made: map<Tensor, nat>, add: bool, t: Tensor, n: nat): map<Tensor, nat> {
    if add then made[t := n] else made
  }

  ghost function Joined(ts: set<Tensor>, add: bool, t: Tensor): set<Tensor> {
    if add then ts + {t} else ts
  }

  lemma MadeForNext(visited: map<Tensor, nat>, made: map<Tensor, nat>, add: bool, t: Tensor, n: nat)
    requires MadeFor(visited, made) && t !in visited
    ensures MadeFor(visited[t := n], With(made, add, t, n))
    ensures With(made, add, t, n).Keys == Joined(made.Keys, add, t) && t !in made
  {
  }

  lemma AllSortedNext(tr: Trace, nodes: seq<Node>, nodes': seq<Node>, visited: map<Tensor, nat>,
                      inputs: set<Tensor>, targets: set<Tensor>, loopbacks: set<Tensor>, t: Tensor, n: nat)
    requires AllSorted(tr, nodes, visited, inputs, targets, loopbacks) && nodes <= nodes'
    requires t !in visited && t < |tr| && n < |nodes'| && t !in inputs && t !in targets && t !in loopbacks
    ensures var plain, node := tr[t].Plain?, nodes'[n];
            AllSorted(tr, nodes', visited[t := n], Joined(inputs, plain && node.ActivationInput?, t),
                      Joined(targets, plain && (node.TargetInput? || node.ConstantInput?), t),
                      Joined(loopbacks, plain && node.ParameterInput?, t))
  {
    forall u | u in visited
      ensures visited[u] < |nodes'| && Sorted(tr, nodes'[visited[u]], inputs, targets, loopbacks, u)
    {
      assert nodes'[visited[u]] == nodes'[..|nodes|][visited[u]];
    }
  }

  /** A newly visited tensor enters the map for the kind of its node, if it has no source. */
  lemma RegisterKeeps(tr: Trace, nodes: seq<Node>, nodes': seq<Node>, visited: map<Tensor, nat>,
                      inputs: map<Tensor, nat>, targets: map<Tensor, nat>, loopbacks: map<Tensor, nat>,
                      t: Tensor, n: nat)
    requires RegistersOk(tr, nodes, visited, inputs, targets, loopbacks) && nodes <= nodes'
    requires t !in visited && t < |tr| && n < |nodes'|
    ensures var plain, node := tr[t].Plain?, nodes'[n];
            RegistersOk(tr, nodes', visited[t := n], With(inputs, plain && node.ActivationInput?, t, n),
                        With(targets, plain && (node.TargetInput? || node.ConstantInput?), t, n),
                        With(loopbacks, plain && node.ParameterInput?, t, n))
  {
    var plain, node := tr[t].Plain?, nodes'[n];
    MadeForNext(visited, inputs, plain && node.ActivationInput?, t, n);
    MadeForNext(visited, targets, plain && (node.TargetInput? || node.ConstantInput?), t, n);
    MadeForNext(visited, loopbacks, plain && node.ParameterInput?, t, n);
    AllSortedNext(tr, nodes, nodes', visited, inputs.Keys, targets.Keys, loopbacks.Keys, t, n);
  }

  /** What is registered on the graph, and the inputs that remain to be fed. */
  datatype Registered = Registered(inputs: seq<nat>, targets: seq<nat>, outputs: seq<nat>, keptInputs: seq<Tensor>)

  /** The nodes made for those of `ts` that have one, in order. */
  function NodesOf(ts: seq<Tensor>, made: map<Tensor, nat>): (r: seq<nat>)
  {
    if ts == [] then []
    else
      var t := ts[|ts| - 1];
      NodesOf(ts[..|ts| - 1], made) + if t in made then [made[t]] else []
  }

  function Kept(ts: seq<Tensor>, inputs: set<Tensor>, outputs: set<Tensor>, loopbacks: set<Tensor>): (r: seq<Tensor>)
  {
    if ts == [] then []
    else
      var t := ts[|ts| - 1];
      Kept(ts[..|ts| - 1], inputs, outputs, loopbacks) + if t in inputs + outputs && t !in loopbacks then [t] else []
  }

  /** The places in `ts` of the chosen tensors. */
  ghost function Places(ts: seq<Tensor>, chosen: set<Tensor>): nat -> bool {
    (i: nat) => i < |ts| && ts[i] in chosen
  }

  ghost predicate PickedAt(ts: seq<Tensor>, chosen: set<Tensor>, picked: seq<Tensor>, at: seq<nat>) {
    && Lists(at, |ts|, Places(ts, chosen))
    && |picked| == |at| && forall j :: 0 <= j < |at| ==> picked[j] == ts[at[j]]
  }

  /** The chosen ones of `ts`, in their order. */
  ghost predicate Picked(ts: seq<Tensor>, chosen: set<Tensor>, picked: seq<Tensor>) {
    exists at :: PickedAt(ts, chosen, picked, at)
  }

  lemma PlacesNext(ts: seq<Tensor>, chosen: set<Tensor>, at: seq<nat>, t: Tensor)
    requires Lists(at, |ts|, Places(ts, chosen))
    ensures Lists(if t in chosen then at + [|ts|] else at, |ts| + 1, Places(ts + [t], chosen))
  {
    ListsAgree(at, |ts|, Places(ts, chosen), Places(ts + [t], chosen));
    ListsNext(at, |ts|, Places(ts + [t], chosen));
  }

  lemma PickedAtNext(ts: seq<Tensor>, chosen: set<Tensor>, picked: seq<Tensor>, at: seq<nat>, t: Tensor)
    requires PickedAt(ts, chosen, picked, at)
    ensures t in chosen ==> PickedAt(ts + [t], chosen, picked + [t], at + [|ts|])
    ensures t !in chosen ==> PickedAt(ts + [t], chosen, picked, at)
  {
    PlacesNext(ts, chosen, at, t);
  }

  lemma PickedNext(ts: seq<Tensor>, chosen: set<Tensor>, picked: seq<Tensor>, t: Tensor)
    requires Picked(ts, chosen, picked)
    ensures Picked(ts + [t], chosen, if t in chosen then picked + [t] else picked)
  {
    var at: seq<nat> :| PickedAt(ts, chosen, picked, at);
    PickedAtNext(ts, chosen, picked, at, t);
  }

  lemma KeptNext(ts: seq<Tensor>, inputs: set<Tensor>, outputs: set<Tensor>, loopbacks: set<Tensor>, t: Tensor)
    ensures var before, after := Kept(ts, inputs, outputs, loopbacks), Kept(ts + [t], inputs, outputs, loopbacks);
            after == if t in inputs + outputs - loopbacks then before + [t] else before
  {
    assert (ts + [t])[..|ts|] == ts;
  }

  lemma KeptPickedNext(ts: seq<Tensor>, inputs: set<Tensor>, outputs: set<Tensor>, loopbacks: set<Tensor>, t: Tensor)
    requires Picked(ts, inputs + outputs - loopbacks, Kept(ts, inputs, outputs, loopbacks))
    ensures Picked(ts + [t], inputs + outputs - loopbacks, Kept(ts + [t], inputs, outputs, loopbacks))
  {
    PickedNext(ts, inputs + outputs - loopbacks, Kept(ts, inputs, outputs, loopbacks), t);
    KeptNext(ts, inputs, outputs, loopbacks, t);
  }

  lemma {:induction false} KeptArePicked(ts: seq<Tensor>, inputs: set<Tensor>, outputs: set<Tensor>,
                                         loopbacks: set<Tensor>)
    ensures Picked(ts, inputs + outputs - loopbacks, Kept(ts, inputs, outputs, loopbacks))
  {
    if ts == [] {
      assert PickedAt([], inputs + outputs - loopbacks, [], []);
    } else {
      var before, t := ts[..|ts| - 1], ts[|ts| - 1];
      KeptArePicked(before, inputs, outputs, loopbacks);
      KeptPickedNext(before, inputs, outputs, loopbacks, t);
      assert before + [t] == ts;
    }
  }

  /** The nodes of some tensors. */
  ghost predicate NodesFor(ts: seq<Tensor>, visited: map<Tensor, nat>, nodes: seq<nat>) {
    |nodes| == |ts| && forall i :: 0 <= i < |ts| ==> ts[i] in visited && nodes[i] == visited[ts[i]]
  }

  /** `nodes` are the nodes of the chosen ones of `ts`, in their order. */
  ghost predicate NodesPicked(ts: seq<Tensor>, chosen: set<Tensor>, visited: map<Tensor, nat>, nodes: seq<nat>) {
    exists picked :: Picked(ts, chosen, picked) && NodesFor(picked, visited, nodes)
  }

  lemma NodesForNext(ts: seq<Tensor>, made: map<Tensor, nat>, visited: map<Tensor, nat>, nodes: seq<nat>, t: Tensor)
    requires MadeFor(visited, made) && NodesFor(ts, visited, nodes)
    ensures NodesFor(if t in made then ts + [t] else ts, visited, if t in made then nodes + [made[t]] else nodes)
  {
  }

  lemma NodesPickedNext(ts: seq<Tensor>, made: map<Tensor, nat>, visited: map<Tensor, nat>, nodes: seq<nat>, t: Tensor)
    requires MadeFor(visited, made) && NodesPicked(ts, made.Keys, visited, nodes)
    ensures NodesPicked(ts + [t], made.Keys, visited, if t in made then nodes + [made[t]] else nodes)
  {
    var picked: seq<Tensor> :| Picked(ts, made.Keys, picked) && NodesFor(picked, visited, nodes);
    PickedNext(ts, made.Keys, picked, t);
    NodesForNext(picked, made, visited, nodes, t);
  }

  lemma NodesOfNext(ts: seq<Tensor>, made: map<Tensor, nat>, t: Tensor)
    ensures NodesOf(ts + [t], made) == if t in made then NodesOf(ts, made) + [made[t]] else NodesOf(ts, made)
  {
    assert (ts + [t])[..|ts|] == ts;
  }

  lemma NodesPickedOfNext(ts: seq<Tensor>, made: map<Tensor, nat>, visited: map<Tensor, nat>, t: Tensor)
    requires MadeFor(visited, made) && NodesPicked(ts, made.Keys, visited, NodesOf(ts, made))
    ensures NodesPicked(ts + [t], made.Keys, visited, NodesOf(ts + [t], made))
  {
    NodesPickedNext(ts, made, visited, NodesOf(ts, made), t);
    NodesOfNext(ts, made, t);
  }

  lemma NothingPicked(made: map<Tensor, nat>, visited: map<Tensor, nat>)
    ensures NodesPicked([], made.Keys, visited, [])
  {
    assert PickedAt([], made.Keys, [], []);
    assert Picked([], made.Keys, []) && NodesFor([], visited, []);
  }

  lemma {:induction false} NodesArePicked(ts: seq<Tensor>, made: map<Tensor, nat>, visited: map<Tensor, nat>)
    requires MadeFor(visited, made)
    ensures NodesPicked(ts, made.Keys, visited, NodesOf(ts, made))
  {
    if ts == [] {
      NothingPicked(made, visited);
    } else {
      var before, t := ts[..|ts| - 1], ts[|ts| - 1];
      NodesArePicked(before, made, visited);
      NodesPickedOfNext(before, made, visited, t);
      assert before + [t] == ts;
    }
  }

  // ----- targets

  lemma LeafIsVisited(tr: Trace, rq: Request, s: State, t: Tensor)
    requires ValidRequest(tr, rq) && Finished(tr, rq.outputs, s)
    requires t < |tr| && !tr[t].Param? && Reachable(tr, rq.outputs, t)
    ensures t in s.visited
  {
    OneNodePerTensor(tr, rq.outputs, s, t);
    var n :| 0 <= n < |s.nodes| && s.roles[n] == Made(t);
  }

  /** The node of a visited tensor is of the kind that the request asks for. */
  lemma VisitedKind(tr: Trace, rq: Request, s: State, t: Tensor)
    requires ValidRequest(tr, rq) && Finished(tr, rq.outputs, s) && NamesOk(tr, rq, s) && t in s.visited
    ensures t < |tr| && s.visited[t] < |s.nodes| && Reachable(tr, rq.outputs, t)
    ensures tr[t].Plain? ==> KindFits(tr, rq, t, s.nodes[s.visited[t]])
  {
    var n := s.visited[t];
    assert s.roles[n] == Made(t) && RoleFits(tr, s.nodes[n], s.roles[n]);
    assert NodeNamed(tr, rq, s.nodes[n], s.roles[n], n);
  }

  /** A requested target has a target node exactly when it is a leaf that outputs depend on without being one. */
  lemma TargetNodesExactly(tr: Trace, rq: Request, s: State, inputs: map<Tensor, nat>, targets: map<Tensor, nat>,
                           loopbacks: map<Tensor, nat>, t: Tensor)
    requires ValidRequest(tr, rq) && Finished(tr, rq.outputs, s) && NamesOk(tr, rq, s) && t in rq.targets
    requires RegistersOk(tr, s.nodes, s.visited, inputs, targets, loopbacks)
    ensures t in targets <==> Registrable(tr, rq, t)
  {
    if t in targets {
      VisitedKind(tr, rq, s, t);
    }
    if Registrable(tr, rq, t) {
      LeafIsVisited(tr, rq, s, t);
      VisitedKind(tr, rq, s, t);
    }
  }

  // ----- outputs

  /** `made` gives each of `ts` the last of its positions. */
  ghost predicate LastIndices(ts: seq<Tensor>, made: map<Tensor, nat>) {
    && (forall t :: t in ts ==> t in made)
    && (forall t :: t in made ==> made[t] < |ts| && ts[made[t]] == t && t !in ts[made[t] + 1..])
  }

  lemma LastIndicesSnoc(ts: seq<Tensor>, k: nat, made: map<Tensor, nat>)
    requires k < |ts| && LastIndices(ts[..k], made)
    ensures LastIndices(ts[..k + 1], made[ts[k] := k])
  {
    var before, after, made' := ts[..k], ts[..k + 1], made[ts[k] := k];
    assert after == before + [ts[k]];
    forall t | t in made'
      ensures made'[t] < |after| && after[made'[t]] == t && t !in after[made'[t] + 1..]
    {
      if t != ts[k] {
        assert after[made[t] + 1..] == before[made[t] + 1..] + [ts[k]];
      }
    }
  }

  /** Registered output i is the last output node made for the i-th traced output. */
  ghost predicate OutputsRegistered(outputs: seq<Tensor>, registered: seq<nat>) {
    && |registered| == |outputs|
    && forall i :: 0 <= i < |outputs| ==>
         && i <= registered[i] < |outputs| && outputs[registered[i]] == outputs[i]
         && outputs[i] !in outputs[registered[i] + 1..]
  }

  lemma {:induction false} NodesOfAll(ts: seq<Tensor>, made: map<Tensor, nat>)
    requires forall t :: t in ts ==> t in made
    ensures |NodesOf(ts, made)| == |ts|
    ensures forall i :: 0 <= i < |ts| ==> NodesOf(ts, made)[i] == made[ts[i]]
  {
    if ts != [] {
      NodesOfAll(ts[..|ts| - 1], made);
    }
  }

  lemma InTail(ts: seq<Tensor>, i: nat, j: nat)
    requires i < j < |ts|
    ensures ts[j] in ts[i + 1..]
  {
    assert ts[j] == ts[i + 1..][j - i - 1];
  }

  lemma NotAfterLast(ts: seq<Tensor>, last: nat, i: nat)
    requires last < |ts| && i < |ts| && ts[i] !in ts[last + 1..]
    ensures i <= last
  {
    if last < i { InTail(ts, last, i); }
  }

  lemma LastAreRegistered(outputs: seq<Tensor>, made: map<Tensor, nat>)
    requires LastIndices(outputs, made)
    ensures OutputsRegistered(outputs, NodesOf(outputs, made))
  {
    NodesOfAll(outputs, made);
    forall i | 0 <= i < |outputs|
      ensures i <= made[outputs[i]]
    {
      NotAfterLast(outputs, made[outputs[i]], i);
    }
  }

  /** Output i is registered with output node i. */
  ghost predicate OwnNodes(registered: seq<nat>) {
    forall i :: 0 <= i < |registered| ==> registered[i] == i
  }

  /** Every output is registered with its own node exactly when no tensor is output twice. */
  lemma OutputNodesDistinct(outputs: seq<Tensor>, registered: seq<nat>)
    requires OutputsRegistered(outputs, registered)
    ensures OwnNodes(registered) <==> Distinct(outputs)
  {
    if i, j :| 0 <= i < j < |outputs| && outputs[i] == outputs[j] {
      InTail(outputs, i, j);
    }
    if i :| 0 <= i < |outputs| && registered[i] != i {
      assert outputs[registered[i]] == outputs[i];
    }
  }

  // ----- inputs

  lemma {:induction false} KeptMembers(ts: seq<Tensor>, inputs: set<Tensor>, outputs: set<Tensor>,
                                       loopbacks: set<Tensor>)
    ensures forall t :: t in Kept(ts, inputs, outputs, loopbacks) <==>
                        t in ts && t in inputs + outputs && t !in loopbacks
  {
    if ts != [] {
      KeptMembers(ts[..|ts| - 1], inputs, outputs, loopbacks);
      assert ts == ts[..|ts| - 1] + [ts[|ts| - 1]];
    }
  }

  /** Kept input i is fed to registered input node i. */
  ghost predicate LinedUp(kept: seq<Tensor>, nodes: seq<nat>, made: map<Tensor, nat>) {
    |kept| == |nodes| && forall i :: 0 <= i < |kept| ==> kept[i] in made && nodes[i] == made[kept[i]]
  }

  lemma {:induction false} KeptLineUp(ts: seq<Tensor>, made: map<Tensor, nat>, outputs: set<Tensor>,
                                      loopbacks: set<Tensor>)
    requires made.Keys !! loopbacks
    requires forall t :: t in ts && t in outputs && t !in loopbacks ==> t in made
    ensures LinedUp(Kept(ts, made.Keys, outputs, loopbacks), NodesOf(ts, made), made)
  {
    if ts != [] {
      KeptLineUp(ts[..|ts| - 1], made, outputs, loopbacks);
    }
  }

  lemma {:induction false} KeptIsLonger(ts: seq<Tensor>, made: map<Tensor, nat>, outputs: set<Tensor>,
                                        loopbacks: set<Tensor>)
    requires made.Keys !! loopbacks
    ensures var kept, nodes := Kept(ts, made.Keys, outputs, loopbacks), NodesOf(ts, made);
            && |kept| >= |nodes|
            && (|kept| == |nodes| ==> forall t :: t in ts && t in outputs && t !in loopbacks ==> t in made)
  {
    if ts != [] {
      KeptIsLonger(ts[..|ts| - 1], made, outputs, loopbacks);
      assert ts == ts[..|ts| - 1] + [ts[|ts| - 1]];
    }
  }

  /** Every input that is also an output is one without a source. */
  ghost predicate SharedAreLeaves(tr: Trace, rq: Request) {
    forall t :: t in rq.inputs && t in rq.outputs && t < |tr| ==> tr[t].Plain?
  }

  ghost predicate InputsLinedUp(tr: Trace, rq: Request, visited: map<Tensor, nat>, kept: seq<Tensor>, nodes: seq<nat>) {
    && |kept| >= |nodes|
    && (LinedUp(kept, nodes, visited) <==> SharedAreLeaves(tr, rq))
    && (LinedUp(kept, nodes, visited) <==> |kept| == |nodes|)
  }

  lemma NotBothMaps(tr: Trace, nodes: seq<Node>, visited: map<Tensor, nat>, inputs: map<Tensor, nat>,
                    targets: map<Tensor, nat>, loopbacks: map<Tensor, nat>)
    requires RegistersOk(tr, nodes, visited, inputs, targets, loopbacks)
    ensures inputs.Keys !! loopbacks.Keys
  {
    forall t | t in inputs
      ensures t !in loopbacks
    {
      assert Sorted(tr, nodes[visited[t]], inputs.Keys, targets.Keys, loopbacks.Keys, t);
    }
  }

  /** Among the inputs that are outputs, those with an input node are the ones without a source. */
  lemma SharedInputs(tr: Trace, rq: Request, s: State, inputs: map<Tensor, nat>, targets: map<Tensor, nat>,
                     loopbacks: map<Tensor, nat>, t: Tensor)
    requires ValidRequest(tr, rq) && Finished(tr, rq.outputs, s) && NamesOk(tr, rq, s) && t in rq.outputs
    requires RegistersOk(tr, s.nodes, s.visited, inputs, targets, loopbacks)
    ensures t < |tr| && t !in loopbacks && (t in inputs <==> tr[t].Plain?)
  {
    if t in s.visited {
      VisitedKind(tr, rq, s, t);
    }
    if tr[t].Plain? {
      LeafIsVisited(tr, rq, s, t);
      VisitedKind(tr, rq, s, t);
    }
  }

  /** The kept inputs line up with the registered nodes exactly when every input that is also an output is a leaf. */
  lemma InputsLineUp(tr: Trace, rq: Request, s: State, inputs: map<Tensor, nat>, targets: map<Tensor, nat>,
                     loopbacks: map<Tensor, nat>, outputs: set<Tensor>)
    requires ValidRequest(tr, rq) && Finished(tr, rq.outputs, s) && NamesOk(tr, rq, s)
    requires RegistersOk(tr, s.nodes, s.visited, inputs, targets, loopbacks)
    requires forall t :: t in outputs <==> t in rq.outputs
    ensures InputsLinedUp(tr, rq, s.visited, Kept(rq.inputs, inputs.Keys, outputs, loopbacks.Keys),
                          NodesOf(rq.inputs, inputs))
  {
    var kept, nodes := Kept(rq.inputs, inputs.Keys, outputs, loopbacks.Keys), NodesOf(rq.inputs, inputs);
    NotBothMaps(tr, s.nodes, s.visited, inputs, targets, loopbacks);
    KeptIsLonger(rq.inputs, inputs, outputs, loopbacks.Keys);
    forall t | t in rq.outputs
      ensures t < |tr| && t !in loopbacks && (t in inputs <==> tr[t].Plain?)
    {
      SharedInputs(tr, rq, s, inputs, targets, loopbacks, t);
    }
    if SharedAreLeaves(tr, rq) {
      KeptLineUp(rq.inputs, inputs, outputs, loopbacks.Keys);
      assert LinedUp(kept, nodes, s.visited);
    }
  }

  // ----- the registration of a finished graph

  ghost predicate OutputsLineUp(rq: Request, registered: seq<nat>) {
    OutputsRegistered(rq.outputs, registered) && (OwnNodes(registered) <==> Distinct(rq.outputs))
  }

  ghost predicate TargetsRegistered(targets: seq<Tensor>, visited: map<Tensor, nat>, registered: seq<nat>) {
    && |registered| == |targets|
    && forall i :: 0 <= i < |targets| ==> targets[i] in visited && registered[i] == visited[targets[i]]
  }

  /** The tensors whose node is an activation input. */
  ghost function Activations(s: State): set<Tensor> {
    set t | t in s.visited && s.visited[t] < |s.nodes| && s.nodes[s.visited[t]].ActivationInput?
  }

  /** The tensors without a source whose node is a parameter input. */
  ghost function LoopedBack(tr: Trace, s: State): set<Tensor> {
    set t | t in s.visited && t < |tr| && tr[t].Plain? && s.visited[t] < |s.nodes| &&
      s.nodes[s.visited[t]].ParameterInput?
  }

  ghost function OutputSet(rq: Request): set<Tensor> { set t | t in rq.outputs }

  /** The activation inputs are registered in the order of the requested inputs; outputs are kept besides them. */
  ghost predicate InputsRegistered(tr: Trace, rq: Request, s: State, kept: seq<Tensor>, nodes: seq<nat>) {
    && NodesPicked(rq.inputs, Activations(s), s.visited, nodes)
    && Picked(rq.inputs, Activations(s) + OutputSet(rq) - LoopedBack(tr, s), kept)
  }

  /** The input part of a registration, in terms of the request. */
  ghost predicate InputsOk(tr: Trace, rq: Request, s: State, kept: seq<Tensor>, nodes: seq<nat>) {
    InputsRegistered(tr, rq, s, kept, nodes) && InputsLinedUp(tr, rq, s.visited, kept, nodes)
  }

  /** What a successful translation has registered, in terms of the request. */
  ghost predicate RegisteredOk(tr: Trace, rq: Request, s: State, r: Registered) {
    && OutputsLineUp(rq, r.outputs) && TargetsRegistered(rq.targets, s.visited, r.targets)
    && InputsOk(tr, rq, s, r.keptInputs, r.inputs)
  }

  lemma OutputsAreRegistered(rq: Request, outputs: map<Tensor, nat>)
    requires LastIndices(rq.outputs, outputs)
    ensures OutputsLineUp(rq, NodesOf(rq.outputs, outputs))
  {
    LastAreRegistered(rq.outputs, outputs);
    OutputNodesDistinct(rq.outputs, NodesOf(rq.outputs, outputs));
  }

  lemma TargetsAreRegistered(targets: seq<Tensor>, visited: map<Tensor, nat>, made: map<Tensor, nat>,
                             registered: seq<nat>)
    requires MadeFor(visited, made) && TargetsRegistered(targets, made, registered)
    ensures TargetsRegistered(targets, visited, registered)
  {
  }

  lemma OutputKeys(ts: seq<Tensor>, made: map<Tensor, nat>)
    requires LastIndices(ts, made)
    ensures forall t :: t in made.Keys <==> t in ts
  {
  }

  lemma ActivationKeys(tr: Trace, rq: Request, s: State, inputs: map<Tensor, nat>, targets: map<Tensor, nat>,
                       loopbacks: map<Tensor, nat>)
    requires ValidRequest(tr, rq) && Finished(tr, rq.outputs, s)
    requires RegistersOk(tr, s.nodes, s.visited, inputs, targets, loopbacks)
    ensures inputs.Keys == Activations(s) && loopbacks.Keys == LoopedBack(tr, s)
  {
    forall t | t in s.visited
      ensures t in inputs <==> t in Activations(s)
      ensures t in loopbacks <==> t in LoopedBack(tr, s)
    {
      assert s.roles[s.visited[t]] == Made(t) && RoleFits(tr, s.nodes[s.visited[t]], s.roles[s.visited[t]]);
      assert Sorted(tr, s.nodes[s.visited[t]], inputs.Keys, targets.Keys, loopbacks.Keys, t);
    }
  }

  lemma InputsAreRegistered(tr: Trace, rq: Request, s: State, inputs: map<Tensor, nat>, targets: map<Tensor, nat>,
                            loopbacks: map<Tensor, nat>, outputs: map<Tensor, nat>)
    requires ValidRequest(tr, rq) && Finished(tr, rq.outputs, s) && LastIndices(rq.outputs, outputs)
    requires RegistersOk(tr, s.nodes, s.visited, inputs, targets, loopbacks)
    ensures InputsRegistered(tr, rq, s, Kept(rq.inputs, inputs.Keys, outputs.Keys, loopbacks.Keys),
                             NodesOf(rq.inputs, inputs))
  {
    ActivationKeys(tr, rq, s, inputs, targets, loopbacks);
    OutputKeys(rq.outputs, outputs);
    assert outputs.Keys == OutputSet(rq);
    NodesArePicked(rq.inputs, inputs, s.visited);
    KeptArePicked(rq.inputs, inputs.Keys, outputs.Keys, loopbacks.Keys);
  }

  lemma InputsAreOk(tr: Trace, rq: Request, s: State, inputs: map<Tensor, nat>, targets: map<Tensor, nat>,
                    loopbacks: map<Tensor, nat>, outputs: map<Tensor, nat>)
    requires ValidRequest(tr, rq) && Finished(tr, rq.outputs, s) && NamesOk(tr, rq, s)
    requires LastIndices(rq.outputs, outputs) && RegistersOk(tr, s.nodes, s.visited, inputs, targets, loopbacks)
    ensures InputsOk(tr, rq, s, Kept(rq.inputs, inputs.Keys, outputs.Keys, loopbacks.Keys), NodesOf(rq.inputs, inputs))
  {
    InputsAreRegistered(tr, rq, s, inputs, targets, loopbacks, outputs);
    OutputKeys(rq.outputs, outputs);
    InputsLineUp(tr, rq, s, inputs, targets, loopbacks, outputs.Keys);
  }

  lemma RegistrationIsOk(tr: Trace, rq: Request, s: State, inputs: map<Tensor, nat>, targets: map<Tensor, nat>,
                         loopbacks: map<Tensor, nat>, outputs: map<Tensor, nat>, r: Registered)
    requires ValidRequest(tr, rq) && Finished(tr, rq.outputs, s) && NamesOk(tr, rq, s)
    requires LastIndices(rq.outputs, outputs) && RegistersOk(tr, s.nodes, s.visited, inputs, targets, loopbacks)
    requires r.inputs == NodesOf(rq.inputs, inputs) && r.outputs == NodesOf(rq.outputs, outputs)
    requires r.keptInputs == Kept(rq.inputs, inputs.Keys, outputs.Keys, loopbacks.Keys)
    requires TargetsRegistered(rq.targets, targets, r.targets)
    ensures RegisteredOk(tr, rq, s, r)
  {
    OutputsAreRegistered(rq, outputs);
    TargetsAreRegistered(rq.targets, s.visited, targets, r.targets);
    InputsAreOk(tr, rq, s, inputs, targets, loopbacks, outputs);
  }
}
