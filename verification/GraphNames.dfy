/**
 Which names `generate_graph` can give to which nodes, judged from the request alone, and what the
 worklist keeps true of the names. A node is named before anything about the finished graph is known.
 */
module GraphNames {
  import opened Wrappers
  import opened Trace
  import opened DataflowGraph
  import opened GraphInvariant
  import Decimal

  datatype Error =
    | UntracedOutput(t: Tensor)
    | NameTaken(name: string)
    | ParameterReused(name: string, t: Tensor)
    | InputNameMissing(t: Tensor)
    | TargetUnused(t: Tensor)

  /**
   What the modules, the caller and the compiler configuration supply. `firstId` is where the node ids
   of this graph start; the library draws them from a counter that all graphs of the process share.
   */
  datatype Request = Request(
    outputs: seq<Tensor>, moduleName: map<Tensor, string>, subgraphOf: map<Tensor, nat>,
    inputs: seq<Tensor>, inputNames: Option<seq<string>>, targets: seq<Tensor>, loopbackInputs: set<string>,
    firstId: nat)

  /** An output without a source must itself be a model input. */
  predicate HasSource(src: Source) { src.Literal? || src.Produced? }

  ghost predicate ValidRequest(tr: Trace, rq: Request) {
    && Acyclic(tr)
    && (forall t :: t in rq.outputs ==> t < |tr| && t in rq.moduleName)
  }

  function SubgraphOf(rq: Request, t: Tensor): nat {
    if t in rq.subgraphOf then rq.subgraphOf[t] else 0
  }

  function IndexOf(ts: seq<Tensor>, t: Tensor): (i: nat)
    requires t in ts
    ensures i < |ts| && ts[i] == t && t !in ts[..i]
  {
    if ts[0] == t then 0 else 1 + IndexOf(ts[1..], t)
  }

  // ----- the name of a node

  /** The name of an input node: the caller's, when known, or one made from the first consumer. */
  function InputNameAt(rq: Request, t: Tensor, consumer: string, port: nat): Option<string> {
    if rq.inputNames.Some? && t in rq.inputs then
      var i := IndexOf(rq.inputs, t);
      if i < |rq.inputNames.value| then Some(rq.inputNames.value[i]) else None
    else Some("input_" + Decimal.Render(port) + "_" + consumer)
  }

  function LiteralName(consumer: string, port: nat): string {
    "constant_" + Decimal.Render(port) + "_" + consumer
  }

  /** The name of the node for a tensor that is first seen as operand `port` of `consumer`. */
  function TensorName(tr: Trace, rq: Request, t: Tensor, consumer: string, port: nat): Option<string>
    requires t < |tr|
  {
    match tr[t]
    case Param(_) => Some(ParameterNameAt(tr[t], consumer))
    case Plain(_) => InputNameAt(rq, t, consumer, port)
    case Literal(_, _) => Some(LiteralName(consumer, port))
    case Produced(_, name, _, _) => Some(name)
  }

  /** The outputs that are passed through from an input. */
  function Passthroughs(tr: Trace, ts: seq<Tensor>): set<Tensor> {
    set t | t in ts && t < |tr| && !HasSource(tr[t])
  }

  ghost function OutputName(tr: Trace, rq: Request, k: nat): string
    requires ValidRequest(tr, rq) && k < |rq.outputs|
  {
    var t := rq.outputs[k];
    rq.moduleName[t] + ".output_" +
    match tr[t]
    case Literal(_, name) => name
    case Produced(_, name, _, _) => name
    case _ => "passthrough_" + Decimal.Render(|Passthroughs(tr, rq.outputs[..k])|)
  }

  /** The id of the node that was created n-th; everywhere else nodes are referred to by n. */
  function NodeId(rq: Request, n: nat): nat { rq.firstId + n }

  function NopName(rq: Request, output: nat): string { "_passthrough_nop_" + Decimal.Render(NodeId(rq, output)) }

  // ----- which names are possible

  ghost predicate OperandOf(tr: Trace, rq: Request, t: Tensor, consumer: string, port: nat)
    requires ValidRequest(tr, rq)
  {
    exists u :: 0 <= u < |tr| && Reachable(tr, rq.outputs, u) && tr[u].Produced? && tr[u].opName == consumer &&
      port < |tr[u].operands| && tr[u].operands[port] == t
  }

  ghost predicate OutputOf(tr: Trace, rq: Request, t: Tensor, consumer: string)
    requires ValidRequest(tr, rq)
  {
    exists k :: 0 <= k < |rq.outputs| && rq.outputs[k] == t && OutputName(tr, rq, k) == consumer
  }

  /** A node of this name uses the tensor at this port. */
  ghost predicate UsedAs(tr: Trace, rq: Request, t: Tensor, consumer: string, port: nat)
    requires ValidRequest(tr, rq)
  {
    OperandOf(tr, rq, t, consumer, port) || (port == 0 && OutputOf(tr, rq, t, consumer))
  }

  ghost predicate CouldName(tr: Trace, rq: Request, t: Tensor, name: string)
    requires ValidRequest(tr, rq)
  {
    t < |tr| && exists c, p: nat :: UsedAs(tr, rq, t, c, p) && TensorName(tr, rq, t, c, p) == Some(name)
  }

  /** Some output of this subgraph depends on the tensor. */
  ghost predicate UsedIn(tr: Trace, rq: Request, t: Tensor, subgraph: nat)
    requires ValidRequest(tr, rq)
  {
    exists o :: o in rq.outputs && SubgraphOf(rq, o) == subgraph && Reachable(tr, [o], t)
  }

  /** What a node can be made for. */
  datatype Origin = OfTensor(t: Tensor) | OfOutput(k: nat) | OfNop(k: nat)

  ghost predicate Named(tr: Trace, rq: Request, o: Origin, name: string)
    requires ValidRequest(tr, rq)
  {
    match o
    case OfTensor(t) => CouldName(tr, rq, t, name)
    case OfOutput(k) => k < |rq.outputs| && name == OutputName(tr, rq, k)
    case OfNop(k) => k < |rq.outputs| && rq.outputs[k] < |tr| && tr[rq.outputs[k]].Plain? && name == NopName(rq, k)
  }

  predicate IsParam(tr: Trace, o: Origin) { o.OfTensor? && o.t < |tr| && tr[o.t].Param? }

  /** Two nodes could be given this name, and they are not both parameters, which share a node. */
  ghost predicate Clash(tr: Trace, rq: Request, name: string)
    requires ValidRequest(tr, rq)
  {
    exists a, b :: a != b && Named(tr, rq, a, name) && Named(tr, rq, b, name) && !(IsParam(tr, a) && IsParam(tr, b))
  }

  lemma ClashParties(tr: Trace, rq: Request, name: string) returns (a: Origin, b: Origin)
    requires ValidRequest(tr, rq) && Clash(tr, rq, name)
    ensures a != b && Named(tr, rq, a, name) && Named(tr, rq, b, name) && !(IsParam(tr, a) && IsParam(tr, b))
  {
    a, b :| a != b && Named(tr, rq, a, name) && Named(tr, rq, b, name) && !(IsParam(tr, a) && IsParam(tr, b));
  }

  /** A parameter and another tensor loaded under the same name are used in the same subgraph. */
  ghost predicate Reuse(tr: Trace, rq: Request, t: Tensor, u: Tensor, name: string, subgraph: nat)
    requires ValidRequest(tr, rq)
  {
    && t != u && CouldName(tr, rq, t, name) && CouldName(tr, rq, u, name) && tr[t].Param?
    && UsedIn(tr, rq, t, subgraph) && UsedIn(tr, rq, u, subgraph)
  }

  predicate NameMissing(rq: Request, t: Tensor) {
    rq.inputNames.Some? && t in rq.inputs && |rq.inputNames.value| <= IndexOf(rq.inputs, t)
  }

  /** A target input of the finished graph: a leaf that some output depends on and that is not itself an output. */
  ghost predicate Registrable(tr: Trace, rq: Request, t: Tensor)
    requires ValidRequest(tr, rq)
  {
    t < |tr| && tr[t].Plain? && Reachable(tr, rq.outputs, t) && t !in rq.outputs
  }

  ghost predicate OutputsTraced(tr: Trace, rq: Request)
    requires ValidRequest(tr, rq)
  {
    forall t :: t in rq.outputs ==> HasSource(tr[t]) || t in rq.inputs
  }

  ghost predicate TargetsRegistrable(tr: Trace, rq: Request)
    requires ValidRequest(tr, rq)
  {
    forall t :: t in rq.targets ==> Registrable(tr, rq, t)
  }

  /** The request gives rise to the error. */
  ghost predicate Explained(tr: Trace, rq: Request, err: Error)
    requires ValidRequest(tr, rq)
  {
    match err
    case UntracedOutput(t) => t in rq.outputs && !HasSource(tr[t]) && t !in rq.inputs
    case NameTaken(name) => Clash(tr, rq, name)
    case ParameterReused(name, t) => exists u, g :: Reuse(tr, rq, t, u, name, g)
    case InputNameMissing(t) => t < |tr| && tr[t].Plain? && Reachable(tr, rq.outputs, t) && NameMissing(rq, t)
    case TargetUnused(t) => t in rq.targets && !Registrable(tr, rq, t)
  }

  /** Nothing in the request can go wrong. */
  ghost predicate WellPosed(tr: Trace, rq: Request)
    requires ValidRequest(tr, rq)
  {
    && OutputsTraced(tr, rq) && TargetsRegistrable(tr, rq)
    && (forall name :: !Clash(tr, rq, name))
    && (forall t, u, name, g :: !Reuse(tr, rq, t, u, name, g))
    && (forall t :: 0 <= t < |tr| && tr[t].Plain? && Reachable(tr, rq.outputs, t) ==> !NameMissing(rq, t))
  }

  lemma WellPosedHasNoError(tr: Trace, rq: Request, err: Error)
    requires ValidRequest(tr, rq) && WellPosed(tr, rq)
    ensures !Explained(tr, rq, err)
  {
  }

  // ----- what the worklist keeps true of names

  /** The kind of input node that a tensor without a source gets. */
  ghost predicate KindFits(tr: Trace, rq: Request, t: Tensor, node: Node)
    requires t < |tr| && tr[t].Plain?
  {
    if t in rq.outputs then node.ActivationInput?
    else if t in rq.targets then node.TargetInput?
    else if tr[t].constant.Some? then node.ConstantInput? && node.value == tr[t].constant.value
    else if node.name in rq.loopbackInputs then node.ParameterInput?
    else node.ActivationInput?
  }

  ghost predicate NodeNamed(tr: Trace, rq: Request, node: Node, role: Role, n: nat)
    requires ValidRequest(tr, rq)
  {
    && UsedIn(tr, rq, role.t, node.subgraph)
    && match role
       case OutputFor(t) =>
         && n < |rq.outputs| && rq.outputs[n] == t && node.name == OutputName(tr, rq, n)
         && node.subgraph == SubgraphOf(rq, t)
       case Made(t) => CouldName(tr, rq, t, node.name) && (tr[t].Plain? ==> KindFits(tr, rq, t, node))
       case Bypass(t) => exists k :: 0 <= k < |rq.outputs| && rq.outputs[k] == t && node.name == NopName(rq, k)
  }

  ghost predicate ParametersRecorded(nodes: seq<Node>, recorded: map<string, nat>) {
    forall n :: 0 <= n < |nodes| && nodes[n].ParameterInput? ==> nodes[n].name in recorded
  }

  ghost predicate NopsVisited(roles: seq<Role>, visited: map<Tensor, nat>) {
    forall n :: 0 <= n < |roles| && roles[n].Bypass? ==> roles[n].t in visited
  }

  ghost predicate AllNamed(tr: Trace, rq: Request, nodes: seq<Node>, roles: seq<Role>)
    requires ValidRequest(tr, rq)
  {
    |roles| == |nodes| && forall n :: 0 <= n < |nodes| ==> NodeNamed(tr, rq, nodes[n], roles[n], n)
  }

  ghost predicate NamesOk(tr: Trace, rq: Request, s: State)
    requires ValidRequest(tr, rq)
  {
    AllNamed(tr, rq, s.nodes, s.roles) && ParametersRecorded(s.nodes, s.recorded) && NopsVisited(s.roles, s.visited)
  }

  /** The name of an input node in full: what the caller gave, or the port and name of some consumer. */
  ghost predicate InputNamed(tr: Trace, rq: Request, t: Tensor, name: string)
    requires ValidRequest(tr, rq)
  {
    if rq.inputNames.Some? && t in rq.inputs then
      exists i :: 0 <= i < |rq.inputs| && i < |rq.inputNames.value| &&
        rq.inputs[i] == t && t !in rq.inputs[..i] && name == rq.inputNames.value[i]
    else exists c, p: nat :: UsedAs(tr, rq, t, c, p) && name == "input_" + Decimal.Render(p) + "_" + c
  }

  /** What the node of a tensor is called. */
  lemma TensorNamed(tr: Trace, rq: Request, t: Tensor, name: string)
    requires ValidRequest(tr, rq) && CouldName(tr, rq, t, name)
    ensures match tr[t]
            case Param(Some(given)) => name == given
            case Param(None) => exists c, p: nat :: UsedAs(tr, rq, t, c, p) && name == "parameter_" + c
            case Plain(_) => InputNamed(tr, rq, t, name)
            case Literal(_, _) =>
              exists c, p: nat :: UsedAs(tr, rq, t, c, p) && name == "constant_" + Decimal.Render(p) + "_" + c
            case Produced(_, opName, _, _) => name == opName
  {
    var c, p: nat :| UsedAs(tr, rq, t, c, p) && TensorName(tr, rq, t, c, p) == Some(name);
    if rq.inputNames.Some? && t in rq.inputs && tr[t].Plain? {
      assert name == rq.inputNames.value[IndexOf(rq.inputs, t)];
    }
  }

  /** What the node of output k is called. */
  lemma OutputNamed(tr: Trace, rq: Request, k: nat) returns (passed: set<Tensor>)
    requires ValidRequest(tr, rq) && k < |rq.outputs|
    ensures forall t :: t in passed <==>
                        exists i :: 0 <= i < k && rq.outputs[i] == t && t < |tr| && (tr[t].Plain? || tr[t].Param?)
    ensures var t := rq.outputs[k];
            assert t in rq.outputs;
            OutputName(tr, rq, k) == rq.moduleName[t] + ".output_" +
            match tr[t]
            case Literal(_, literalName) => literalName
            case Produced(_, opName, _, _) => opName
            case _ => "passthrough_" + Decimal.Render(|passed|)
  {
    passed := Passthroughs(tr, rq.outputs[..k]);
    forall t | t in passed
      ensures exists i :: 0 <= i < k && rq.outputs[i] == t && t < |tr| && (tr[t].Plain? || tr[t].Param?)
    {
      var i :| 0 <= i < k && rq.outputs[..k][i] == t;
      assert rq.outputs[i] == t;
    }
    forall i, t | 0 <= i < k && rq.outputs[i] == t && t < |tr| && (tr[t].Plain? || tr[t].Param?)
      ensures t in passed
    {
      assert rq.outputs[..k][i] == t;
    }
  }

  /** The nop of a passed-through input is named after the id of an output node that it feeds. */
  lemma NopNamed(tr: Trace, rq: Request, s: State, n: nat) returns (k: nat)
    requires ValidRequest(tr, rq) && NamesOk(tr, rq, s) && n < |s.nodes| && s.roles[n].Bypass?
    ensures k < |rq.outputs| && rq.outputs[k] == s.roles[n].t
    ensures s.nodes[n].name == "_passthrough_nop_" + Decimal.Render(rq.firstId + k)
  {
    assert NodeNamed(tr, rq, s.nodes[n], s.roles[n], n);
    k :| 0 <= k < |rq.outputs| && rq.outputs[k] == s.roles[n].t && s.nodes[n].name == NopName(rq, k);
  }

  lemma UsedInByOperand(tr: Trace, rq: Request, t: Tensor, u: Tensor, subgraph: nat)
    requires ValidRequest(tr, rq) && UsedIn(tr, rq, u, subgraph) && Feeds(tr, t, u)
    ensures UsedIn(tr, rq, t, subgraph)
  {
    var o :| o in rq.outputs && SubgraphOf(rq, o) == subgraph && Reachable(tr, [o], u);
    assert Reachable(tr, [o], t);
  }

  lemma UsedInByOutput(tr: Trace, rq: Request, t: Tensor)
    requires ValidRequest(tr, rq) && t in rq.outputs
    ensures UsedIn(tr, rq, t, SubgraphOf(rq, t))
  {
    assert Reachable(tr, [t], t);
  }

  /** The consumer of a queued entry uses its tensor, in the entry's subgraph. */
  lemma EntryUse(tr: Trace, rq: Request, s: State, e: Pending)
    requires ValidRequest(tr, rq) && NamesOk(tr, rq, s) && NodesOk(tr, rq.outputs, s.nodes, s.roles)
    requires EntryOk(tr, s.nodes, s.roles, e)
    ensures UsedAs(tr, rq, e.tensor, s.nodes[e.consumer].name, e.port) && UsedIn(tr, rq, e.tensor, e.subgraph)
  {
    var node, role := s.nodes[e.consumer], s.roles[e.consumer];
    assert NodeNamed(tr, rq, node, role, e.consumer) && RoleFits(tr, node, role);
    if role.Made? {
      assert Feeds(tr, e.tensor, role.t);
      UsedInByOperand(tr, rq, e.tensor, role.t, e.subgraph);
      assert OperandOf(tr, rq, e.tensor, node.name, e.port);
    } else {
      assert OutputOf(tr, rq, e.tensor, node.name);
    }
  }

  /** What the existing node n was made for. */
  lemma OriginOf(tr: Trace, rq: Request, s: State, n: nat) returns (o: Origin)
    requires ValidRequest(tr, rq) && NamesOk(tr, rq, s) && n < |s.nodes| && RoleFits(tr, s.nodes[n], s.roles[n])
    ensures Named(tr, rq, o, s.nodes[n].name)
    ensures match s.roles[n]
            case OutputFor(_) => o == OfOutput(n)
            case Made(t) => o == OfTensor(t)
            case Bypass(t) => o.OfNop? && o.k < |rq.outputs| && rq.outputs[o.k] == t
  {
    assert NodeNamed(tr, rq, s.nodes[n], s.roles[n], n);
    match s.roles[n]
    case OutputFor(_) => o := OfOutput(n);
    case Made(t) => o := OfTensor(t);
    case Bypass(t) =>
      var k :| 0 <= k < |rq.outputs| && rq.outputs[k] == t && s.nodes[n].name == NopName(rq, k);
      o := OfNop(k);
  }

  lemma OriginsDiffer(tr: Trace, rq: Request, s: State, n: nat, o': Origin, o: Origin)
    requires |s.roles| == |s.nodes| && VisitedOk(s.roles, s.visited) && NopsVisited(s.roles, s.visited) && n < |s.nodes|
    requires RoleFits(tr, s.nodes[n], s.roles[n])
    requires match s.roles[n]
             case OutputFor(_) => o' == OfOutput(n)
             case Made(t) => o' == OfTensor(t)
             case Bypass(t) => o'.OfNop? && o'.k < |rq.outputs| && rq.outputs[o'.k] == t
    requires match o
             case OfTensor(t) => t !in s.visited && (IsParam(tr, o) ==> !s.nodes[n].ParameterInput?)
             case OfOutput(k) => |s.nodes| <= k
             case OfNop(k) => k < |rq.outputs| && rq.outputs[k] !in s.visited
    ensures o' != o && !(IsParam(tr, o') && IsParam(tr, o))
  {
  }

  lemma ClashOf(tr: Trace, rq: Request, a: Origin, b: Origin, name: string)
    requires ValidRequest(tr, rq) && a != b && Named(tr, rq, a, name) && Named(tr, rq, b, name)
    requires !(IsParam(tr, a) && IsParam(tr, b))
    ensures Clash(tr, rq, name)
  {
  }

  /** A name that is refused is a name that two nodes could be given. */
  lemma RefusalIsClash(tr: Trace, rq: Request, s: State, n: nat, o: Origin)
    requires ValidRequest(tr, rq) && NamesOk(tr, rq, s) && VisitedOk(s.roles, s.visited)
    requires n < |s.nodes| && RoleFits(tr, s.nodes[n], s.roles[n]) && Named(tr, rq, o, s.nodes[n].name)
    requires match o
             case OfTensor(t) => t !in s.visited && (IsParam(tr, o) ==> !s.nodes[n].ParameterInput?)
             case OfOutput(k) => |s.nodes| <= k
             case OfNop(k) => k < |rq.outputs| && rq.outputs[k] !in s.visited
    ensures Clash(tr, rq, s.nodes[n].name)
  {
    var o' := OriginOf(tr, rq, s, n);
    OriginsDiffer(tr, rq, s, n, o', o);
    ClashOf(tr, rq, o', o, s.nodes[n].name);
  }
}
