/**
 The node/edge graph that the translation builds, and its meaning: a valuation of the nodes is a
 solution of the graph when every node's value follows from the values on its incoming edges.
 */
module DataflowGraph {
  import opened Trace

  datatype Node =
    | Output(name: string, subgraph: nat)
    | ParameterInput(name: string, subgraph: nat)
    | ActivationInput(name: string, subgraph: nat)
    | TargetInput(name: string, subgraph: nat)
    | ConstantInput(name: string, subgraph: nat, value: Value)
    | OpNode(name: string, subgraph: nat, op: Op)

  datatype Edge = Edge(producer: nat, producerPort: nat, consumer: nat, port: nat, stretch: seq<(int, int)>)

  ghost predicate Arrives(edges: seq<Edge>, n: nat, p: nat) {
    exists i :: 0 <= i < |edges| && edges[i].consumer == n && edges[i].port == p
  }

  /** `args` lists, port by port, what the incoming edges of node `n` deliver. */
  ghost predicate Delivers(edges: seq<Edge>, m: Meaning, val: seq<Value>, n: nat, args: seq<Value>) {
    && (forall i :: 0 <= i < |edges| && edges[i].consumer == n ==>
          edges[i].producer < |val| && edges[i].port < |args| &&
          args[edges[i].port] == m.stretch(edges[i].stretch, val[edges[i].producer]))
    && (forall p :: 0 <= p < |args| ==> Arrives(edges, n, p))
  }

  /** Input nodes are loaded by name from `store`; outputs pass on their only operand. */
  ghost predicate Computes(node: Node, m: Meaning, store: string -> Value, args: seq<Value>, v: Value) {
    match node
    case Output(_, _) => |args| == 1 && v == args[0]
    case OpNode(_, _, op) => v == m.apply(op, args)
    case ConstantInput(_, _, value) => v == value
    case _ => v == store(node.name)
  }

  ghost predicate Solved(nodes: seq<Node>, edges: seq<Edge>, m: Meaning, store: string -> Value, val: seq<Value>,
                         n: nat)
    requires n < |nodes| == |val|
  {
    exists args :: Delivers(edges, m, val, n, args) && Computes(nodes[n], m, store, args, val[n])
  }

  ghost predicate Solves(nodes: seq<Node>, edges: seq<Edge>, m: Meaning, store: string -> Value, val: seq<Value>) {
    && |val| == |nodes|
    && forall n :: 0 <= n < |nodes| ==> Solved(nodes, edges, m, store, val, n)
  }
}
