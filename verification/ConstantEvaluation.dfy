/** Constant evaluation: an interpreter against what each node denotes. */
module ConstantEvaluation {
  import opened Wrappers

  type Value(!new)

  type Op(==, !new)

  type Meaning = (Op, seq<Value>) -> Value

  /** `tms[i]` is the chain of view operations on operand i; an absent list means none at all. */
  datatype Node =
    | Input
    | ForgeOp(op: Op, operands: seq<string>, tms: seq<seq<Op>>)
    | Output(source: string)

  datatype Graph = Graph(nodes: map<string, Node>, order: seq<string>)

  datatype Error = MissingKey(name: string) | MissingTms(name: string) | NoOutput

  function Operands(n: Node): seq<string> {
    match n
    case Input => []
    case ForgeOp(_, operands, _) => operands
    case Output(source) => [source]
  }

  // ----- what a recorded subgraph looks like

  /** Operands are nodes that have a value, and every operand has its view chain if any has. */
  ghost predicate WellFormed(g: Graph) {
    forall n :: n in g.nodes ==>
      && (forall i :: 0 <= i < |Operands(g.nodes[n])| ==>
            Operands(g.nodes[n])[i] in g.nodes && !g.nodes[Operands(g.nodes[n])[i]].Output?)
      && (g.nodes[n].ForgeOp? && g.nodes[n].tms != [] ==> |g.nodes[n].operands| <= |g.nodes[n].tms|)
  }

  /** Every node once, operands first. */
  ghost predicate TopologicalOrder(g: Graph, order: seq<string>) {
    && (forall n :: n in order <==> n in g.nodes)
    && (forall i, j :: 0 <= i < j < |order| ==> order[i] != order[j])
    && (forall i :: 0 <= i < |order| ==> forall x :: x in Operands(g.nodes[order[i]]) ==> x in order[..i])
  }

  /** A numbering that shows the graph to be acyclic. */
  ghost predicate Ranked(g: Graph, rank: map<string, nat>) {
    && rank.Keys == g.nodes.Keys
    && forall n, i :: n in g.nodes && 0 <= i < |Operands(g.nodes[n])| ==>
         Operands(g.nodes[n])[i] in g.nodes && rank[Operands(g.nodes[n])[i]] < rank[n]
  }

  // ----- what a node denotes

  function ApplyTms(m: Meaning, tms: seq<Op>, v: Value): Value {
    if tms == [] then v else m(tms[|tms| - 1], [ApplyTms(m, tms[..|tms| - 1], v)])
  }

  /** The values between the view operations of a chain, which are applied one after the other. */
  ghost predicate Through(m: Meaning, tms: seq<Op>, v: Value, vs: seq<Value>) {
    |vs| == |tms| + 1 && vs[0] == v && forall i :: 0 <= i < |tms| ==> vs[i + 1] == m(tms[i], [vs[i]])
  }

  /** The chain takes v to r. */
  ghost predicate Passes(m: Meaning, tms: seq<Op>, v: Value, r: Value) {
    exists vs :: Through(m, tms, v, vs) && vs[|tms|] == r
  }

  lemma {:induction false} ApplyPasses(m: Meaning, tms: seq<Op>, v: Value)
    ensures Passes(m, tms, v, ApplyTms(m, tms, v))
  {
    if tms == [] {
      assert Through(m, tms, v, [v]) && [v][0] == v;
    } else {
      var n := |tms| - 1;
      ApplyPasses(m, tms[..n], v);
      var vs :| Through(m, tms[..n], v, vs) && vs[n] == ApplyTms(m, tms[..n], v);
      var vs' := vs + [ApplyTms(m, tms, v)];
      forall i | 0 <= i <= n
        ensures vs'[i + 1] == m(tms[i], [vs'[i]])
      {
        if i < n { assert tms[..n][i] == tms[i]; }
      }
      assert Through(m, tms, v, vs') && vs'[|tms|] == ApplyTms(m, tms, v);
    }
  }

  /** Operand i of an op arrives after its own view chain, or as it is when no chains are recorded. */
  ghost predicate ArrivesAs(m: Meaning, tms: seq<seq<Op>>, i: nat, v: Value, r: Value) {
    if tms == [] then r == v else i < |tms| && Passes(m, tms[i], v, r)
  }

  function TmsOf(n: Node, i: nat): seq<Op>
    requires n.ForgeOp? && (n.tms != [] ==> i < |n.tms|)
  {
    if n.tms == [] then [] else n.tms[i]
  }

  ghost function Denote(g: Graph, rank: map<string, nat>, inputs: string -> Value, m: Meaning, n: string): Value
    requires WellFormed(g) && Ranked(g, rank) && n in g.nodes
    decreases rank[n], 1
  {
    match g.nodes[n]
    case Input => inputs(n)
    case ForgeOp(op, _, _) => m(op, Arguments(g, rank, inputs, m, n))
    case Output(source) =>
      assert source == Operands(g.nodes[n])[0];
      Denote(g, rank, inputs, m, source)
  }

  ghost function Arguments(g: Graph, rank: map<string, nat>, inputs: string -> Value, m: Meaning,
                           n: string): (vs: seq<Value>)
    requires WellFormed(g) && Ranked(g, rank) && n in g.nodes && g.nodes[n].ForgeOp?
    ensures |vs| == |g.nodes[n].operands|
    decreases rank[n], 0
  {
    var node := g.nodes[n];
    seq(|node.operands|, i requires 0 <= i < |node.operands| =>
      assert node.operands[i] == Operands(node)[i];
      ApplyTms(m, TmsOf(node, i), Denote(g, rank, inputs, m, node.operands[i])))
  }

  /** What each node denotes, in full: an op is applied to what its operands arrive as, in order. */
  lemma NodeDenotes(g: Graph, rank: map<string, nat>, inputs: string -> Value, m: Meaning, n: string)
    returns (args: seq<Value>)
    requires WellFormed(g) && Ranked(g, rank) && n in g.nodes
    ensures var node, v := g.nodes[n], Denote(g, rank, inputs, m, n);
            && (node.Input? ==> v == inputs(n))
            && (node.ForgeOp? ==> v == m(node.op, args) && |args| == |node.operands|)
            && (node.ForgeOp? ==> forall i :: 0 <= i < |args| ==>
                  && node.operands[i] in g.nodes
                  && ArrivesAs(m, node.tms, i, Denote(g, rank, inputs, m, node.operands[i]), args[i]))
            && (node.Output? ==> node.source in g.nodes && v == Denote(g, rank, inputs, m, node.source))
  {
    args := [];
    match g.nodes[n]
    case Input =>
    case Output(source) => assert source == Operands(g.nodes[n])[0];
    case ForgeOp(op, operands, tms) =>
      args := Arguments(g, rank, inputs, m, n);
      forall i | 0 <= i < |operands|
        ensures operands[i] in g.nodes
        ensures ArrivesAs(m, tms, i, Denote(g, rank, inputs, m, operands[i]), args[i])
      {
        assert operands[i] == Operands(g.nodes[n])[i];
        ApplyPasses(m, TmsOf(g.nodes[n], i), Denote(g, rank, inputs, m, operands[i]));
      }
  }

  /** The numbering does not matter. */
  lemma {:induction false} DenoteIgnoresRank(g: Graph, rank: map<string, nat>, rank': map<string, nat>,
                                             inputs: string -> Value, m: Meaning, n: string)
    requires WellFormed(g) && Ranked(g, rank) && Ranked(g, rank') && n in g.nodes
    ensures Denote(g, rank, inputs, m, n) == Denote(g, rank', inputs, m, n)
    decreases rank[n]
  {
    var node := g.nodes[n];
    if !node.Input? {
      forall i | 0 <= i < |Operands(node)|
        ensures Denote(g, rank, inputs, m, Operands(node)[i]) == Denote(g, rank', inputs, m, Operands(node)[i])
      {
        DenoteIgnoresRank(g, rank, rank', inputs, m, Operands(node)[i]);
      }
      if node.ForgeOp? {
        var vs, vs' := Arguments(g, rank, inputs, m, n), Arguments(g, rank', inputs, m, n);
        forall i | 0 <= i < |vs|
          ensures vs[i] == vs'[i]
        {
          assert node.operands[i] == Operands(node)[i];
        }
        assert vs == vs';
      } else {
        assert Operands(node)[0] == node.source;
      }
    }
  }

  // ----- the interpreter

  /** The table after a prefix of the order: every valued node of it, with its denotation. */
  ghost predicate Tabulated(g: Graph, rank: map<string, nat>, inputs: string -> Value, m: Meaning,
                            prefix: seq<string>, table: map<string, Value>)
    requires WellFormed(g) && Ranked(g, rank)
  {
    forall n :: n in prefix && n in g.nodes && !g.nodes[n].Output? ==>
      n in table && table[n] == Denote(g, rank, inputs, m, n)
  }

  method EvalTms(m: Meaning, tms: seq<Op>, v: Value) returns (r: Value)
    ensures r == ApplyTms(m, tms, v) && Passes(m, tms, v, r)
  {
    ApplyPasses(m, tms, v);
    r := v;
    for i := 0 to |tms|
      invariant r == ApplyTms(m, tms[..i], v)
    {
      assert tms[..i + 1][..i] == tms[..i];
      r := m(tms[i], [r]);
    }
    assert tms[..|tms|] == tms;
  }

  ghost predicate HasTms(node: Node, i: nat)
    requires node.ForgeOp?
  {
    node.tms != [] ==> i < |node.tms|
  }

  /** The operands after their view chains; fails on an operand without a value or without a chain. */
  method InputsAfterTms(m: Meaning, name: string, node: Node, table: map<string, Value>)
    returns (r: Result<seq<Value>, Error>)
    requires node.ForgeOp?
    ensures r.Ok? <==> (forall i :: 0 <= i < |node.operands| ==> node.operands[i] in table && HasTms(node, i))
    ensures r.Ok? ==> |r.value| == |node.operands|
    ensures r.Ok? ==> forall i :: 0 <= i < |node.operands| ==>
              HasTms(node, i) && r.value[i] == ApplyTms(m, TmsOf(node, i), table[node.operands[i]])
    ensures r.Ok? ==> forall i :: 0 <= i < |node.operands| ==>
              ArrivesAs(m, node.tms, i, table[node.operands[i]], r.value[i])
  {
    var values := [];
    for i := 0 to |node.operands|
      invariant |values| == i
      invariant forall j :: 0 <= j < i ==> node.operands[j] in table && HasTms(node, j)
      invariant forall j :: 0 <= j < i ==>
                  HasTms(node, j) && values[j] == ApplyTms(m, TmsOf(node, j), table[node.operands[j]])
      invariant forall j :: 0 <= j < i ==> ArrivesAs(m, node.tms, j, table[node.operands[j]], values[j])
    {
      if node.operands[i] !in table { return Err(MissingKey(node.operands[i])); }
      var v := table[node.operands[i]];
      if node.tms != [] {
        if i >= |node.tms| {
          assert !HasTms(node, i);
          return Err(MissingTms(name));
        }
        v := EvalTms(m, node.tms[i], v);
      }
      values := values + [v];
    }
    return Ok(values);
  }

  /** The last node of the order that leaves an output value behind. */
  function LastOutput(g: Graph, order: seq<string>): (r: Option<string>)
    ensures r.Some? ==> r.value in order && r.value in g.nodes && !g.nodes[r.value].Input?
  {
    if order == [] then None
    else
      var n := order[|order| - 1];
      if n !in g.nodes || g.nodes[n].Input? then LastOutput(g, order[..|order| - 1]) else Some(n)
  }

  ghost predicate LastNonInput(g: Graph, order: seq<string>, i: nat)
    requires forall n :: n in order ==> n in g.nodes
  {
    i < |order| && !g.nodes[order[i]].Input? && forall j :: i < j < |order| ==> g.nodes[order[j]].Input?
  }

  /** It is the last one in the order that is not an input. */
  lemma {:induction false} LastOutputExactly(g: Graph, order: seq<string>, i: nat)
    requires forall n :: n in order ==> n in g.nodes
    ensures LastNonInput(g, order, i) ==> LastOutput(g, order) == Some(order[i])
    ensures LastOutput(g, order).None? && i < |order| ==> g.nodes[order[i]].Input?
  {
    if order != [] {
      var before, n := order[..|order| - 1], order[|order| - 1];
      LastOutputExactly(g, before, i);
      assert i < |before| ==> order[i] == before[i];
      if LastNonInput(g, order, i) && i < |before| {
        assert forall j :: i < j < |before| ==> before[j] == order[j];
        assert LastNonInput(g, before, i);
      }
    }
  }

  /** Everything the recorded subgraph and the inputs must satisfy, with a witness of acyclicity. */
  ghost predicate Evaluable(g: Graph, rank: map<string, nat>, inputs: map<string, Value>, leaf: string -> Value) {
    && WellFormed(g) && Ranked(g, rank) && TopologicalOrder(g, g.order)
    && forall n :: n in g.nodes && g.nodes[n].Input? ==> n in inputs && inputs[n] == leaf(n)
  }

  ghost predicate Progress(g: Graph, rank: map<string, nat>, leaf: string -> Value, m: Meaning,
                           k: nat, table: map<string, Value>, output: Option<Value>)
    requires WellFormed(g) && Ranked(g, rank) && k <= |g.order|
  {
    && Tabulated(g, rank, leaf, m, g.order[..k], table)
    && var last := LastOutput(g, g.order[..k]);
       output == if last.Some? then Some(Denote(g, rank, leaf, m, last.value)) else None
  }

  lemma OperandsTabulated(g: Graph, rank: map<string, nat>, inputs: map<string, Value>, leaf: string -> Value,
                          m: Meaning,
                          k: nat, table: map<string, Value>, i: nat)
    requires Evaluable(g, rank, inputs, leaf) && k < |g.order|
    requires Tabulated(g, rank, leaf, m, g.order[..k], table)
    requires i < |Operands(g.nodes[g.order[k]])|
    ensures var x := Operands(g.nodes[g.order[k]])[i];
            x in g.nodes && x in table && table[x] == Denote(g, rank, leaf, m, x)
  {
    var x := Operands(g.nodes[g.order[k]])[i];
    assert x in Operands(g.nodes[g.order[k]]);
    assert x in g.order[..k];
  }

  lemma LastOutputNext(g: Graph, k: nat)
    requires k < |g.order| && g.order[k] in g.nodes
    ensures LastOutput(g, g.order[..k + 1]) ==
            if g.nodes[g.order[k]].Input? then LastOutput(g, g.order[..k]) else Some(g.order[k])
  {
    assert g.order[..k + 1][..k] == g.order[..k];
  }

  lemma TabulatedNext(g: Graph, rank: map<string, nat>, leaf: string -> Value, m: Meaning, k: nat,
                      table: map<string, Value>, v: Value)
    requires WellFormed(g) && Ranked(g, rank) && k < |g.order| && g.order[k] in g.nodes
    requires Tabulated(g, rank, leaf, m, g.order[..k], table) && v == Denote(g, rank, leaf, m, g.order[k])
    ensures var node := g.nodes[g.order[k]];
            && (!node.Output? ==> Tabulated(g, rank, leaf, m, g.order[..k + 1], table[g.order[k] := v]))
            && (node.Output? ==> Tabulated(g, rank, leaf, m, g.order[..k + 1], table))
  {
    assert g.order[..k + 1] == g.order[..k] + [g.order[k]];
  }

  lemma ProgressNext(g: Graph, rank: map<string, nat>, inputs: map<string, Value>, leaf: string -> Value, m: Meaning,
                     k: nat, table: map<string, Value>, output: Option<Value>, v: Value)
    requires Evaluable(g, rank, inputs, leaf) && k < |g.order|
    requires Progress(g, rank, leaf, m, k, table, output)
    requires v == Denote(g, rank, leaf, m, g.order[k])
    ensures var node := g.nodes[g.order[k]];
            && (!node.Output? ==> Tabulated(g, rank, leaf, m, g.order[..k + 1], table[g.order[k] := v]))
            && (node.Output? ==> Tabulated(g, rank, leaf, m, g.order[..k + 1], table))
            && LastOutput(g, g.order[..k + 1]) ==
               if node.Input? then LastOutput(g, g.order[..k]) else Some(g.order[k])
  {
    LastOutputNext(g, k);
    TabulatedNext(g, rank, leaf, m, k, table, v);
  }

  lemma ArgumentsTabulated(g: Graph, rank: map<string, nat>, inputs: map<string, Value>, leaf: string -> Value,
                           m: Meaning,
                           k: nat, table: map<string, Value>)
    requires Evaluable(g, rank, inputs, leaf) && k < |g.order| && g.nodes[g.order[k]].ForgeOp?
    requires Tabulated(g, rank, leaf, m, g.order[..k], table)
    ensures var node := g.nodes[g.order[k]];
            forall i :: 0 <= i < |node.operands| ==>
              node.operands[i] in table && HasTms(node, i) &&
              ApplyTms(m, TmsOf(node, i), table[node.operands[i]]) == Arguments(g, rank, leaf, m, g.order[k])[i]
  {
    var node := g.nodes[g.order[k]];
    forall i | 0 <= i < |node.operands|
      ensures node.operands[i] in table && HasTms(node, i) &&
              ApplyTms(m, TmsOf(node, i), table[node.operands[i]]) == Arguments(g, rank, leaf, m, g.order[k])[i]
    {
      assert node.operands[i] == Operands(node)[i];
      OperandsTabulated(g, rank, inputs, leaf, m, k, table, i);
    }
  }

  lemma ProgressStart(g: Graph, rank: map<string, nat>, leaf: string -> Value, m: Meaning)
    requires WellFormed(g) && Ranked(g, rank)
    ensures Progress(g, rank, leaf, m, 0, map[], None)
  {
  }

  lemma ProgressEnd(g: Graph, rank: map<string, nat>, leaf: string -> Value, m: Meaning,
                    table: map<string, Value>, output: Option<Value>)
    requires WellFormed(g) && Ranked(g, rank) && Progress(g, rank, leaf, m, |g.order|, table, output)
    ensures var last := LastOutput(g, g.order);
            output == if last.Some? then Some(Denote(g, rank, leaf, m, last.value)) else None
  {
    assert g.order[..|g.order|] == g.order;
  }

  method VisitNode(m: Meaning, g: Graph, inputs: map<string, Value>, k: nat, table: map<string, Value>,
                   output: Option<Value>,
                   ghost rank: map<string, nat>, ghost leaf: string -> Value)
    returns (r: Result<(map<string, Value>, Option<Value>), Error>)
    requires k < |g.order| && g.order[k] in g.nodes
    requires Evaluable(g, rank, inputs, leaf) ==> Progress(g, rank, leaf, m, k, table, output)
    ensures Evaluable(g, rank, inputs, leaf) ==> r.Ok? && Progress(g, rank, leaf, m, k + 1, r.value.0, r.value.1)
  {
    var n := g.order[k];
    ghost var good := Evaluable(g, rank, inputs, leaf);
    if good {
      ProgressNext(g, rank, inputs, leaf, m, k, table, output, Denote(g, rank, leaf, m, n));
    }
    match g.nodes[n]
    case Input =>
      if n !in inputs { return Err(MissingKey(n)); }
      return Ok((table[n := inputs[n]], output));
    case ForgeOp(op, _, _) =>
      if good {
        ArgumentsTabulated(g, rank, inputs, leaf, m, k, table);
      }
      var args := InputsAfterTms(m, n, g.nodes[n], table);
      if args.Err? { return Err(args.error); }
      var v := m(op, args.value);
      assert good ==> args.value == Arguments(g, rank, leaf, m, n);
      return Ok((table[n := v], Some(v)));
    case Output(source) =>
      if good {
        assert Operands(g.nodes[n])[0] == source;
        OperandsTabulated(g, rank, inputs, leaf, m, k, table, 0);
      }
      if source !in table { return Err(MissingKey(source)); }
      return Ok((table, Some(table[source])));
  }

  /**
   The interpreter. Whenever the subgraph is recorded in some topological order and the inputs are
   there, it never looks up a missing node and returns the denotation of the last node in the order
   that leaves an output. `rank` and `leaf` only serve to state this.
   */
  method Interpret(m: Meaning, g: Graph, inputs: map<string, Value>, ghost rank: map<string, nat>,
                   ghost leaf: string -> Value)
    returns (r: Result<Value, Error>)
    ensures Evaluable(g, rank, inputs, leaf) ==>
              var last := LastOutput(g, g.order);
              r == if last.Some? then Ok(Denote(g, rank, leaf, m, last.value)) else Err(NoOutput)
  {
    var table: map<string, Value>, output: Option<Value> := map[], None;
    ghost var good := Evaluable(g, rank, inputs, leaf);
    if good { ProgressStart(g, rank, leaf, m); }
    for k := 0 to |g.order|
      invariant good ==> Progress(g, rank, leaf, m, k, table, output)
    {
      var n := g.order[k];
      if n !in g.nodes { return Err(MissingKey(n)); }
      var visited := VisitNode(m, g, inputs, k, table, output, rank, leaf);
      if visited.Err? { return Err(visited.error); }
      table, output := visited.value.0, visited.value.1;
    }
    if good { ProgressEnd(g, rank, leaf, m, table, output); }
    return if output.Some? then Ok(output.value) else Err(NoOutput);
  }

  // ----- the order does not matter

  ghost predicate Used(g: Graph, n: string) {
    exists u :: u in g.nodes && n in Operands(g.nodes[u])
  }

  /** `sink` is the one node that nothing uses, so that every node leads to it. */
  ghost predicate SingleSink(g: Graph, sink: string) {
    sink in g.nodes && !g.nodes[sink].Input? && forall n :: n in g.nodes && n != sink ==> Used(g, n)
  }

  lemma LastIsUnused(g: Graph, order: seq<string>)
    requires TopologicalOrder(g, order) && order != []
    ensures !Used(g, order[|order| - 1])
  {
    var last := order[|order| - 1];
    forall u | u in g.nodes
      ensures last !in Operands(g.nodes[u])
    {
      assert u in order;
      var i :| 0 <= i < |order| && order[i] == u;
      assert forall x :: x in Operands(g.nodes[order[i]]) ==> x in order[..i];
      assert last !in order[..i];
    }
  }

  /** The single sink ends every topological order. */
  lemma SinkIsLast(g: Graph, order: seq<string>, sink: string)
    requires TopologicalOrder(g, order) && SingleSink(g, sink)
    ensures LastOutput(g, order) == Some(sink)
  {
    assert sink in order;
    LastIsUnused(g, order);
    assert order[|order| - 1] in g.nodes;
  }

  lemma {:induction false} DenoteIgnoresOrder(g: Graph, g': Graph, rank: map<string, nat>, leaf: string -> Value,
                                              m: Meaning, n: string)
    requires g'.nodes == g.nodes && WellFormed(g) && Ranked(g, rank) && n in g.nodes
    requires WellFormed(g') && Ranked(g', rank)
    ensures Denote(g, rank, leaf, m, n) == Denote(g', rank, leaf, m, n)
    decreases rank[n]
  {
    var node := g.nodes[n];
    if !node.Input? {
      forall i | 0 <= i < |Operands(node)|
        ensures Denote(g, rank, leaf, m, Operands(node)[i]) == Denote(g', rank, leaf, m, Operands(node)[i])
      {
        DenoteIgnoresOrder(g, g', rank, leaf, m, Operands(node)[i]);
      }
      if node.ForgeOp? {
        var vs, vs' := Arguments(g, rank, leaf, m, n), Arguments(g', rank, leaf, m, n);
        forall i | 0 <= i < |vs|
          ensures vs[i] == vs'[i]
        {
          assert node.operands[i] == Operands(node)[i];
        }
        assert vs == vs';
      } else {
        assert Operands(node)[0] == node.source;
      }
    }
  }

  /**
   When all nodes lead to one output, the result is that output's denotation: the same for every
   valid order, every numbering, and every table of inputs that agrees on the input nodes.
   */
  lemma OrderIrrelevant(g: Graph, g': Graph, sink: string, rank: map<string, nat>, rank': map<string, nat>,
                        inputs: map<string, Value>, inputs': map<string, Value>, leaf: string -> Value, m: Meaning)
    requires g'.nodes == g.nodes && SingleSink(g, sink)
    requires Evaluable(g, rank, inputs, leaf) && Evaluable(g', rank', inputs', leaf)
    ensures LastOutput(g, g.order) == LastOutput(g', g'.order) == Some(sink)
    ensures Denote(g, rank, leaf, m, sink) == Denote(g', rank', leaf, m, sink)
  {
    SinkIsLast(g, g.order, sink);
    assert SingleSink(g', sink) by {
      assert forall n :: Used(g, n) ==> Used(g', n);
    }
    SinkIsLast(g', g'.order, sink);
    DenoteIgnoresRank(g, rank, rank', leaf, m, sink);
    DenoteIgnoresOrder(g, g', rank', leaf, m, sink);
  }

  // ----- loading the inputs and evaluating every parameter

  /** A recorded trace maps a name to `None` when nothing was recorded for it. */
  type Traces = map<string, Option<Graph>>

  /** Constants of the graph take precedence over device constants and parameters. */
  function Load(constants: map<string, Value>, device: map<string, Value>, n: string): Option<Value> {
    if n in constants then Some(constants[n]) else if n in device then Some(device[n]) else None
  }

  /** The names a value must be loaded for before `name` can be evaluated. */
  ghost predicate Loadable(traces: Traces, constants: map<string, Value>, device: map<string, Value>, name: string) {
    if name in traces && traces[name].Some? then
      var g := traces[name].value;
      forall n :: n in g.order && n in g.nodes && g.nodes[n].Input? ==> n in constants || n in device
    else name in constants || name in device
  }

  ghost predicate OrderKnown(traces: Traces, name: string) {
    name in traces && traces[name].Some? ==> forall n :: n in traces[name].value.order ==> n in traces[name].value.nodes
  }

  method GetConstantInputs(constants: map<string, Value>, device: map<string, Value>, traces: Traces, name: string)
    returns (r: Result<map<string, Value>, Error>)
    ensures r.Ok? ==> Loadable(traces, constants, device, name)
    ensures r.Ok? ==> forall n :: n in r.value ==>
              if n in constants then r.value[n] == constants[n] else n in device && r.value[n] == device[n]
    ensures r.Ok? && (name !in traces || traces[name].None?) ==> name in r.value
    ensures r.Ok? && name in traces && traces[name].Some? ==>
              forall n :: n in traces[name].value.order ==>
                n in traces[name].value.nodes && (traces[name].value.nodes[n].Input? ==> n in r.value)
    ensures Loadable(traces, constants, device, name) && OrderKnown(traces, name) ==> r.Ok?
  {
    if name !in traces || traces[name].None? {
      var v := Load(constants, device, name);
      return if v.Some? then Ok(map[name := v.value]) else Err(MissingKey(name));
    }
    var g := traces[name].value;
    var values := map[];
    for k := 0 to |g.order|
      invariant forall n :: n in values ==> Load(constants, device, n) == Some(values[n])
      invariant forall i :: 0 <= i < k ==> g.order[i] in g.nodes
      invariant forall i :: 0 <= i < k && g.nodes[g.order[i]].Input? ==> g.order[i] in values
    {
      var n := g.order[k];
      if n !in g.nodes { return Err(MissingKey(n)); }
      if g.nodes[n].Input? {
        var v := Load(constants, device, n);
        if v.None? { return Err(MissingKey(n)); }
        values := values[n := v.value];
      }
    }
    return Ok(values);
  }

  method ConstEvalTensor(m: Meaning, inputs: map<string, Value>, traces: Traces, name: string,
                         ghost rank: map<string, nat>, ghost leaf: string -> Value)
    returns (r: Result<Value, Error>)
    ensures r.Ok? ==> name in traces
    ensures name in traces && traces[name].None? && name in inputs ==> r == Ok(inputs[name])
    ensures name in traces && traces[name].Some? && Evaluable(traces[name].value, rank, inputs, leaf) ==>
              var last := LastOutput(traces[name].value, traces[name].value.order);
              r == if last.Some? then Ok(Denote(traces[name].value, rank, leaf, m, last.value)) else Err(NoOutput)
  {
    if name !in traces { return Err(MissingKey(name)); }
    if traces[name].Some? {
      r := Interpret(m, traces[name].value, inputs, rank, leaf);
    } else {
      r := if name in inputs then Ok(inputs[name]) else Err(MissingKey(name));
    }
  }

  /** The value the evaluation of `name` must leave behind. */
  ghost predicate PostValue(m: Meaning, traces: Traces, ranks: map<string, map<string, nat>>, leaf: string -> Value,
                            name: string, v: Value)
  {
    name in traces &&
    match traces[name]
    case None => v == leaf(name)
    case Some(g) =>
      name in ranks && WellFormed(g) && Ranked(g, ranks[name]) &&
      var last := LastOutput(g, g.order);
      last.Some? && v == Denote(g, ranks[name], leaf, m, last.value)
  }

  /** Well-formed traces, acyclic and recorded in topological order, whose inputs can be loaded as `leaf` says. */
  ghost predicate Recorded(traces: Traces, ranks: map<string, map<string, nat>>, constants: map<string, Value>,
                           device: map<string, Value>, leaf: string -> Value, name: string)
  {
    && name in traces && Loadable(traces, constants, device, name)
    && (forall n :: n in constants ==> leaf(n) == constants[n])
    && (forall n :: n in device && n !in constants ==> leaf(n) == device[n])
    && (traces[name].Some? ==>
          var g := traces[name].value;
          && name in ranks && WellFormed(g) && Ranked(g, ranks[name]) && TopologicalOrder(g, g.order)
          && LastOutput(g, g.order).Some?)
  }

  method PostConstEval(m: Meaning, constants: map<string, Value>, device: map<string, Value>, traces: Traces,
                       name: string, ghost ranks: map<string, map<string, nat>>, ghost leaf: string -> Value)
    returns (r: Result<Value, Error>)
    ensures Recorded(traces, ranks, constants, device, leaf, name) ==>
              r.Ok? && PostValue(m, traces, ranks, leaf, name, r.value)
  {
    var inputs := GetConstantInputs(constants, device, traces, name);
    if inputs.Err? { return Err(inputs.error); }
    ghost var rank := if name in ranks then ranks[name] else map[];
    r := ConstEvalTensor(m, inputs.value, traces, name, rank, leaf);
  }

  /** Every parameter ends with the value its recorded subgraph denotes, or its own when none was recorded. */
  method GetPostConstEvalTensors(m: Meaning, constants: map<string, Value>, device: map<string, Value>, traces: Traces,
                                 names: seq<string>,
                                 ghost ranks: map<string, map<string, nat>>, ghost leaf: string -> Value)
    returns (r: Result<map<string, Value>, Error>)
    ensures (forall i :: 0 <= i < |names| ==> Recorded(traces, ranks, constants, device, leaf, names[i])) ==> r.Ok?
    ensures r.Ok? ==> forall n :: n in r.value <==> n in names
    ensures r.Ok? ==> forall n :: n in names && Recorded(traces, ranks, constants, device, leaf, n) ==>
              PostValue(m, traces, ranks, leaf, n, r.value[n])
  {
    var post := map[];
    for i := 0 to |names|
      invariant forall n :: n in post <==> n in names[..i]
      invariant forall n :: n in post && Recorded(traces, ranks, constants, device, leaf, n) ==>
                  PostValue(m, traces, ranks, leaf, n, post[n])
    {
      var name := names[i];
      assert names[..i + 1] == names[..i] + [name];
      var v := PostConstEval(m, constants, device, traces, name, ranks, leaf);
      if v.Err? { return Err(v.error); }
      post := post[name := v.value];
    }
    assert names[..|names|] == names;
    return Ok(post);
  }
}
