/** A finished graph means what its trace means, exactly when tensors that share an input node have one value. */
module GraphMeaning {
  import opened Wrappers
  import opened Trace
  import opened DataflowGraph
  import opened GraphInvariant

  /** The worklist has been drained with every slot wired. */
  ghost predicate Finished(tr: Trace, outputs: seq<Tensor>, s: State)
    requires Acyclic(tr)
  {
    Inv(tr, outputs, s, {}) && s.pending == [] && |outputs| <= |s.nodes|
  }

  /** The value of a tensor that no op produces. */
  ghost function LeafValue(tr: Trace, leaf: Tensor -> Value, t: Tensor): Value {
    if t >= |tr| then leaf(t)
    else
      match tr[t]
      case Plain(Some(v)) => v
      case Literal(v, _) => v
      case _ => leaf(t)
  }

  predicate IsLoaded(node: Node) { node.ParameterInput? || node.ActivationInput? || node.TargetInput? }

  /** Each input node is loaded with the value of the tensor it was made for. */
  ghost predicate Loaded(tr: Trace, leaf: Tensor -> Value, store: string -> Value, s: State)
    requires |s.roles| == |s.nodes|
  {
    forall n :: 0 <= n < |s.nodes| && IsLoaded(s.nodes[n]) ==>
      store(s.nodes[n].name) == LeafValue(tr, leaf, s.roles[n].t)
  }

  ghost predicate CoherentEdge(tr: Trace, leaf: Tensor -> Value, s: State, e: Edge)
    requires |s.roles| == |s.nodes|
  {
    EdgeOk(tr, s.nodes, s.roles, e) && s.nodes[e.producer].ParameterInput? ==>
      LeafValue(tr, leaf, s.roles[e.producer].t) == LeafValue(tr, leaf, Wanted(tr, s.roles[e.consumer], e.port))
  }

  /** The tensor made for a parameter node and the tensor an edge loads from it have the same value. */
  ghost predicate Coherent(tr: Trace, leaf: Tensor -> Value, s: State)
    requires |s.roles| == |s.nodes|
  {
    forall i :: 0 <= i < |s.edges| ==> CoherentEdge(tr, leaf, s, s.edges[i])
  }

  ghost function OwnerValue(tr: Trace, leaf: Tensor -> Value, nodes: seq<Node>, roles: seq<Role>, x: string): Value {
    if nodes == [] || roles == [] then leaf(0)
    else if nodes[0].name == x then LeafValue(tr, leaf, roles[0].t)
    else OwnerValue(tr, leaf, nodes[1..], roles[1..], x)
  }

  lemma {:induction false} OwnerIs(tr: Trace, leaf: Tensor -> Value, nodes: seq<Node>, roles: seq<Role>, n: nat)
    requires |roles| == |nodes| && n < |nodes|
    requires forall i, j :: 0 <= i < j < |nodes| ==> nodes[i].name != nodes[j].name
    ensures OwnerValue(tr, leaf, nodes, roles, nodes[n].name) == LeafValue(tr, leaf, roles[n].t)
  {
    if n > 0 {
      OwnerIs(tr, leaf, nodes[1..], roles[1..], n - 1);
    }
  }

  /** Names are distinct, so the input nodes can be loaded, whatever the leaves are. */
  lemma LoadingExists(tr: Trace, outputs: seq<Tensor>, leaf: Tensor -> Value, s: State) returns (store: string -> Value)
    requires Acyclic(tr) && Finished(tr, outputs, s)
    ensures Loaded(tr, leaf, store, s)
  {
    store := (x: string) => OwnerValue(tr, leaf, s.nodes, s.roles, x);
    forall n | 0 <= n < |s.nodes| && IsLoaded(s.nodes[n])
      ensures store(s.nodes[n].name) == LeafValue(tr, leaf, s.roles[n].t)
    {
      OwnerIs(tr, leaf, s.nodes, s.roles, n);
    }
  }

  /** The edge that fills slot (n, p). */
  ghost function WiredEdge(tr: Trace, outputs: seq<Tensor>, s: State, n: nat, p: nat): (i: nat)
    requires Acyclic(tr) && Finished(tr, outputs, s)
    requires n < |s.nodes| && p < Arity(tr, s.roles[n])
    ensures i < |s.edges| && s.edges[i].consumer == n && s.edges[i].port == p
    ensures EdgeOk(tr, s.nodes, s.roles, s.edges[i])
  {
    assert Slot(n, p) in s.wired.Keys + Slots([]) + {};
    s.wired[Slot(n, p)]
  }

  /** Every port of every node has exactly one incoming edge, and no edge goes anywhere else. */
  lemma OneEdgePerPort(tr: Trace, outputs: seq<Tensor>, s: State)
    requires Acyclic(tr) && Finished(tr, outputs, s)
    ensures forall n, p :: 0 <= n < |s.nodes| && 0 <= p < Arity(tr, s.roles[n]) ==> Arrives(s.edges, n, p)
    ensures forall i, j :: 0 <= i < j < |s.edges| ==> SlotOf(s.edges[i]) != SlotOf(s.edges[j])
    ensures forall i :: 0 <= i < |s.edges| ==>
              s.edges[i].consumer < |s.nodes| && s.edges[i].port < Arity(tr, s.roles[s.edges[i].consumer])
  {
    forall n, p | 0 <= n < |s.nodes| && 0 <= p < Arity(tr, s.roles[n])
      ensures Arrives(s.edges, n, p)
    {
      var i := WiredEdge(tr, outputs, s, n, p);
    }
    forall i | 0 <= i < |s.edges|
      ensures EdgeOk(tr, s.nodes, s.roles, s.edges[i])
    {
    }
  }

  /** An edge into an op carries the stretches recorded for the operand of its port; no other edge carries any. */
  lemma EdgeStretches(tr: Trace, outputs: seq<Tensor>, s: State, i: nat)
    requires Acyclic(tr) && Finished(tr, outputs, s) && i < |s.edges|
    ensures var e := s.edges[i];
            && e.consumer < |s.nodes| == |s.roles|
            && match s.roles[e.consumer]
               case Made(t) =>
                 && t < |tr| && tr[t].Produced? && e.port < |tr[t].operands|
                 && Stretches(tr[t].broadcasts, e.port, e.stretch)
               case _ => e.port == 0 && e.stretch == []
  {
    var e := s.edges[i];
    assert EdgeOk(tr, s.nodes, s.roles, e);
    if s.roles[e.consumer].Made? {
      SelectStretches(tr[s.roles[e.consumer].t].broadcasts, e.port);
    }
  }

  /**
   An edge comes from the node made for the tensor that its port wants, from the nop between that tensor
   and an output, or from a parameter node in another subgraph that bears the name looked up for it.
   */
  lemma EdgeComesFrom(tr: Trace, outputs: seq<Tensor>, s: State, i: nat)
    requires Acyclic(tr) && Finished(tr, outputs, s) && i < |s.edges|
    ensures var e := s.edges[i];
            && e.consumer < |s.nodes| == |s.roles| && e.producer < |s.nodes| && e.port < Arity(tr, s.roles[e.consumer])
            && var role, producer, consumer := s.roles[e.consumer], s.nodes[e.producer], s.nodes[e.consumer];
               var want := if role.Made? then tr[role.t].operands[e.port] else role.t;
               || s.roles[e.producer] == Made(want)
               || (s.roles[e.producer] == Bypass(want) && e.consumer < |outputs|)
               || (&& want < |tr| && tr[want].Param? && producer.ParameterInput?
                   && producer.subgraph != consumer.subgraph
                   && match tr[want].paramName
                      case Some(name) => producer.name == name
                      case None => producer.name == "parameter_" + consumer.name)
  {
    assert EdgeOk(tr, s.nodes, s.roles, s.edges[i]);
  }

  /** A passthrough nop only ever feeds a model output. */
  lemma NopFeedsOutputsOnly(tr: Trace, outputs: seq<Tensor>, s: State, i: nat)
    requires Acyclic(tr) && Finished(tr, outputs, s)
    requires i < |s.edges| && s.edges[i].producer < |s.nodes| && s.roles[s.edges[i].producer].Bypass?
    ensures s.edges[i].consumer < |outputs| && s.nodes[s.edges[i].consumer].Output?
  {
    var e := s.edges[i];
    assert EdgeOk(tr, s.nodes, s.roles, e);
    assert RoleFits(tr, s.nodes[e.producer], s.roles[e.producer]);
    assert RoleFits(tr, s.nodes[e.consumer], s.roles[e.consumer]);
  }

  /** What the translation promises about one node under one valuation. */
  ghost predicate Means(tr: Trace, m: Meaning, leaf: Tensor -> Value, s: State, val: seq<Value>, n: nat)
    requires Acyclic(tr)
  {
    n < |s.roles| && n < |val| && s.roles[n].t < |tr| && val[n] == Denote(tr, m, leaf, s.roles[n].t)
  }

  function Rank(role: Role): nat {
    match role case Made(_) => 0 case Bypass(_) => 1 case OutputFor(_) => 2
  }

  /**
   An edge either comes from a parameter node, or from a node made for the wanted tensor that is
   earlier in the order the induction follows.
   */
  lemma ProducerIsEarlier(tr: Trace, outputs: seq<Tensor>, s: State, e: Edge)
    requires Acyclic(tr) && NodesOk(tr, outputs, s.nodes, s.roles)
    requires EdgeOk(tr, s.nodes, s.roles, e)
    ensures var want, role, user := Wanted(tr, s.roles[e.consumer], e.port), s.roles[e.producer], s.roles[e.consumer];
            && want < |tr| && role.t < |tr| && user.t < |tr|
            && if s.nodes[e.producer].ParameterInput? then !tr[want].Produced? && !tr[role.t].Produced?
               else role.t == want && (want < user.t || (want == user.t && Rank(role) < Rank(user)))
  {
    assert RoleFits(tr, s.nodes[e.producer], s.roles[e.producer]);
    assert RoleFits(tr, s.nodes[e.consumer], s.roles[e.consumer]);
  }

  lemma LeafDenotes(tr: Trace, m: Meaning, leaf: Tensor -> Value, t: Tensor)
    requires Acyclic(tr) && t < |tr| && !tr[t].Produced?
    ensures Denote(tr, m, leaf, t) == LeafValue(tr, leaf, t)
  {
  }

  lemma InputValue(m: Meaning, store: string -> Value, s: State, val: seq<Value>, n: nat)
    requires Solves(s.nodes, s.edges, m, store, val)
    requires n < |s.nodes| && IsLoaded(s.nodes[n])
    ensures val[n] == store(s.nodes[n].name)
  {
    assert Solved(s.nodes, s.edges, m, store, val, n);
  }

  /** The incoming value at one port, once every earlier node's value is right. */
  lemma {:induction false} ArgumentMeans(tr: Trace, outputs: seq<Tensor>, m: Meaning, leaf: Tensor -> Value,
                                         store: string -> Value, s: State, val: seq<Value>, i: nat)
    requires Acyclic(tr) && Finished(tr, outputs, s) && Loaded(tr, leaf, store, s) && Coherent(tr, leaf, s)
    requires Lawful(m) && Solves(s.nodes, s.edges, m, store, val)
    requires i < |s.edges| && EdgeOk(tr, s.nodes, s.roles, s.edges[i])
    ensures var e := s.edges[i]; var want := Wanted(tr, s.roles[e.consumer], e.port);
            want < |tr| && val[e.producer] == Denote(tr, m, leaf, want)
    decreases s.roles[s.edges[i].consumer].t, Rank(s.roles[s.edges[i].consumer]), 0
  {
    var e := s.edges[i];
    ProducerIsEarlier(tr, outputs, s, e);
    if s.nodes[e.producer].ParameterInput? {
      assert CoherentEdge(tr, leaf, s, e);
      InputValue(m, store, s, val, e.producer);
      LeafDenotes(tr, m, leaf, Wanted(tr, s.roles[e.consumer], e.port));
    } else {
      NodeMeans(tr, outputs, m, leaf, store, s, val, e.producer);
    }
  }

  lemma ArgumentHasPort(tr: Trace, outputs: seq<Tensor>, s: State, n: nat, p: nat)
    requires Acyclic(tr) && Finished(tr, outputs, s)
    requires n < |s.nodes| && Arrives(s.edges, n, p)
    ensures p < Arity(tr, s.roles[n])
  {
    var i :| 0 <= i < |s.edges| && s.edges[i].consumer == n && s.edges[i].port == p;
    assert EdgeOk(tr, s.nodes, s.roles, s.edges[i]);
  }

  /** The number of delivered values is the arity of the node. */
  lemma ArgumentCount(tr: Trace, outputs: seq<Tensor>, m: Meaning, s: State, val: seq<Value>, n: nat, args: seq<Value>)
    requires Acyclic(tr) && Finished(tr, outputs, s)
    requires n < |s.nodes| && Delivers(s.edges, m, val, n, args)
    ensures |args| == Arity(tr, s.roles[n])
  {
    var arity := Arity(tr, s.roles[n]);
    if arity > 0 {
      assert s.edges[WiredEdge(tr, outputs, s, n, arity - 1)].port < |args|;
    }
    if args != [] {
      assert Arrives(s.edges, n, |args| - 1);
      ArgumentHasPort(tr, outputs, s, n, |args| - 1);
    }
  }

  lemma {:induction false} ArgumentsMean(tr: Trace, outputs: seq<Tensor>, m: Meaning, leaf: Tensor -> Value,
                                         store: string -> Value, s: State, val: seq<Value>, n: nat, args: seq<Value>)
    requires Acyclic(tr) && Finished(tr, outputs, s) && Loaded(tr, leaf, store, s) && Coherent(tr, leaf, s)
    requires Lawful(m) && Solves(s.nodes, s.edges, m, store, val)
    requires n < |s.nodes| && Delivers(s.edges, m, val, n, args)
    requires s.roles[n].t < |tr|
    ensures if s.roles[n].Made? then tr[s.roles[n].t].Produced? ==> args == OperandValues(tr, m, leaf, s.roles[n].t)
            else args == [Denote(tr, m, leaf, s.roles[n].t)]
    decreases s.roles[n].t, Rank(s.roles[n]), 1
  {
    ArgumentCount(tr, outputs, m, s, val, n, args);
    forall p: nat | p < |args|
      ensures Wanted(tr, s.roles[n], p) < |tr| &&
              args[p] == m.stretch(WantedStretch(tr, s.roles[n], p), Denote(tr, m, leaf, Wanted(tr, s.roles[n], p)))
    {
      var i := WiredEdge(tr, outputs, s, n, p);
      ArgumentMeans(tr, outputs, m, leaf, store, s, val, i);
    }
  }

  lemma {:induction false} NodeMeans(tr: Trace, outputs: seq<Tensor>, m: Meaning, leaf: Tensor -> Value,
                                     store: string -> Value, s: State, val: seq<Value>, n: nat)
    requires Acyclic(tr) && Finished(tr, outputs, s) && Loaded(tr, leaf, store, s) && Coherent(tr, leaf, s)
    requires Lawful(m) && Solves(s.nodes, s.edges, m, store, val)
    requires n < |s.nodes|
    ensures Means(tr, m, leaf, s, val, n)
    decreases s.roles[n].t, Rank(s.roles[n]), 2
  {
    assert Solved(s.nodes, s.edges, m, store, val, n);
    var args :| Delivers(s.edges, m, val, n, args) && Computes(s.nodes[n], m, store, args, val[n]);
    assert RoleFits(tr, s.nodes[n], s.roles[n]);
    ArgumentsMean(tr, outputs, m, leaf, store, s, val, n, args);
  }

  // ----- a solution exists

  /** How far a node is from the inputs; parameter nodes may be shared and come first. */
  ghost function Distance(s: State, n: nat): nat
    requires n < |s.nodes| == |s.roles|
  {
    if s.nodes[n].ParameterInput? then 0 else s.roles[n].t + 1
  }

  lemma ProducerIsNearer(tr: Trace, outputs: seq<Tensor>, s: State, e: Edge)
    requires Acyclic(tr) && NodesOk(tr, outputs, s.nodes, s.roles) && EdgeOk(tr, s.nodes, s.roles, e)
    ensures var near, far := Distance(s, e.producer), Distance(s, e.consumer);
            near < far || (near == far && Rank(s.roles[e.producer]) < Rank(s.roles[e.consumer]))
  {
    ProducerIsEarlier(tr, outputs, s, e);
    assert RoleFits(tr, s.nodes[e.consumer], s.roles[e.consumer]);
  }

  /** What the graph computes at a node, whatever its inputs are loaded with. */
  ghost function NodeValue(tr: Trace, outputs: seq<Tensor>, m: Meaning, store: string -> Value, s: State, n: nat): Value
    requires Acyclic(tr) && Finished(tr, outputs, s) && n < |s.nodes|
    decreases Distance(s, n), Rank(s.roles[n]), 1
  {
    assert RoleFits(tr, s.nodes[n], s.roles[n]);
    match s.nodes[n]
    case Output(_, _) => NodeArguments(tr, outputs, m, store, s, n)[0]
    case OpNode(_, _, op) => m.apply(op, NodeArguments(tr, outputs, m, store, s, n))
    case ConstantInput(_, _, v) => v
    case _ => store(s.nodes[n].name)
  }

  ghost function NodeArguments(tr: Trace, outputs: seq<Tensor>, m: Meaning, store: string -> Value, s: State, n: nat)
    : (args: seq<Value>)
    requires Acyclic(tr) && Finished(tr, outputs, s) && n < |s.nodes|
    ensures |args| == Arity(tr, s.roles[n])
    decreases Distance(s, n), Rank(s.roles[n]), 0
  {
    seq(Arity(tr, s.roles[n]), p requires 0 <= p < Arity(tr, s.roles[n]) =>
      var e := s.edges[WiredEdge(tr, outputs, s, n, p)];
      ProducerIsNearer(tr, outputs, s, e);
      m.stretch(e.stretch, NodeValue(tr, outputs, m, store, s, e.producer)))
  }

  lemma ArgumentsDelivered(tr: Trace, outputs: seq<Tensor>, m: Meaning, store: string -> Value, s: State,
                           val: seq<Value>, n: nat)
    requires Acyclic(tr) && Finished(tr, outputs, s) && n < |s.nodes| == |val|
    requires forall k :: 0 <= k < |val| ==> val[k] == NodeValue(tr, outputs, m, store, s, k)
    ensures Delivers(s.edges, m, val, n, NodeArguments(tr, outputs, m, store, s, n))
  {
    var args := NodeArguments(tr, outputs, m, store, s, n);
    forall i | 0 <= i < |s.edges| && s.edges[i].consumer == n
      ensures var e := s.edges[i];
              e.producer < |val| && e.port < |args| && args[e.port] == m.stretch(e.stretch, val[e.producer])
    {
      assert EdgeOk(tr, s.nodes, s.roles, s.edges[i]);
      assert WiredEdge(tr, outputs, s, n, s.edges[i].port) == i;
    }
    forall p: nat | p < |args|
      ensures Arrives(s.edges, n, p)
    {
      var i := WiredEdge(tr, outputs, s, n, p);
    }
  }

  /** The graph is acyclic and wired, so it has a solution for all ops and all loaded values. */
  lemma SolutionExists(tr: Trace, outputs: seq<Tensor>, m: Meaning, store: string -> Value, s: State)
    returns (val: seq<Value>)
    requires Acyclic(tr) && Finished(tr, outputs, s)
    ensures Solves(s.nodes, s.edges, m, store, val)
  {
    val := seq(|s.nodes|, n requires 0 <= n < |s.nodes| => NodeValue(tr, outputs, m, store, s, n));
    forall n | 0 <= n < |s.nodes|
      ensures Solved(s.nodes, s.edges, m, store, val, n)
    {
      ArgumentsDelivered(tr, outputs, m, store, s, val, n);
      assert Computes(s.nodes[n], m, store, NodeArguments(tr, outputs, m, store, s, n), val[n]) by {
        assert RoleFits(tr, s.nodes[n], s.roles[n]);
      }
    }
  }

  // ----- the solution is the meaning of the trace

  /** Output node k carries the value of the k-th model output. */
  ghost predicate OutputCarries(tr: Trace, outputs: seq<Tensor>, m: Meaning, leaf: Tensor -> Value,
                                s: State, val: seq<Value>, k: nat)
    requires Acyclic(tr)
  {
    && k < |outputs| && k < |s.nodes| && k < |val| && s.nodes[k].Output?
    && outputs[k] < |tr| && val[k] == Denote(tr, m, leaf, outputs[k])
  }

  ghost predicate Faithful(tr: Trace, outputs: seq<Tensor>, m: Meaning, leaf: Tensor -> Value, s: State,
                           val: seq<Value>)
    requires Acyclic(tr)
  {
    && (forall n :: 0 <= n < |s.nodes| ==> Means(tr, m, leaf, s, val, n))
    && (forall k :: 0 <= k < |outputs| ==> OutputCarries(tr, outputs, m, leaf, s, val, k))
  }

  /** Every solution, whatever the ops mean, gives every node the value of its tensor. */
  ghost predicate MeansTrace(tr: Trace, outputs: seq<Tensor>, m: Meaning, leaf: Tensor -> Value,
                             store: string -> Value, s: State)
    requires Acyclic(tr)
  {
    && (exists val :: Solves(s.nodes, s.edges, m, store, val))
    && (forall val :: Solves(s.nodes, s.edges, m, store, val) ==> Faithful(tr, outputs, m, leaf, s, val))
  }

  lemma OutputMeans(tr: Trace, outputs: seq<Tensor>, m: Meaning, leaf: Tensor -> Value, s: State, val: seq<Value>,
                    k: nat)
    requires Acyclic(tr) && Finished(tr, outputs, s)
    requires k < |outputs| && Means(tr, m, leaf, s, val, k)
    ensures OutputCarries(tr, outputs, m, leaf, s, val, k)
  {
    assert RoleFits(tr, s.nodes[k], s.roles[k]);
  }

  lemma SolutionIsFaithful(tr: Trace, outputs: seq<Tensor>, m: Meaning, leaf: Tensor -> Value,
                           store: string -> Value, s: State, val: seq<Value>)
    requires Acyclic(tr) && Finished(tr, outputs, s) && Loaded(tr, leaf, store, s) && Coherent(tr, leaf, s) && Lawful(m)
    requires Solves(s.nodes, s.edges, m, store, val)
    ensures Faithful(tr, outputs, m, leaf, s, val)
  {
    forall n | 0 <= n < |s.nodes|
      ensures Means(tr, m, leaf, s, val, n)
    {
      NodeMeans(tr, outputs, m, leaf, store, s, val, n);
    }
    forall k | 0 <= k < |outputs|
      ensures OutputCarries(tr, outputs, m, leaf, s, val, k)
    {
      OutputMeans(tr, outputs, m, leaf, s, val, k);
    }
  }

  /**
   Main theorem. Whatever the ops, the inputs and the parameters mean, the finished graph has a
   solution, and in every solution each node carries the value of the tensor it was made for; so
   the k-th output node carries the value of the k-th model output.
   */
  lemma MeaningPreserved(tr: Trace, outputs: seq<Tensor>, m: Meaning, leaf: Tensor -> Value,
                         store: string -> Value, s: State)
    requires Acyclic(tr) && Finished(tr, outputs, s) && Lawful(m)
    requires Loaded(tr, leaf, store, s) && Coherent(tr, leaf, s)
    ensures MeansTrace(tr, outputs, m, leaf, store, s)
  {
    var solution := SolutionExists(tr, outputs, m, store, s);
    forall val | Solves(s.nodes, s.edges, m, store, val)
      ensures Faithful(tr, outputs, m, leaf, s, val)
    {
      SolutionIsFaithful(tr, outputs, m, leaf, store, s, val);
    }
  }

  /** An op that returns its operand at port p, or its first one. */
  function Projection(p: nat, v: Value): Meaning {
    Meaning((op, vs) => if |vs| > p then vs[p] else if vs != [] then vs[0] else v, (bs, w) => w)
  }

  lemma ProjectionLawful(p: nat, v: Value)
    ensures Lawful(Projection(p, v))
  {
  }

  lemma ProjectionPicks(p: nat, v: Value, op: Op, vs: seq<Value>)
    requires p < |vs|
    ensures Projection(p, v).apply(op, vs) == vs[p]
  {
  }

  /** What a consumer has computed under a projection is what arrived at that port. */
  lemma ConsumerPicks(tr: Trace, s: State, store: string -> Value, v: Value, n: nat, p: nat, args: seq<Value>, w: Value)
    requires n < |s.nodes| == |s.roles| && RoleFits(tr, s.nodes[n], s.roles[n])
    requires p < |args| == Arity(tr, s.roles[n])
    requires Computes(s.nodes[n], Projection(p, v), store, args, w)
    ensures w == args[p]
  {
    if s.nodes[n].OpNode? {
      ProjectionPicks(p, v, s.nodes[n].op, args);
    }
  }

  /** In a solution under a projection every consumer carries what its edge at that port delivers. */
  lemma ConsumerCarries(tr: Trace, outputs: seq<Tensor>, v: Value, store: string -> Value, s: State, val: seq<Value>,
                        e: Edge)
    requires Acyclic(tr) && Finished(tr, outputs, s) && e in s.edges
    requires EdgeOk(tr, s.nodes, s.roles, e)
    requires Solves(s.nodes, s.edges, Projection(e.port, v), store, val)
    ensures val[e.consumer] == val[e.producer]
  {
    var m, n := Projection(e.port, v), e.consumer;
    assert Solved(s.nodes, s.edges, m, store, val, n);
    var args :| Delivers(s.edges, m, val, n, args) && Computes(s.nodes[n], m, store, args, val[n]);
    ArgumentCount(tr, outputs, m, s, val, n, args);
    assert args[e.port] == m.stretch(e.stretch, val[e.producer]);
    assert RoleFits(tr, s.nodes[n], s.roles[n]);
    ConsumerPicks(tr, s, store, v, n, e.port, args, val[n]);
  }

  lemma ProjectedOp(tr: Trace, leaf: Tensor -> Value, v: Value, t: Tensor, p: nat)
    requires Acyclic(tr) && t < |tr| && tr[t].Produced? && p < |tr[t].operands|
    ensures Denote(tr, Projection(p, v), leaf, t) == Denote(tr, Projection(p, v), leaf, tr[t].operands[p])
  {
    var m := Projection(p, v);
    var vs := OperandValues(tr, m, leaf, t);
    var w := Denote(tr, m, leaf, tr[t].operands[p]);
    assert vs[p] == m.stretch(Select(tr[t].broadcasts, p), w);
    ProjectionPicks(p, v, tr[t].op, vs);
  }

  /** Under a projection a node's tensor has the value of the tensor wanted at that port. */
  lemma ConsumerDenotes(tr: Trace, outputs: seq<Tensor>, v: Value, leaf: Tensor -> Value, s: State, e: Edge)
    requires Acyclic(tr) && Finished(tr, outputs, s) && EdgeOk(tr, s.nodes, s.roles, e)
    ensures var role := s.roles[e.consumer]; var want := Wanted(tr, role, e.port); var m := Projection(e.port, v);
            && role.t < |tr| && want < |tr|
            && Denote(tr, m, leaf, role.t) == Denote(tr, m, leaf, want)
  {
    var role := s.roles[e.consumer];
    ProducerIsEarlier(tr, outputs, s, e);
    if role.Made? {
      ProjectedOp(tr, leaf, v, role.t, e.port);
    }
  }

  lemma EdgeIsCoherent(tr: Trace, outputs: seq<Tensor>, leaf: Tensor -> Value, store: string -> Value, s: State,
                       e: Edge)
    requires Acyclic(tr) && Finished(tr, outputs, s) && Loaded(tr, leaf, store, s) && e in s.edges
    requires MeansTrace(tr, outputs, Projection(e.port, leaf(0)), leaf, store, s)
    ensures CoherentEdge(tr, leaf, s, e)
  {
    if EdgeOk(tr, s.nodes, s.roles, e) && s.nodes[e.producer].ParameterInput? {
      var m := Projection(e.port, leaf(0));
      var val := SolutionExists(tr, outputs, m, store, s);
      ConsumerCarries(tr, outputs, leaf(0), store, s, val, e);
      ConsumerDenotes(tr, outputs, leaf(0), leaf, s, e);
      assert Means(tr, m, leaf, s, val, e.consumer);
      InputValue(m, store, s, val, e.producer);
      ProducerIsEarlier(tr, outputs, s, e);
      LeafDenotes(tr, m, leaf, Wanted(tr, s.roles[e.consumer], e.port));
    }
  }

  ghost predicate AlwaysMeansTrace(tr: Trace, outputs: seq<Tensor>, leaf: Tensor -> Value, store: string -> Value,
                                   s: State)
    requires Acyclic(tr)
  {
    forall m :: Lawful(m) ==> MeansTrace(tr, outputs, m, leaf, store, s)
  }

  /** The graph means what the trace means, for all ops, exactly when shared parameters agree. */
  lemma MeaningPreservedExactlyWhenCoherent(tr: Trace, outputs: seq<Tensor>, leaf: Tensor -> Value,
                                            store: string -> Value, s: State)
    requires Acyclic(tr) && Finished(tr, outputs, s) && Loaded(tr, leaf, store, s)
    ensures AlwaysMeansTrace(tr, outputs, leaf, store, s) <==> Coherent(tr, leaf, s)
  {
    if Coherent(tr, leaf, s) {
      forall m | Lawful(m)
        ensures MeansTrace(tr, outputs, m, leaf, store, s)
      {
        MeaningPreserved(tr, outputs, m, leaf, store, s);
      }
    }
    if AlwaysMeansTrace(tr, outputs, leaf, store, s) {
      forall i | 0 <= i < |s.edges|
        ensures CoherentEdge(tr, leaf, s, s.edges[i])
      {
        ProjectionLawful(s.edges[i].port, leaf(0));
        EdgeIsCoherent(tr, outputs, leaf, store, s, s.edges[i]);
      }
    }
  }

  /** A slot that wants anything but a parameter is served by the node made for that tensor, through a nop or not. */
  lemma SlotHasMaker(tr: Trace, outputs: seq<Tensor>, s: State, n: nat, p: nat)
    requires Acyclic(tr) && Finished(tr, outputs, s)
    requires n < |s.nodes| && p < Arity(tr, s.roles[n])
    requires var want := Wanted(tr, s.roles[n], p); want < |tr| && !tr[want].Param?
    ensures exists k :: 0 <= k < |s.nodes| && s.roles[k] == Made(Wanted(tr, s.roles[n], p))
  {
    var e := s.edges[WiredEdge(tr, outputs, s, n, p)];
    if s.roles[e.producer].Bypass? {
      var e' := s.edges[WiredEdge(tr, outputs, s, e.producer, 0)];
      assert s.roles[e'.producer] == Made(s.roles[e.producer].t);
    }
  }

  /** Some slot wants every reachable tensor. */
  lemma {:induction false} SlotFor(tr: Trace, outputs: seq<Tensor>, s: State, t: Tensor) returns (n: nat, p: nat)
    requires Acyclic(tr) && Finished(tr, outputs, s) && Reachable(tr, outputs, t)
    ensures n < |s.nodes| && p < Arity(tr, s.roles[n]) && Wanted(tr, s.roles[n], p) == t
    decreases |tr| - t
  {
    if t in outputs {
      n, p := (var k :| 0 <= k < |outputs| && outputs[k] == t; k), 0;
    } else {
      var u :| t < u < |tr| && Feeds(tr, t, u) && Reachable(tr, outputs, u);
      var n', p' := SlotFor(tr, outputs, s, u);
      SlotHasMaker(tr, outputs, s, n', p');
      n :| 0 <= n < |s.nodes| && s.roles[n] == Made(u);
      p :| 0 <= p < |tr[u].operands| && tr[u].operands[p] == t;
    }
  }

  /** Exactly the reachable op tensors, constants and inputs have a node of their own, and each of them has one. */
  lemma OneNodePerTensor(tr: Trace, outputs: seq<Tensor>, s: State, t: Tensor)
    requires Acyclic(tr) && Finished(tr, outputs, s)
    requires t < |tr| && !tr[t].Param?
    ensures Reachable(tr, outputs, t) <==> exists n :: 0 <= n < |s.nodes| && s.roles[n] == Made(t)
    ensures forall i, j :: 0 <= i < |s.nodes| && 0 <= j < |s.nodes| && s.roles[i] == s.roles[j] == Made(t) ==> i == j
  {
    if Reachable(tr, outputs, t) {
      var n, p := SlotFor(tr, outputs, s, t);
      SlotHasMaker(tr, outputs, s, n, p);
    }
  }
}
