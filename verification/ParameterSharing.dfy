/** Judged from a request: its graph means what the trace means unless unequal tensors share a parameter node. */
module ParameterSharing {
  import opened Wrappers
  import opened Trace
  import opened DataflowGraph
  import opened GraphInvariant
  import opened GraphMeaning
  import opened GraphNames

  /** A leaf that could be made a parameter node of this name. */
  ghost predicate Recordable(tr: Trace, rq: Request, t: Tensor, name: string)
    requires ValidRequest(tr, rq)
  {
    CouldName(tr, rq, t, name) && (tr[t].Param? || (tr[t].Plain? && name in rq.loopbackInputs))
  }

  /** A parameter has one value with every parameter and loopback input that could be given its name. */
  ghost predicate NamesAgree(tr: Trace, rq: Request, leaf: Tensor -> Value)
    requires ValidRequest(tr, rq)
  {
    forall t: Tensor, u: Tensor, name :: Recordable(tr, rq, t, name) && tr[t].Param? && Recordable(tr, rq, u, name) ==>
      LeafValue(tr, leaf, t) == LeafValue(tr, leaf, u)
  }

  /** A node other than a nop uses the tensor wanted at its port. */
  lemma WantedUse(tr: Trace, rq: Request, s: State, n: nat, p: nat)
    requires ValidRequest(tr, rq) && NamesOk(tr, rq, s) && NodesOk(tr, rq.outputs, s.nodes, s.roles)
    requires n < |s.nodes| && p < Arity(tr, s.roles[n]) && !s.roles[n].Bypass?
    ensures UsedAs(tr, rq, Wanted(tr, s.roles[n], p), s.nodes[n].name, p)
  {
    assert NodeNamed(tr, rq, s.nodes[n], s.roles[n], n) && RoleFits(tr, s.nodes[n], s.roles[n]);
    if s.roles[n].Made? {
      assert OperandOf(tr, rq, Wanted(tr, s.roles[n], p), s.nodes[n].name, p);
    } else {
      assert OutputOf(tr, rq, Wanted(tr, s.roles[n], p), s.nodes[n].name);
    }
  }

  /** Both the maker and the user of a parameter node could have given it its name. */
  lemma ParameterEdge(tr: Trace, rq: Request, s: State, e: Edge)
    requires ValidRequest(tr, rq) && NamesOk(tr, rq, s) && NodesOk(tr, rq.outputs, s.nodes, s.roles)
    requires EdgeOk(tr, s.nodes, s.roles, e) && s.nodes[e.producer].ParameterInput?
    ensures s.roles[e.producer].Made? && Recordable(tr, rq, s.roles[e.producer].t, s.nodes[e.producer].name)
    ensures Recordable(tr, rq, Wanted(tr, s.roles[e.consumer], e.port), s.nodes[e.producer].name)
  {
    var node, role, want := s.nodes[e.producer], s.roles[e.producer], Wanted(tr, s.roles[e.consumer], e.port);
    assert RoleFits(tr, node, role) && NodeNamed(tr, rq, node, role, e.producer);
    assert RoleFits(tr, s.nodes[e.consumer], s.roles[e.consumer]);
    if role != Made(want) {
      WantedUse(tr, rq, s, e.consumer, e.port);
      assert TensorName(tr, rq, want, s.nodes[e.consumer].name, e.port) == Some(node.name);
    }
  }

  /** When names agree, so do the tensors loaded from one node. */
  lemma AgreeingNamesAreCoherent(tr: Trace, rq: Request, leaf: Tensor -> Value, s: State)
    requires ValidRequest(tr, rq) && Finished(tr, rq.outputs, s) && NamesOk(tr, rq, s) && NamesAgree(tr, rq, leaf)
    ensures Coherent(tr, leaf, s)
  {
    forall i | 0 <= i < |s.edges|
      ensures CoherentEdge(tr, leaf, s, s.edges[i])
    {
      var e := s.edges[i];
      if EdgeOk(tr, s.nodes, s.roles, e) && s.nodes[e.producer].ParameterInput? {
        ParameterEdge(tr, rq, s, e);
        var want, t := Wanted(tr, s.roles[e.consumer], e.port), s.roles[e.producer].t;
        assert t != want ==> tr[want].Param?;
      }
    }
  }

  /** The meaning of every finished translation, with a hypothesis on the request alone. */
  lemma AgreeingNamesPreserveMeaning(tr: Trace, rq: Request, leaf: Tensor -> Value, store: string -> Value, s: State)
    requires ValidRequest(tr, rq) && Finished(tr, rq.outputs, s) && NamesOk(tr, rq, s)
    requires Loaded(tr, leaf, store, s) && NamesAgree(tr, rq, leaf)
    ensures AlwaysMeansTrace(tr, rq.outputs, leaf, store, s)
  {
    AgreeingNamesAreCoherent(tr, rq, leaf, s);
    MeaningPreservedExactlyWhenCoherent(tr, rq.outputs, leaf, store, s);
  }

  // ----- the exact condition when possible names do not depend on the run

  ghost predicate UsedParameter(tr: Trace, rq: Request, t: Tensor)
    requires ValidRequest(tr, rq)
  {
    t < |tr| && tr[t].Param? && Reachable(tr, rq.outputs, t)
  }

  lemma UseIsReachable(tr: Trace, rq: Request, t: Tensor, name: string)
    requires ValidRequest(tr, rq) && CouldName(tr, rq, t, name)
    ensures Reachable(tr, rq.outputs, t)
  {
    var c, p: nat :| UsedAs(tr, rq, t, c, p) && TensorName(tr, rq, t, c, p) == Some(name);
    if OperandOf(tr, rq, t, c, p) {
      var u :| 0 <= u < |tr| && Reachable(tr, rq.outputs, u) && tr[u].Produced? && tr[u].opName == c &&
        p < |tr[u].operands| && tr[u].operands[p] == t;
      assert Feeds(tr, t, u);
    }
  }

  /** A slot that wants a parameter is fed by a parameter node that could have been named after it. */
  lemma ParameterSlot(tr: Trace, rq: Request, s: State, t: Tensor) returns (i: nat)
    requires ValidRequest(tr, rq) && Finished(tr, rq.outputs, s) && NamesOk(tr, rq, s)
    requires UsedParameter(tr, rq, t)
    ensures i < |s.edges| && EdgeOk(tr, s.nodes, s.roles, s.edges[i])
    ensures Wanted(tr, s.roles[s.edges[i].consumer], s.edges[i].port) == t
    ensures s.nodes[s.edges[i].producer].ParameterInput?
    ensures Recordable(tr, rq, t, s.nodes[s.edges[i].producer].name)
  {
    var n, p := SlotFor(tr, rq.outputs, s, t);
    i := WiredEdge(tr, rq.outputs, s, n, p);
    var e := s.edges[i];
    assert RoleFits(tr, s.nodes[e.producer], s.roles[e.producer]);
    ParameterEdge(tr, rq, s, e);
  }

  /** Two parameters that can only be given the same name are loaded from one node. */
  lemma OneNameOneValue(tr: Trace, rq: Request, leaf: Tensor -> Value, s: State, t: Tensor, u: Tensor, name: string)
    requires ValidRequest(tr, rq) && Finished(tr, rq.outputs, s) && NamesOk(tr, rq, s) && Coherent(tr, leaf, s)
    requires UsedParameter(tr, rq, t)
    requires u < |tr| && (tr[u].Param? || tr[u].Plain?) && Reachable(tr, rq.outputs, u)
    requires forall x :: CouldName(tr, rq, t, x) || CouldName(tr, rq, u, x) ==> x == name
    ensures LeafValue(tr, leaf, t) == LeafValue(tr, leaf, u)
  {
    var i := ParameterSlot(tr, rq, s, t);
    assert CoherentEdge(tr, leaf, s, s.edges[i]);
    var n := s.edges[i].producer;
    if tr[u].Param? {
      var j := ParameterSlot(tr, rq, s, u);
      assert CoherentEdge(tr, leaf, s, s.edges[j]);
      assert s.edges[j].producer == n;
    } else {
      OneNodePerTensor(tr, rq.outputs, s, u);
      var k :| 0 <= k < |s.nodes| && s.roles[k] == Made(u);
      assert NodeNamed(tr, rq, s.nodes[k], s.roles[k], k);
      assert k == n;
    }
  }

  /**
   A parameter, and whatever could share its name, can be given that name only. An unnamed parameter with
   consumers of different names has several.
   */
  ghost predicate NamesSettled(tr: Trace, rq: Request)
    requires ValidRequest(tr, rq)
  {
    forall t: Tensor, u: Tensor, name, other ::
      Recordable(tr, rq, t, name) && tr[t].Param? && Recordable(tr, rq, u, name) && CouldName(tr, rq, u, other) ==>
        other == name
  }

  lemma CoherentNamesAgree(tr: Trace, rq: Request, leaf: Tensor -> Value, s: State)
    requires ValidRequest(tr, rq) && Finished(tr, rq.outputs, s) && NamesOk(tr, rq, s) && Coherent(tr, leaf, s)
    requires NamesSettled(tr, rq)
    ensures NamesAgree(tr, rq, leaf)
  {
    forall t: Tensor, u: Tensor, name | Recordable(tr, rq, t, name) && tr[t].Param? && Recordable(tr, rq, u, name)
      ensures LeafValue(tr, leaf, t) == LeafValue(tr, leaf, u)
    {
      UseIsReachable(tr, rq, t, name);
      UseIsReachable(tr, rq, u, name);
      OneNameOneValue(tr, rq, leaf, s, t, u, name);
    }
  }

  /**
   When names are settled, the graph means what the trace means, for all ops, exactly when every parameter
   has one value with whatever could share its name.
   */
  lemma SettledNamesPreserveMeaningExactly(tr: Trace, rq: Request, leaf: Tensor -> Value,
                                           store: string -> Value, s: State)
    requires ValidRequest(tr, rq) && Finished(tr, rq.outputs, s) && NamesOk(tr, rq, s)
    requires Loaded(tr, leaf, store, s) && NamesSettled(tr, rq)
    ensures AlwaysMeansTrace(tr, rq.outputs, leaf, store, s) <==> NamesAgree(tr, rq, leaf)
  {
    MeaningPreservedExactlyWhenCoherent(tr, rq.outputs, leaf, store, s);
    if Coherent(tr, leaf, s) {
      CoherentNamesAgree(tr, rq, leaf, s);
    }
    if NamesAgree(tr, rq, leaf) {
      AgreeingNamesAreCoherent(tr, rq, leaf, s);
    }
  }

  // ----- in particular, when parameters have names

  /** Every parameter in use has a name, and no loopback input has that name. */
  ghost predicate ParametersNamed(tr: Trace, rq: Request)
    requires ValidRequest(tr, rq)
  {
    forall t: Tensor :: UsedParameter(tr, rq, t) ==>
      tr[t].paramName.Some? && tr[t].paramName.value !in rq.loopbackInputs
  }

  ghost predicate EqualNamesEqualValues(tr: Trace, rq: Request, leaf: Tensor -> Value)
    requires ValidRequest(tr, rq)
  {
    forall t: Tensor, u: Tensor ::
      UsedParameter(tr, rq, t) && UsedParameter(tr, rq, u) && tr[t].paramName == tr[u].paramName ==> leaf(t) == leaf(u)
  }

  lemma NamedIsSettled(tr: Trace, rq: Request)
    requires ValidRequest(tr, rq) && ParametersNamed(tr, rq)
    ensures NamesSettled(tr, rq)
  {
    forall t: Tensor, u: Tensor, name, other |
      Recordable(tr, rq, t, name) && tr[t].Param? && Recordable(tr, rq, u, name) && CouldName(tr, rq, u, other)
      ensures other == name
    {
      UseIsReachable(tr, rq, t, name);
      UseIsReachable(tr, rq, u, name);
      assert UsedParameter(tr, rq, t) && tr[t].paramName == Some(name);
      assert UsedParameter(tr, rq, u) && tr[u].paramName == Some(name);
    }
  }

  lemma NamedAgreeExactly(tr: Trace, rq: Request, leaf: Tensor -> Value, s: State)
    requires ValidRequest(tr, rq) && Finished(tr, rq.outputs, s) && NamesOk(tr, rq, s) && ParametersNamed(tr, rq)
    ensures NamesAgree(tr, rq, leaf) <==> EqualNamesEqualValues(tr, rq, leaf)
  {
    forall t: Tensor | UsedParameter(tr, rq, t)
      ensures Recordable(tr, rq, t, tr[t].paramName.value)
    {
      var i := ParameterSlot(tr, rq, s, t);
    }
    forall t: Tensor, name | Recordable(tr, rq, t, name)
      ensures Reachable(tr, rq.outputs, t)
    {
      UseIsReachable(tr, rq, t, name);
    }
  }

  /**
   When the parameters in use have names that no loopback input takes, the graph means what the trace
   means, for all ops, exactly when parameters of equal names have equal values.
   */
  lemma NamedParametersPreserveMeaningExactly(tr: Trace, rq: Request, leaf: Tensor -> Value,
                                              store: string -> Value, s: State)
    requires ValidRequest(tr, rq) && Finished(tr, rq.outputs, s) && NamesOk(tr, rq, s)
    requires Loaded(tr, leaf, store, s) && ParametersNamed(tr, rq)
    ensures AlwaysMeansTrace(tr, rq.outputs, leaf, store, s) <==> EqualNamesEqualValues(tr, rq, leaf)
  {
    NamedIsSettled(tr, rq);
    NamedAgreeExactly(tr, rq, leaf, s);
    SettledNamesPreserveMeaningExactly(tr, rq, leaf, store, s);
  }
}
