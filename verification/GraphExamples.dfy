/** Requests on which `generate_graph` succeeds and yet does not do what one might expect. */
module GraphExamples {
  import opened Wrappers
  import opened Trace
  import opened DataflowGraph
  import opened GraphInvariant
  import opened GraphMeaning
  import opened GraphNames
  import opened GraphTurns
  import opened GraphRegister
  import opened GraphRuns
  import opened Runs
  import opened GenerateGraph
  import opened ParameterSharing
  import Decimal

  // ----- a parameter named after its consumer meets a parameter of that name

  /** Two subgraphs: f applied to a parameter called "parameter_g", and g applied to one without a name. */
  function CollidingTrace(op: Op): Trace {
    [Param(Some("parameter_g")), Produced(op, "f", [0], []), Param(None), Produced(op, "g", [2], [])]
  }

  function CollidingRequest(): Request {
    Request([1, 3], map[1 := "m", 3 := "m"], map[1 := 0, 3 := 1], [], None, [], {}, 1)
  }

  lemma CollidingIsValid(op: Op)
    ensures ValidRequest(CollidingTrace(op), CollidingRequest())
    ensures forall t :: 0 <= t < 4 ==> Reachable(CollidingTrace(op), [1, 3], t)
  {
    var tr := CollidingTrace(op);
    assert Feeds(tr, 0, 1) && Feeds(tr, 2, 3);
    assert Reachable(tr, [1, 3], 1) && Reachable(tr, [1, 3], 3);
  }

  /** The names that nodes of the example can be given. */
  ghost predicate CollidingName(o: Origin, name: string) {
    match o
    case OfTensor(t) =>
      || ((t == 0 || t == 2) && name == "parameter_g")
      || (t == 1 && name == "f")
      || (t == 3 && name == "g")
    case OfOutput(k) => (k == 0 && name == "m.output_f") || (k == 1 && name == "m.output_g")
    case OfNop(_) => false
  }

  lemma CollidingUses(op: Op, t: Tensor, c: string, p: nat)
    requires ValidRequest(CollidingTrace(op), CollidingRequest())
    requires UsedAs(CollidingTrace(op), CollidingRequest(), t, c, p)
    ensures t < 4 && (t == 2 ==> c == "g")
  {
  }

  lemma CollidingUsedName(op: Op, t: Tensor, c: string, p: nat, name: string)
    requires t < 4 && (t == 2 ==> c == "g")
    requires TensorName(CollidingTrace(op), CollidingRequest(), t, c, p) == Some(name)
    ensures CollidingName(OfTensor(t), name)
  {
    assert "parameter_" + "g" == "parameter_g";
  }

  lemma CollidingTensorNames(op: Op, t: Tensor, name: string)
    requires ValidRequest(CollidingTrace(op), CollidingRequest())
    requires CouldName(CollidingTrace(op), CollidingRequest(), t, name)
    ensures CollidingName(OfTensor(t), name)
  {
    var tr, rq := CollidingTrace(op), CollidingRequest();
    var c, p: nat :| UsedAs(tr, rq, t, c, p) && TensorName(tr, rq, t, c, p) == Some(name);
    CollidingUses(op, t, c, p);
    CollidingUsedName(op, t, c, p, name);
  }

  lemma CollidingOutputNames(op: Op)
    requires ValidRequest(CollidingTrace(op), CollidingRequest())
    ensures OutputName(CollidingTrace(op), CollidingRequest(), 0) == "m.output_f"
    ensures OutputName(CollidingTrace(op), CollidingRequest(), 1) == "m.output_g"
  {
    assert "m" + ".output_" + "f" == "m.output_f" && "m" + ".output_" + "g" == "m.output_g";
  }

  lemma CollidingNames(op: Op, o: Origin, name: string)
    requires ValidRequest(CollidingTrace(op), CollidingRequest())
    requires Named(CollidingTrace(op), CollidingRequest(), o, name)
    ensures CollidingName(o, name)
  {
    match o
    case OfTensor(t) => CollidingTensorNames(op, t, name);
    case OfOutput(_) => CollidingOutputNames(op);
    case OfNop(_) =>
  }

  lemma CollidingSubgraphs(op: Op, t: Tensor, g: nat)
    requires ValidRequest(CollidingTrace(op), CollidingRequest())
    requires UsedIn(CollidingTrace(op), CollidingRequest(), t, g)
    ensures (t == 0 ==> g == 0) && (t == 2 ==> g == 1)
  {
    var tr, rq := CollidingTrace(op), CollidingRequest();
    var o :| o in rq.outputs && SubgraphOf(rq, o) == g && Reachable(tr, [o], t);
    assert forall u :: Feeds(tr, 0, u) ==> u == 1;
    assert forall u :: Feeds(tr, 2, u) ==> u == 3;
    assert forall u :: !Feeds(tr, 1, u) && !Feeds(tr, 3, u);
    assert Reachable(tr, [o], 1) ==> o == 1;
    assert Reachable(tr, [o], 3) ==> o == 3;
  }

  lemma NamesDiffer(a: Origin, b: Origin, name: string)
    requires a != b && CollidingName(a, name) && CollidingName(b, name)
    ensures a in {OfTensor(0), OfTensor(2)} && b in {OfTensor(0), OfTensor(2)}
  {
    assert |"parameter_g"| == 11 && |"f"| == 1 && |"g"| == 1 && |"m.output_f"| == 10 && |"m.output_g"| == 10;
    assert "f"[0] != "g"[0] && "m.output_f"[9] != "m.output_g"[9];
  }

  lemma NoCollidingReuse(op: Op, t: Tensor, u: Tensor, name: string, g: nat)
    requires ValidRequest(CollidingTrace(op), CollidingRequest())
    ensures !Reuse(CollidingTrace(op), CollidingRequest(), t, u, name, g)
  {
    var tr, rq := CollidingTrace(op), CollidingRequest();
    if Reuse(tr, rq, t, u, name, g) {
      CollidingNames(op, OfTensor(t), name);
      CollidingNames(op, OfTensor(u), name);
      NamesDiffer(OfTensor(t), OfTensor(u), name);
      CollidingSubgraphs(op, t, g);
      CollidingSubgraphs(op, u, g);
    }
  }

  lemma CollidingAreParams(op: Op, a: Origin, b: Origin, name: string)
    requires ValidRequest(CollidingTrace(op), CollidingRequest()) && a != b
    requires Named(CollidingTrace(op), CollidingRequest(), a, name)
    requires Named(CollidingTrace(op), CollidingRequest(), b, name)
    ensures IsParam(CollidingTrace(op), a) && IsParam(CollidingTrace(op), b)
  {
    CollidingNames(op, a, name);
    CollidingNames(op, b, name);
    NamesDiffer(a, b, name);
  }

  lemma NoCollidingClash(op: Op, name: string)
    requires ValidRequest(CollidingTrace(op), CollidingRequest())
    ensures !Clash(CollidingTrace(op), CollidingRequest(), name)
  {
    var tr, rq := CollidingTrace(op), CollidingRequest();
    if Clash(tr, rq, name) {
      var a, b := ClashParties(tr, rq, name);
      CollidingAreParams(op, a, b, name);
    }
  }

  lemma CollidingIsWellPosed(op: Op)
    ensures ValidRequest(CollidingTrace(op), CollidingRequest()) && WellPosed(CollidingTrace(op), CollidingRequest())
  {
    var tr, rq := CollidingTrace(op), CollidingRequest();
    CollidingIsValid(op);
    forall name
      ensures !Clash(tr, rq, name)
    {
      NoCollidingClash(op, name);
    }
    forall t, u, name, g
      ensures !Reuse(tr, rq, t, u, name, g)
    {
      NoCollidingReuse(op, t, u, name, g);
    }
  }

  lemma CollidingCouldName(op: Op)
    requires ValidRequest(CollidingTrace(op), CollidingRequest())
    ensures CouldName(CollidingTrace(op), CollidingRequest(), 0, "parameter_g")
    ensures CouldName(CollidingTrace(op), CollidingRequest(), 2, "parameter_g")
  {
    var tr, rq := CollidingTrace(op), CollidingRequest();
    CollidingIsValid(op);
    assert Reachable(tr, rq.outputs, 1) && tr[1].opName == "f" && tr[1].operands[0] == 0;
    assert Reachable(tr, rq.outputs, 3) && tr[3].opName == "g" && tr[3].operands[0] == 2;
    assert UsedAs(tr, rq, 0, "f", 0) && UsedAs(tr, rq, 2, "g", 0);
    assert "parameter_" + "g" == "parameter_g";
  }

  lemma CollidingRecordable(op: Op, t: Tensor, name: string)
    requires ValidRequest(CollidingTrace(op), CollidingRequest())
    ensures Recordable(CollidingTrace(op), CollidingRequest(), t, name) <==>
            (t == 0 || t == 2) && name == "parameter_g"
  {
    CollidingCouldName(op);
    if Recordable(CollidingTrace(op), CollidingRequest(), t, name) {
      CollidingTensorNames(op, t, name);
    }
  }

  /** Both parameters can be given one and the same name only. */
  lemma CollidingIsSettled(op: Op, leaf: Tensor -> Value)
    requires ValidRequest(CollidingTrace(op), CollidingRequest())
    ensures NamesSettled(CollidingTrace(op), CollidingRequest())
    ensures NamesAgree(CollidingTrace(op), CollidingRequest(), leaf) <==> leaf(0) == leaf(2)
  {
    var tr, rq := CollidingTrace(op), CollidingRequest();
    forall t: Tensor, name
      ensures Recordable(tr, rq, t, name) <==> (t == 0 || t == 2) && name == "parameter_g"
    {
      CollidingRecordable(op, t, name);
    }
    forall t: Tensor, name | (t == 0 || t == 2) && CouldName(tr, rq, t, name)
      ensures name == "parameter_g"
    {
      CollidingTensorNames(op, t, name);
    }
    assert Recordable(tr, rq, 0, "parameter_g") && Recordable(tr, rq, 2, "parameter_g");
  }

  /** In any graph built for this request the two share a node, so it means the trace exactly when they are equal. */
  lemma CollidingParametersShareNode(op: Op, leaf: Tensor -> Value, store: string -> Value, s: State)
    requires ValidRequest(CollidingTrace(op), CollidingRequest())
    requires Finished(CollidingTrace(op), [1, 3], s) && NamesOk(CollidingTrace(op), CollidingRequest(), s)
    requires Loaded(CollidingTrace(op), leaf, store, s)
    ensures AlwaysMeansTrace(CollidingTrace(op), [1, 3], leaf, store, s) <==> leaf(0) == leaf(2)
  {
    CollidingIsSettled(op, leaf);
    SettledNamesPreserveMeaningExactly(CollidingTrace(op), CollidingRequest(), leaf, store, s);
  }

  /** The translation of this request succeeds; parameters with different values are silently merged. */
  method MergeParameters(op: Op, leaf: Tensor -> Value, ghost store: string -> Value) returns (g: GraphGenerator)
    requires leaf(0) != leaf(2)
    ensures g.tr == CollidingTrace(op) && g.rq == CollidingRequest()
    ensures Acyclic(g.tr) && Finished(g.tr, g.rq.outputs, g.Snapshot())
    ensures Loaded(g.tr, leaf, store, g.Snapshot()) ==>
              !AlwaysMeansTrace(g.tr, g.rq.outputs, leaf, store, g.Snapshot())
  {
    CollidingIsWellPosed(op);
    g := new GraphGenerator(CollidingTrace(op), CollidingRequest());
    var r := g.Generate();
    if Loaded(g.tr, leaf, store, g.Snapshot()) {
      CollidingParametersShareNode(op, leaf, store, g.Snapshot());
    }
  }

  // ----- a parameter meets a loopback input of its name

  function LoopbackTrace(op: Op): Trace {
    [Plain(None), Produced(op, "f", [0], []), Param(Some("w")), Produced(op, "g", [2], [])]
  }

  /** The input is called "w", is looped back, and is used in another subgraph than the parameter "w". */
  function LoopbackRequest(): Request {
    Request([1, 3], map[1 := "m", 3 := "m"], map[1 := 0, 3 := 1], [0], Some(["w"]), [], {"w"}, 1)
  }

  lemma LoopbackIsValid(op: Op)
    ensures ValidRequest(LoopbackTrace(op), LoopbackRequest())
    ensures forall t :: 0 <= t < 4 ==> Reachable(LoopbackTrace(op), [1, 3], t)
  {
    var tr := LoopbackTrace(op);
    assert Feeds(tr, 0, 1) && Feeds(tr, 2, 3);
    assert Reachable(tr, [1, 3], 1) && Reachable(tr, [1, 3], 3);
  }

  lemma LoopbackName(op: Op, t: Tensor, x: string)
    requires ValidRequest(LoopbackTrace(op), LoopbackRequest())
    requires CouldName(LoopbackTrace(op), LoopbackRequest(), t, x) && (t == 0 || t == 2)
    ensures x == "w"
  {
    assert IndexOf(LoopbackRequest().inputs, 0) == 0;
  }

  lemma LoopbackCouldName(op: Op)
    requires ValidRequest(LoopbackTrace(op), LoopbackRequest())
    ensures CouldName(LoopbackTrace(op), LoopbackRequest(), 0, "w")
    ensures CouldName(LoopbackTrace(op), LoopbackRequest(), 2, "w")
  {
    var tr, rq := LoopbackTrace(op), LoopbackRequest();
    LoopbackIsValid(op);
    assert Reachable(tr, rq.outputs, 1) && tr[1].opName == "f" && tr[1].operands[0] == 0;
    assert Reachable(tr, rq.outputs, 3) && tr[3].opName == "g" && tr[3].operands[0] == 2;
    assert UsedAs(tr, rq, 0, "f", 0) && UsedAs(tr, rq, 2, "g", 0);
    assert IndexOf(rq.inputs, 0) == 0;
  }

  lemma LoopbackRecordable(op: Op, t: Tensor, name: string)
    requires ValidRequest(LoopbackTrace(op), LoopbackRequest())
    ensures Recordable(LoopbackTrace(op), LoopbackRequest(), t, name) <==> (t == 0 || t == 2) && name == "w"
  {
    LoopbackCouldName(op);
    if Recordable(LoopbackTrace(op), LoopbackRequest(), t, name) {
      LoopbackName(op, t, name);
    }
  }

  lemma LoopbackIsSettled(op: Op, leaf: Tensor -> Value)
    requires ValidRequest(LoopbackTrace(op), LoopbackRequest())
    ensures NamesSettled(LoopbackTrace(op), LoopbackRequest())
    ensures NamesAgree(LoopbackTrace(op), LoopbackRequest(), leaf) <==> leaf(0) == leaf(2)
  {
    var tr, rq := LoopbackTrace(op), LoopbackRequest();
    forall t: Tensor, name
      ensures Recordable(tr, rq, t, name) <==> (t == 0 || t == 2) && name == "w"
    {
      LoopbackRecordable(op, t, name);
    }
    forall t: Tensor, name | (t == 0 || t == 2) && CouldName(tr, rq, t, name)
      ensures name == "w"
    {
      LoopbackName(op, t, name);
    }
    assert Recordable(tr, rq, 0, "w") && Recordable(tr, rq, 2, "w");
  }

  /** The parameter is loaded from the input's node, so the graph means the trace exactly when they are equal. */
  lemma LoopbackSharesNode(op: Op, leaf: Tensor -> Value, store: string -> Value, s: State)
    requires ValidRequest(LoopbackTrace(op), LoopbackRequest())
    requires Finished(LoopbackTrace(op), [1, 3], s) && NamesOk(LoopbackTrace(op), LoopbackRequest(), s)
    requires Loaded(LoopbackTrace(op), leaf, store, s)
    ensures AlwaysMeansTrace(LoopbackTrace(op), [1, 3], leaf, store, s) <==> leaf(0) == leaf(2)
  {
    LoopbackIsSettled(op, leaf);
    SettledNamesPreserveMeaningExactly(LoopbackTrace(op), LoopbackRequest(), leaf, store, s);
  }

  /** After f: its operand, the input, is queued behind the other output. */
  lemma LoopbackFirstTurn(op: Op) returns (s: State)
    requires ValidRequest(LoopbackTrace(op), LoopbackRequest())
    ensures TakesTurn(LoopbackTrace(op), LoopbackRequest(), Start(LoopbackTrace(op), LoopbackRequest(), 2), s)
    ensures s.nodes == [Output("m.output_f", 0), Output("m.output_g", 1), OpNode("f", 0, op)]
    ensures s.pending == [Pending(3, 1, 0, [], 1), Pending(0, 2, 0, [], 0)]
    ensures s.visited == map[1 := 2] && s.recorded == map[]
  {
    var tr, rq := LoopbackTrace(op), LoopbackRequest();
    var start := Start(tr, rq, 2);
    assert "m" + ".output_" + "f" == "m.output_f" && "m" + ".output_" + "g" == "m.output_g";
    assert |"m.output_f"| == |"m.output_g"| == 10 && |"f"| == 1;
    assert start.nodes == [Output("m.output_f", 0), Output("m.output_g", 1)];
    assert start.pending == [Pending(1, 0, 0, [], 0), Pending(3, 1, 0, [], 1)];
    s := OpAdded(tr, Pop(start), start.pending[0]);
    assert OperandEntries(tr[1], 2, 0, 1) == [Pending(0, 2, 0, [], 0)];
  }

  /** After g: the parameter is queued last. */
  lemma LoopbackSecondTurn(op: Op, s: State) returns (s': State)
    requires s.nodes == [Output("m.output_f", 0), Output("m.output_g", 1), OpNode("f", 0, op)]
    requires s.pending == [Pending(3, 1, 0, [], 1), Pending(0, 2, 0, [], 0)]
    requires s.visited == map[1 := 2] && s.recorded == map[]
    ensures TakesTurn(LoopbackTrace(op), LoopbackRequest(), s, s')
    ensures s'.nodes == s.nodes + [OpNode("g", 1, op)]
    ensures s'.pending == [Pending(0, 2, 0, [], 0), Pending(2, 3, 0, [], 1)]
    ensures s'.visited == map[1 := 2, 3 := 3] && s'.recorded == map[]
  {
    var tr := LoopbackTrace(op);
    assert |"m.output_f"| == |"m.output_g"| == 10 && |"g"| == 1 && "f"[0] != "g"[0];
    s' := OpAdded(tr, Pop(s), s.pending[0]);
    assert OperandEntries(tr[3], 3, 1, 1) == [Pending(2, 3, 0, [], 1)];
  }

  /** After the input: it has a parameter node, recorded as w. */
  lemma LoopbackThirdTurn(op: Op, s: State) returns (s': State)
    requires s.nodes == [Output("m.output_f", 0), Output("m.output_g", 1), OpNode("f", 0, op), OpNode("g", 1, op)]
    requires s.pending == [Pending(0, 2, 0, [], 0), Pending(2, 3, 0, [], 1)]
    requires s.visited == map[1 := 2, 3 := 3] && s.recorded == map[]
    ensures TakesTurn(LoopbackTrace(op), LoopbackRequest(), s, s')
    ensures s'.nodes == s.nodes + [ParameterInput("w", 0)]
    ensures s'.pending == [Pending(2, 3, 0, [], 1)]
    ensures 2 !in s'.visited && s'.recorded == map["w" := 4]
  {
    var tr, rq := LoopbackTrace(op), LoopbackRequest();
    assert |"m.output_f"| == |"m.output_g"| == 10 && |"w"| == 1 && "f"[0] != "w"[0] && "g"[0] != "w"[0];
    assert IndexOf(rq.inputs, 0) == 0;
    s' := PlainAdded(tr, rq, Pop(s), s.pending[0], "w");
  }

  /** The parameter is loaded from that node, and the queue is empty. */
  lemma LoopbackLastTurn(op: Op, s: State) returns (s': State)
    requires s.pending == [Pending(2, 3, 0, [], 1)] && 2 !in s.visited && s.recorded == map["w" := 4]
    requires |s.nodes| == 5 && s.nodes[4] == ParameterInput("w", 0)
    ensures TakesTurn(LoopbackTrace(op), LoopbackRequest(), s, s') && s'.pending == []
  {
    s' := AddEdge(Pop(s), EdgeFor(4, s.pending[0]));
  }

  lemma LoopbackRun(op: Op) returns (s: State)
    requires ValidRequest(LoopbackTrace(op), LoopbackRequest())
    ensures var tr, rq := LoopbackTrace(op), LoopbackRequest(); Leads(Turns(tr, rq), Start(tr, rq, 2), 4, s)
    ensures s.pending == []
  {
    var tr, rq := LoopbackTrace(op), LoopbackRequest();
    var s1 := LoopbackFirstTurn(op);
    var s2 := LoopbackSecondTurn(op, s1);
    var s3 := LoopbackThirdTurn(op, s2);
    s := LoopbackLastTurn(op, s3);
    FourSteps(Turns(tr, rq), Start(tr, rq, 2), s1, s2, s3, s);
  }

  lemma LoopbackIsStartable(op: Op)
    requires ValidRequest(LoopbackTrace(op), LoopbackRequest())
    ensures Startable(LoopbackTrace(op), LoopbackRequest())
  {
    var tr, rq := LoopbackTrace(op), LoopbackRequest();
    assert OutputName(tr, rq, 0) == "m" + ".output_" + "f" == "m.output_f";
    assert OutputName(tr, rq, 1) == "m" + ".output_" + "g" == "m.output_g";
    assert "m.output_f"[9] != "m.output_g"[9];
  }

  lemma LoopbackIsTranslatable(op: Op)
    ensures ValidRequest(LoopbackTrace(op), LoopbackRequest()) && Translatable(LoopbackTrace(op), LoopbackRequest())
  {
    LoopbackIsValid(op);
    LoopbackIsStartable(op);
    var s := LoopbackRun(op);
    assert Reaches(LoopbackTrace(op), LoopbackRequest(), 4, s);
    assert Translates(LoopbackTrace(op), LoopbackRequest(), s);
  }

  /** This request is translated without an error, too; its graph does not mean the trace. */
  method MergeLoopback(op: Op, leaf: Tensor -> Value, ghost store: string -> Value) returns (g: GraphGenerator)
    requires leaf(0) != leaf(2)
    ensures g.tr == LoopbackTrace(op) && g.rq == LoopbackRequest()
    ensures Acyclic(g.tr) && Finished(g.tr, g.rq.outputs, g.Snapshot())
    ensures Loaded(g.tr, leaf, store, g.Snapshot()) ==>
              !AlwaysMeansTrace(g.tr, g.rq.outputs, leaf, store, g.Snapshot())
  {
    LoopbackIsTranslatable(op);
    g := new GraphGenerator(LoopbackTrace(op), LoopbackRequest());
    var r := g.Generate();
    if Loaded(g.tr, leaf, store, g.Snapshot()) {
      LoopbackSharesNode(op, leaf, store, g.Snapshot());
    }
  }

  // ----- an input that is computed by the module that outputs it

  function ComputedInputTrace(op: Op): Trace { [Plain(None), Produced(op, "f", [0], [])] }

  /** The output of f is listed as the module's input too. */
  function ComputedInputRequest(): Request {
    Request([1], map[1 := "m"], map[], [1], None, [], {}, 1)
  }

  lemma ComputedInputIsValid(op: Op)
    ensures ValidRequest(ComputedInputTrace(op), ComputedInputRequest())
  {
  }

  ghost predicate ComputedInputName(o: Origin, name: string) {
    match o
    case OfTensor(t) => (t == 0 && name == "input_0_f") || (t == 1 && name == "f")
    case OfOutput(k) => k == 0 && name == "m.output_f"
    case OfNop(_) => false
  }

  lemma ComputedInputNames(op: Op, o: Origin, name: string)
    requires ValidRequest(ComputedInputTrace(op), ComputedInputRequest())
    requires Named(ComputedInputTrace(op), ComputedInputRequest(), o, name)
    ensures ComputedInputName(o, name)
  {
    var tr, rq := ComputedInputTrace(op), ComputedInputRequest();
    if o.OfTensor? {
      var c, p: nat :| UsedAs(tr, rq, o.t, c, p) && TensorName(tr, rq, o.t, c, p) == Some(name);
      if o.t == 0 {
        assert c == "f" && p == 0;
        assert Decimal.Render(0) == "0";
        assert "input_" + "0" + "_" + "f" == "input_0_f";
      }
    } else if o.OfOutput? {
      assert "m" + ".output_" + "f" == "m.output_f";
    }
  }

  lemma ComputedInputIsWellPosed(op: Op)
    ensures ValidRequest(ComputedInputTrace(op), ComputedInputRequest())
    ensures WellPosed(ComputedInputTrace(op), ComputedInputRequest())
  {
    var tr, rq := ComputedInputTrace(op), ComputedInputRequest();
    ComputedInputIsValid(op);
    forall name
      ensures !Clash(tr, rq, name)
    {
      forall a, b | Named(tr, rq, a, name) && Named(tr, rq, b, name)
        ensures a == b
      {
        ComputedInputNames(op, a, name);
        ComputedInputNames(op, b, name);
        assert |"input_0_f"| == 9 && |"f"| == 1 && |"m.output_f"| == 10;
      }
    }
  }

  /** The translation succeeds, and the caller must feed one input more than the graph has input nodes in its list. */
  method KeepComputedInput(op: Op) returns (r: Result<Registered, Error>)
    ensures r.Ok? && |r.value.keptInputs| > |r.value.inputs|
  {
    ComputedInputIsWellPosed(op);
    var g := new GraphGenerator(ComputedInputTrace(op), ComputedInputRequest());
    r := g.Generate();
    assert 1 in g.rq.inputs && 1 in g.rq.outputs && !g.tr[1].Plain?;
    assert !SharedAreLeaves(g.tr, g.rq);
  }
}
