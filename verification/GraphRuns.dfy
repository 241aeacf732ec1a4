/** Which requests `generate_graph` can translate, exactly: those on which the turns of its worklist empty the queue. */
module GraphRuns {
  import opened Wrappers
  import opened Trace
  import opened DataflowGraph
  import opened GraphInvariant
  import opened GraphMeaning
  import opened GraphNames
  import opened GraphTurns
  import opened Runs

  ghost function OutputNodes(tr: Trace, rq: Request, k: nat): seq<Node>
    requires ValidRequest(tr, rq) && k <= |rq.outputs|
  {
    seq(k, i requires 0 <= i < k => OutputNode(tr, rq, i))
  }

  /** The entry that asks for an output's tensor. */
  ghost function OutputEntry(rq: Request, i: nat): Pending
    requires i < |rq.outputs|
  {
    Pending(rq.outputs[i], i, 0, [], SubgraphOf(rq, rq.outputs[i]))
  }

  /** The graph and the queue after the first k outputs. */
  ghost function Start(tr: Trace, rq: Request, k: nat): State
    requires ValidRequest(tr, rq) && k <= |rq.outputs|
  {
    State(OutputNodes(tr, rq, k), [], map[], map[], seq(k, i requires 0 <= i < k => OutputEntry(rq, i)),
          seq(k, i requires 0 <= i < k => OutputFor(rq.outputs[i])), map[])
  }

  /** Every output can be given a node. */
  ghost predicate Startable(tr: Trace, rq: Request)
    requires ValidRequest(tr, rq)
  {
    && OutputsTraced(tr, rq)
    && forall i, j :: 0 <= i < j < |rq.outputs| ==> OutputName(tr, rq, i) != OutputName(tr, rq, j)
  }

  ghost predicate TakesTurn(tr: Trace, rq: Request, s: State, s': State) {
    && s.pending != [] && s.pending[0].tensor < |tr| && s.pending[0].consumer < |s.nodes|
    && Turn(tr, rq, Pop(s), s', s.pending[0])
  }

  /** One turn of the worklist. */
  ghost function Turns(tr: Trace, rq: Request): (State, State) -> bool {
    (s, s') => TakesTurn(tr, rq, s, s')
  }

  /** The outputs can be placed, and the turns that follow lead to s, with nothing left in the queue. */
  ghost predicate Reaches(tr: Trace, rq: Request, n: nat, s: State)
    requires ValidRequest(tr, rq)
  {
    Startable(tr, rq) && Leads(Turns(tr, rq), Start(tr, rq, |rq.outputs|), n, s) && s.pending == []
  }

  /** Turns of the worklist lead to s and leave nothing queued. */
  ghost predicate Empties(tr: Trace, rq: Request, s: State)
    requires ValidRequest(tr, rq)
  {
    exists n :: Reaches(tr, rq, n, s)
  }

  /** The request is translated into s. */
  ghost predicate Translates(tr: Trace, rq: Request, s: State)
    requires ValidRequest(tr, rq)
  {
    TargetsRegistrable(tr, rq) && Empties(tr, rq, s)
  }

  // ----- turns are deterministic, so one refused turn excludes every translation

  lemma TurnIsUnique(tr: Trace, rq: Request, s: State, a: State, b: State)
    requires TakesTurn(tr, rq, s, a) && TakesTurn(tr, rq, s, b)
    ensures a == b
  {
  }

  /** A turn of the code is a step of the run. */
  lemma TurnsAreDeterministic(tr: Trace, rq: Request)
    ensures Deterministic(Turns(tr, rq))
  {
    forall s, a, b | Turns(tr, rq)(s, a) && Turns(tr, rq)(s, b)
      ensures a == b
    {
      TurnIsUnique(tr, rq, s, a, b);
    }
  }

  /** The next turn is refused. */
  ghost predicate FirstRefused(tr: Trace, rq: Request, s: State, err: Error) {
    && s.pending != [] && s.pending[0].tensor < |tr| && s.pending[0].consumer < |s.nodes|
    && Refused(tr, rq, Pop(s), s.pending[0], err)
  }

  lemma RefusedIsFinal(tr: Trace, rq: Request, s: State, err: Error)
    requires FirstRefused(tr, rq, s, err)
    ensures Final(Turns(tr, rq), s)
  {
  }

  lemma DoneIsFinal(tr: Trace, rq: Request, s: State)
    requires s.pending == []
    ensures Final(Turns(tr, rq), s)
  {
  }

  /** A request has at most one translation. */
  lemma TranslationIsUnique(tr: Trace, rq: Request, a: State, b: State)
    requires ValidRequest(tr, rq) && Translates(tr, rq, a) && Translates(tr, rq, b)
    ensures a == b
  {
    var n :| Reaches(tr, rq, n, a);
    var n' :| Reaches(tr, rq, n', b);
    TurnsAreDeterministic(tr, rq);
    DoneIsFinal(tr, rq, a);
    DoneIsFinal(tr, rq, b);
    EndIsUnique(Turns(tr, rq), Start(tr, rq, |rq.outputs|), n, a, n', b);
  }

  /** Among these states is one whose next turn is refused for this reason. */
  ghost predicate Fails(tr: Trace, rq: Request, states: State -> bool, err: Error) {
    exists s :: states(s) && FirstRefused(tr, rq, s, err)
  }

  lemma TakenIsNearer(tr: Trace, rq: Request, s: State, s': State)
    requires LoopOk(tr, rq, s) && TakesTurn(tr, rq, s, s')
    ensures LoopOk(tr, rq, s') && Nearer(tr, s, s')
  {
    TurnIsNearer(tr, rq, s, s');
  }

  lemma TurnPreserves(tr: Trace, rq: Request, inv: State -> bool, s: State, s': State)
    requires inv(s) && Preserved(Turns(tr, rq), inv) && TakesTurn(tr, rq, s, s')
    ensures inv(s')
  {
    assert Turns(tr, rq)(s, s');
  }

  /** The states that the worklist goes through. */
  ghost function OnRun(tr: Trace, rq: Request): State -> bool
    requires ValidRequest(tr, rq)
  {
    s => LoopOk(tr, rq, s) && From(Turns(tr, rq), Start(tr, rq, |rq.outputs|))(s)
  }

  ghost predicate Translatable(tr: Trace, rq: Request)
    requires ValidRequest(tr, rq)
  {
    exists s :: Translates(tr, rq, s)
  }

  lemma TurnStaysOnRun(tr: Trace, rq: Request, s: State, s': State)
    requires ValidRequest(tr, rq) && OnRun(tr, rq)(s) && TakesTurn(tr, rq, s, s')
    ensures OnRun(tr, rq)(s')
  {
    FromIsPreserved(Turns(tr, rq), Start(tr, rq, |rq.outputs|));
    assert Turns(tr, rq)(s, s');
    TurnKeepsLoop(tr, rq, s, s');
  }

  lemma OnRunIsPreserved(tr: Trace, rq: Request)
    requires ValidRequest(tr, rq)
    ensures Preserved(Turns(tr, rq), OnRun(tr, rq))
  {
    forall s, s' | OnRun(tr, rq)(s) && Turns(tr, rq)(s, s')
      ensures OnRun(tr, rq)(s')
    {
      TurnStaysOnRun(tr, rq, s, s');
    }
  }

  lemma RunStarts(tr: Trace, rq: Request, s: State)
    requires ValidRequest(tr, rq) && s == Start(tr, rq, |rq.outputs|) && LoopOk(tr, rq, s)
    ensures OnRun(tr, rq)(s) && Preserved(Turns(tr, rq), OnRun(tr, rq))
  {
    FromIsPreserved(Turns(tr, rq), s);
    OnRunIsPreserved(tr, rq);
  }

  lemma DoneIsReached(tr: Trace, rq: Request, s: State)
    requires ValidRequest(tr, rq) && Startable(tr, rq) && OnRun(tr, rq)(s) && s.pending == []
    ensures Empties(tr, rq, s)
  {
    assert From(Turns(tr, rq), Start(tr, rq, |rq.outputs|))(s);
    var n :| Leads(Turns(tr, rq), Start(tr, rq, |rq.outputs|), n, s);
    assert Reaches(tr, rq, n, s);
  }

  lemma FailureIsNotTranslatable(tr: Trace, rq: Request, err: Error)
    requires ValidRequest(tr, rq) && Fails(tr, rq, OnRun(tr, rq), err)
    ensures !Translatable(tr, rq)
  {
    var start := Start(tr, rq, |rq.outputs|);
    var a :| OnRun(tr, rq)(a) && FirstRefused(tr, rq, a, err);
    assert From(Turns(tr, rq), start)(a);
    var n :| Leads(Turns(tr, rq), start, n, a);
    if Translatable(tr, rq) {
      var s :| Translates(tr, rq, s);
      var n' :| Reaches(tr, rq, n', s);
      TurnsAreDeterministic(tr, rq);
      RefusedIsFinal(tr, rq, a, err);
      DoneIsFinal(tr, rq, s);
      EndIsUnique(Turns(tr, rq), start, n, a, n', s);
    }
  }

  /** Wherever the loop fails, the request is at fault. */
  lemma FailureIsExplained(tr: Trace, rq: Request, err: Error)
    requires ValidRequest(tr, rq) && Fails(tr, rq, OnRun(tr, rq), err)
    ensures Explained(tr, rq, err)
  {
    var a :| OnRun(tr, rq)(a) && FirstRefused(tr, rq, a, err);
    FirstIsReady(tr, rq, a);
    RefusedIsExplained(tr, rq, Pop(a), a.pending[0], err);
  }

  /** What the end of the loop says about the request. */
  lemma RunEnds(tr: Trace, rq: Request, s: State, r: Result<(), Error>)
    requires ValidRequest(tr, rq) && Startable(tr, rq)
    requires if r.Ok? then OnRun(tr, rq)(s) && s.pending == [] else Fails(tr, rq, OnRun(tr, rq), r.error)
    ensures r.Ok? ==> Empties(tr, rq, s)
    ensures r.Err? ==> Explained(tr, rq, r.error) && !Translatable(tr, rq)
  {
    if r.Ok? {
      DoneIsReached(tr, rq, s);
    } else {
      FailureIsExplained(tr, rq, r.error);
      FailureIsNotTranslatable(tr, rq, r.error);
    }
  }

  // ----- placing the outputs

  lemma StartNext(tr: Trace, rq: Request, k: nat)
    requires ValidRequest(tr, rq) && k < |rq.outputs|
    ensures Start(tr, rq, k + 1) == OutputAdded(Start(tr, rq, k), rq.outputs[k], OutputNode(tr, rq, k))
  {
    var s := Start(tr, rq, k);
    assert OutputNodes(tr, rq, k + 1) == s.nodes + [OutputNode(tr, rq, k)];
    assert Start(tr, rq, k + 1).pending == s.pending + [OutputEntry(rq, k)];
    assert Start(tr, rq, k + 1).roles == s.roles + [OutputFor(rq.outputs[k])];
  }

  /** Output k is refused a node. */
  ghost predicate CannotPlace(tr: Trace, rq: Request, k: nat, err: Error)
    requires ValidRequest(tr, rq)
  {
    && k < |rq.outputs| && OutputsPlaced(tr, rq, Start(tr, rq, k), k)
    && var t := rq.outputs[k];
       assert t in rq.outputs;
       if HasSource(tr[t]) || t in rq.inputs then
         !NameFree(Start(tr, rq, k), OutputName(tr, rq, k)) && err == NameTaken(OutputName(tr, rq, k))
       else err == UntracedOutput(t)
  }

  /** When some output is refused a node, the request is at fault. */
  lemma NotPlacedIsExplained(tr: Trace, rq: Request, k: nat, err: Error)
    requires ValidRequest(tr, rq) && CannotPlace(tr, rq, k, err)
    ensures Explained(tr, rq, err) && !Startable(tr, rq)
  {
    var s := Start(tr, rq, k);
    assert rq.outputs[k] in rq.outputs;
    if err.NameTaken? {
      OutputTakenIsExplained(tr, rq, s, k);
      var n :| 0 <= n < |s.nodes| && s.nodes[n].name == OutputName(tr, rq, k);
      assert OutputName(tr, rq, n) == OutputName(tr, rq, k);
    }
  }

  lemma NotStartableIsNotTranslatable(tr: Trace, rq: Request)
    requires ValidRequest(tr, rq) && !Startable(tr, rq)
    ensures !Translatable(tr, rq)
  {
  }

  lemma PlacedIsStartable(tr: Trace, rq: Request)
    requires ValidRequest(tr, rq) && OutputsTraced(tr, rq)
    requires OutputsPlaced(tr, rq, Start(tr, rq, |rq.outputs|), |rq.outputs|)
    ensures Startable(tr, rq)
  {
    var s := Start(tr, rq, |rq.outputs|);
    forall i, j | 0 <= i < j < |rq.outputs|
      ensures OutputName(tr, rq, i) != OutputName(tr, rq, j)
    {
      assert s.nodes[i].name != s.nodes[j].name;
    }
  }

  // ----- what a translation is

  lemma NextIsPlaced(tr: Trace, rq: Request, k: nat)
    requires ValidRequest(tr, rq) && k < |rq.outputs| && OutputsPlaced(tr, rq, Start(tr, rq, k), k)
    requires NameFree(Start(tr, rq, k), OutputName(tr, rq, k))
    ensures OutputsPlaced(tr, rq, Start(tr, rq, k + 1), k + 1)
  {
    OutputPlacedNext(tr, rq, Start(tr, rq, k), k);
    StartNext(tr, rq, k);
  }

  lemma {:induction false} StartIsPlaced(tr: Trace, rq: Request, k: nat)
    requires ValidRequest(tr, rq) && Startable(tr, rq) && k <= |rq.outputs|
    ensures OutputsPlaced(tr, rq, Start(tr, rq, k), k)
  {
    if k == 0 {
      StartOk(tr, rq);
      assert Start(tr, rq, 0) == State([], [], map[], map[], [], [], map[]);
    } else {
      StartIsPlaced(tr, rq, k - 1);
      NextIsPlaced(tr, rq, k - 1);
    }
  }

  lemma ReachedKeepsLoop(tr: Trace, rq: Request, n: nat, s: State)
    requires ValidRequest(tr, rq) && Reaches(tr, rq, n, s)
    ensures LoopOk(tr, rq, s) && s.pending == []
  {
    var start := Start(tr, rq, |rq.outputs|);
    StartIsPlaced(tr, rq, |rq.outputs|);
    OutputsStartLoop(tr, rq, start);
    RunStarts(tr, rq, start);
    PreservedAlong(Turns(tr, rq), OnRun(tr, rq), start, n, s);
  }

  lemma DoneIsFinished(tr: Trace, rq: Request, s: State)
    requires LoopOk(tr, rq, s) && s.pending == []
    ensures Finished(tr, rq.outputs, s) && NamesOk(tr, rq, s)
  {
  }

  /** A translation is finished: everything proved of finished graphs holds of it. */
  lemma TranslationIsFinished(tr: Trace, rq: Request, s: State)
    requires ValidRequest(tr, rq) && Translates(tr, rq, s)
    ensures Finished(tr, rq.outputs, s) && NamesOk(tr, rq, s)
  {
    var n :| Reaches(tr, rq, n, s);
    ReachedKeepsLoop(tr, rq, n, s);
    DoneIsFinished(tr, rq, s);
  }
}
