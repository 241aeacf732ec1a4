/** The body of the generated `forward`, and its meaning when reading a dropped tensor is an error. */
module GeneratedForward {
  import opened Wrappers
  import opened CodeGeneration
  import Decimal

  datatype Ref = GetParameter(name: Name) | GetConstant(name: Name) | Local(name: Name)

  datatype Line =
    | Def(activations: seq<Name>)
    | Assign(target: Name, callee: string, operands: seq<Ref>, args: ArgumentText)
    | Free(name: Name)
    | Return(names: seq<Name>)

  // ----- the writer

  function Resolve(parameters: set<Name>, constants: set<Name>, name: Name): Ref {
    if name in parameters then GetParameter(name) else if name in constants then GetConstant(name) else Local(name)
  }

  function ResolveAll(parameters: set<Name>, constants: set<Name>, names: seq<Name>): (refs: seq<Ref>)
    ensures |refs| == |names|
    ensures forall i :: 0 <= i < |names| ==> refs[i] == Resolve(parameters, constants, names[i])
  {
    seq(|names|, i requires 0 <= i < |names| => Resolve(parameters, constants, names[i]))
  }

  function Frees(names: seq<Name>): (lines: seq<Line>)
    ensures |lines| == |names| && forall i :: 0 <= i < |names| ==> lines[i] == Free(names[i])
  {
    seq(|names|, i requires 0 <= i < |names| => Free(names[i]))
  }

  /** One operation's lines: the call, then what it lets go. */
  function Block(parameters: set<Name>, constants: set<Name>, sig: Signature, deleted: seq<Name>): seq<Line> {
    [Assign(sig.output, sig.callee, ResolveAll(parameters, constants, sig.inputs), sig.args)] + Frees(deleted)
  }

  /** The body from operation k on. */
  ghost function Body(parameters: set<Name>, constants: set<Name>, sigs: seq<Signature>, returned: seq<Name>,
                      deleting: bool, k: nat): seq<Line>
    requires k <= |sigs|
    decreases |sigs| - k
  {
    if k == |sigs| then [Return(returned)]
    else Block(parameters, constants, sigs[k], if deleting then Deletions(sigs, returned, k) else []) +
         Body(parameters, constants, sigs, returned, deleting, k + 1)
  }

  lemma Regroup(a: seq<Line>, b: seq<Line>, c: seq<Line>)
    ensures a + (b + c) == a + b + c
  {
  }

  class ForgeWriter {
    const parameters: set<Name>
    const constants: set<Name>
    const deleteInputs: bool
    var lines: seq<Line>

    constructor (parameters: set<Name>, constants: set<Name>, deleteInputs: bool)
      ensures this.parameters == parameters && this.constants == constants && this.deleteInputs == deleteInputs
      ensures lines == []
    {
      this.parameters, this.constants, this.deleteInputs, lines := parameters, constants, deleteInputs, [];
    }

    method GetOpInputNames(op: Operation) returns (refs: seq<Ref>)
      ensures refs == ResolveAll(parameters, constants, op.sig.inputs)
      ensures |refs| == |op.sig.inputs| && forall i :: 0 <= i < |refs| ==>
                var x := op.sig.inputs[i];
                && (x in parameters ==> refs[i] == GetParameter(x))
                && (x !in parameters && x in constants ==> refs[i] == GetConstant(x))
                && (x !in parameters && x !in constants ==> refs[i] == Local(x))
    {
      refs := [];
      for i := 0 to |op.sig.inputs|
        invariant refs == ResolveAll(parameters, constants, op.sig.inputs[..i])
      {
        var name := op.sig.inputs[i];
        if name in parameters {
          refs := refs + [GetParameter(name)];
        } else if name in constants {
          refs := refs + [GetConstant(name)];
        } else {
          refs := refs + [Local(name)];
        }
      }
      assert op.sig.inputs[..|op.sig.inputs|] == op.sig.inputs;
    }

    method WriteOperation(op: Operation)
      modifies this`lines
      ensures lines == old(lines) +
                Block(parameters, constants, op.sig, if deleteInputs then op.inputsToDelete else [])
    {
      var operands := GetOpInputNames(op);
      lines := lines + [Assign(op.sig.output, op.sig.callee, operands, op.sig.args)];
      if deleteInputs {
        ghost var start := lines;
        for i := 0 to |op.inputsToDelete|
          invariant lines == start + Frees(op.inputsToDelete[..i])
        {
          lines := lines + [Free(op.inputsToDelete[i])];
        }
        assert op.inputsToDelete[..|op.inputsToDelete|] == op.inputsToDelete;
      }
    }

    /** `activations` are the graph inputs in order of their index. */
    method WriteForward(ops: seq<Operation>, activations: seq<Name>, returned: seq<Name>)
      requires forall k :: 0 <= k < |ops| ==> ops[k].inputsToDelete == Deletions(Signatures(ops), returned, k)
      modifies this`lines
      ensures lines == old(lines) + [Def(activations)] +
                Body(parameters, constants, Signatures(ops), returned, deleteInputs, 0)
    {
      ghost var sigs := Signatures(ops);
      lines := lines + [Def(activations)];
      ghost var start := lines;
      for k := 0 to |ops|
        invariant lines + Body(parameters, constants, sigs, returned, deleteInputs, k) ==
                  start + Body(parameters, constants, sigs, returned, deleteInputs, 0)
      {
        ghost var before := lines;
        WriteOperation(ops[k]);
        ghost var dead := if deleteInputs then Deletions(sigs, returned, k) else [];
        ghost var block := Block(parameters, constants, sigs[k], dead);
        ghost var rest := Body(parameters, constants, sigs, returned, deleteInputs, k + 1);
        assert Body(parameters, constants, sigs, returned, deleteInputs, k) == block + rest;
        Regroup(before, block, rest);
      }
      lines := lines + [Return(returned)];
    }
  }

  /** Reference counting followed by writing, as one module is compiled. */
  method EmitForward(writer: ForgeWriter, ops: seq<Operation>, activations: seq<Name>, returned: seq<Name>)
    requires forall i, k :: 0 <= i < k < |ops| ==> ops[i] != ops[k]
    requires forall k :: 0 <= k < |ops| ==> ops[k].inputsToDelete == []
    modifies writer`lines, ops`inputsToDelete
    ensures writer.lines == old(writer.lines) + [Def(activations)] +
              Body(writer.parameters, writer.constants, Signatures(ops), returned, writer.deleteInputs, 0)
  {
    DeleteUnneededOutputs(ops, returned);
    writer.WriteForward(ops, activations, returned);
  }

  // ----- what the emitted lines mean

  /** The tensor behind a name: dropped tensors have no value left. */
  datatype Cell = Live(value: Value) | Freed

  datatype Module = Module(
    apply: (string, ArgumentText, seq<Value>) -> Value,
    parameter: Name -> Value, constant: Name -> Value)

  /** Why a program stops: it reads a dropped tensor or an undefined name, or it does not return. */
  datatype Fault = Dropped(name: Name) | Undefined(name: Name) | NoReturn

  ghost function Read(m: Module, env: map<Name, Cell>, r: Ref): Result<Value, Fault> {
    match r
    case GetParameter(x) => Ok(m.parameter(x))
    case GetConstant(x) => Ok(m.constant(x))
    case Local(x) =>
      if x !in env then Err(Undefined(x)) else if env[x].Live? then Ok(env[x].value) else Err(Dropped(x))
  }

  ghost function ReadAll(m: Module, env: map<Name, Cell>, rs: seq<Ref>): Result<seq<Value>, Fault> {
    if rs == [] then Ok([])
    else
      var head, tail := Read(m, env, rs[0]), ReadAll(m, env, rs[1..]);
      if head.Err? then Err(head.error) else if tail.Err? then Err(tail.error) else Ok([head.value] + tail.value)
  }

  function Locals(names: seq<Name>): (refs: seq<Ref>)
    ensures |refs| == |names| && forall i :: 0 <= i < |names| ==> refs[i] == Local(names[i])
  {
    seq(|names|, i requires 0 <= i < |names| => Local(names[i]))
  }

  /** The returned values, or the fault that stops the program. Dropping keeps the name defined. */
  ghost function Run(m: Module, env: map<Name, Cell>, lines: seq<Line>): Result<seq<Value>, Fault>
    decreases |lines|
  {
    if lines == [] then Err(NoReturn)
    else
      match lines[0]
      case Def(_) => Err(NoReturn)
      case Assign(x, callee, operands, args) =>
        var vs := ReadAll(m, env, operands);
        if vs.Err? then Err(vs.error) else Run(m, env[x := Live(m.apply(callee, args, vs.value))], lines[1..])
      case Free(x) => if x in env then Run(m, env[x := Freed], lines[1..]) else Err(Undefined(x))
      case Return(names) => ReadAll(m, env, Locals(names))
  }

  ghost function Bind(names: seq<Name>, args: seq<Value>): map<Name, Cell>
    requires |names| == |args|
  {
    if names == [] then map[]
    else
      var n := |names| - 1;
      Bind(names[..n], args[..n])[names[n] := Live(args[n])]
  }

  /** Calling the generated method: its header binds the activations to the arguments by position. */
  ghost function Call(m: Module, lines: seq<Line>, args: seq<Value>): Result<seq<Value>, Fault> {
    if lines != [] && lines[0].Def? && |lines[0].activations| == |args| then
      Run(m, Bind(lines[0].activations, args), lines[1..])
    else Err(NoReturn)
  }

  // ----- dropping changes nothing

  /** Every operand that is some operation's output is the output of an earlier one. */
  ghost predicate Topological(sigs: seq<Signature>) {
    forall k, j :: 0 <= k < |sigs| && 0 <= j < |sigs[k].inputs| && sigs[k].inputs[j] in Outputs(sigs) ==>
      sigs[k].inputs[j] in Outputs(sigs[..k])
  }

  /** Names that operation k or a later one reads, or that are returned. */
  ghost predicate Needed(sigs: seq<Signature>, returned: seq<Name>, k: nat, x: Name)
    requires k <= |sigs|
  {
    x in returned || x in ReadsFrom(sigs, k)
  }

  /** Both environments define the same names, and agree on the needed ones. */
  ghost predicate Agree(sigs: seq<Signature>, returned: seq<Name>, k: nat, env: map<Name, Cell>,
                        env': map<Name, Cell>)
    requires k <= |sigs|
  {
    && env.Keys == env'.Keys
    && Outputs(sigs[..k]) <= env.Keys
    && (forall x :: x in env && Needed(sigs, returned, k, x) ==> env'[x] == env[x])
  }

  lemma {:induction false} SameReads(m: Module, env: map<Name, Cell>, env': map<Name, Cell>, rs: seq<Ref>)
    requires env.Keys == env'.Keys
    requires forall i :: 0 <= i < |rs| && rs[i].Local? && rs[i].name in env ==> env'[rs[i].name] == env[rs[i].name]
    ensures ReadAll(m, env, rs) == ReadAll(m, env', rs)
  {
    if rs != [] {
      SameReads(m, env, env', rs[1..]);
    }
  }

  ghost function AfterFrees(env: map<Name, Cell>, names: seq<Name>): (r: map<Name, Cell>)
    ensures forall x :: x in r <==> x in env || x in names
    ensures forall x :: x in r ==> r[x] == if x in names then Freed else env[x]
    decreases |names|
  {
    if names == [] then env else AfterFrees(env[names[0] := Freed], names[1..])
  }

  /** A run of frees marks exactly the named tensors. */
  lemma {:induction false} RunFrees(m: Module, env: map<Name, Cell>, names: seq<Name>, rest: seq<Line>)
    requires forall i :: 0 <= i < |names| ==> names[i] in env
    ensures Run(m, env, Frees(names) + rest) == Run(m, AfterFrees(env, names), rest)
    decreases |names|
  {
    if names == [] {
      assert Frees(names) + rest == rest;
    } else {
      var lines := Frees(names) + rest;
      assert lines[0] == Free(names[0]) && lines[1..] == Frees(names[1..]) + rest;
      RunFrees(m, env[names[0] := Freed], names[1..], rest);
    }
  }

  lemma {:induction false} DyingNames(sigs: seq<Signature>, returned: seq<Name>, k: nat, j: nat)
    requires k < |sigs| && j <= |sigs[k].inputs|
    ensures forall x :: x in Dying(sigs, returned, k, j) ==>
              && x in Outputs(sigs) && x in sigs[k].inputs && !Needed(sigs, returned, k + 1, x)
  {
    if j > 0 {
      DyingNames(sigs, returned, k, j - 1);
    }
  }

  lemma NeededBefore(sigs: seq<Signature>, returned: seq<Name>, k: nat, x: Name)
    requires k < |sigs| && Needed(sigs, returned, k + 1, x)
    ensures Needed(sigs, returned, k, x)
  {
  }

  /** A name that is not dropped keeps its tensor. */
  lemma KeptByFrees(env: map<Name, Cell>, env': map<Name, Cell>, out: Name, v: Cell, dead: seq<Name>, x: Name)
    requires x in env[out := v] && x !in dead
    requires x != out ==> x in env' && env'[x] == env[x]
    ensures x in AfterFrees(env'[out := v], dead) && AfterFrees(env'[out := v], dead)[x] == env[out := v][x]
  {
  }

  lemma AgreeNext(sigs: seq<Signature>, returned: seq<Name>, k: nat,
                  env: map<Name, Cell>, env': map<Name, Cell>, v: Cell)
    requires k < |sigs| && Agree(sigs, returned, k, env, env')
    requires forall i :: 0 <= i < |Deletions(sigs, returned, k)| ==> Deletions(sigs, returned, k)[i] in env'
    requires forall x :: x in Deletions(sigs, returned, k) ==> !Needed(sigs, returned, k + 1, x)
    ensures Agree(sigs, returned, k + 1, env[sigs[k].output := v],
                  AfterFrees(env'[sigs[k].output := v], Deletions(sigs, returned, k)))
  {
    var out, dead := sigs[k].output, Deletions(sigs, returned, k);
    var after, after' := env[out := v], AfterFrees(env'[out := v], dead);
    OutputsNext(sigs, k);
    assert after.Keys == after'.Keys;
    forall x | x in after && Needed(sigs, returned, k + 1, x)
      ensures after'[x] == after[x]
    {
      NeededBefore(sigs, returned, k, x);
      KeptByFrees(env, env', out, v, dead, x);
    }
  }

  lemma RunBlock(m: Module, env: map<Name, Cell>, parameters: set<Name>, constants: set<Name>,
                 sig: Signature, dead: seq<Name>, rest: seq<Line>)
    ensures var vs := ReadAll(m, env, ResolveAll(parameters, constants, sig.inputs));
            Run(m, env, Block(parameters, constants, sig, dead) + rest) ==
            if vs.Err? then Err(vs.error)
            else Run(m, env[sig.output := Live(m.apply(sig.callee, sig.args, vs.value))], Frees(dead) + rest)
  {
    var lines := Block(parameters, constants, sig, dead) + rest;
    assert lines[1..] == Frees(dead) + rest;
  }

  lemma DeadAreDefined(sigs: seq<Signature>, returned: seq<Name>, k: nat, env: map<Name, Cell>)
    requires Topological(sigs) && k < |sigs|
    requires Outputs(sigs[..k]) <= env.Keys
    ensures forall i :: 0 <= i < |Deletions(sigs, returned, k)| ==> Deletions(sigs, returned, k)[i] in env
  {
    DyingNames(sigs, returned, k, |sigs[k].inputs|);
    forall x | x in Deletions(sigs, returned, k)
      ensures x in env
    {
      var j :| 0 <= j < |sigs[k].inputs| && sigs[k].inputs[j] == x;
      assert sigs[k].inputs[j] in Outputs(sigs[..k]);
    }
  }

  lemma {:induction false} SimulateFrom(m: Module, parameters: set<Name>, constants: set<Name>,
                                        sigs: seq<Signature>, returned: seq<Name>, k: nat,
                                        env: map<Name, Cell>, env': map<Name, Cell>)
    requires Topological(sigs) && k <= |sigs| && Agree(sigs, returned, k, env, env')
    ensures Run(m, env', Body(parameters, constants, sigs, returned, true, k)) ==
            Run(m, env, Body(parameters, constants, sigs, returned, false, k))
    decreases |sigs| - k
  {
    if k == |sigs| {
      SameReads(m, env, env', Locals(returned));
    } else {
      var sig, dead := sigs[k], Deletions(sigs, returned, k);
      var operands := ResolveAll(parameters, constants, sig.inputs);
      var rest, rest' := Body(parameters, constants, sigs, returned, false, k + 1),
                         Body(parameters, constants, sigs, returned, true, k + 1);
      SameReads(m, env, env', operands);
      var vs := ReadAll(m, env, operands);
      RunBlock(m, env, parameters, constants, sig, [], rest);
      RunBlock(m, env', parameters, constants, sig, dead, rest');
      if vs.Ok? {
        var v := Live(m.apply(sig.callee, sig.args, vs.value));
        DyingNames(sigs, returned, k, |sig.inputs|);
        DeadAreDefined(sigs, returned, k, env');
        RunFrees(m, env'[sig.output := v], dead, rest');
        RunFrees(m, env[sig.output := v], [], rest);
        AgreeNext(sigs, returned, k, env, env', v);
        SimulateFrom(m, parameters, constants, sigs, returned, k + 1, env[sig.output := v],
                     AfterFrees(env'[sig.output := v], dead));
      }
    }
  }

  /**
   Whatever the operations and the activations mean, the program that drops
   intermediates returns what the program that drops nothing returns, or stops with the same fault.
   */
  lemma DroppingPreservesMeaning(m: Module, parameters: set<Name>, constants: set<Name>,
                                 sigs: seq<Signature>, returned: seq<Name>, env: map<Name, Cell>)
    requires Topological(sigs)
    ensures Run(m, env, Body(parameters, constants, sigs, returned, true, 0)) ==
            Run(m, env, Body(parameters, constants, sigs, returned, false, 0))
  {
    SimulateFrom(m, parameters, constants, sigs, returned, 0, env, env);
  }

  // ----- no fault

  ghost predicate AllLive(env: map<Name, Cell>) {
    forall x :: x in env ==> env[x].Live?
  }

  lemma {:induction false} LiveReads(m: Module, env: map<Name, Cell>, rs: seq<Ref>)
    requires AllLive(env)
    ensures ReadAll(m, env, rs).Err? ==> !ReadAll(m, env, rs).error.Dropped?
    ensures ReadAll(m, env, rs).Ok? <==> forall i :: 0 <= i < |rs| && rs[i].Local? ==> rs[i].name in env
  {
    if rs != [] {
      LiveReads(m, env, rs[1..]);
    }
  }

  /** What is still to be read by name is an operation's output or defined already. */
  ghost predicate NamesDefined(parameters: set<Name>, constants: set<Name>, sigs: seq<Signature>,
                               returned: seq<Name>, known: set<Name>)
  {
    && (forall k, j :: 0 <= k < |sigs| && 0 <= j < |sigs[k].inputs| ==>
          var x := sigs[k].inputs[j];
          x in parameters || x in constants || Intermediate(sigs, x) || x in known)
    && (forall x :: x in returned ==> Intermediate(sigs, x) || x in known)
  }

  /** Every returned name is defined at the end. */
  lemma ReturnedFound(m: Module, parameters: set<Name>, constants: set<Name>, sigs: seq<Signature>,
                      returned: seq<Name>, env: map<Name, Cell>)
    requires AllLive(env) && NamesDefined(parameters, constants, sigs, returned, env.Keys) && Outputs(sigs) <= env.Keys
    ensures ReadAll(m, env, Locals(returned)).Ok?
  {
    forall i | 0 <= i < |returned|
      ensures returned[i] in env
    {
      assert returned[i] in returned;
      OutputsExactly(sigs, returned[i]);
    }
    LiveReads(m, env, Locals(returned));
  }

  /** Operation k finds all its operands. */
  lemma OperandsFound(m: Module, parameters: set<Name>, constants: set<Name>, sigs: seq<Signature>,
                      returned: seq<Name>, k: nat, env: map<Name, Cell>)
    requires Topological(sigs) && k < |sigs| && AllLive(env)
    requires NamesDefined(parameters, constants, sigs, returned, env.Keys)
    requires Outputs(sigs[..k]) <= env.Keys
    ensures ReadAll(m, env, ResolveAll(parameters, constants, sigs[k].inputs)).Ok?
  {
    var inputs := sigs[k].inputs;
    forall j | 0 <= j < |inputs| && Resolve(parameters, constants, inputs[j]).Local?
      ensures inputs[j] in env
    {
      OutputsExactly(sigs, inputs[j]);
      if Intermediate(sigs, inputs[j]) {
        assert inputs[j] in Outputs(sigs[..k]);
      }
    }
    LiveReads(m, env, ResolveAll(parameters, constants, inputs));
  }

  /** Without drops no read of a dropped tensor can occur, and every read finds its name if all are defined. */
  lemma {:induction false} PlainRun(m: Module, parameters: set<Name>, constants: set<Name>, sigs: seq<Signature>,
                                    returned: seq<Name>, k: nat, env: map<Name, Cell>)
    requires Topological(sigs) && k <= |sigs| && AllLive(env) && Outputs(sigs[..k]) <= env.Keys
    ensures var r := Run(m, env, Body(parameters, constants, sigs, returned, false, k));
            && (r.Err? ==> !r.error.Dropped?)
            && (NamesDefined(parameters, constants, sigs, returned, env.Keys) ==> r.Ok?)
    decreases |sigs| - k
  {
    if k == |sigs| {
      assert sigs[..k] == sigs;
      LiveReads(m, env, Locals(returned));
      if NamesDefined(parameters, constants, sigs, returned, env.Keys) {
        ReturnedFound(m, parameters, constants, sigs, returned, env);
      }
    } else {
      var sig, rest := sigs[k], Body(parameters, constants, sigs, returned, false, k + 1);
      var vs := ReadAll(m, env, ResolveAll(parameters, constants, sig.inputs));
      RunBlock(m, env, parameters, constants, sig, [], rest);
      LiveReads(m, env, ResolveAll(parameters, constants, sig.inputs));
      if vs.Ok? {
        var env' := env[sig.output := Live(m.apply(sig.callee, sig.args, vs.value))];
        OutputsNext(sigs, k);
        assert Frees([]) + rest == rest;
        PlainRun(m, parameters, constants, sigs, returned, k + 1, env');
      }
      if NamesDefined(parameters, constants, sigs, returned, env.Keys) {
        OperandsFound(m, parameters, constants, sigs, returned, k, env);
      }
    }
  }

  /**
   The program with drops never reads a dropped tensor; and it returns whenever every name it reads
   is an activation or some operation's output.
   */
  lemma DroppedIsNeverRead(m: Module, parameters: set<Name>, constants: set<Name>,
                           sigs: seq<Signature>, returned: seq<Name>, env: map<Name, Cell>)
    requires Topological(sigs) && AllLive(env)
    ensures var r := Run(m, env, Body(parameters, constants, sigs, returned, true, 0));
            && (r.Err? ==> !r.error.Dropped?)
            && (NamesDefined(parameters, constants, sigs, returned, env.Keys) ==> r.Ok?)
  {
    DroppingPreservesMeaning(m, parameters, constants, sigs, returned, env);
    PlainRun(m, parameters, constants, sigs, returned, 0, env);
  }

  // ----- what is returned

  /** The value of an operand that is read as `v` when it is a variable of the program. */
  ghost function OperandValue(m: Module, parameters: set<Name>, constants: set<Name>, x: Name, v: Option<Value>):
    Option<Value>
  {
    if x in parameters then Some(m.parameter(x)) else if x in constants then Some(m.constant(x)) else v
  }

  /** All values, if there are all. */
  ghost function Gathered(vs: seq<Option<Value>>): (r: Option<seq<Value>>)
    ensures r.Some? <==> forall i :: 0 <= i < |vs| ==> vs[i].Some?
    ensures r.Some? ==> |r.value| == |vs| && forall i :: 0 <= i < |vs| ==> vs[i] == Some(r.value[i])
  {
    if vs == [] then Some([])
    else
      var rest := Gathered(vs[..|vs| - 1]);
      if rest.Some? && vs[|vs| - 1].Some? then Some(rest.value + [vs[|vs| - 1].value]) else None
  }

  /**
   What the table of operations itself says of variable x after the first k operations: the result of
   the last of them to produce it, or else the activation of that name.
   */
  ghost function VariableValue(m: Module, parameters: set<Name>, constants: set<Name>, sigs: seq<Signature>,
                               given: map<Name, Value>, k: nat, x: Name): Option<Value>
    requires k <= |sigs|
    decreases k, 0
  {
    if k == 0 then if x in given then Some(given[x]) else None
    else if sigs[k - 1].output == x then ResultOf(m, parameters, constants, sigs, given, k - 1)
    else VariableValue(m, parameters, constants, sigs, given, k - 1, x)
  }

  /** What operation k results in: its function, applied to its operands' values in order. */
  ghost function ResultOf(m: Module, parameters: set<Name>, constants: set<Name>, sigs: seq<Signature>,
                          given: map<Name, Value>, k: nat): Option<Value>
    requires k < |sigs|
    decreases k, 1, 1
  {
    var operands := Gathered(OperandsOf(m, parameters, constants, sigs, given, k));
    if operands.Some? then Some(m.apply(sigs[k].callee, sigs[k].args, operands.value)) else None
  }

  ghost function OperandsOf(m: Module, parameters: set<Name>, constants: set<Name>, sigs: seq<Signature>,
                            given: map<Name, Value>, k: nat): (vs: seq<Option<Value>>)
    requires k < |sigs|
    ensures |vs| == |sigs[k].inputs|
    decreases k, 1, 0
  {
    seq(|sigs[k].inputs|, i requires 0 <= i < |sigs[k].inputs| =>
      OperandValue(m, parameters, constants, sigs[k].inputs[i],
                   VariableValue(m, parameters, constants, sigs, given, k, sigs[k].inputs[i])))
  }

  /** The environment holds exactly the values that the table gives its variables. */
  ghost predicate Holds(m: Module, parameters: set<Name>, constants: set<Name>, sigs: seq<Signature>,
                        given: map<Name, Value>, k: nat, env: map<Name, Cell>)
    requires k <= |sigs|
  {
    forall x :: var v := VariableValue(m, parameters, constants, sigs, given, k, x);
                && (x in env <==> v.Some?) && (v.Some? ==> env[x] == Live(v.value))
  }

  /** What reading references gives, one by one. */
  lemma {:induction false} ReadsGather(m: Module, env: map<Name, Cell>, rs: seq<Ref>, vs: seq<Option<Value>>)
    requires AllLive(env) && |rs| == |vs|
    requires forall i :: 0 <= i < |rs| ==>
               if vs[i].Some? then Read(m, env, rs[i]) == Ok(vs[i].value) else Read(m, env, rs[i]).Err?
    ensures ReadAll(m, env, rs).Ok? <==> Gathered(vs).Some?
    ensures ReadAll(m, env, rs).Ok? ==> ReadAll(m, env, rs).value == Gathered(vs).value
  {
    if rs != [] {
      ReadsGather(m, env, rs[1..], vs[1..]);
      assert vs == [vs[0]] + vs[1..];
    }
  }

  /** Operation k reads the values that the table gives its operands. */
  lemma OperandsHold(m: Module, parameters: set<Name>, constants: set<Name>, sigs: seq<Signature>,
                     given: map<Name, Value>, k: nat, env: map<Name, Cell>)
    requires k < |sigs| && Holds(m, parameters, constants, sigs, given, k, env) && AllLive(env)
    ensures var vs, r := ReadAll(m, env, ResolveAll(parameters, constants, sigs[k].inputs)),
                         ResultOf(m, parameters, constants, sigs, given, k);
            && (vs.Ok? <==> r.Some?)
            && (vs.Ok? ==> r.value == m.apply(sigs[k].callee, sigs[k].args, vs.value))
  {
    ReadsGather(m, env, ResolveAll(parameters, constants, sigs[k].inputs),
                OperandsOf(m, parameters, constants, sigs, given, k));
  }

  lemma HoldsNext(m: Module, parameters: set<Name>, constants: set<Name>, sigs: seq<Signature>,
                  given: map<Name, Value>, k: nat, env: map<Name, Cell>, v: Value)
    requires k < |sigs| && Holds(m, parameters, constants, sigs, given, k, env)
    requires ResultOf(m, parameters, constants, sigs, given, k) == Some(v)
    ensures Holds(m, parameters, constants, sigs, given, k + 1, env[sigs[k].output := Live(v)])
  {
  }

  /** Every operation from k on has a result, and the returned names then have these values. */
  ghost predicate Computed(m: Module, parameters: set<Name>, constants: set<Name>, sigs: seq<Signature>,
                           given: map<Name, Value>, returned: seq<Name>, k: nat)
  {
    && (forall i :: k <= i < |sigs| ==> ResultOf(m, parameters, constants, sigs, given, i).Some?)
    && (forall j :: 0 <= j < |returned| ==>
          VariableValue(m, parameters, constants, sigs, given, |sigs|, returned[j]).Some?)
  }

  ghost predicate Returns(m: Module, parameters: set<Name>, constants: set<Name>, sigs: seq<Signature>,
                          given: map<Name, Value>, returned: seq<Name>, vs: seq<Value>)
  {
    && |vs| == |returned|
    && forall j :: 0 <= j < |returned| ==>
         VariableValue(m, parameters, constants, sigs, given, |sigs|, returned[j]) == Some(vs[j])
  }

  /** Running to the end gives what the table says of the returned names, when the rest of the table is computed. */
  ghost predicate Follows(m: Module, parameters: set<Name>, constants: set<Name>, sigs: seq<Signature>,
                          given: map<Name, Value>, returned: seq<Name>, k: nat, r: Result<seq<Value>, Fault>)
  {
    && (r.Ok? <==> Computed(m, parameters, constants, sigs, given, returned, k))
    && (r.Ok? ==> Returns(m, parameters, constants, sigs, given, returned, r.value))
  }

  lemma FollowsNext(m: Module, parameters: set<Name>, constants: set<Name>, sigs: seq<Signature>,
                    given: map<Name, Value>, returned: seq<Name>, k: nat, r: Result<seq<Value>, Fault>)
    requires k < |sigs|
    requires if ResultOf(m, parameters, constants, sigs, given, k).Some? then
               Follows(m, parameters, constants, sigs, given, returned, k + 1, r)
             else r.Err?
    ensures Follows(m, parameters, constants, sigs, given, returned, k, r)
  {
  }

  lemma ReturnLine(m: Module, parameters: set<Name>, constants: set<Name>, sigs: seq<Signature>,
                   given: map<Name, Value>, returned: seq<Name>, env: map<Name, Cell>)
    requires Holds(m, parameters, constants, sigs, given, |sigs|, env) && AllLive(env)
    ensures Follows(m, parameters, constants, sigs, given, returned, |sigs|, ReadAll(m, env, Locals(returned)))
  {
    var vs := seq(|returned|, j requires 0 <= j < |returned| =>
      VariableValue(m, parameters, constants, sigs, given, |sigs|, returned[j]));
    ReadsGather(m, env, Locals(returned), vs);
  }

  /** Without drops the body computes the table, operation by operation. */
  lemma {:induction false} PlainFollows(m: Module, parameters: set<Name>, constants: set<Name>, sigs: seq<Signature>,
                                        given: map<Name, Value>, returned: seq<Name>, k: nat, env: map<Name, Cell>)
    requires k <= |sigs| && Holds(m, parameters, constants, sigs, given, k, env) && AllLive(env)
    ensures Follows(m, parameters, constants, sigs, given, returned, k,
                    Run(m, env, Body(parameters, constants, sigs, returned, false, k)))
    decreases |sigs| - k
  {
    if k == |sigs| {
      ReturnLine(m, parameters, constants, sigs, given, returned, env);
    } else {
      var sig, rest := sigs[k], Body(parameters, constants, sigs, returned, false, k + 1);
      var vs := ReadAll(m, env, ResolveAll(parameters, constants, sig.inputs));
      RunBlock(m, env, parameters, constants, sig, [], rest);
      OperandsHold(m, parameters, constants, sigs, given, k, env);
      if vs.Ok? {
        var v := m.apply(sig.callee, sig.args, vs.value);
        HoldsNext(m, parameters, constants, sigs, given, k, env, v);
        assert Frees([]) + rest == rest;
        PlainFollows(m, parameters, constants, sigs, given, returned, k + 1, env[sig.output := Live(v)]);
      }
      FollowsNext(m, parameters, constants, sigs, given, returned, k,
                  Run(m, env, Body(parameters, constants, sigs, returned, false, k)));
    }
  }

  lemma {:induction false} Bound(names: seq<Name>, args: seq<Value>, given: map<Name, Value>)
    requires |names| == |args| && forall i :: 0 <= i < |names| ==> names[i] in given && given[names[i]] == args[i]
    ensures forall x :: x in Bind(names, args) <==> x in names
    ensures forall x :: x in names ==> x in given && Bind(names, args)[x] == Live(given[x])
  {
    if names != [] {
      var n := |names| - 1;
      Bound(names[..n], args[..n], given);
      assert names == names[..n] + [names[n]];
    }
  }

  lemma {:induction false} ValueHasSource(m: Module, parameters: set<Name>, constants: set<Name>,
                                          sigs: seq<Signature>, given: map<Name, Value>, k: nat, x: Name)
    requires k <= |sigs| && VariableValue(m, parameters, constants, sigs, given, k, x).Some?
    ensures x in given || Intermediate(sigs, x)
  {
    if k > 0 && sigs[k - 1].output != x {
      ValueHasSource(m, parameters, constants, sigs, given, k - 1, x);
    }
  }

  /** What has been computed has been read from names that are defined. */
  lemma ComputedIsDefined(m: Module, parameters: set<Name>, constants: set<Name>, sigs: seq<Signature>,
                          given: map<Name, Value>, returned: seq<Name>)
    requires Computed(m, parameters, constants, sigs, given, returned, 0)
    ensures NamesDefined(parameters, constants, sigs, returned, given.Keys)
  {
    forall k, j | 0 <= k < |sigs| && 0 <= j < |sigs[k].inputs|
      ensures var x := sigs[k].inputs[j];
              x in parameters || x in constants || Intermediate(sigs, x) || x in given
    {
      var x := sigs[k].inputs[j];
      assert ResultOf(m, parameters, constants, sigs, given, k).Some?;
      assert OperandsOf(m, parameters, constants, sigs, given, k)[j].Some?;
      if x !in parameters && x !in constants {
        ValueHasSource(m, parameters, constants, sigs, given, k, x);
      }
    }
    forall x | x in returned
      ensures Intermediate(sigs, x) || x in given
    {
      var j :| 0 <= j < |returned| && returned[j] == x;
      ValueHasSource(m, parameters, constants, sigs, given, |sigs|, returned[j]);
    }
  }

  /**
   Main theorem. Called with the values of its activations, in order, the generated method returns exactly
   when every name it reads is a parameter, a constant, an activation or some operation's output, and it
   then returns what the table of operations says of the returned names, in order; with drops or without.
   */
  lemma ForwardReturnsTable(m: Module, parameters: set<Name>, constants: set<Name>, sigs: seq<Signature>,
                            activations: seq<Name>, returned: seq<Name>, deleting: bool,
                            given: map<Name, Value>, args: seq<Value>)
    requires Topological(sigs) && |args| == |activations| && forall x :: x in given <==> x in activations
    requires forall i :: 0 <= i < |args| ==> given[activations[i]] == args[i]
    ensures var r := Call(m, [Def(activations)] + Body(parameters, constants, sigs, returned, deleting, 0), args);
            && (r.Ok? <==> NamesDefined(parameters, constants, sigs, returned, given.Keys))
            && (r.Ok? ==> Returns(m, parameters, constants, sigs, given, returned, r.value))
  {
    var env, body := Bind(activations, args), Body(parameters, constants, sigs, returned, deleting, 0);
    assert ([Def(activations)] + body)[1..] == body;
    Bound(activations, args, given);
    DroppingPreservesMeaning(m, parameters, constants, sigs, returned, env);
    PlainFollows(m, parameters, constants, sigs, given, returned, 0, env);
    PlainRun(m, parameters, constants, sigs, returned, 0, env);
    assert env.Keys == given.Keys;
    if Run(m, env, body).Ok? {
      ComputedIsDefined(m, parameters, constants, sigs, given, returned);
    }
  }

  // ----- what is dropped, and where

  /** Among the first j operands, x is due exactly when it occurs there and nowhere later. */
  ghost predicate DueBy(sigs: seq<Signature>, returned: seq<Name>, k: nat, j: nat, x: Name)
    requires k < |sigs| && j <= |sigs[k].inputs|
  {
    && x in Outputs(sigs) && !Needed(sigs, returned, k + 1, x)
    && x in sigs[k].inputs[..j] && x !in sigs[k].inputs[j..]
  }

  /** One operand more: only its own name can become due, and only at its last occurrence. */
  lemma DueByNext(sigs: seq<Signature>, returned: seq<Name>, k: nat, j: nat, x: Name)
    requires k < |sigs| && j < |sigs[k].inputs|
    ensures var y := sigs[k].inputs[j];
            && (x != y ==> (DueBy(sigs, returned, k, j + 1, x) <==> DueBy(sigs, returned, k, j, x)))
            && !DueBy(sigs, returned, k, j, y)
            && (DueBy(sigs, returned, k, j + 1, y) <==> DiesAt(sigs, returned, k, j))
  {
    var inputs := sigs[k].inputs;
    assert inputs[..j + 1] == inputs[..j] + [inputs[j]];
    assert inputs[j..] == [inputs[j]] + inputs[j + 1..];
  }

  ghost function DueTimes(sigs: seq<Signature>, returned: seq<Name>, k: nat, j: nat, x: Name): nat
    requires k < |sigs| && j <= |sigs[k].inputs|
  {
    if DueBy(sigs, returned, k, j, x) then 1 else 0
  }

  lemma DueTimesNext(sigs: seq<Signature>, returned: seq<Name>, k: nat, j: nat, x: Name)
    requires k < |sigs| && j < |sigs[k].inputs|
    ensures DueTimes(sigs, returned, k, j + 1, x) ==
            DueTimes(sigs, returned, k, j, x) + if x == sigs[k].inputs[j] && DiesAt(sigs, returned, k, j) then 1 else 0
  {
    DueByNext(sigs, returned, k, j, x);
  }

  /** How often x dies among the first j operands. */
  ghost function DyingTimes(sigs: seq<Signature>, returned: seq<Name>, k: nat, j: nat, x: Name): nat
    requires k < |sigs| && j <= |sigs[k].inputs|
  {
    if j == 0 then 0
    else
      DyingTimes(sigs, returned, k, j - 1, x) +
      if x == sigs[k].inputs[j - 1] && DiesAt(sigs, returned, k, j - 1) then 1 else 0
  }

  lemma CountIf(names: seq<Name>, dies: bool, y: Name, x: Name)
    ensures multiset(names + if dies then [y] else [])[x] == multiset(names)[x] + if x == y && dies then 1 else 0
  {
    if !dies { assert names + [] == names; }
  }

  lemma {:induction false} DyingCount(sigs: seq<Signature>, returned: seq<Name>, k: nat, j: nat, x: Name)
    requires k < |sigs| && j <= |sigs[k].inputs|
    ensures multiset(Dying(sigs, returned, k, j))[x] == DyingTimes(sigs, returned, k, j, x)
  {
    if j > 0 {
      DyingCount(sigs, returned, k, j - 1, x);
      var before, dies := Dying(sigs, returned, k, j - 1), DiesAt(sigs, returned, k, j - 1);
      assert Dying(sigs, returned, k, j) == before + if dies then [sigs[k].inputs[j - 1]] else [];
      CountIf(before, dies, sigs[k].inputs[j - 1], x);
    }
  }

  lemma {:induction false} DyingTimesIsDue(sigs: seq<Signature>, returned: seq<Name>, k: nat, j: nat, x: Name)
    requires k < |sigs| && j <= |sigs[k].inputs|
    ensures DyingTimes(sigs, returned, k, j, x) == DueTimes(sigs, returned, k, j, x)
  {
    if j > 0 {
      DyingTimesIsDue(sigs, returned, k, j - 1, x);
      DueTimesNext(sigs, returned, k, j - 1, x);
    }
  }

  /** Operation k drops exactly the intermediates that it reads and that are not needed afterwards. */
  lemma DroppedAfterLastUse(sigs: seq<Signature>, returned: seq<Name>, k: nat, x: Name)
    requires k < |sigs|
    ensures multiset(Deletions(sigs, returned, k))[x] ==
            if Intermediate(sigs, x) && x in sigs[k].inputs && x !in returned && !ReadSince(sigs, k + 1, x)
            then 1 else 0
  {
    var n := |sigs[k].inputs|;
    OutputsExactly(sigs, x);
    ReadsExactly(sigs, k + 1, x);
    DyingCount(sigs, returned, k, n, x);
    DyingTimesIsDue(sigs, returned, k, n, x);
    assert sigs[k].inputs[..n] == sigs[k].inputs;
  }

  /** How often a stretch of lines drops x. */
  ghost function FreedIn(lines: seq<Line>, x: Name): nat {
    if lines == [] then 0 else (if lines[0] == Free(x) then 1 else 0) + FreedIn(lines[1..], x)
  }

  lemma {:induction false} FreedConcat(a: seq<Line>, b: seq<Line>, x: Name)
    ensures FreedIn(a + b, x) == FreedIn(a, x) + FreedIn(b, x)
  {
    if a == [] {
      assert a + b == b;
    } else {
      assert (a + b)[1..] == a[1..] + b;
      FreedConcat(a[1..], b, x);
    }
  }

  lemma {:induction false} FreedFrees(names: seq<Name>, x: Name)
    ensures FreedIn(Frees(names), x) == multiset(names)[x]
  {
    if names != [] {
      assert Frees(names)[1..] == Frees(names[1..]);
      FreedFrees(names[1..], x);
      assert names == [names[0]] + names[1..];
    }
  }

  lemma BlockFrees(parameters: set<Name>, constants: set<Name>, sig: Signature, dead: seq<Name>, rest: seq<Line>,
                   x: Name)
    ensures FreedIn(Block(parameters, constants, sig, dead) + rest, x) == multiset(dead)[x] + FreedIn(rest, x)
  {
    var lines := Block(parameters, constants, sig, dead) + rest;
    assert lines[1..] == Frees(dead) + rest;
    FreedConcat(Frees(dead), rest, x);
    FreedFrees(dead, x);
  }

  ghost function DropsAt(sigs: seq<Signature>, returned: seq<Name>, k: nat, x: Name): nat
    requires k < |sigs|
  {
    multiset(Deletions(sigs, returned, k))[x]
  }

  /** How often x is dropped at operation k or later. */
  ghost function DropsFrom(sigs: seq<Signature>, returned: seq<Name>, k: nat, x: Name): nat
    requires k <= |sigs|
    decreases |sigs| - k
  {
    if k == |sigs| then 0 else DropsAt(sigs, returned, k, x) + DropsFrom(sigs, returned, k + 1, x)
  }

  lemma {:induction false} BodyFrees(parameters: set<Name>, constants: set<Name>, sigs: seq<Signature>,
                                     returned: seq<Name>, k: nat, x: Name)
    requires k <= |sigs|
    ensures FreedIn(Body(parameters, constants, sigs, returned, true, k), x) == DropsFrom(sigs, returned, k, x)
    decreases |sigs| - k
  {
    if k < |sigs| {
      BodyFrees(parameters, constants, sigs, returned, k + 1, x);
      BlockFrees(parameters, constants, sigs[k], Deletions(sigs, returned, k),
                 Body(parameters, constants, sigs, returned, true, k + 1), x);
    }
  }

  /** How often x is yet to be dropped: once if it is an intermediate that is still read and not returned. */
  ghost function Due(sigs: seq<Signature>, returned: seq<Name>, k: nat, x: Name): nat
    requires k <= |sigs|
  {
    if Intermediate(sigs, x) && ReadSince(sigs, k, x) && x !in returned then 1 else 0
  }

  /** Whatever is still due at operation k is dropped there or later. */
  lemma DueNext(sigs: seq<Signature>, returned: seq<Name>, k: nat, x: Name)
    requires k < |sigs|
    ensures DropsAt(sigs, returned, k, x) + Due(sigs, returned, k + 1, x) == Due(sigs, returned, k, x)
  {
    DroppedAfterLastUse(sigs, returned, k, x);
    ReadSinceNext(sigs, k, x);
  }

  lemma NothingDue(sigs: seq<Signature>, returned: seq<Name>, x: Name)
    ensures DropsFrom(sigs, returned, |sigs|, x) == Due(sigs, returned, |sigs|, x)
  {
  }

  lemma DropsNext(sigs: seq<Signature>, returned: seq<Name>, k: nat, x: Name)
    requires k < |sigs| && DropsFrom(sigs, returned, k + 1, x) == Due(sigs, returned, k + 1, x)
    ensures DropsFrom(sigs, returned, k, x) == Due(sigs, returned, k, x)
  {
    DueNext(sigs, returned, k, x);
  }

  lemma {:induction false} DropsAreDue(sigs: seq<Signature>, returned: seq<Name>, k: nat, x: Name)
    requires k <= |sigs|
    ensures DropsFrom(sigs, returned, k, x) == Due(sigs, returned, k, x)
    decreases |sigs| - k
  {
    if k == |sigs| {
      NothingDue(sigs, returned, x);
    } else {
      DropsAreDue(sigs, returned, k + 1, x);
      DropsNext(sigs, returned, k, x);
    }
  }

  /**
   Counted over the whole body, each intermediate that is read and not returned is dropped once,
   and nothing else ever is: no activation, parameter, constant or returned value.
   */
  lemma DroppedExactlyOnce(parameters: set<Name>, constants: set<Name>, sigs: seq<Signature>, returned: seq<Name>,
                           k: nat, x: Name)
    requires k <= |sigs|
    ensures FreedIn(Body(parameters, constants, sigs, returned, true, k), x) == Due(sigs, returned, k, x)
  {
    BodyFrees(parameters, constants, sigs, returned, k, x);
    DropsAreDue(sigs, returned, k, x);
  }

  // ----- names

  /** The name of an operation's result: its kind and its node id. */
  function ForgeName(kind: string, nid: nat): string { kind + "_" + Decimal.Render(nid) }

  /** A result's name in full. */
  lemma ForgeNamed(kind: string, nid: nat) returns (digits: string)
    ensures ForgeName(kind, nid) == kind + "_" + digits && Decimal.Reading(digits) == nid
    ensures forall i :: 0 <= i < |digits| ==> '0' <= digits[i] <= '9'
    ensures |digits| > 0 && (digits[0] == '0' ==> nid == 0)
  {
    digits := Decimal.Render(nid);
    Decimal.RenderReads(nid);
  }

  /** Distinct nodes get distinct names, whatever their kinds, so no result overwrites another. */
  lemma ForgeNamesDistinct(kinds: seq<string>, nids: seq<nat>, sigs: seq<Signature>)
    requires |kinds| == |nids| == |sigs|
    requires forall k :: 0 <= k < |sigs| ==> sigs[k].output == Name(ForgeName(kinds[k], nids[k]))
    ensures forall i, k :: 0 <= i < |sigs| && 0 <= k < |sigs| ==> (sigs[i].output == sigs[k].output <==>
              kinds[i] == kinds[k] && nids[i] == nids[k])
    ensures (forall i, k :: 0 <= i < k < |sigs| ==> nids[i] != nids[k]) ==>
              forall i, k :: 0 <= i < k < |sigs| ==> sigs[i].output != sigs[k].output
  {
    forall i, k | 0 <= i < |sigs| && 0 <= k < |sigs| && sigs[i].output == sigs[k].output
      ensures kinds[i] == kinds[k] && nids[i] == nids[k]
    {
      Decimal.SuffixInjective(kinds[i], nids[i], kinds[k], nids[k]);
    }
  }
}
