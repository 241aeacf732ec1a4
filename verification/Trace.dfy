/** The traced tensor DAG that `generate_graph` translates, and its meaning. */
module Trace {
  import opened Wrappers

  type Value(!new)

  type KernelTag(==, !new)

  /**
   Tensors are numbered in the order in which tracing created them, so the operands of an op always
   carry smaller numbers than its result.
   */
  type Tensor = nat

  datatype Op = Nop | Kernel(tag: KernelTag)

  /** One entry of an op's broadcast list: `operand` is stretched to `size` along `dim`. */
  datatype Broadcast = Broadcast(operand: nat, dim: int, size: int)

  /** Where a tensor came from. Only `Produced` and `Literal` tensors have a source op. */
  datatype Source =
    | Param(paramName: Option<string>)
    | Plain(constant: Option<Value>)
    | Literal(literal: Value, literalName: string)
    | Produced(op: Op, opName: string, operands: seq<Tensor>, broadcasts: seq<Broadcast>)

  type Trace = seq<Source>

  ghost predicate Acyclic(tr: Trace) {
    forall t, i :: 0 <= t < |tr| && tr[t].Produced? && 0 <= i < |tr[t].operands| ==> tr[t].operands[i] < t
  }

  /** The entries of a broadcast list that concern one operand. */
  function Select(bs: seq<Broadcast>, operand: nat): (r: seq<(int, int)>)
  {
    if bs == [] then []
    else
      var rest := Select(bs[..|bs| - 1], operand);
      var b := bs[|bs| - 1];
      if b.operand == operand then rest + [(b.dim, b.size)] else rest
  }

  /** The places of the entries for this operand. */
  ghost function EntriesFor(bs: seq<Broadcast>, operand: nat): nat -> bool {
    (i: nat) => i < |bs| && bs[i].operand == operand
  }

  /** `stretch` is the dimension and size, in list order, of exactly the entries for this operand. */
  ghost predicate StretchesAt(bs: seq<Broadcast>, operand: nat, stretch: seq<(int, int)>, at: seq<nat>) {
    && Lists(at, |bs|, EntriesFor(bs, operand))
    && |stretch| == |at| && forall j :: 0 <= j < |at| ==> stretch[j] == (bs[at[j]].dim, bs[at[j]].size)
  }

  ghost predicate Stretches(bs: seq<Broadcast>, operand: nat, stretch: seq<(int, int)>) {
    exists at :: StretchesAt(bs, operand, stretch, at)
  }

  /** Only one list of stretches is right for an operand. */
  lemma StretchIsUnique(bs: seq<Broadcast>, operand: nat, a: seq<(int, int)>, b: seq<(int, int)>)
    requires Stretches(bs, operand, a) && Stretches(bs, operand, b)
    ensures a == b
  {
    var at, at' :| StretchesAt(bs, operand, a, at) && StretchesAt(bs, operand, b, at');
    ListsUnique(at, at', |bs|, EntriesFor(bs, operand));
  }

  lemma EntriesNext(bs: seq<Broadcast>, operand: nat, at: seq<nat>, n: nat)
    requires |bs| == n + 1 && Lists(at, n, EntriesFor(bs[..n], operand))
    ensures bs[n].operand == operand ==> Lists(at + [n], |bs|, EntriesFor(bs, operand))
    ensures bs[n].operand != operand ==> Lists(at, |bs|, EntriesFor(bs, operand))
  {
    ListsAgree(at, n, EntriesFor(bs[..n], operand), EntriesFor(bs, operand));
    ListsNext(at, n, EntriesFor(bs, operand));
  }

  lemma StretchKept(bs: seq<Broadcast>, operand: nat, at: seq<nat>, stretch: seq<(int, int)>, n: nat)
    requires |bs| == n + 1 && StretchesAt(bs[..n], operand, stretch, at)
    ensures forall j :: 0 <= j < |at| ==> at[j] < n && stretch[j] == (bs[at[j]].dim, bs[at[j]].size)
  {
    forall j | 0 <= j < |at|
      ensures at[j] < n && bs[..n][at[j]] == bs[at[j]]
    {
    }
  }

  lemma SelectNext(bs: seq<Broadcast>, operand: nat, at: seq<nat>, stretch: seq<(int, int)>, n: nat)
    requires |bs| == n + 1 && StretchesAt(bs[..n], operand, stretch, at)
    ensures bs[n].operand == operand ==>
              StretchesAt(bs, operand, stretch + [(bs[n].dim, bs[n].size)], at + [n])
    ensures bs[n].operand != operand ==> StretchesAt(bs, operand, stretch, at)
  {
    EntriesNext(bs, operand, at, n);
    StretchKept(bs, operand, at, stretch, n);
  }

  /** What is selected for an operand. */
  lemma {:induction false} SelectStretches(bs: seq<Broadcast>, operand: nat)
    ensures Stretches(bs, operand, Select(bs, operand))
  {
    if bs == [] {
      assert StretchesAt(bs, operand, [], []);
    } else {
      var n := |bs| - 1;
      SelectStretches(bs[..n], operand);
      var at :| StretchesAt(bs[..n], operand, Select(bs[..n], operand), at);
      SelectNext(bs, operand, at, Select(bs[..n], operand), n);
    }
  }

  /** The meaning of ops and of stretching an operand; any functions at all. */
  datatype Meaning = Meaning(apply: (Op, seq<Value>) -> Value, stretch: (seq<(int, int)>, Value) -> Value)

  /** The two facts about meanings the translation relies on. */
  ghost predicate Lawful(m: Meaning) {
    && (forall v :: m.apply(Nop, [v]) == v)
    && (forall v :: m.stretch([], v) == v)
  }

  /** The value of tensor `t`, when `leaf` gives the value of every parameter and input tensor. */
  ghost function Denote(tr: Trace, m: Meaning, leaf: Tensor -> Value, t: Tensor): Value
    requires Acyclic(tr) && t < |tr|
    decreases t, 1
  {
    match tr[t]
    case Param(_) => leaf(t)
    case Plain(constant) => if constant.Some? then constant.value else leaf(t)
    case Literal(v, _) => v
    case Produced(op, _, _, _) => m.apply(op, OperandValues(tr, m, leaf, t))
  }

  /** What an op's kernel is applied to: its operands' values, each stretched as its broadcasts say. */
  ghost function OperandValues(tr: Trace, m: Meaning, leaf: Tensor -> Value, t: Tensor): (vs: seq<Value>)
    requires Acyclic(tr) && t < |tr| && tr[t].Produced?
    ensures |vs| == |tr[t].operands|
    decreases t, 0
  {
    seq(|tr[t].operands|, i requires 0 <= i < |tr[t].operands| =>
      m.stretch(Select(tr[t].broadcasts, i), Denote(tr, m, leaf, tr[t].operands[i])))
  }

  /** What operand i brings to an op: its own value, stretched by the entries for it. */
  ghost predicate Brings(tr: Trace, m: Meaning, leaf: Tensor -> Value, t: Tensor, i: nat, v: Value)
    requires Acyclic(tr) && t < |tr| && tr[t].Produced? && i < |tr[t].operands|
  {
    exists stretch ::
      Stretches(tr[t].broadcasts, i, stretch) && v == m.stretch(stretch, Denote(tr, m, leaf, tr[t].operands[i]))
  }

  /** An op's kernel is applied to what its operands bring, in order. */
  lemma OpMeans(tr: Trace, m: Meaning, leaf: Tensor -> Value, t: Tensor) returns (args: seq<Value>)
    requires Acyclic(tr) && t < |tr| && tr[t].Produced?
    ensures Denote(tr, m, leaf, t) == m.apply(tr[t].op, args) && |args| == |tr[t].operands|
    ensures forall i :: 0 <= i < |args| ==> Brings(tr, m, leaf, t, i, args[i])
  {
    args := OperandValues(tr, m, leaf, t);
    forall i | 0 <= i < |args|
      ensures Brings(tr, m, leaf, t, i, args[i])
    {
      SelectStretches(tr[t].broadcasts, i);
    }
  }

  ghost predicate Feeds(tr: Trace, t: Tensor, u: Tensor) {
    u < |tr| && tr[u].Produced? && t in tr[u].operands
  }

  /** `t` is a model output or an operand, however indirectly, of one. */
  ghost predicate Reachable(tr: Trace, outputs: seq<Tensor>, t: Tensor)
    requires Acyclic(tr)
    decreases |tr| - t
  {
    t < |tr| && (t in outputs || exists u :: t < u < |tr| && Feeds(tr, t, u) && Reachable(tr, outputs, u))
  }
}
