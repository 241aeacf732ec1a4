/** Counting the reads of each name: which tensor `forward` drops where. */
module CodeGeneration {
  import opened Wrappers

  type Value(!new)

  type ArgumentText(==, !new)

  /** A variable of the generated program. */
  datatype Name = Name(text: string)

  /** The part of an operation that never changes. The table is listed by ascending node id. */
  datatype Signature = Signature(callee: string, output: Name, inputs: seq<Name>, args: ArgumentText)

  class Operation {
    const sig: Signature
    var inputsToDelete: seq<Name>

    constructor (sig: Signature)
      ensures this.sig == sig && inputsToDelete == []
    {
      this.sig, inputsToDelete := sig, [];
    }
  }

  function Signatures(ops: seq<Operation>): (sigs: seq<Signature>)
    ensures |sigs| == |ops| && forall k :: 0 <= k < |ops| ==> sigs[k] == ops[k].sig
  {
    seq(|ops|, k requires 0 <= k < |ops| => ops[k].sig)
  }

  /** The names that operations produce. */
  function Outputs(sigs: seq<Signature>): set<Name> {
    if sigs == [] then {} else Outputs(sigs[..|sigs| - 1]) + {sigs[|sigs| - 1].output}
  }

  /** Some operation produces this name. */
  ghost predicate Intermediate(sigs: seq<Signature>, x: Name) {
    exists k :: 0 <= k < |sigs| && sigs[k].output == x
  }

  lemma {:induction false} OutputsExactly(sigs: seq<Signature>, x: Name)
    ensures x in Outputs(sigs) <==> Intermediate(sigs, x)
  {
    if sigs != [] {
      var before := sigs[..|sigs| - 1];
      OutputsExactly(before, x);
      if x in Outputs(before) {
        var k :| 0 <= k < |before| && before[k].output == x;
        assert sigs[k].output == x;
      }
      if k :| 0 <= k < |sigs| && sigs[k].output == x {
        if k < |before| { assert before[k].output == x; }
      }
    }
  }

  lemma OutputsNext(sigs: seq<Signature>, k: nat)
    requires k < |sigs|
    ensures Outputs(sigs[..k + 1]) == Outputs(sigs[..k]) + {sigs[k].output}
  {
    assert sigs[..k + 1][..k] == sigs[..k];
  }

  // ----- which name dies where

  /** All reads by operations k and later. */
  function ReadsFrom(sigs: seq<Signature>, k: nat): multiset<Name>
    requires k <= |sigs|
    decreases |sigs| - k
  {
    if k == |sigs| then multiset{} else multiset(sigs[k].inputs) + ReadsFrom(sigs, k + 1)
  }

  /** Operation k or a later one reads this name. */
  ghost predicate ReadSince(sigs: seq<Signature>, k: nat, x: Name) {
    exists i :: k <= i < |sigs| && x in sigs[i].inputs
  }

  lemma ReadSinceNext(sigs: seq<Signature>, k: nat, x: Name)
    requires k < |sigs|
    ensures ReadSince(sigs, k, x) <==> x in sigs[k].inputs || ReadSince(sigs, k + 1, x)
  {
    if ReadSince(sigs, k, x) && x !in sigs[k].inputs {
      var i :| k <= i < |sigs| && x in sigs[i].inputs;
      assert i >= k + 1;
    }
  }

  lemma {:induction false} ReadsExactly(sigs: seq<Signature>, k: nat, x: Name)
    requires k <= |sigs|
    ensures x in ReadsFrom(sigs, k) <==> ReadSince(sigs, k, x)
    decreases |sigs| - k
  {
    if k < |sigs| {
      ReadsExactly(sigs, k + 1, x);
      ReadSinceNext(sigs, k, x);
    }
  }

  /** Operation k's j-th operand is an intermediate that is not returned and that nothing reads afterwards. */
  ghost predicate DiesAt(sigs: seq<Signature>, returned: seq<Name>, k: nat, j: nat)
    requires k < |sigs| && j < |sigs[k].inputs|
  {
    var x := sigs[k].inputs[j];
    x in Outputs(sigs) && x !in returned && x !in sigs[k].inputs[j + 1..] && x !in ReadsFrom(sigs, k + 1)
  }

  /** The names that die at operation k, up to its j-th operand, in operand order. */
  ghost function Dying(sigs: seq<Signature>, returned: seq<Name>, k: nat, j: nat): seq<Name>
    requires k < |sigs| && j <= |sigs[k].inputs|
  {
    if j == 0 then []
    else Dying(sigs, returned, k, j - 1) + if DiesAt(sigs, returned, k, j - 1) then [sigs[k].inputs[j - 1]] else []
  }

  ghost function Deletions(sigs: seq<Signature>, returned: seq<Name>, k: nat): seq<Name>
    requires k < |sigs|
  {
    Dying(sigs, returned, k, |sigs[k].inputs|)
  }

  /** At its operand j, operation k reads an intermediate that is not returned, for the last time. */
  ghost predicate LastRead(sigs: seq<Signature>, returned: seq<Name>, k: nat, j: nat)
    requires k < |sigs|
  {
    && j < |sigs[k].inputs|
    && var x := sigs[k].inputs[j];
       Intermediate(sigs, x) && x !in returned && x !in sigs[k].inputs[j + 1..] && !ReadSince(sigs, k + 1, x)
  }

  ghost function LastReads(sigs: seq<Signature>, returned: seq<Name>, k: nat): nat -> bool
    requires k < |sigs|
  {
    (j: nat) => LastRead(sigs, returned, k, j)
  }

  /** `names` are what operation k reads for the last time among its first j operands, in their order. */
  ghost predicate LastReadAt(sigs: seq<Signature>, returned: seq<Name>, k: nat, j: nat, at: seq<nat>,
                             names: seq<Name>)
    requires k < |sigs| && j <= |sigs[k].inputs|
  {
    && Lists(at, j, LastReads(sigs, returned, k))
    && |names| == |at| && forall i :: 0 <= i < |at| ==> names[i] == sigs[k].inputs[at[i]]
  }

  lemma LastReadDies(sigs: seq<Signature>, returned: seq<Name>, k: nat, j: nat)
    requires k < |sigs| && j < |sigs[k].inputs|
    ensures LastRead(sigs, returned, k, j) <==> DiesAt(sigs, returned, k, j)
  {
    OutputsExactly(sigs, sigs[k].inputs[j]);
    ReadsExactly(sigs, k + 1, sigs[k].inputs[j]);
  }

  lemma LastReadNext(sigs: seq<Signature>, returned: seq<Name>, k: nat, j: nat, at: seq<nat>, names: seq<Name>)
    requires k < |sigs| && j < |sigs[k].inputs| && LastReadAt(sigs, returned, k, j, at, names)
    ensures DiesAt(sigs, returned, k, j) ==>
              LastReadAt(sigs, returned, k, j + 1, at + [j], names + [sigs[k].inputs[j]])
    ensures !DiesAt(sigs, returned, k, j) ==> LastReadAt(sigs, returned, k, j + 1, at, names)
  {
    LastReadDies(sigs, returned, k, j);
    ListsNext(at, j, LastReads(sigs, returned, k));
  }

  lemma DyingNextListed(sigs: seq<Signature>, returned: seq<Name>, k: nat, j: nat, before: seq<nat>)
    returns (at: seq<nat>)
    requires k < |sigs| && 0 < j <= |sigs[k].inputs|
    requires LastReadAt(sigs, returned, k, j - 1, before, Dying(sigs, returned, k, j - 1))
    ensures LastReadAt(sigs, returned, k, j, at, Dying(sigs, returned, k, j))
  {
    var names := Dying(sigs, returned, k, j - 1);
    LastReadNext(sigs, returned, k, j - 1, before, names);
    if DiesAt(sigs, returned, k, j - 1) {
      at := before + [j - 1];
    } else {
      at := before;
      assert Dying(sigs, returned, k, j) == names;
    }
  }

  lemma NothingRead(sigs: seq<Signature>, returned: seq<Name>, k: nat)
    requires k < |sigs|
    ensures LastReadAt(sigs, returned, k, 0, [], [])
  {
  }

  lemma {:induction false} DyingListed(sigs: seq<Signature>, returned: seq<Name>, k: nat, j: nat)
    returns (at: seq<nat>)
    requires k < |sigs| && j <= |sigs[k].inputs|
    ensures LastReadAt(sigs, returned, k, j, at, Dying(sigs, returned, k, j))
  {
    if j == 0 {
      at := [];
      NothingRead(sigs, returned, k);
    } else {
      var before := DyingListed(sigs, returned, k, j - 1);
      at := DyingNextListed(sigs, returned, k, j, before);
    }
  }

  /** What operation k drops: its operands that are read for the last time, in their order. */
  lemma DeletionsListed(sigs: seq<Signature>, returned: seq<Name>, k: nat) returns (at: seq<nat>)
    requires k < |sigs|
    ensures LastReadAt(sigs, returned, k, |sigs[k].inputs|, at, Deletions(sigs, returned, k))
  {
    at := DyingListed(sigs, returned, k, |sigs[k].inputs|);
  }

  // ----- delete_unneeded_outputs

  function ReturnCount(returned: seq<Name>, x: Name): nat { if x in returned then 1 else 0 }

  /** The table of reference counts, when `uses` are still to come. */
  ghost predicate Counts(consumers: map<Name, nat>, returned: seq<Name>, uses: multiset<Name>) {
    && (forall x :: x in returned || x in uses ==> x in consumers)
    && (forall x :: x in consumers ==> consumers[x] == uses[x] + ReturnCount(returned, x))
  }

  method CountReturned(returned: seq<Name>) returns (consumers: map<Name, nat>)
    ensures Counts(consumers, returned, multiset{})
  {
    consumers := map[];
    for i := 0 to |returned|
      invariant forall x :: x in consumers <==> x in returned[..i]
      invariant forall x :: x in consumers ==> consumers[x] == 1
    {
      assert returned[..i + 1] == returned[..i] + [returned[i]];
      consumers := consumers[returned[i] := 1];
    }
    assert returned[..|returned|] == returned;
  }

  lemma ReadsMove(sigs: seq<Signature>, k: nat, seen: multiset<Name>)
    requires k < |sigs|
    ensures seen + ReadsFrom(sigs, k) == seen + multiset(sigs[k].inputs) + ReadsFrom(sigs, k + 1)
  {
  }

  lemma CountOne(consumers: map<Name, nat>, returned: seq<Name>, uses: multiset<Name>, x: Name)
    requires Counts(consumers, returned, uses)
    ensures Counts(consumers[x := if x in consumers then consumers[x] + 1 else 1], returned, uses + multiset{x})
  {
  }

  method CountReads(consumers: map<Name, nat>, inputs: seq<Name>, ghost returned: seq<Name>,
                    ghost seen: multiset<Name>)
    returns (r: map<Name, nat>)
    requires Counts(consumers, returned, seen)
    ensures Counts(r, returned, seen + multiset(inputs))
  {
    r := consumers;
    for j := 0 to |inputs|
      invariant Counts(r, returned, seen + multiset(inputs[..j]))
    {
      var x := inputs[j];
      assert inputs[..j + 1] == inputs[..j] + [x];
      assert seen + multiset(inputs[..j + 1]) == seen + multiset(inputs[..j]) + multiset{x};
      CountOne(r, returned, seen + multiset(inputs[..j]), x);
      r := r[x := if x in r then r[x] + 1 else 1];
    }
    assert inputs[..|inputs|] == inputs;
  }

  method CountConsumers(ops: seq<Operation>, returned: seq<Name>)
    returns (consumers: map<Name, nat>, outputs: set<Name>)
    ensures Counts(consumers, returned, ReadsFrom(Signatures(ops), 0))
    ensures outputs == Outputs(Signatures(ops))
  {
    ghost var sigs := Signatures(ops);
    consumers := CountReturned(returned);
    outputs := {};
    ghost var seen := multiset{};
    assert seen + ReadsFrom(sigs, 0) == ReadsFrom(sigs, 0);
    for k := 0 to |ops|
      invariant Counts(consumers, returned, seen)
      invariant seen + ReadsFrom(sigs, k) == ReadsFrom(sigs, 0)
      invariant outputs == Outputs(sigs[..k])
    {
      OutputsNext(sigs, k);
      outputs := outputs + {ops[k].sig.output};
      consumers := CountReads(consumers, ops[k].sig.inputs, returned, seen);
      ReadsMove(sigs, k, seen);
      seen := seen + multiset(ops[k].sig.inputs);
    }
    assert sigs[..|ops|] == sigs;
    assert seen == ReadsFrom(sigs, 0) by {
      assert seen + multiset{} == seen;
    }
  }

  /** The same, for the names that operations produce; other names are not counted down. */
  ghost predicate OutputCounts(consumers: map<Name, nat>, outputs: set<Name>, returned: seq<Name>,
                               uses: multiset<Name>) {
    forall x :: x in outputs ==>
      && (x in returned || x in uses ==> x in consumers)
      && (x in consumers ==> consumers[x] == uses[x] + ReturnCount(returned, x))
  }

  /** All reads from operation k's j-th operand on. */
  ghost function ReadsAt(sigs: seq<Signature>, k: nat, j: nat): multiset<Name>
    requires k < |sigs| && j <= |sigs[k].inputs|
  {
    multiset(sigs[k].inputs[j..]) + ReadsFrom(sigs, k + 1)
  }

  lemma ReadsAtNext(sigs: seq<Signature>, k: nat, j: nat)
    requires k < |sigs| && j < |sigs[k].inputs|
    ensures ReadsAt(sigs, k, j) == multiset{sigs[k].inputs[j]} + ReadsAt(sigs, k, j + 1)
  {
    assert sigs[k].inputs[j..] == [sigs[k].inputs[j]] + sigs[k].inputs[j + 1..];
  }

  lemma ReadsAtEnds(sigs: seq<Signature>, k: nat)
    requires k < |sigs|
    ensures ReadsAt(sigs, k, 0) == ReadsFrom(sigs, k)
    ensures ReadsAt(sigs, k, |sigs[k].inputs|) == ReadsFrom(sigs, k + 1)
  {
    var inputs := sigs[k].inputs;
    assert inputs[0..] == inputs && inputs[|inputs|..] == [];
  }

  /** Passing one read of x: its count, if it is counted, is positive and goes down by one. */
  lemma CountDown(consumers: map<Name, nat>, outputs: set<Name>, returned: seq<Name>, x: Name,
                  rest: multiset<Name>)
    requires OutputCounts(consumers, outputs, returned, multiset{x} + rest)
    ensures x in outputs ==> x in consumers && consumers[x] > 0
    ensures OutputCounts(if x in outputs then consumers[x := consumers[x] - 1] else consumers, outputs, returned, rest)
  {
  }

  /** The operand is dropped exactly when its count reaches zero. */
  lemma DyingNext(consumers: map<Name, nat>, outputs: set<Name>, sigs: seq<Signature>, returned: seq<Name>,
                  k: nat, j: nat)
    requires k < |sigs| && j < |sigs[k].inputs|
    requires outputs == Outputs(sigs)
    requires OutputCounts(consumers, outputs, returned, ReadsAt(sigs, k, j))
    ensures var x := sigs[k].inputs[j];
            Dying(sigs, returned, k, j + 1) ==
            Dying(sigs, returned, k, j) + if x in outputs && x in consumers && consumers[x] == 1 then [x] else []
  {
    var x := sigs[k].inputs[j];
    ReadsAtNext(sigs, k, j);
    var rest := ReadsAt(sigs, k, j + 1);
    assert x in rest <==> x in sigs[k].inputs[j + 1..] || x in ReadsFrom(sigs, k + 1);
    if x in outputs {
      assert consumers[x] == 1 + rest[x] + ReturnCount(returned, x);
    }
  }

  /** What passing operation k's j-th operand does to the counts and to the names that die. */
  lemma ReadPassed(consumers: map<Name, nat>, outputs: set<Name>, sigs: seq<Signature>, returned: seq<Name>,
                   k: nat, j: nat)
    requires k < |sigs| && j < |sigs[k].inputs| && outputs == Outputs(sigs)
    requires OutputCounts(consumers, outputs, returned, ReadsAt(sigs, k, j))
    ensures var x := sigs[k].inputs[j];
            && (x in outputs ==> x in consumers && consumers[x] > 0)
            && OutputCounts(if x in outputs then consumers[x := consumers[x] - 1] else consumers, outputs, returned,
                            ReadsAt(sigs, k, j + 1))
            && Dying(sigs, returned, k, j + 1) ==
               Dying(sigs, returned, k, j) + if x in outputs && consumers[x] == 1 then [x] else []
  {
    ReadsAtNext(sigs, k, j);
    CountDown(consumers, outputs, returned, sigs[k].inputs[j], ReadsAt(sigs, k, j + 1));
    DyingNext(consumers, outputs, sigs, returned, k, j);
  }

  /** One read of x is passed; it was the last one if the count reaches zero. */
  method PassRead(consumers: map<Name, nat>, outputs: set<Name>, x: Name) returns (r: map<Name, nat>, dies: bool)
    requires x in outputs ==> x in consumers && consumers[x] > 0
    ensures r == if x in outputs then consumers[x := consumers[x] - 1] else consumers
    ensures dies <==> x in outputs && r[x] == 0
  {
    r, dies := consumers, false;
    if x !in outputs { return; }
    r := r[x := r[x] - 1];
    dies := r[x] == 0;
  }

  method DeleteAt(op: Operation, ghost sigs: seq<Signature>, ghost k: nat, ghost returned: seq<Name>,
                  consumers: map<Name, nat>, outputs: set<Name>)
    returns (r: map<Name, nat>)
    requires k < |sigs| && op.sig == sigs[k] && op.inputsToDelete == []
    requires outputs == Outputs(sigs)
    requires OutputCounts(consumers, outputs, returned, ReadsFrom(sigs, k))
    modifies op`inputsToDelete
    ensures OutputCounts(r, outputs, returned, ReadsFrom(sigs, k + 1))
    ensures op.inputsToDelete == Deletions(sigs, returned, k)
  {
    r := consumers;
    var inputs := op.sig.inputs;
    ReadsAtEnds(sigs, k);
    for j := 0 to |inputs|
      invariant OutputCounts(r, outputs, returned, ReadsAt(sigs, k, j))
      invariant op.inputsToDelete == Dying(sigs, returned, k, j)
    {
      var x := inputs[j];
      ReadPassed(r, outputs, sigs, returned, k, j);
      var dies;
      r, dies := PassRead(r, outputs, x);
      if dies {
        op.inputsToDelete := op.inputsToDelete + [x];
      }
    }
  }

  method DeleteUnneededOutputs(ops: seq<Operation>, returned: seq<Name>)
    requires forall i, k :: 0 <= i < k < |ops| ==> ops[i] != ops[k]
    requires forall k :: 0 <= k < |ops| ==> ops[k].inputsToDelete == []
    modifies ops`inputsToDelete
    ensures forall k :: 0 <= k < |ops| ==> ops[k].inputsToDelete == Deletions(Signatures(ops), returned, k)
  {
    ghost var sigs := Signatures(ops);
    var consumers, outputs := CountConsumers(ops, returned);
    for k := 0 to |ops|
      invariant OutputCounts(consumers, outputs, returned, ReadsFrom(sigs, k))
      invariant forall i :: 0 <= i < k ==> ops[i].inputsToDelete == Deletions(sigs, returned, i)
      invariant forall i :: k <= i < |ops| ==> ops[i].inputsToDelete == []
    {
      consumers := DeleteAt(ops[k], sigs, k, returned, consumers, outputs);
    }
  }
}
