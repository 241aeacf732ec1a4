/** When the unique-op table has one record for each distinct call, in terms of the operations alone. */
module UniqueRecords {
  import opened Wrappers
  import opened UniqueOperations

  ghost predicate RecordedAt(entries: seq<Entry>, o: Operation, i: int, j: int) {
    0 <= i < |entries| && 0 <= j < |entries[i].variants| &&
    entries[i].operands == o.operands && entries[i].variants[j].args == o.args
  }

  lemma RecordedOnce(entries: seq<Entry>, seen: set<Operation>, o: Operation, i: int, j: int, i': int, j': int)
    requires EntriesOk(entries, seen) && RecordedAt(entries, o, i, j) && RecordedAt(entries, o, i', j')
    ensures i == i' && j == j'
  {
    assert EntryOk(entries[i], seen);
    assert Included(entries[i].variants[j].args, entries[i].variants[j].args);
  }

  // ----- where variants come from

  ghost predicate HasFounder(founders: seq<Founder>, args: Args) {
    exists i :: 0 <= i < |founders| && founders[i].args == args
  }

  ghost predicate SomeIncluded(founders: seq<Founder>, args: Args) {
    exists i :: 0 <= i < |founders| && Included(founders[i].args, args)
  }

  /** Every operation includes some founder. */
  lemma FounderIncluded(ops: seq<Operation>, k: nat)
    requires k < |ops|
    ensures SomeIncluded(Founders(ops, ops[k].callee, ops[k].operands), ops[k].args)
  {
    var o := ops[k];
    var before, after, all := Founders(ops[..k], o.callee, o.operands), Founders(ops[..k + 1], o.callee, o.operands),
                              Founders(ops, o.callee, o.operands);
    assert ops[..k + 1][..k] == ops[..k];
    FoundersPrefix(ops, o.callee, o.operands, k + 1);
    if MatchesNone(before, o.args, |before|) {
      assert all[|before|] == after[|before|] == Founder(o.args, o.metadata.Keys);
    } else {
      var i :| 0 <= i < |before| && Included(before[i].args, o.args);
      assert all[i] == after[i] == before[i];
    }
  }

  // ----- one record for each distinct call, exactly when smaller argument lists come later

  ghost predicate SameCall(o: Operation, p: Operation) {
    o.callee == p.callee && o.operands == p.operands && o.args == p.args
  }

  ghost predicate FirstUse(ops: seq<Operation>, k: nat)
    requires k < |ops|
  {
    forall i :: 0 <= i < k ==> !SameCall(ops[i], ops[k])
  }

  /** An earlier operation on the same operands has an argument list properly included in operation k's. */
  ghost predicate SmallerBefore(ops: seq<Operation>, k: nat)
    requires k < |ops|
  {
    exists i :: 0 <= i < k && ops[i].callee == ops[k].callee && ops[i].operands == ops[k].operands &&
      Included(ops[i].args, ops[k].args) && ops[i].args != ops[k].args
  }

  ghost predicate Recorded(entries: seq<Entry>, o: Operation) {
    exists i, j :: RecordedAt(entries, o, i, j)
  }

  lemma EntryForIs(entries: seq<Entry>, operands: Operands, i: nat)
    requires DifferentOperands(entries) && i < |entries| && entries[i].operands == operands
    ensures EntryFor(entries, operands, 0) == Some(i)
  {
    assert EntryFor(entries, operands, 0).Some?;
  }

  /** A call is recorded under its own arguments exactly when it founded a variant. */
  lemma RecordedExactlyWhenFounder(table: Table, ops: seq<Operation>, k: nat)
    requires Built(table, ops) && k < |ops|
    ensures ops[k].callee in table
    ensures Recorded(table[ops[k].callee], ops[k]) <==>
            HasFounder(Founders(ops, ops[k].callee, ops[k].operands), ops[k].args)
  {
    var o := ops[k];
    assert o in SetOf(ops);
    var entries, founders := table[o.callee], Founders(ops, o.callee, o.operands);
    assert Shape(VariantsOf(table, o.callee, o.operands)) == founders;
    if Recorded(entries, o) {
      var i, j :| RecordedAt(entries, o, i, j);
      EntryForIs(entries, o.operands, i);
      assert founders[j].args == o.args;
    }
    if HasFounder(founders, o.args) {
      var j :| 0 <= j < |founders| && founders[j].args == o.args;
      assert RecordedAt(entries, o, EntryFor(entries, o.operands, 0).value, j);
    }
  }

  /** The first use of a call founds a variant, unless a smaller argument list came before. */
  lemma FirstUseFounds(ops: seq<Operation>, k: nat)
    requires k < |ops| && FirstUse(ops, k) && !SmallerBefore(ops, k)
    ensures HasFounder(Founders(ops, ops[k].callee, ops[k].operands), ops[k].args)
  {
    var o := ops[k];
    var before := Founders(ops[..k], o.callee, o.operands);
    forall i | 0 <= i < |before|
      ensures !Included(before[i].args, o.args)
    {
      var j := FounderFrom(ops[..k], o.callee, o.operands, i);
      assert ops[j] == ops[..k][j] && !SameCall(ops[j], o);
    }
    assert ops[..k + 1][..k] == ops[..k];
    FoundersPrefix(ops, o.callee, o.operands, k + 1);
    var all := Founders(ops, o.callee, o.operands);
    assert all[|before|] == Founders(ops[..k + 1], o.callee, o.operands)[|before|];
  }

  /** What founds a variant includes no earlier argument list on the same operands. */
  lemma FounderIncludesNone(ops: seq<Operation>, k: nat, i: nat)
    requires i < k < |ops| && ops[i].callee == ops[k].callee && ops[i].operands == ops[k].operands
    requires var before := Founders(ops[..k], ops[k].callee, ops[k].operands);
             MatchesNone(before, ops[k].args, |before|)
    ensures !Included(ops[i].args, ops[k].args)
  {
    var before := Founders(ops[..k], ops[k].callee, ops[k].operands);
    assert ops[..k][i] == ops[i];
    FounderIncluded(ops[..k], i);
    var c :| 0 <= c < |before| && Included(before[c].args, ops[i].args);
    IncludedTransitive(before[c].args, ops[i].args, ops[k].args);
  }

  /** After a smaller argument list, a call never founds a variant. */
  lemma SmallerPreventsFounding(ops: seq<Operation>, k: nat)
    requires k < |ops| && FirstUse(ops, k) && SmallerBefore(ops, k)
    ensures !HasFounder(Founders(ops, ops[k].callee, ops[k].operands), ops[k].args)
  {
    var o := ops[k];
    var founders := Founders(ops, o.callee, o.operands);
    var i :| 0 <= i < k && ops[i].callee == o.callee && ops[i].operands == o.operands &&
      Included(ops[i].args, o.args) && ops[i].args != o.args;
    forall j | 0 <= j < |founders|
      ensures founders[j].args != o.args
    {
      var k' := FounderFrom(ops, o.callee, o.operands, j);
      if k <= k' {
        FounderIncludesNone(ops, k', i);
      } else {
        assert !SameCall(ops[k'], o);
      }
    }
  }

  /** The first use of operation k's call. */
  lemma FirstUseOf(ops: seq<Operation>, k: nat) returns (first: nat)
    requires k < |ops|
    ensures first <= k && SameCall(ops[first], ops[k]) && FirstUse(ops, first)
  {
    first := k;
    while !FirstUse(ops, first)
      invariant first <= k && SameCall(ops[first], ops[k])
      decreases first
    {
      var i: nat :| i < first && SameCall(ops[i], ops[first]);
      first := i;
    }
  }

  /**
   Every call of a function has a record of its own, under its own operands and arguments, exactly when
   no call is first used after one on the same operands whose argument list is properly included in its own.
   */
  lemma OwnRecordsExactly(table: Table, ops: seq<Operation>, f: string)
    requires Built(table, ops)
    ensures (forall k :: 0 <= k < |ops| && ops[k].callee == f ==> f in table && Recorded(table[f], ops[k])) <==>
            (forall k :: 0 <= k < |ops| && ops[k].callee == f && FirstUse(ops, k) ==> !SmallerBefore(ops, k))
  {
    if forall k :: 0 <= k < |ops| && ops[k].callee == f && FirstUse(ops, k) ==> !SmallerBefore(ops, k) {
      forall k | 0 <= k < |ops| && ops[k].callee == f
        ensures f in table && Recorded(table[f], ops[k])
      {
        var first := FirstUseOf(ops, k);
        FirstUseFounds(ops, first);
        RecordedExactlyWhenFounder(table, ops, k);
      }
    }
    if forall k :: 0 <= k < |ops| && ops[k].callee == f ==> f in table && Recorded(table[f], ops[k]) {
      forall k | 0 <= k < |ops| && ops[k].callee == f && FirstUse(ops, k)
        ensures !SmallerBefore(ops, k)
      {
        RecordedExactlyWhenFounder(table, ops, k);
        if SmallerBefore(ops, k) { SmallerPreventsFounding(ops, k); }
      }
    }
  }

  lemma SameArgs(a: Args, b: Args)
    requires Included(a, b) && Included(b, a)
    ensures a == b
  {
  }

  /** Inclusion goes one way: in one order of two such operations both have a record of their own, in the other not. */
  lemma OrderDecidesRecords(o: Operation, p: Operation, small: Table, large: Table)
    requires o.callee == p.callee && o.operands == p.operands && Included(o.args, p.args) && o.args != p.args
    requires Built(small, [o, p]) && Built(large, [p, o])
    ensures p.callee in small && !Recorded(small[p.callee], p)
    ensures p.callee in large && Recorded(large[p.callee], p) && Recorded(large[p.callee], o)
  {
    var ops, ops' := [o, p], [p, o];
    assert FirstUse(ops, 1) && SmallerBefore(ops, 1) by {
      assert ops[0] == o && ops[1] == p;
    }
    RecordedExactlyWhenFounder(small, ops, 1);
    SmallerPreventsFounding(ops, 1);
    assert !SmallerBefore(ops', 0) && FirstUse(ops', 0);
    assert FirstUse(ops', 1) && !SmallerBefore(ops', 1) by {
      if Included(p.args, o.args) { SameArgs(o.args, p.args); }
    }
    FirstUseFounds(ops', 0);
    FirstUseFounds(ops', 1);
    RecordedExactlyWhenFounder(large, ops', 0);
    RecordedExactlyWhenFounder(large, ops', 1);
  }

  // ----- when all argument lists use the same names

  lemma SameNamesIncluded(a: Args, b: Args)
    requires a.Keys == b.Keys && Included(a, b)
    ensures a == b
  {
  }

  ghost predicate SameArgumentNames(seen: set<Operation>, f: string) {
    forall o, p :: o in seen && p in seen && o.callee == f && p.callee == f ==> o.args.Keys == p.args.Keys
  }

  /**
   When a function's operations all name the same arguments, its entries correspond one to one with
   the distinct pairs of operands and arguments.
   */
  lemma SameNamesOneToOne(table: Table, seen: set<Operation>, o: Operation)
    requires TableOk(table, seen) && o in seen && SameArgumentNames(seen, o.callee)
    ensures o.callee in table
    ensures exists i, j :: RecordedAt(table[o.callee], o, i, j)
    ensures forall i, j, i', j' :: RecordedAt(table[o.callee], o, i, j) && RecordedAt(table[o.callee], o, i', j') ==>
              i == i' && j == j'
  {
    var entries := table[o.callee];
    OperationIsRecorded(table, seen, o);
    var i :| 0 <= i < |entries| && entries[i].operands == o.operands && Covered(entries[i].variants, o);
    var j :| 0 <= j < |entries[i].variants| && Covers(entries[i].variants[j], o);
    var p := ArgumentsAttested(table, seen, o.callee, i, j);
    SameNamesIncluded(entries[i].variants[j].args, o.args);
    assert RecordedAt(entries, o, i, j);
    forall a, b, a', b' | RecordedAt(entries, o, a, b) && RecordedAt(entries, o, a', b')
      ensures a == a' && b == b'
    {
      RecordedOnce(entries, OfFunction(seen, o.callee), o, a, b, a', b');
    }
  }
}
