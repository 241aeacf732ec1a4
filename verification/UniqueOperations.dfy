/** The table of unique operations: per callee and operands, the argument lists seen, each with its metadata. */
module UniqueOperations {
  import opened Wrappers

  type Operands(==, !new)

  type Argument(==, !new)

  type Detail(==, !new)

  type Args = map<string, Argument>

  type Metadata = map<string, Detail>

  datatype Operation = Operation(callee: string, operands: Operands, args: Args, metadata: Metadata)

  /** An argument list with, per metadata name, the values recorded for it. */
  datatype Variant = Variant(args: Args, metadata: map<string, seq<Detail>>)

  datatype Entry = Entry(operands: Operands, variants: seq<Variant>)

  datatype Error = UnknownMetadata(name: string)

  /** `stored == given` by `OpArgs.__eq__`, which only compares the arguments that `stored` has. */
  predicate Included(stored: Args, given: Args) {
    forall name :: name in stored ==> name in given && stored[name] == given[name]
  }

  /** It holds when every stored argument is given with the same value; the given ones may be more. */
  lemma IncludedExactly(stored: Args, given: Args)
    ensures Included(stored, given) <==> stored.Items <= given.Items
  {
    if stored.Items <= given.Items {
      forall name | name in stored
        ensures name in given && stored[name] == given[name]
      {
        assert (name, stored[name]) in stored.Items;
      }
    }
  }

  // ----- one operation against the variants of its operands

  function FirstMatch(variants: seq<Variant>, args: Args, from: nat): (r: Option<nat>)
    requires from <= |variants|
    ensures r.None? ==> forall i :: from <= i < |variants| ==> !Included(variants[i].args, args)
    ensures r.Some? ==> from <= r.value < |variants| && Included(variants[r.value].args, args)
    ensures r.Some? ==> forall i :: from <= i < r.value ==> !Included(variants[i].args, args)
    decreases |variants| - from
  {
    if from == |variants| then None
    else if Included(variants[from].args, args) then Some(from) else FirstMatch(variants, args, from + 1)
  }

  function Appended(lists: map<string, seq<Detail>>, given: Metadata): map<string, seq<Detail>> {
    map name | name in lists ::
      if name in given && given[name] !in lists[name] then lists[name] + [given[name]] else lists[name]
  }

  function Transformed(given: Metadata): map<string, seq<Detail>> {
    map name | name in given :: [given[name]]
  }

  /** `part` holds some of the values given. */
  ghost predicate PartOf(part: Metadata, given: Metadata) {
    forall name :: name in part ==> name in given && part[name] == given[name]
  }

  lemma AppendedOne(lists: map<string, seq<Detail>>, done: Metadata, name: string, d: Detail)
    requires name in lists && name !in done
    ensures Appended(lists, done)[name] == lists[name]
    ensures Appended(lists, done[name := d]) ==
            if d in lists[name] then Appended(lists, done) else Appended(lists, done)[name := lists[name] + [d]]
  {
  }

  /** Each value given is put at the end of the list of its name, unless it is in the list. */
  ghost predicate PutAtEnds(lists: map<string, seq<Detail>>, given: Metadata, result: map<string, seq<Detail>>) {
    && result.Keys == lists.Keys
    && forall name :: name in lists ==>
         if name in given && given[name] !in lists[name] then result[name] == lists[name] + [given[name]]
         else result[name] == lists[name]
  }

  /** The record of a first operation: its arguments and a list of one value for each metadata name. */
  ghost predicate RecordOf(o: Operation, v: Variant) {
    && v.args == o.args && v.metadata.Keys == o.metadata.Keys
    && forall name :: name in o.metadata ==> v.metadata[name] == [o.metadata[name]]
  }

  /** The first record with arguments among the operation's own takes its metadata; else a new one comes last. */
  ghost predicate Records(variants: seq<Variant>, o: Operation, updated: seq<Variant>) {
    && ((forall i :: 0 <= i < |variants| ==> !(variants[i].args.Items <= o.args.Items)) ==>
          |updated| == |variants| + 1 && variants <= updated && RecordOf(o, updated[|variants|]))
    && forall i :: 0 <= i < |variants| && variants[i].args.Items <= o.args.Items &&
                   (forall j :: 0 <= j < i ==> !(variants[j].args.Items <= o.args.Items)) ==>
         && |updated| == |variants| && (forall j :: 0 <= j < |variants| && j != i ==> updated[j] == variants[j])
         && updated[i].args == variants[i].args && PutAtEnds(variants[i].metadata, o.metadata, updated[i].metadata)
  }

  /**
   The loop over the new metadata. It stops at the first name the variant does not have, and then only
   the values before it, `done`, have been appended.
   */
  method AppendMetadata(lists: map<string, seq<Detail>>, given: Metadata)
    returns (result: map<string, seq<Detail>>, missing: Option<string>, ghost done: Metadata)
    ensures PartOf(done, given) && done.Keys <= lists.Keys && result == Appended(lists, done)
    ensures PutAtEnds(lists, done, result)
    ensures missing.None? <==> given.Keys <= lists.Keys
    ensures missing.None? ==> done == given
  {
    var todo := given.Keys;
    result, done := lists, map[];
    while todo != {}
      invariant todo + done.Keys == given.Keys && todo !! done.Keys && done.Keys <= lists.Keys
      invariant PartOf(done, given) && result == Appended(lists, done)
      decreases todo
    {
      var name :| name in todo;
      if name !in result { return result, Some(name), done; }
      AppendedOne(lists, done, name, given[name]);
      if given[name] !in result[name] {
        result := result[name := result[name] + [given[name]]];
      }
      todo, done := todo - {name}, done[name := given[name]];
    }
    assert done == given;
    missing := None;
  }

  function Updated(variants: seq<Variant>, o: Operation): Option<seq<Variant>> {
    match FirstMatch(variants, o.args, 0)
    case None => Some(variants + [Variant(o.args, Transformed(o.metadata))])
    case Some(i) =>
      if o.metadata.Keys <= variants[i].metadata.Keys then
        Some(variants[i := variants[i].(metadata := Appended(variants[i].metadata, o.metadata))])
      else None
  }

  lemma UpdatedRecords(variants: seq<Variant>, o: Operation)
    ensures Updated(variants, o).Some? ==> Records(variants, o, Updated(variants, o).value)
  {
    forall i | 0 <= i < |variants|
      ensures variants[i].args.Items <= o.args.Items <==> Included(variants[i].args, o.args)
    {
      IncludedExactly(variants[i].args, o.args);
    }
  }

  /** An operation with only part of its metadata. */
  function With(o: Operation, part: Metadata): Operation { o.(metadata := part) }

  /** On failure the variants hold part of the metadata, `done`, as if only that had been given. */
  method Update(variants: seq<Variant>, o: Operation)
    returns (updated: seq<Variant>, r: Result<(), Error>, ghost done: Metadata)
    ensures PartOf(done, o.metadata) && Updated(variants, With(o, done)) == Some(updated)
    ensures r.Ok? <==> Updated(variants, o).Some?
    ensures r.Ok? ==> done == o.metadata
  {
    for i := 0 to |variants|
      invariant FirstMatch(variants, o.args, 0) == FirstMatch(variants, o.args, i)
    {
      if (variants[i].args == map[] && o.args == map[]) || Included(variants[i].args, o.args) {
        var lists, missing, part := AppendMetadata(variants[i].metadata, o.metadata);
        updated, done := variants[i := variants[i].(metadata := lists)], part;
        r := if missing.Some? then Err(UnknownMetadata(missing.value)) else Ok(());
        return;
      }
    }
    return variants + [Variant(o.args, Transformed(o.metadata))], Ok(()), o.metadata;
  }

  // ----- what a list of variants says about the operations it was built from

  /** The variant stands for the operation and has recorded all its metadata. */
  ghost predicate Covers(v: Variant, o: Operation) {
    Included(v.args, o.args) &&
    forall name :: name in o.metadata ==> name in v.metadata && o.metadata[name] in v.metadata[name]
  }

  ghost predicate Covered(variants: seq<Variant>, o: Operation) {
    exists i :: 0 <= i < |variants| && Covers(variants[i], o)
  }

  /** Some operation seen gave the variant its arguments and its metadata names. */
  ghost predicate Originates(v: Variant, seen: set<Operation>) {
    exists o :: o in seen && o.args == v.args && o.metadata.Keys == v.metadata.Keys
  }

  /** Some operation the variant stands for had this metadata value. */
  ghost predicate Attested(v: Variant, name: string, d: Detail, seen: set<Operation>) {
    exists o :: o in seen && Included(v.args, o.args) && name in o.metadata && o.metadata[name] == d
  }

  ghost predicate MetadataOk(v: Variant, seen: set<Operation>) {
    forall name :: name in v.metadata ==>
      Distinct(v.metadata[name]) && forall d :: d in v.metadata[name] ==> Attested(v, name, d, seen)
  }

  ghost predicate VariantOk(v: Variant, seen: set<Operation>) {
    Originates(v, seen) && MetadataOk(v, seen)
  }

  ghost predicate AllCovered(variants: seq<Variant>, seen: set<Operation>) {
    forall o {:trigger Covered(variants, o)} :: o in seen ==> Covered(variants, o)
  }

  /** No earlier argument list is included in a later one. */
  ghost predicate NoneIncluded(variants: seq<Variant>) {
    forall i, j :: 0 <= i < j < |variants| ==> !Included(variants[i].args, variants[j].args)
  }

  ghost predicate AllOk(variants: seq<Variant>, seen: set<Operation>) {
    forall i {:trigger VariantOk(variants[i], seen)} :: 0 <= i < |variants| ==> VariantOk(variants[i], seen)
  }

  ghost predicate VariantsOk(variants: seq<Variant>, seen: set<Operation>) {
    AllCovered(variants, seen) && NoneIncluded(variants) && AllOk(variants, seen)
  }

  lemma NewVariantOk(o: Operation, seen: set<Operation>)
    requires o in seen
    ensures var v := Variant(o.args, Transformed(o.metadata)); Covers(v, o) && VariantOk(v, seen)
  {
    var v := Variant(o.args, Transformed(o.metadata));
    forall name, d | name in v.metadata && d in v.metadata[name]
      ensures Attested(v, name, d, seen)
    {
      assert d == o.metadata[name];
    }
  }

  lemma AppendedVariantOk(v: Variant, o: Operation, seen: set<Operation>)
    requires o in seen && Included(v.args, o.args) && o.metadata.Keys <= v.metadata.Keys && VariantOk(v, seen)
    ensures var v' := v.(metadata := Appended(v.metadata, o.metadata)); Covers(v', o) && VariantOk(v', seen)
  {
    var v' := v.(metadata := Appended(v.metadata, o.metadata));
    assert v'.metadata.Keys == v.metadata.Keys;
    forall name, d | name in v'.metadata && d in v'.metadata[name]
      ensures Attested(v', name, d, seen)
    {
      if d in v.metadata[name] {
        assert Attested(v, name, d, seen);
      } else {
        assert d == o.metadata[name];
      }
    }
  }

  lemma AppendedStillCovers(v: Variant, o: Operation, p: Operation)
    requires Covers(v, p)
    ensures Covers(v.(metadata := Appended(v.metadata, o.metadata)), p)
  {
  }

  lemma SeenGrows(v: Variant, seen: set<Operation>, more: set<Operation>)
    requires seen <= more && VariantOk(v, seen)
    ensures VariantOk(v, more)
  {
    forall name, d | name in v.metadata && d in v.metadata[name]
      ensures Attested(v, name, d, more)
    {
      assert Attested(v, name, d, seen);
    }
  }

  lemma AllGrow(variants: seq<Variant>, seen: set<Operation>, more: set<Operation>)
    requires seen <= more && AllOk(variants, seen)
    ensures AllOk(variants, more)
  {
    forall i | 0 <= i < |variants|
      ensures VariantOk(variants[i], more)
    {
      SeenGrows(variants[i], seen, more);
    }
  }

  lemma CoveredAppend(variants: seq<Variant>, v: Variant, seen: set<Operation>, o: Operation)
    requires AllCovered(variants, seen) && Covers(v, o)
    ensures AllCovered(variants + [v], seen + {o})
  {
    forall p | p in seen + {o}
      ensures Covered(variants + [v], p)
    {
      if p in seen {
        assert Covered(variants, p);
        var i :| 0 <= i < |variants| && Covers(variants[i], p);
        assert Covers((variants + [v])[i], p);
      } else {
        assert Covers((variants + [v])[|variants|], o);
      }
    }
  }

  lemma CoveredReplace(variants: seq<Variant>, k: nat, v: Variant, seen: set<Operation>, o: Operation)
    requires AllCovered(variants, seen) && k < |variants| && Covers(v, o)
    requires forall p :: Covers(variants[k], p) ==> Covers(v, p)
    ensures AllCovered(variants[k := v], seen + {o})
  {
    forall p | p in seen + {o}
      ensures Covered(variants[k := v], p)
    {
      if p in seen {
        assert Covered(variants, p);
        var i :| 0 <= i < |variants| && Covers(variants[i], p);
        assert Covers(variants[k := v][i], p);
      } else {
        assert Covers(variants[k := v][k], o);
      }
    }
  }

  lemma NewVariantKeeps(variants: seq<Variant>, o: Operation, seen: set<Operation>)
    requires VariantsOk(variants, seen)
    requires forall i :: 0 <= i < |variants| ==> !Included(variants[i].args, o.args)
    ensures VariantsOk(variants + [Variant(o.args, Transformed(o.metadata))], seen + {o})
  {
    NewVariantOk(o, seen + {o});
    AllGrow(variants, seen, seen + {o});
    CoveredAppend(variants, Variant(o.args, Transformed(o.metadata)), seen, o);
  }

  lemma NoneIncludedReplace(variants: seq<Variant>, k: nat, v: Variant)
    requires NoneIncluded(variants) && k < |variants| && v.args == variants[k].args
    ensures NoneIncluded(variants[k := v])
  {
    var result := variants[k := v];
    forall i, j | 0 <= i < j < |result|
      ensures !Included(result[i].args, result[j].args)
    {
      assert !Included(variants[i].args, variants[j].args);
    }
  }

  lemma AllOkReplace(variants: seq<Variant>, k: nat, v: Variant, seen: set<Operation>)
    requires AllOk(variants, seen) && k < |variants| && VariantOk(v, seen)
    ensures AllOk(variants[k := v], seen)
  {
  }

  lemma MatchedStaysCovered(variants: seq<Variant>, o: Operation, seen: set<Operation>, k: nat)
    requires AllCovered(variants, seen) && k < |variants|
    requires Included(variants[k].args, o.args) && o.metadata.Keys <= variants[k].metadata.Keys
    ensures AllCovered(variants[k := variants[k].(metadata := Appended(variants[k].metadata, o.metadata))], seen + {o})
  {
    var v := variants[k].(metadata := Appended(variants[k].metadata, o.metadata));
    forall p | Covers(variants[k], p)
      ensures Covers(v, p)
    {
      AppendedStillCovers(variants[k], o, p);
    }
    CoveredReplace(variants, k, v, seen, o);
  }

  lemma MatchedVariantKeeps(variants: seq<Variant>, o: Operation, seen: set<Operation>, k: nat)
    requires VariantsOk(variants, seen) && k < |variants|
    requires Included(variants[k].args, o.args) && o.metadata.Keys <= variants[k].metadata.Keys
    ensures VariantsOk(variants[k := variants[k].(metadata := Appended(variants[k].metadata, o.metadata))], seen + {o})
  {
    var v := variants[k].(metadata := Appended(variants[k].metadata, o.metadata));
    AllGrow(variants, seen, seen + {o});
    AppendedVariantOk(variants[k], o, seen + {o});
    AllOkReplace(variants, k, v, seen + {o});
    NoneIncludedReplace(variants, k, v);
    MatchedStaysCovered(variants, o, seen, k);
  }

  lemma UpdateKeeps(variants: seq<Variant>, o: Operation, seen: set<Operation>)
    requires VariantsOk(variants, seen) && Updated(variants, o).Some?
    ensures VariantsOk(Updated(variants, o).value, seen + {o})
  {
    match FirstMatch(variants, o.args, 0)
    case None => NewVariantKeeps(variants, o, seen);
    case Some(k) => MatchedVariantKeeps(variants, o, seen, k);
  }

  // ----- the entries of one function

  ghost function WithOperands(seen: set<Operation>, operands: Operands): set<Operation> {
    set o | o in seen && o.operands == operands
  }

  ghost predicate DifferentOperands(entries: seq<Entry>) {
    forall i, j :: 0 <= i < j < |entries| ==> entries[i].operands != entries[j].operands
  }

  /** The entry accounts for exactly the operations with its operands. */
  ghost predicate EntryOk(e: Entry, seen: set<Operation>) {
    e.variants != [] && VariantsOk(e.variants, WithOperands(seen, e.operands))
  }

  ghost predicate AllEntriesOk(entries: seq<Entry>, seen: set<Operation>) {
    forall i {:trigger EntryOk(entries[i], seen)} :: 0 <= i < |entries| ==> EntryOk(entries[i], seen)
  }

  ghost predicate HasOperands(entries: seq<Entry>, operands: Operands) {
    exists i :: 0 <= i < |entries| && entries[i].operands == operands
  }

  ghost predicate AllHaveEntry(entries: seq<Entry>, seen: set<Operation>) {
    forall o {:trigger HasOperands(entries, o.operands)} :: o in seen ==> HasOperands(entries, o.operands)
  }

  ghost predicate EntriesOk(entries: seq<Entry>, seen: set<Operation>) {
    DifferentOperands(entries) && AllEntriesOk(entries, seen) && AllHaveEntry(entries, seen)
  }

  function EntryFor(entries: seq<Entry>, operands: Operands, from: nat): (r: Option<nat>)
    requires from <= |entries|
    ensures r.None? ==> forall i :: from <= i < |entries| ==> entries[i].operands != operands
    ensures r.Some? ==> from <= r.value < |entries| && entries[r.value].operands == operands
    ensures r.Some? ==> forall i :: from <= i < r.value ==> entries[i].operands != operands
    decreases |entries| - from
  {
    if from == |entries| then None
    else if entries[from].operands == operands then Some(from) else EntryFor(entries, operands, from + 1)
  }

  function Added(entries: seq<Entry>, o: Operation): Option<seq<Entry>> {
    match EntryFor(entries, o.operands, 0)
    case None => Some(entries + [Entry(o.operands, [Variant(o.args, Transformed(o.metadata))])])
    case Some(k) =>
      match Updated(entries[k].variants, o)
      case None => None
      case Some(variants) => Some(entries[k := entries[k].(variants := variants)])
  }

  /** An entry for the operation comes last. */
  ghost predicate RecordsLast(entries: seq<Entry>, o: Operation, added: seq<Entry>) {
    && |added| == |entries| + 1 && entries <= added && added[|entries|].operands == o.operands
    && |added[|entries|].variants| == 1 && RecordOf(o, added[|entries|].variants[0])
  }

  /** Entry k alone changes, and only in its records. */
  ghost predicate UpdatesAt(entries: seq<Entry>, o: Operation, added: seq<Entry>, k: nat) {
    && |added| == |entries| && k < |entries| && added[k].operands == entries[k].operands
    && (forall j :: 0 <= j < |entries| && j != k ==> added[j] == entries[j])
    && Updated(entries[k].variants, o) == Some(added[k].variants)
  }

  /** Without an entry for its operands, an operation gets one at the end. */
  lemma AddedLast(entries: seq<Entry>, o: Operation)
    requires forall i :: 0 <= i < |entries| ==> entries[i].operands != o.operands
    ensures Added(entries, o).Some? && RecordsLast(entries, o, Added(entries, o).value)
  {
  }

  /** Otherwise the first entry with its operands updates its records. */
  lemma AddedInPlace(entries: seq<Entry>, o: Operation, k: nat)
    requires Added(entries, o).Some? && k < |entries| && entries[k].operands == o.operands
    requires forall j :: 0 <= j < k ==> entries[j].operands != o.operands
    ensures UpdatesAt(entries, o, Added(entries, o).value, k)
  {
  }

  method AddOperandsArgs(entries: seq<Entry>, o: Operation)
    returns (added: seq<Entry>, r: Result<(), Error>, ghost done: Metadata)
    ensures PartOf(done, o.metadata) && Added(entries, With(o, done)) == Some(added)
    ensures r.Ok? <==> Added(entries, o).Some?
    ensures r.Ok? ==> done == o.metadata
  {
    for i := 0 to |entries|
      invariant EntryFor(entries, o.operands, 0) == EntryFor(entries, o.operands, i)
    {
      if entries[i].operands == o.operands {
        var variants, updated, part := Update(entries[i].variants, o);
        return entries[i := entries[i].(variants := variants)], updated, part;
      }
    }
    return entries + [Entry(o.operands, [Variant(o.args, Transformed(o.metadata))])], Ok(()), o.metadata;
  }

  lemma UpdatedNotEmpty(variants: seq<Variant>, o: Operation)
    ensures Updated(variants, o).Some? ==> Updated(variants, o).value != []
  {
  }

  lemma OtherEntryKept(e: Entry, o: Operation, seen: set<Operation>)
    requires EntryOk(e, seen) && e.operands != o.operands
    ensures EntryOk(e, seen + {o})
  {
    assert WithOperands(seen + {o}, e.operands) == WithOperands(seen, e.operands);
  }

  lemma SameOperandsSameEntries(entries: seq<Entry>, result: seq<Entry>, o: Operation, seen: set<Operation>, k: nat)
    requires AllHaveEntry(entries, seen) && |entries| <= |result| && k < |result| && result[k].operands == o.operands
    requires forall i :: 0 <= i < |entries| ==> result[i].operands == entries[i].operands
    ensures AllHaveEntry(result, seen + {o})
  {
    forall p | p in seen + {o}
      ensures HasOperands(result, p.operands)
    {
      if p in seen {
        assert HasOperands(entries, p.operands);
        var i :| 0 <= i < |entries| && entries[i].operands == p.operands;
        assert result[i].operands == p.operands;
      } else {
        assert result[k].operands == o.operands;
      }
    }
  }

  lemma EntryReplaced(entries: seq<Entry>, o: Operation, seen: set<Operation>, k: nat, variants: seq<Variant>)
    requires EntriesOk(entries, seen) && k < |entries| && entries[k].operands == o.operands
    requires variants != [] && VariantsOk(variants, WithOperands(seen, o.operands) + {o})
    ensures EntriesOk(entries[k := entries[k].(variants := variants)], seen + {o})
  {
    var result := entries[k := entries[k].(variants := variants)];
    assert WithOperands(seen + {o}, o.operands) == WithOperands(seen, o.operands) + {o};
    forall i | 0 <= i < |result|
      ensures EntryOk(result[i], seen + {o})
    {
      if i != k { OtherEntryKept(entries[i], o, seen); }
    }
    SameOperandsSameEntries(entries, result, o, seen, k);
  }

  lemma EntryCreated(entries: seq<Entry>, o: Operation, seen: set<Operation>)
    requires AllHaveEntry(entries, seen) && EntryFor(entries, o.operands, 0).None?
    ensures EntryOk(Entry(o.operands, [Variant(o.args, Transformed(o.metadata))]), seen + {o})
  {
    forall p | p in seen
      ensures p.operands != o.operands
    {
      assert HasOperands(entries, p.operands);
    }
    assert WithOperands(seen + {o}, o.operands) == {} + {o};
    NewVariantKeeps([], o, {});
    assert [] + [Variant(o.args, Transformed(o.metadata))] == [Variant(o.args, Transformed(o.metadata))];
  }

  lemma EntryAppended(entries: seq<Entry>, o: Operation, seen: set<Operation>)
    requires EntriesOk(entries, seen) && EntryFor(entries, o.operands, 0).None?
    ensures EntriesOk(entries + [Entry(o.operands, [Variant(o.args, Transformed(o.metadata))])], seen + {o})
  {
    var e := Entry(o.operands, [Variant(o.args, Transformed(o.metadata))]);
    EntryCreated(entries, o, seen);
    forall i | 0 <= i < |entries|
      ensures EntryOk(entries[i], seen + {o})
    {
      OtherEntryKept(entries[i], o, seen);
    }
    SameOperandsSameEntries(entries, entries + [e], o, seen, |entries|);
  }

  lemma AddedKeeps(entries: seq<Entry>, o: Operation, seen: set<Operation>)
    requires EntriesOk(entries, seen) && Added(entries, o).Some?
    ensures EntriesOk(Added(entries, o).value, seen + {o})
  {
    match EntryFor(entries, o.operands, 0)
    case None => EntryAppended(entries, o, seen);
    case Some(k) =>
      assert EntryOk(entries[k], seen);
      UpdateKeeps(entries[k].variants, o, WithOperands(seen, o.operands));
      UpdatedNotEmpty(entries[k].variants, o);
      EntryReplaced(entries, o, seen, k, Updated(entries[k].variants, o).value);
  }

  // ----- the whole table

  type Table = map<string, seq<Entry>>

  ghost function OfFunction(seen: set<Operation>, callee: string): set<Operation> {
    set o | o in seen && o.callee == callee
  }

  ghost predicate TableOk(table: Table, seen: set<Operation>) {
    && (forall o :: o in seen ==> o.callee in table)
    && (forall f :: f in table ==> table[f] != [] && EntriesOk(table[f], OfFunction(seen, f)))
  }

  ghost function SetOf(ops: seq<Operation>): set<Operation> {
    set o | o in ops
  }

  function Extended(table: Table, o: Operation): Option<Table> {
    if o.callee in table then
      match Added(table[o.callee], o)
      case None => None
      case Some(entries) => Some(table[o.callee := entries])
    else Some(table[o.callee := [Entry(o.operands, [Variant(o.args, Transformed(o.metadata))])]])
  }

  /** Operations of one function name the same metadata. */
  ghost predicate UniformMetadata(seen: set<Operation>) {
    forall o, p :: o in seen && p in seen && o.callee == p.callee ==> o.metadata.Keys == p.metadata.Keys
  }

  lemma FirstEntryOk(o: Operation)
    ensures EntriesOk([Entry(o.operands, [Variant(o.args, Transformed(o.metadata))])], {o})
  {
    AddedKeeps([], o, {});
    assert [] + [Entry(o.operands, [Variant(o.args, Transformed(o.metadata))])] ==
           [Entry(o.operands, [Variant(o.args, Transformed(o.metadata))])];
    assert {} + {o} == {o};
  }

  lemma ExtendedKeeps(table: Table, o: Operation, seen: set<Operation>)
    requires TableOk(table, seen) && Extended(table, o).Some?
    ensures TableOk(Extended(table, o).value, seen + {o})
  {
    var result, more := Extended(table, o).value, seen + {o};
    forall f | f in result
      ensures result[f] != [] && EntriesOk(result[f], OfFunction(more, f))
    {
      if f != o.callee {
        assert OfFunction(more, f) == OfFunction(seen, f);
      } else if f in table {
        assert OfFunction(more, f) == OfFunction(seen, f) + {o};
        AddedKeeps(table[f], o, OfFunction(seen, f));
      } else {
        assert OfFunction(more, f) == {o};
        FirstEntryOk(o);
      }
    }
  }

  // ----- when an operation is rejected

  /** Operation o is recorded with p, if p came first. */
  ghost predicate Joins(o: Operation, p: Operation) {
    p.callee == o.callee && p.operands == o.operands && Included(p.args, o.args)
  }

  /** Operation j is the first that operation k is recorded with. */
  ghost predicate FirstJoined(ops: seq<Operation>, k: nat, j: nat)
    requires j < k < |ops|
  {
    Joins(ops[k], ops[j]) && forall i :: 0 <= i < j ==> !Joins(ops[k], ops[i])
  }

  /** The first operation that operation k is recorded with lacks one of its metadata names. */
  ghost predicate Rejected(ops: seq<Operation>, k: nat)
    requires k < |ops|
  {
    exists j :: 0 <= j < k && FirstJoined(ops, k, j) && !(ops[k].metadata.Keys <= ops[j].metadata.Keys)
  }

  /** What the first operation recorded in a variant fixes: its arguments and its metadata names. */
  datatype Founder = Founder(args: Args, names: set<string>)

  ghost predicate MatchesNone(founders: seq<Founder>, args: Args, n: nat)
    requires n <= |founders|
  {
    forall i :: 0 <= i < n ==> !Included(founders[i].args, args)
  }

  /** The operations of a function, with these operands, whose arguments included no earlier founder's. */
  ghost function Founders(ops: seq<Operation>, f: string, operands: Operands): seq<Founder> {
    if ops == [] then []
    else
      var o, before := ops[|ops| - 1], Founders(ops[..|ops| - 1], f, operands);
      if o.callee == f && o.operands == operands && MatchesNone(before, o.args, |before|) then
        before + [Founder(o.args, o.metadata.Keys)]
      else before
  }

  /** Founder i is the first one included in the operation, and lacks one of its metadata names. */
  ghost predicate Lacks(founders: seq<Founder>, o: Operation, i: nat) {
    && i < |founders| && MatchesNone(founders, o.args, i)
    && Included(founders[i].args, o.args) && !(o.metadata.Keys <= founders[i].names)
  }

  lemma {:induction false} FoundersPrefix(ops: seq<Operation>, f: string, operands: Operands, k: nat)
    requires k <= |ops|
    ensures Founders(ops[..k], f, operands) <= Founders(ops, f, operands)
    decreases |ops| - k
  {
    if k == |ops| {
      assert ops[..k] == ops;
    } else {
      FoundersPrefix(ops, f, operands, k + 1);
      assert ops[..k + 1][..k] == ops[..k];
    }
  }

  /** The operation that gave rise to a founder included none of the founders before it. */
  lemma {:induction false} FounderFrom(ops: seq<Operation>, f: string, operands: Operands, i: nat) returns (k: nat)
    requires i < |Founders(ops, f, operands)|
    ensures k < |ops| && ops[k].callee == f && ops[k].operands == operands
    ensures Founder(ops[k].args, ops[k].metadata.Keys) == Founders(ops, f, operands)[i]
    ensures var before := Founders(ops[..k], f, operands); MatchesNone(before, ops[k].args, |before|)
  {
    var before := ops[..|ops| - 1];
    if i < |Founders(before, f, operands)| {
      k := FounderFrom(before, f, operands, i);
      assert before[..k] == ops[..k];
    } else {
      k := |ops| - 1;
    }
  }

  lemma IncludedTransitive(a: Args, b: Args, c: Args)
    ensures Included(a, b) && Included(b, c) ==> Included(a, c)
  {
  }

  /** The first operation that operation k is recorded with founded the record it joins. */
  lemma FirstJoinedFounds(ops: seq<Operation>, k: nat, j: nat) returns (n: nat)
    requires j < k < |ops| && FirstJoined(ops, k, j)
    ensures var founders := Founders(ops[..k], ops[k].callee, ops[k].operands);
            && n < |founders| && founders[n] == Founder(ops[j].args, ops[j].metadata.Keys)
            && MatchesNone(founders, ops[k].args, n)
  {
    var o := ops[k];
    var before := Founders(ops[..j], o.callee, o.operands);
    n := |before|;
    forall i | 0 <= i < n
      ensures !Included(before[i].args, o.args) && !Included(before[i].args, ops[j].args)
    {
      var m := FounderFrom(ops[..j], o.callee, o.operands, i);
      assert !Joins(o, ops[m]);
      IncludedTransitive(before[i].args, ops[j].args, o.args);
    }
    assert ops[..k][..j] == ops[..j] && ops[..k][..j + 1] == ops[..j + 1] && ops[..j + 1][..j] == ops[..j];
    FoundersPrefix(ops[..k], o.callee, o.operands, j);
    FoundersPrefix(ops[..k], o.callee, o.operands, j + 1);
  }

  lemma FirstJoinedExists(ops: seq<Operation>, k: nat, m: nat) returns (j: nat)
    requires m < k < |ops| && Joins(ops[k], ops[m])
    ensures j < k && FirstJoined(ops, k, j)
  {
    j := m;
    while !FirstJoined(ops, k, j)
      invariant j < k && Joins(ops[k], ops[j])
      decreases j
    {
      var i: nat :| i < j && Joins(ops[k], ops[i]);
      j := i;
    }
  }

  /** Judging by the table's records is the same as judging by the operations. */
  lemma RejectedExactly(ops: seq<Operation>, k: nat)
    requires k < |ops|
    ensures (exists i :: Lacks(Founders(ops[..k], ops[k].callee, ops[k].operands), ops[k], i)) <==> Rejected(ops, k)
  {
    var o, founders := ops[k], Founders(ops[..k], ops[k].callee, ops[k].operands);
    if Rejected(ops, k) {
      var j :| 0 <= j < k && FirstJoined(ops, k, j) && !(o.metadata.Keys <= ops[j].metadata.Keys);
      var n := FirstJoinedFounds(ops, k, j);
      assert Lacks(founders, o, n);
    }
    if i :| Lacks(founders, o, i) {
      var m := FounderFrom(ops[..k], o.callee, o.operands, i);
      var j := FirstJoinedExists(ops, k, m);
      var n := FirstJoinedFounds(ops, k, j);
      assert Included(founders[n].args, o.args) && i == n;
    }
  }

  ghost predicate NoneRejected(ops: seq<Operation>, from: nat, to: nat)
    requires to <= |ops|
  {
    forall k :: from <= k < to ==> !Rejected(ops, k)
  }

  ghost function Shape(variants: seq<Variant>): (r: seq<Founder>)
    ensures |r| == |variants|
    ensures forall i :: 0 <= i < |variants| ==> r[i] == Founder(variants[i].args, variants[i].metadata.Keys)
  {
    seq(|variants|, i requires 0 <= i < |variants| => Founder(variants[i].args, variants[i].metadata.Keys))
  }

  ghost function VariantsIn(entries: seq<Entry>, operands: Operands): seq<Variant> {
    var k := EntryFor(entries, operands, 0);
    if k.Some? then entries[k.value].variants else []
  }

  ghost function VariantsOf(table: Table, f: string, operands: Operands): seq<Variant> {
    if f in table then VariantsIn(table[f], operands) else []
  }

  /** The table has one variant per founder. */
  ghost predicate Shaped(table: Table, ops: seq<Operation>) {
    forall f, operands {:trigger VariantsOf(table, f, operands)} ::
      Shape(VariantsOf(table, f, operands)) == Founders(ops, f, operands)
  }

  ghost predicate Built(table: Table, ops: seq<Operation>) {
    TableOk(table, SetOf(ops)) && Shaped(table, ops)
  }

  /** The table accounts for the first k operations and for part of operation k, which was rejected. */
  ghost predicate PartlyBuilt(table: Table, ops: seq<Operation>, k: nat)
    requires k < |ops|
  {
    && Rejected(ops, k)
    && exists part :: PartOf(part, ops[k].metadata) && TableOk(table, SetOf(ops[..k]) + {With(ops[k], part)})
  }

  ghost predicate FailedSince(table: Table, ops: seq<Operation>, from: nat) {
    exists k :: from <= k < |ops| && PartlyBuilt(table, ops, k)
  }

  lemma NoneRejectedNext(ops: seq<Operation>, from: nat, k: nat)
    requires from <= k < |ops| && NoneRejected(ops, from, k) && !Rejected(ops, k)
    ensures NoneRejected(ops, from, k + 1)
  {
  }

  lemma FailedAt(table: Table, ops: seq<Operation>, from: nat, k: nat)
    requires from <= k < |ops| && PartlyBuilt(table, ops, k)
    ensures FailedSince(table, ops, from) && !NoneRejected(ops, from, |ops|)
  {
  }

  lemma UpdatedShape(variants: seq<Variant>, o: Operation)
    ensures var shape := Shape(variants);
            if MatchesNone(shape, o.args, |shape|) then
              && Updated(variants, o).Some?
              && Shape(Updated(variants, o).value) == shape + [Founder(o.args, o.metadata.Keys)]
            else Updated(variants, o).Some? ==> Shape(Updated(variants, o).value) == shape
  {
    var shape, k := Shape(variants), FirstMatch(variants, o.args, 0);
    if k.Some? {
      assert Included(shape[k.value].args, o.args);
      assert Appended(variants[k.value].metadata, o.metadata).Keys == variants[k.value].metadata.Keys;
    } else {
      assert Transformed(o.metadata).Keys == o.metadata.Keys;
      assert Shape(variants + [Variant(o.args, Transformed(o.metadata))]) == shape + [Founder(o.args, o.metadata.Keys)];
    }
  }

  lemma UpdateFailure(variants: seq<Variant>, o: Operation)
    ensures Updated(variants, o).None? <==> exists i :: Lacks(Shape(variants), o, i)
  {
    var shape, k := Shape(variants), FirstMatch(variants, o.args, 0);
    if k.Some? {
      assert MatchesNone(shape, o.args, k.value) && Included(shape[k.value].args, o.args);
      assert shape[k.value].names == variants[k.value].metadata.Keys;
      if !(o.metadata.Keys <= variants[k.value].metadata.Keys) {
        assert Lacks(shape, o, k.value);
      }
      forall i: nat | Lacks(shape, o, i)
        ensures i == k.value
      {
        assert Included(variants[i].args, o.args);
      }
    } else {
      forall i: nat | i < |shape|
        ensures !Included(shape[i].args, o.args)
      {
        assert !Included(variants[i].args, o.args);
      }
    }
  }

  lemma {:induction false} EntryForSameOperands(entries: seq<Entry>, entries': seq<Entry>, operands: Operands,
                                                from: nat)
    requires from <= |entries| == |entries'|
    requires forall i :: 0 <= i < |entries| ==> entries'[i].operands == entries[i].operands
    ensures EntryFor(entries', operands, from) == EntryFor(entries, operands, from)
    decreases |entries| - from
  {
    if from < |entries| {
      EntryForSameOperands(entries, entries', operands, from + 1);
    }
  }

  lemma {:induction false} EntryForSnoc(entries: seq<Entry>, e: Entry, operands: Operands, from: nat)
    requires from <= |entries|
    ensures EntryFor(entries + [e], operands, from) ==
            if EntryFor(entries, operands, from).Some? then EntryFor(entries, operands, from)
            else if e.operands == operands then Some(|entries|) else None
    decreases |entries| - from
  {
    if from < |entries| {
      EntryForSnoc(entries, e, operands, from + 1);
    }
  }

  /** Adding an operation changes the variants of its own operands only. */
  lemma AddedVariants(entries: seq<Entry>, o: Operation, operands: Operands)
    ensures Added(entries, o).Some? <==> Updated(VariantsIn(entries, o.operands), o).Some?
    ensures Added(entries, o).Some? ==>
              Some(VariantsIn(Added(entries, o).value, operands)) ==
              if operands == o.operands then Updated(VariantsIn(entries, operands), o)
              else Some(VariantsIn(entries, operands))
  {
    match EntryFor(entries, o.operands, 0)
    case None =>
      EntryForSnoc(entries, Entry(o.operands, [Variant(o.args, Transformed(o.metadata))]), operands, 0);
      assert [] + [Variant(o.args, Transformed(o.metadata))] == [Variant(o.args, Transformed(o.metadata))];
    case Some(k) =>
      var variants := Updated(entries[k].variants, o);
      if variants.Some? {
        EntryForSameOperands(entries, entries[k := entries[k].(variants := variants.value)], operands, 0);
      }
  }

  lemma ExtendedVariants(table: Table, o: Operation, f: string, operands: Operands)
    ensures Extended(table, o).Some? <==> Updated(VariantsOf(table, o.callee, o.operands), o).Some?
    ensures Extended(table, o).Some? ==>
              Some(VariantsOf(Extended(table, o).value, f, operands)) ==
              if f == o.callee && operands == o.operands then Updated(VariantsOf(table, f, operands), o)
              else Some(VariantsOf(table, f, operands))
  {
    if o.callee in table {
      AddedVariants(table[o.callee], o, operands);
    } else {
      AddedVariants([], o, operands);
      assert [] + [Entry(o.operands, [Variant(o.args, Transformed(o.metadata))])] ==
             [Entry(o.operands, [Variant(o.args, Transformed(o.metadata))])];
    }
  }

  lemma ShapedNext(table: Table, ops: seq<Operation>, k: nat, f: string, operands: Operands)
    requires k < |ops| && Shaped(table, ops[..k]) && Extended(table, ops[k]).Some?
    ensures Shape(VariantsOf(Extended(table, ops[k]).value, f, operands)) == Founders(ops[..k + 1], f, operands)
  {
    var o := ops[k];
    assert ops[..k + 1][..k] == ops[..k];
    assert Shape(VariantsOf(table, f, operands)) == Founders(ops[..k], f, operands);
    ExtendedVariants(table, o, f, operands);
    UpdatedShape(VariantsOf(table, f, operands), o);
  }

  lemma RejectedIsNotExtended(table: Table, ops: seq<Operation>, k: nat)
    requires k < |ops| && Shaped(table, ops[..k])
    ensures Extended(table, ops[k]).Some? <==> !Rejected(ops, k)
  {
    var o := ops[k];
    assert Shape(VariantsOf(table, o.callee, o.operands)) == Founders(ops[..k], o.callee, o.operands);
    ExtendedVariants(table, o, o.callee, o.operands);
    UpdateFailure(VariantsOf(table, o.callee, o.operands), o);
    RejectedExactly(ops, k);
  }

  lemma BuiltNext(table: Table, ops: seq<Operation>, k: nat)
    requires k < |ops| && Built(table, ops[..k])
    ensures Extended(table, ops[k]).Some? <==> !Rejected(ops, k)
    ensures Extended(table, ops[k]).Some? ==> Built(Extended(table, ops[k]).value, ops[..k + 1])
  {
    RejectedIsNotExtended(table, ops, k);
    if Extended(table, ops[k]).Some? {
      ExtendedKeeps(table, ops[k], SetOf(ops[..k]));
      assert ops[..k + 1] == ops[..k] + [ops[k]];
      assert SetOf(ops[..k + 1]) == SetOf(ops[..k]) + {ops[k]};
      forall f, operands
        ensures Shape(VariantsOf(Extended(table, ops[k]).value, f, operands)) == Founders(ops[..k + 1], f, operands)
      {
        ShapedNext(table, ops, k, f, operands);
      }
    }
  }

  /** Nothing is rejected when the operations of each function all name the same metadata. */
  lemma UniformIsAccepted(ops: seq<Operation>, k: nat)
    requires k < |ops| && UniformMetadata(SetOf(ops))
    ensures !Rejected(ops, k)
  {
    assert forall j :: 0 <= j < |ops| ==> ops[j] in SetOf(ops);
  }

  /** The same call twice: a metadata name that only the second use has is rejected, but not the other way round. */
  lemma ExtraMetadataIsRejected(o: Operation, p: Operation, name: string)
    requires o.callee == p.callee && o.operands == p.operands && o.args == p.args
    requires name in p.metadata && name !in o.metadata
    ensures Rejected([o, p], 1)
    ensures o.metadata.Keys <= p.metadata.Keys ==> !Rejected([p, o], 1)
  {
    assert FirstJoined([o, p], 1, 0);
  }

  // ----- the table as the code builds it

  class UniqueOperations {
    var table: Table

    constructor ()
      ensures table == map[] && Built(table, [])
    {
      table := map[];
    }

    /** One operation, in the order of node ids. On failure the table has taken only part of its metadata. */
    method AddOperation(o: Operation) returns (r: Result<(), Error>, ghost done: Metadata)
      modifies this
      ensures PartOf(done, o.metadata) && Extended(old(table), With(o, done)) == Some(table)
      ensures r.Ok? <==> Extended(old(table), o).Some?
      ensures r.Ok? ==> done == o.metadata
    {
      if o.callee in table {
        var entries, added, part := AddOperandsArgs(table[o.callee], o);
        table := table[o.callee := entries];
        return added, part;
      }
      table := table[o.callee := [Entry(o.operands, [Variant(o.args, Transformed(o.metadata))])]];
      return Ok(()), o.metadata;
    }

    /** The k-th of all operations. */
    method AddNext(o: Operation, ghost all: seq<Operation>, ghost k: nat) returns (r: Result<(), Error>)
      requires k < |all| && all[k] == o && Built(table, all[..k])
      modifies this
      ensures r.Ok? <==> !Rejected(all, k)
      ensures r.Ok? ==> Built(table, all[..k + 1])
      ensures r.Err? ==> PartlyBuilt(table, all, k)
    {
      BuiltNext(table, all, k);
      ghost var before, done := table, map[];
      r, done := AddOperation(o);
      if r.Err? {
        ExtendedKeeps(before, With(o, done), SetOf(all[..k]));
      }
    }

    /**
     Extends the table of past operations with more. It accounts for all of them when it succeeds. It
     fails exactly when one of them is rejected, and then nothing recorded before is lost.
     */
    method CreateUniqueOperations(ops: seq<Operation>, ghost past: seq<Operation>) returns (r: Result<(), Error>)
      requires Built(table, past)
      modifies this
      ensures r.Ok? <==> NoneRejected(past + ops, |past|, |past + ops|)
      ensures r.Ok? ==> Built(table, past + ops)
      ensures r.Err? ==> FailedSince(table, past + ops, |past|)
    {
      ghost var all := past + ops;
      assert all[..|past|] == past;
      ghost var k := |past|;
      for i := 0 to |ops|
        invariant k == |past| + i && Built(table, all[..k]) && NoneRejected(all, |past|, k)
      {
        assert all[k] == ops[i];
        r := AddNext(ops[i], all, k);
        if r.Err? {
          FailedAt(table, all, |past|, k);
          return;
        }
        NoneRejectedNext(all, |past|, k);
        k := k + 1;
      }
      assert all[..k] == all;
      return Ok(());
    }
  }

  // ----- what the finished table says

  /** Every operation is recorded: its operands, arguments that include the recorded ones, and all its metadata. */
  lemma OperationIsRecorded(table: Table, seen: set<Operation>, o: Operation)
    requires TableOk(table, seen) && o in seen
    ensures o.callee in table
    ensures exists i :: 0 <= i < |table[o.callee]| &&
              table[o.callee][i].operands == o.operands && Covered(table[o.callee][i].variants, o)
  {
    var entries := table[o.callee];
    assert o in OfFunction(seen, o.callee);
    assert HasOperands(entries, o.operands);
    var i :| 0 <= i < |entries| && entries[i].operands == o.operands;
    assert EntryOk(entries[i], OfFunction(seen, o.callee));
    assert o in WithOperands(OfFunction(seen, o.callee), o.operands);
    assert Covered(entries[i].variants, o);
  }

  /** The table's record at one place: function f, entry i, variant j. */
  ghost predicate Place(table: Table, f: string, i: nat, j: nat) {
    f in table && i < |table[f]| && j < |table[f][i].variants|
  }

  lemma PlaceOk(table: Table, seen: set<Operation>, f: string, i: nat, j: nat)
    requires TableOk(table, seen) && Place(table, f, i, j)
    ensures VariantOk(table[f][i].variants[j], WithOperands(OfFunction(seen, f), table[f][i].operands))
  {
    assert EntryOk(table[f][i], OfFunction(seen, f));
  }

  /** Nothing is invented: each recorded argument list is that of some operation with these operands. */
  lemma ArgumentsAttested(table: Table, seen: set<Operation>, f: string, i: nat, j: nat) returns (o: Operation)
    requires TableOk(table, seen) && Place(table, f, i, j)
    ensures o in seen && o.callee == f && o.operands == table[f][i].operands && o.args == table[f][i].variants[j].args
  {
    PlaceOk(table, seen, f, i, j);
    var v := table[f][i].variants[j];
    o :| o in WithOperands(OfFunction(seen, f), table[f][i].operands) && o.args == v.args;
  }

  /** Each recorded metadata value is that of some operation the record stands for. */
  lemma MetadataAttested(table: Table, seen: set<Operation>, f: string, i: nat, j: nat, name: string, d: Detail)
    returns (o: Operation)
    requires TableOk(table, seen) && Place(table, f, i, j)
    requires var v := table[f][i].variants[j]; name in v.metadata && d in v.metadata[name]
    ensures o in seen && o.callee == f && o.operands == table[f][i].operands
    ensures Included(table[f][i].variants[j].args, o.args) && name in o.metadata && o.metadata[name] == d
  {
    PlaceOk(table, seen, f, i, j);
    var v, mine := table[f][i].variants[j], WithOperands(OfFunction(seen, f), table[f][i].operands);
    assert Attested(v, name, d, mine);
    o :| o in mine && Included(v.args, o.args) && name in o.metadata && o.metadata[name] == d;
  }
}
