/**
 Flattening nested inputs and outputs into lists of leaves, each with a name that tells where in its
 input it was found.
 */
module Flatten {
  import opened Wrappers
  import Decimal

  type Tensor(==, !new)

  /** A list or tuple, a dictionary in insertion order, an absent value, or a type that is not supported. */
  datatype Nest =
    | Leaf(tensor: Tensor)
    | Many(items: seq<Nest>)
    | Keyed(pairs: seq<Pair>)
    | Absent
    | Foreign

  datatype Pair = Pair(key: string, value: Nest)

  datatype Error = UnknownType | NamesMismatch

  // ----- sizes, for termination

  function Values(pairs: seq<Pair>): (r: seq<Nest>)
    ensures |r| == |pairs| && forall i :: 0 <= i < |pairs| ==> r[i] == pairs[i].value
  {
    seq(|pairs|, i requires 0 <= i < |pairs| => pairs[i].value)
  }

  function Size(n: Nest): (r: nat)
    ensures r >= 1
    decreases n
  {
    match n
    case Many(items) => 1 + SizeAll(items)
    case Keyed(pairs) => 1 + SizePairs(pairs)
    case _ => 1
  }

  function SizeAll(ns: seq<Nest>): nat
    decreases ns
  {
    if ns == [] then 0 else Size(ns[0]) + SizeAll(ns[1..])
  }

  function SizePairs(ps: seq<Pair>): nat
    decreases ps
  {
    if ps == [] then 0 else Size(ps[0].value) + SizePairs(ps[1..])
  }

  lemma {:induction false} SizePairsIsSizeAll(ps: seq<Pair>)
    ensures SizePairs(ps) == SizeAll(Values(ps))
  {
    if ps != [] {
      assert Values(ps)[1..] == Values(ps[1..]);
      SizePairsIsSizeAll(ps[1..]);
    }
  }

  lemma {:induction false} ItemIsSmaller(ns: seq<Nest>, i: nat)
    requires i < |ns|
    ensures Size(ns[i]) <= SizeAll(ns)
  {
    if i > 0 {
      ItemIsSmaller(ns[1..], i - 1);
    }
  }

  // ----- what flattening means

  /** The immediate parts of a nest and the name each is given. */
  function Parts(n: Nest): (r: seq<Nest>)
    ensures SizeAll(r) < Size(n)
  {
    match n
    case Many(items) => items
    case Keyed(pairs) => SizePairsIsSizeAll(pairs); Values(pairs)
    case _ => []
  }

  /** What distinguishes the parts of one nest: a position or a key. */
  function Labels(n: Nest): (r: seq<string>)
    ensures |r| == |Parts(n)|
  {
    match n
    case Many(items) => seq(|items|, j requires 0 <= j < |items| => Decimal.Render(j))
    case Keyed(pairs) => seq(|pairs|, j requires 0 <= j < |pairs| => pairs[j].key)
    case _ => []
  }

  function PartNames(n: Nest, name: string): (r: seq<string>)
    ensures |r| == |Parts(n)|
  {
    seq(|Labels(n)|, j requires 0 <= j < |Labels(n)| => name + "_" + Labels(n)[j])
  }

  predicate Supported(n: Nest)
    decreases Size(n), 1
  {
    !n.Foreign? && AllSupported(Parts(n))
  }

  predicate AllSupported(ns: seq<Nest>)
    decreases SizeAll(ns), 2
  {
    ns == [] || (Supported(ns[0]) && AllSupported(ns[1..]))
  }

  /** The leaves, depth first. */
  function Leaves(n: Nest): seq<Tensor>
    decreases Size(n), 1
  {
    if n.Leaf? then [n.tensor] else AllLeaves(Parts(n))
  }

  function AllLeaves(ns: seq<Nest>): seq<Tensor>
    decreases SizeAll(ns), 2
  {
    if ns == [] then [] else Leaves(ns[0]) + AllLeaves(ns[1..])
  }

  /** The names of the leaves, in the same order. */
  function Names(n: Nest, name: string): (r: seq<string>)
    ensures |r| == |Leaves(n)|
    decreases Size(n), 1
  {
    if n.Leaf? then [name] else AllNames(Parts(n), PartNames(n, name))
  }

  function AllNames(ns: seq<Nest>, names: seq<string>): (r: seq<string>)
    requires |ns| == |names|
    ensures |r| == |AllLeaves(ns)|
    decreases SizeAll(ns), 2
  {
    if ns == [] then [] else Names(ns[0], names[0]) + AllNames(ns[1..], names[1..])
  }

  // ----- the code

  datatype Flattened = Flattened(tensors: seq<Tensor>, names: seq<string>, nameMap: map<string, seq<string>>)

  function Expected(inputs: seq<Nest>, names: seq<string>, nameMap: map<string, seq<string>>): Flattened
    requires |inputs| == |names|
  {
    Flattened(AllLeaves(inputs), AllNames(inputs, names), nameMap)
  }

  /** Each name that is not absent is mapped to the names of its leaves; a later use of a name wins. */
  function NameMap(inputs: seq<Nest>, names: seq<string>): map<string, seq<string>>
    requires |inputs| == |names|
  {
    if inputs == [] then map[]
    else
      var k := |inputs| - 1;
      var rest := NameMap(inputs[..k], names[..k]);
      if inputs[k].Absent? then rest else rest[names[k] := Names(inputs[k], names[k])]
  }

  lemma {:induction false} SupportedAt(ns: seq<Nest>, i: nat)
    requires i < |ns|
    ensures AllSupported(ns) <==> AllSupported(ns[..i]) && Supported(ns[i]) && AllSupported(ns[i + 1..])
    decreases |ns|
  {
    if i > 0 {
      assert ns[1..][..i - 1] == ns[..i][1..] && ns[1..][i..] == ns[i + 1..];
      SupportedAt(ns[1..], i - 1);
    } else {
      assert ns[1..] == ns[i + 1..];
    }
  }

  lemma {:induction false} SupportedSnoc(ns: seq<Nest>, i: nat)
    requires i < |ns|
    ensures AllSupported(ns[..i + 1]) <==> AllSupported(ns[..i]) && Supported(ns[i])
    decreases |ns|
  {
    assert ns[..i + 1][1..] == ns[1..][..i];
    if i > 0 {
      assert ns[..i][1..] == ns[1..][..i - 1];
      SupportedSnoc(ns[1..], i - 1);
    }
  }

  lemma {:induction false} LeavesSnoc(ns: seq<Nest>, i: nat)
    requires i < |ns|
    ensures AllLeaves(ns[..i + 1]) == AllLeaves(ns[..i]) + Leaves(ns[i])
    decreases |ns|
  {
    assert ns[..i + 1][1..] == ns[1..][..i];
    if i > 0 {
      assert ns[..i][1..] == ns[1..][..i - 1];
      LeavesSnoc(ns[1..], i - 1);
    }
  }

  lemma {:induction false} NamesSnoc(ns: seq<Nest>, names: seq<string>, i: nat)
    requires |ns| == |names| && i < |ns|
    ensures AllNames(ns[..i + 1], names[..i + 1]) == AllNames(ns[..i], names[..i]) + Names(ns[i], names[i])
    decreases |ns|
  {
    assert ns[..i + 1][1..] == ns[1..][..i] && names[..i + 1][1..] == names[1..][..i];
    if i > 0 {
      assert ns[..i][1..] == ns[1..][..i - 1] && names[..i][1..] == names[1..][..i - 1];
      NamesSnoc(ns[1..], names[1..], i - 1);
    }
  }

  method FlattenInputs(inputs: seq<Nest>, names: seq<string>) returns (r: Result<Flattened, Error>)
    requires |inputs| == |names|
    ensures r == if AllSupported(inputs) then Ok(Expected(inputs, names, NameMap(inputs, names))) else Err(UnknownType)
    decreases SizeAll(inputs), 2
  {
    var out := Flattened([], [], map[]);
    for i := 0 to |inputs|
      invariant AllSupported(inputs[..i])
      invariant out == Expected(inputs[..i], names[..i], NameMap(inputs[..i], names[..i]))
    {
      LeavesSnoc(inputs, i);
      NamesSnoc(inputs, names, i);
      SupportedSnoc(inputs, i);
      assert inputs[..i + 1][..i] == inputs[..i] && names[..i + 1][..i] == names[..i];
      SupportedAt(inputs, i);
      ItemIsSmaller(inputs, i);
      var part := FlattenOne(inputs[i], names[i]);
      if part.Err? { return Err(part.error); }
      out := Flattened(out.tensors + part.value.tensors, out.names + part.value.names,
                       if inputs[i].Absent? then out.nameMap else out.nameMap[names[i] := part.value.names]);
    }
    assert inputs[..|inputs|] == inputs && names[..|inputs|] == names;
    return Ok(out);
  }

  /** One turn of the loop: a list or dictionary is flattened recursively. */
  method FlattenOne(n: Nest, name: string) returns (r: Result<Flattened, Error>)
    ensures r.Ok? <==> Supported(n)
    ensures r.Ok? ==> r.value.tensors == Leaves(n) && r.value.names == Names(n, name)
    ensures r.Err? ==> r.error == UnknownType
    decreases Size(n), 1
  {
    match n
    case Many(items) =>
      var subNames := [];
      for j := 0 to |items|
        invariant subNames == PartNames(n, name)[..j]
      {
        subNames := subNames + [name + "_" + Decimal.Render(j)];
      }
      assert subNames == PartNames(n, name);
      r := FlattenInputs(items, subNames);
    case Keyed(pairs) =>
      var subNames, subInputs := [], [];
      for j := 0 to |pairs|
        invariant subNames == PartNames(n, name)[..j] && subInputs == Parts(n)[..j]
      {
        subNames, subInputs := subNames + [name + "_" + pairs[j].key], subInputs + [pairs[j].value];
      }
      assert subNames == PartNames(n, name) && subInputs == Parts(n);
      r := FlattenInputs(subInputs, subNames);
    case Leaf(t) => r := Ok(Flattened([t], [name], map[]));
    case Absent => r := Ok(Flattened([], [], map[]));
    case Foreign => r := Err(UnknownType);
  }

  method FlattenStructuredOutput(outputs: seq<Nest>) returns (r: Result<seq<Tensor>, Error>)
    ensures r == if AllSupported(outputs) then Ok(AllLeaves(outputs)) else Err(UnknownType)
    decreases SizeAll(outputs)
  {
    var newOutputs := [];
    for i := 0 to |outputs|
      invariant AllSupported(outputs[..i]) && newOutputs == AllLeaves(outputs[..i])
    {
      var out := outputs[i];
      LeavesSnoc(outputs, i);
      SupportedSnoc(outputs, i);
      SupportedAt(outputs, i);
      ItemIsSmaller(outputs, i);
      match out
      case Many(_) =>
        var sub := FlattenStructuredOutput(out.items);
        if sub.Err? { return sub; }
        newOutputs := newOutputs + sub.value;
      case Keyed(_) =>
        var sub := FlattenStructuredOutput(Parts(out));
        if sub.Err? { return sub; }
        newOutputs := newOutputs + sub.value;
      case Leaf(t) => newOutputs := newOutputs + [t];
      case Absent =>
      case Foreign => return Err(UnknownType);
    }
    assert outputs[..|outputs|] == outputs;
    return Ok(newOutputs);
  }

  // ----- the default names

  function DefaultNames(count: nat): (names: seq<string>)
    ensures |names| == count
  {
    seq(count, i requires 0 <= i < count => "input_" + Decimal.Render(i))
  }

  /** `x` is `name`, or `name` followed by an underscore and more. */
  ghost predicate Below(x: string, name: string) {
    |name| <= |x| && x[..|name|] == name && (|x| > |name| ==> x[|name|] == '_')
  }

  lemma {:induction false} NamesAreBelow(n: Nest, name: string)
    ensures forall x :: x in Names(n, name) ==> Below(x, name)
    decreases Size(n), 1
  {
    if !n.Leaf? {
      AllNamesAreBelow(Parts(n), PartNames(n, name), name);
    }
  }

  lemma {:induction false} AllNamesAreBelow(ns: seq<Nest>, names: seq<string>, name: string)
    requires |ns| == |names| && forall i :: 0 <= i < |names| ==> Below(names[i], name) && |names[i]| > |name|
    ensures forall x :: x in AllNames(ns, names) ==> Below(x, name)
    decreases SizeAll(ns), 2
  {
    if ns != [] {
      NamesAreBelow(ns[0], names[0]);
      AllNamesAreBelow(ns[1..], names[1..], name);
      forall x | x in Names(ns[0], names[0])
        ensures Below(x, name)
      {
        assert x[..|name|] == x[..|names[0]|][..|name|];
        assert x[|name|] == x[..|names[0]|][|name|];
      }
    }
  }

  /** None of the labels is another one, or another one followed by an underscore and more. */
  ghost predicate Apart(labels: seq<string>) {
    forall i, j :: 0 <= i < |labels| && 0 <= j < |labels| && i != j ==> !Below(labels[i], labels[j])
  }

  /** Of two labels of which names below both exist, the longer one extends the shorter one. */
  lemma LongerIsBelow(x: string, stem: string, a: string, b: string)
    requires |a| <= |b| && Below(x, stem + "_" + a) && Below(x, stem + "_" + b)
    ensures Below(b, a)
  {
    var short, long := stem + "_" + a, stem + "_" + b;
    assert short == x[..|short|] == x[..|long|][..|short|] == long[..|short|];
    assert a == short[|stem| + 1..] && b[..|a|] == long[..|short|][|stem| + 1..];
    if |a| < |b| {
      assert b[|a|] == long[|short|] == x[|short|];
    }
  }

  /** Labels that do not extend one another have no descendants of the same name. */
  lemma SiblingsApart(stem: string, a: string, b: string, x: string)
    requires !Below(a, b) && !Below(b, a) && Below(x, stem + "_" + a)
    ensures !Below(x, stem + "_" + b)
  {
    if Below(x, stem + "_" + b) {
      if |a| <= |b| {
        LongerIsBelow(x, stem, a, b);
      } else {
        LongerIsBelow(x, stem, b, a);
      }
    }
  }

  // ----- nests whose dictionaries have keys that do not extend one another

  ghost predicate KeysApart(n: Nest)
    decreases Size(n), 1
  {
    (n.Keyed? ==> Apart(Labels(n))) && AllKeysApart(Parts(n))
  }

  ghost predicate AllKeysApart(ns: seq<Nest>)
    decreases SizeAll(ns), 2
  {
    ns == [] || (KeysApart(ns[0]) && AllKeysApart(ns[1..]))
  }

  /** Positions differ and contain no underscore. */
  lemma PositionsApart(n: Nest)
    requires n.Many?
    ensures Apart(Labels(n))
  {
    var labels := Labels(n);
    forall i, j | 0 <= i < |labels| && 0 <= j < |labels| && i != j
      ensures !Below(labels[i], labels[j])
    {
      if Below(labels[i], labels[j]) {
        assert labels[i] == Decimal.Render(i) && '_' !in labels[i];
        assert labels[i] == labels[j] == Decimal.Render(j);
        Decimal.RenderInjective(i, j);
      }
    }
  }

  /** The names of siblings: a common stem and one label each. */
  ghost predicate Labelled(names: seq<string>, stem: string, labels: seq<string>) {
    |names| == |labels| && forall i :: 0 <= i < |names| ==> names[i] == stem + "_" + labels[i]
  }

  lemma {:induction false} LaterNamesApart(ns: seq<Nest>, names: seq<string>, stem: string, labels: seq<string>,
                                           a: string)
    requires |ns| == |names| && Labelled(names, stem, labels)
    requires forall i :: 0 <= i < |labels| ==> !Below(labels[i], a) && !Below(a, labels[i])
    ensures forall x :: x in AllNames(ns, names) ==> !Below(x, stem + "_" + a)
    decreases |ns|
  {
    if ns != [] {
      NamesAreBelow(ns[0], names[0]);
      forall x | x in Names(ns[0], names[0])
        ensures !Below(x, stem + "_" + a)
      {
        SiblingsApart(stem, labels[0], a, x);
      }
      LaterNamesApart(ns[1..], names[1..], stem, labels[1..], a);
    }
  }

  lemma DistinctConcat<T>(a: seq<T>, b: seq<T>)
    requires Distinct(a) && Distinct(b) && forall x :: x in a ==> x !in b
    ensures Distinct(a + b)
  {
    forall i, j | 0 <= i < j < |a + b|
      ensures (a + b)[i] != (a + b)[j]
    {
      if i < |a| <= j {
        assert (a + b)[i] in a && (a + b)[j] in b;
      }
    }
  }

  ghost predicate EachDistinct(ns: seq<Nest>, names: seq<string>)
    requires |ns| == |names|
  {
    forall i :: 0 <= i < |ns| ==> Distinct(Names(ns[i], names[i]))
  }

  /** Siblings whose labels are apart and whose own names are distinct. */
  lemma {:induction false} LabelledNamesDistinct(ns: seq<Nest>, names: seq<string>, stem: string, labels: seq<string>)
    requires |ns| == |names| && Labelled(names, stem, labels) && Apart(labels) && EachDistinct(ns, names)
    ensures Distinct(AllNames(ns, names))
    decreases |ns|
  {
    if ns != [] {
      LabelledNamesDistinct(ns[1..], names[1..], stem, labels[1..]);
      NamesAreBelow(ns[0], names[0]);
      LaterNamesApart(ns[1..], names[1..], stem, labels[1..], labels[0]);
      DistinctConcat(Names(ns[0], names[0]), AllNames(ns[1..], names[1..]));
    }
  }

  lemma {:induction false} NamesDistinct(n: Nest, name: string)
    requires KeysApart(n)
    ensures Distinct(Names(n, name))
    decreases Size(n), 1
  {
    if !n.Leaf? {
      if n.Many? { PositionsApart(n); }
      PartsDistinct(Parts(n), PartNames(n, name));
      LabelledNamesDistinct(Parts(n), PartNames(n, name), name, Labels(n));
    }
  }

  lemma {:induction false} PartsDistinct(ns: seq<Nest>, names: seq<string>)
    requires |ns| == |names| && AllKeysApart(ns)
    ensures EachDistinct(ns, names)
    decreases SizeAll(ns), 2
  {
    if ns != [] {
      NamesDistinct(ns[0], names[0]);
      PartsDistinct(ns[1..], names[1..]);
      forall i | 0 < i < |ns|
        ensures Distinct(Names(ns[i], names[i]))
      {
        assert ns[i] == ns[1..][i - 1] && names[i] == names[1..][i - 1];
      }
    }
  }

  /** The call as a caller makes it: names may be omitted, and must otherwise be as many as the inputs. */
  method FlattenNamed(inputs: seq<Nest>, names: Option<seq<string>>) returns (r: Result<Flattened, Error>)
    ensures var given := if names.Some? then names.value else DefaultNames(|inputs|);
            if |inputs| != |given| then r == Err(NamesMismatch)
            else if !AllSupported(inputs) then r == Err(UnknownType)
            else r == Ok(Expected(inputs, given, NameMap(inputs, given)))
  {
    var given := if names.Some? then names.value else DefaultNames(|inputs|);
    if |inputs| != |given| { return Err(NamesMismatch); }
    r := FlattenInputs(inputs, given);
  }

  function Positions(n: nat): (labels: seq<string>)
    ensures |labels| == n && forall i :: 0 <= i < n ==> labels[i] == Decimal.Render(i)
  {
    seq(n, i requires 0 <= i < n => Decimal.Render(i))
  }

  lemma DefaultNamesLabelled(ns: seq<Nest>)
    ensures Labelled(DefaultNames(|ns|), "input", Positions(|ns|)) && Apart(Positions(|ns|))
  {
    assert "input" + "_" == "input_";
    PositionsApart(Many(ns));
    assert Positions(|ns|) == Labels(Many(ns));
  }

  /**
   Lists, tuples and dictionaries nested to any depth give every leaf a name of its own, as long as no
   dictionary has a key that is another of its keys followed by an underscore and more.
   */
  lemma DefaultNamesDistinct(inputs: seq<Nest>)
    requires AllKeysApart(inputs)
    ensures Distinct(AllNames(inputs, DefaultNames(|inputs|)))
  {
    DefaultNamesLabelled(inputs);
    PartsDistinct(inputs, DefaultNames(|inputs|));
    LabelledNamesDistinct(inputs, DefaultNames(|inputs|), "input", Positions(|inputs|));
  }

  // ----- one dictionary: exactly when its names are distinct whatever it holds

  /** The dictionary with these keys and values. */
  function Dictionary(keys: seq<string>, values: seq<Nest>): (n: Nest)
    requires |keys| == |values|
    ensures n.Keyed? && Labels(n) == keys && Parts(n) == values
  {
    Keyed(seq(|keys|, i requires 0 <= i < |keys| => Pair(keys[i], values[i])))
  }

  lemma {:induction false} PartIsNamed(ns: seq<Nest>, names: seq<string>, i: nat, x: string)
    requires |ns| == |names| && i < |ns| && x in Names(ns[i], names[i])
    ensures x in AllNames(ns, names)
    decreases |ns|
  {
    if i > 0 {
      PartIsNamed(ns[1..], names[1..], i - 1, x);
    }
  }

  lemma RepeatsInConcat<T>(a: seq<T>, b: seq<T>)
    ensures !Distinct(b) ==> !Distinct(a + b)
    ensures (exists x :: x in a && x in b) ==> !Distinct(a + b)
  {
    if !Distinct(b) {
      var i, j :| 0 <= i < j < |b| && b[i] == b[j];
      assert (a + b)[|a| + i] == (a + b)[|a| + j];
    }
    if x :| x in a && x in b {
      var i, j :| 0 <= i < |a| && 0 <= j < |b| && a[i] == x == b[j];
      assert (a + b)[i] == (a + b)[|a| + j];
    }
  }

  /** A name of two different parts occurs twice. */
  lemma {:induction false} SharedNameRepeats(ns: seq<Nest>, names: seq<string>, i: nat, j: nat, x: string)
    requires |ns| == |names| && i < |ns| && j < |ns| && i != j
    requires x in Names(ns[i], names[i]) && x in Names(ns[j], names[j])
    ensures !Distinct(AllNames(ns, names))
    decreases |ns|
  {
    var first, rest := Names(ns[0], names[0]), AllNames(ns[1..], names[1..]);
    if i == 0 {
      PartIsNamed(ns[1..], names[1..], j - 1, x);
    } else if j == 0 {
      PartIsNamed(ns[1..], names[1..], i - 1, x);
    } else {
      SharedNameRepeats(ns[1..], names[1..], i - 1, j - 1, x);
    }
    RepeatsInConcat(first, rest);
  }

  lemma OneKey(key: string, t: Tensor, name: string)
    ensures Names(Keyed([Pair(key, Leaf(t))]), name) == [name + "_" + key]
  {
    var k, under := Keyed([Pair(key, Leaf(t))]), name + "_" + key;
    assert Parts(k) == [Leaf(t)] && PartNames(k, name) == [under];
    assert AllNames([Leaf(t)], [under]) == Names(Leaf(t), under) + AllNames([], []);
  }

  /** Leaves, except that a dictionary of one leaf stands at position j. */
  function Clashing(count: nat, j: nat, v: string, t: Tensor): (values: seq<Nest>)
    ensures |values| == count
    ensures forall i :: 0 <= i < count ==> values[i] == if i == j then Keyed([Pair(v, Leaf(t))]) else Leaf(t)
  {
    seq(count, i => if i == j then Keyed([Pair(v, Leaf(t))]) else Leaf(t))
  }

  lemma ClashingDistinct(names: seq<string>, j: nat, v: string, t: Tensor)
    ensures EachDistinct(Clashing(|names|, j, v, t), names)
  {
    if j < |names| { OneKey(v, t, names[j]); }
  }

  /** With a key u_v beside a key u, the dictionary {u_v: leaf, u: {v: leaf}} gives both leaves one name. */
  lemma SplitKeyCollides(keys: seq<string>, i: nat, j: nat, v: string, t: Tensor, name: string)
    requires i < |keys| && j < |keys| && i != j && keys[i] == keys[j] + "_" + v
    ensures var values := Clashing(|keys|, j, v, t);
            && Names(values[i], name + "_" + keys[i]) == Names(values[j], name + "_" + keys[j])
            && !Distinct(Names(Dictionary(keys, values), name))
  {
    var values := Clashing(|keys|, j, v, t);
    var names := PartNames(Dictionary(keys, values), name);
    OneKey(v, t, names[j]);
    assert names[j] + "_" + v == name + "_" + (keys[j] + "_" + v) == names[i];
    assert Names(values[i], names[i]) == [names[i]] == Names(values[j], names[j]);
    assert names[i] in Names(values[i], names[i]);
    SharedNameRepeats(values, names, i, j, names[i]);
  }

  /** Equal keys give their leaves one name. */
  lemma EqualKeysCollide(keys: seq<string>, i: nat, j: nat, t: Tensor, name: string)
    requires i < |keys| && j < |keys| && i != j && keys[i] == keys[j]
    ensures !Distinct(Names(Dictionary(keys, Clashing(|keys|, |keys|, "", t)), name))
  {
    var values := Clashing(|keys|, |keys|, "", t);
    var names := PartNames(Dictionary(keys, values), name);
    assert Names(values[i], names[i]) == [names[i]] == Names(values[j], names[j]);
    assert names[i] in Names(values[i], names[i]);
    SharedNameRepeats(values, names, i, j, names[i]);
  }

  /** The names of a dictionary with these keys are distinct whenever those of each of its values are. */
  ghost predicate KeepsDistinct(keys: seq<string>, name: string) {
    forall values {:trigger Dictionary(keys, values)} ::
      |values| == |keys| && EachDistinct(values, PartNames(Dictionary(keys, values), name)) ==>
        Distinct(Names(Dictionary(keys, values), name))
  }

  lemma ExtendedKeyBreaks(keys: seq<string>, i: nat, j: nat, t: Tensor, name: string)
    requires i < |keys| && j < |keys| && i != j && Below(keys[i], keys[j])
    ensures !KeepsDistinct(keys, name)
  {
    var u, k := keys[j], keys[i];
    if |k| > |u| {
      var v := k[|u| + 1..];
      assert k == u + "_" + v;
      SplitKeyCollides(keys, i, j, v, t, name);
      ClashingDistinct(PartNames(Dictionary(keys, Clashing(|keys|, j, v, t)), name), j, v, t);
    } else {
      EqualKeysCollide(keys, i, j, t, name);
      ClashingDistinct(PartNames(Dictionary(keys, Clashing(|keys|, |keys|, "", t)), name), |keys|, "", t);
    }
  }

  /**
   A dictionary keeps the names of its values distinct, whatever they are, exactly when none of its keys
   is another one, or another one followed by an underscore and more.
   */
  lemma KeysKeepNamesDistinctExactly(keys: seq<string>, t: Tensor, name: string)
    ensures KeepsDistinct(keys, name) <==> Apart(keys)
  {
    if Apart(keys) {
      forall values | |values| == |keys| && EachDistinct(values, PartNames(Dictionary(keys, values), name))
        ensures Distinct(Names(Dictionary(keys, values), name))
      {
        LabelledNamesDistinct(values, PartNames(Dictionary(keys, values), name), name, keys);
      }
    } else {
      var i, j :| 0 <= i < |keys| && 0 <= j < |keys| && i != j && Below(keys[i], keys[j]);
      ExtendedKeyBreaks(keys, i, j, t, name);
    }
  }

  // ----- the name map

  /** The mapped names of the inputs that are present, in input order. */
  function Mapped(inputs: seq<Nest>, names: seq<string>, nameMap: map<string, seq<string>>): seq<string>
    requires |inputs| == |names|
  {
    if inputs == [] then []
    else
      var k := |inputs| - 1;
      Mapped(inputs[..k], names[..k], nameMap) +
      if inputs[k].Absent? || names[k] !in nameMap then [] else nameMap[names[k]]
  }

  lemma {:induction false} NameMapKeys(inputs: seq<Nest>, names: seq<string>)
    requires |inputs| == |names|
    ensures forall x :: x in NameMap(inputs, names) ==> x in names
  {
    if inputs != [] {
      var k := |inputs| - 1;
      NameMapKeys(inputs[..k], names[..k]);
    }
  }

  lemma {:induction false} MappedIgnoresOthers(inputs: seq<Nest>, names: seq<string>, nameMap: map<string, seq<string>>,
                                               x: string, v: seq<string>)
    requires |inputs| == |names| && x !in names
    ensures Mapped(inputs, names, nameMap[x := v]) == Mapped(inputs, names, nameMap)
  {
    if inputs != [] {
      var k := |inputs| - 1;
      MappedIgnoresOthers(inputs[..k], names[..k], nameMap, x, v);
      assert names[k] in names;
    }
  }

  /** When the inputs have different names, the map read in input order lists all flattened names. */
  lemma {:induction false} NameMapListsNames(inputs: seq<Nest>, names: seq<string>)
    requires |inputs| == |names| && Distinct(names)
    ensures Mapped(inputs, names, NameMap(inputs, names)) == AllNames(inputs, names)
  {
    if inputs != [] {
      var k := |inputs| - 1;
      NameMapListsNames(inputs[..k], names[..k]);
      NamesSnoc(inputs, names, k);
      assert inputs[..k + 1] == inputs && names[..k + 1] == names;
      assert names[k] !in names[..k];
      var before := NameMap(inputs[..k], names[..k]);
      NameMapKeys(inputs[..k], names[..k]);
      MappedIgnoresOthers(inputs[..k], names[..k], before, names[k], Names(inputs[k], names[k]));
      assert inputs[k].Absent? ==> Names(inputs[k], names[k]) == [];
    }
  }
}
