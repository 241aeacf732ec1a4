/**
 Where each flattened leaf and its name come from: the paths from the inputs down to the leaves, in
 their order.
 */
module FlattenPaths {
  import opened Wrappers
  import opened Flatten
  import Decimal

  /** A position in a list or tuple, or in a dictionary's order of insertion, for each step down. */
  type Path = seq<nat>

  ghost function Child(n: Nest, i: nat): Option<Nest> {
    match n
    case Many(items) => if i < |items| then Some(items[i]) else None
    case Keyed(pairs) => if i < |pairs| then Some(pairs[i].value) else None
    case _ => None
  }

  /** What a step down adds to a name: the position or the key. */
  ghost function Step(n: Nest, i: nat): string {
    match n
    case Keyed(pairs) => if i < |pairs| then "_" + pairs[i].key else ""
    case _ => "_" + Decimal.Render(i)
  }

  ghost function Reach(n: Nest, p: Path): Option<Nest>
    decreases |p|
  {
    if p == [] then Some(n)
    else
      match Child(n, p[0])
      case None => None
      case Some(c) => Reach(c, p[1..])
  }

  ghost function NameAt(n: Nest, name: string, p: Path): string
    decreases |p|
  {
    if p == [] || Child(n, p[0]).None? then name
    else NameAt(Child(n, p[0]).value, name + Step(n, p[0]), p[1..])
  }

  /** Paths are compared step by step from the start. */
  ghost predicate Before(p: Path, q: Path)
    decreases |p|
  {
    p != [] && q != [] && (p[0] < q[0] || (p[0] == q[0] && Before(p[1..], q[1..])))
  }

  ghost predicate Ascending(paths: seq<Path>) {
    forall i, j :: 0 <= i < j < |paths| ==> Before(paths[i], paths[j])
  }

  /** One path for each leaf of the nest and none twice, in order, with the leaf's tensor and name. */
  ghost predicate ListsLeaves(n: Nest, name: string, paths: seq<Path>, tensors: seq<Tensor>, names: seq<string>) {
    && Ascending(paths) && |paths| == |tensors| == |names|
    && (forall k :: 0 <= k < |paths| ==>
          Reach(n, paths[k]) == Some(Leaf(tensors[k])) && names[k] == NameAt(n, name, paths[k]))
    && forall p {:trigger p in paths} :: Reach(n, p).Some? && Reach(n, p).value.Leaf? ==> p in paths
  }

  /** The part of some nests that a path leads to; its first step picks one of the first `count`. */
  ghost function ReachIn(ns: seq<Nest>, count: nat, p: Path): Option<Nest> {
    if p != [] && p[0] < count && p[0] < |ns| then Reach(ns[p[0]], p[1..]) else None
  }

  ghost predicate ListsAll(ns: seq<Nest>, given: seq<string>, count: nat, paths: seq<Path>, tensors: seq<Tensor>,
                           names: seq<string>)
    requires |given| == |ns|
  {
    && Ascending(paths) && |paths| == |tensors| == |names|
    && (forall k :: 0 <= k < |paths| ==>
          && ReachIn(ns, count, paths[k]) == Some(Leaf(tensors[k]))
          && names[k] == NameAt(ns[paths[k][0]], given[paths[k][0]], paths[k][1..]))
    && forall p {:trigger p in paths} :: ReachIn(ns, count, p).Some? && ReachIn(ns, count, p).value.Leaf? ==> p in paths
  }

  ghost function Under(i: nat, paths: seq<Path>): (r: seq<Path>)
    ensures |r| == |paths| && forall k :: 0 <= k < |paths| ==> r[k] == [i] + paths[k]
  {
    seq(|paths|, k requires 0 <= k < |paths| => [i] + paths[k])
  }

  lemma UnderAscending(i: nat, paths: seq<Path>)
    requires Ascending(paths)
    ensures Ascending(Under(i, paths))
  {
    forall a, b | 0 <= a < b < |paths|
      ensures Before([i] + paths[a], [i] + paths[b])
    {
      assert ([i] + paths[a])[1..] == paths[a] && ([i] + paths[b])[1..] == paths[b];
    }
  }

  lemma AscendingConcat(a: seq<Path>, b: seq<Path>, i: nat)
    requires Ascending(a) && Ascending(b)
    requires forall k :: 0 <= k < |a| ==> a[k] != [] && a[k][0] < i
    requires forall k :: 0 <= k < |b| ==> b[k] != [] && b[k][0] == i
    ensures Ascending(a + b)
  {
  }

  lemma OneMoreLeads(ns: seq<Nest>, given: seq<string>, i: nat, a: seq<Path>, ta: seq<Tensor>, na: seq<string>,
                     b: seq<Path>, tb: seq<Tensor>, nb: seq<string>, k: nat)
    requires |given| == |ns| && i < |ns| && k < |a| + |b|
    requires ListsAll(ns, given, i, a, ta, na) && ListsLeaves(ns[i], given[i], b, tb, nb)
    ensures var p := (a + Under(i, b))[k];
            && ReachIn(ns, i + 1, p) == Some(Leaf((ta + tb)[k]))
            && (na + nb)[k] == NameAt(ns[p[0]], given[p[0]], p[1..])
  {
    if k >= |a| {
      assert ([i] + b[k - |a|])[1..] == b[k - |a|];
    }
  }

  lemma OneMoreFound(ns: seq<Nest>, given: seq<string>, i: nat, a: seq<Path>, ta: seq<Tensor>, na: seq<string>,
                     b: seq<Path>, tb: seq<Tensor>, nb: seq<string>, p: Path)
    requires |given| == |ns| && i < |ns|
    requires ListsAll(ns, given, i, a, ta, na) && ListsLeaves(ns[i], given[i], b, tb, nb)
    requires ReachIn(ns, i + 1, p).Some? && ReachIn(ns, i + 1, p).value.Leaf?
    ensures p in a + Under(i, b)
  {
    if p[0] == i {
      assert p[1..] in b;
      var k :| 0 <= k < |b| && b[k] == p[1..];
      assert Under(i, b)[k] == [i] + p[1..] == p;
    } else {
      assert ReachIn(ns, i, p) == ReachIn(ns, i + 1, p);
      assert p in a;
    }
  }

  /** The paths into one more nest come last. */
  lemma OneMore(ns: seq<Nest>, given: seq<string>, i: nat, a: seq<Path>, ta: seq<Tensor>, na: seq<string>,
                b: seq<Path>, tb: seq<Tensor>, nb: seq<string>)
    requires |given| == |ns| && i < |ns|
    requires ListsAll(ns, given, i, a, ta, na) && ListsLeaves(ns[i], given[i], b, tb, nb)
    ensures ListsAll(ns, given, i + 1, a + Under(i, b), ta + tb, na + nb)
  {
    var paths := a + Under(i, b);
    UnderAscending(i, b);
    AscendingConcat(a, Under(i, b), i);
    forall k | 0 <= k < |paths|
      ensures ReachIn(ns, i + 1, paths[k]) == Some(Leaf((ta + tb)[k]))
      ensures (na + nb)[k] == NameAt(ns[paths[k][0]], given[paths[k][0]], paths[k][1..])
    {
      OneMoreLeads(ns, given, i, a, ta, na, b, tb, nb, k);
    }
    forall p | ReachIn(ns, i + 1, p).Some? && ReachIn(ns, i + 1, p).value.Leaf?
      ensures p in paths
    {
      OneMoreFound(ns, given, i, a, ta, na, b, tb, nb, p);
    }
  }

  /** A path into a list or dictionary is a path into its parts, under their names. */
  lemma PartPath(n: Nest, name: string, p: Path)
    requires !n.Leaf?
    ensures Reach(n, p).Some? && Reach(n, p).value.Leaf? <==>
            ReachIn(Parts(n), |Parts(n)|, p).Some? && ReachIn(Parts(n), |Parts(n)|, p).value.Leaf?
    ensures Reach(n, p).Some? && Reach(n, p).value.Leaf? ==>
              && Reach(n, p) == ReachIn(Parts(n), |Parts(n)|, p)
              && NameAt(n, name, p) == NameAt(Parts(n)[p[0]], PartNames(n, name)[p[0]], p[1..])
  {
    if p != [] && p[0] < |Parts(n)| {
      assert name + "_" + Labels(n)[p[0]] == name + ("_" + Labels(n)[p[0]]);
    }
  }

  lemma NestListed(n: Nest, name: string, paths: seq<Path>, tensors: seq<Tensor>, names: seq<string>)
    requires !n.Leaf? && ListsAll(Parts(n), PartNames(n, name), |Parts(n)|, paths, tensors, names)
    ensures ListsLeaves(n, name, paths, tensors, names)
  {
    forall p
      ensures Reach(n, p).Some? && Reach(n, p).value.Leaf? ==> p in paths
    {
      PartPath(n, name, p);
    }
    forall k | 0 <= k < |paths|
      ensures Reach(n, paths[k]) == Some(Leaf(tensors[k])) && names[k] == NameAt(n, name, paths[k])
    {
      PartPath(n, name, paths[k]);
    }
  }

  lemma LeafListed(t: Tensor, name: string)
    ensures ListsLeaves(Leaf(t), name, [[]], [t], [name])
  {
    forall p: Path | Reach(Leaf(t), p).Some?
      ensures p in [[]]
    {
      assert p == [];
    }
  }

  lemma {:induction false} PathsOf(n: Nest, name: string) returns (paths: seq<Path>)
    ensures ListsLeaves(n, name, paths, Leaves(n), Names(n, name))
    decreases Size(n), 1
  {
    if n.Leaf? {
      paths := [[]];
      LeafListed(n.tensor, name);
    } else {
      paths := PathsOfFirst(Parts(n), PartNames(n, name), |Parts(n)|);
      assert Parts(n)[..|Parts(n)|] == Parts(n) && PartNames(n, name)[..|Parts(n)|] == PartNames(n, name);
      NestListed(n, name, paths, Leaves(n), Names(n, name));
    }
  }

  lemma {:induction false} PathsOfFirst(ns: seq<Nest>, given: seq<string>, count: nat) returns (paths: seq<Path>)
    requires |given| == |ns| && count <= |ns|
    ensures ListsAll(ns, given, count, paths, AllLeaves(ns[..count]), AllNames(ns[..count], given[..count]))
    decreases SizeAll(ns), 2, count
  {
    if count == 0 {
      paths := [];
    } else {
      var i := count - 1;
      ItemIsSmaller(ns, i);
      var before := PathsOfFirst(ns, given, i);
      var last := PathsOf(ns[i], given[i]);
      paths := before + Under(i, last);
      OneMore(ns, given, i, before, AllLeaves(ns[..i]), AllNames(ns[..i], given[..i]),
              last, Leaves(ns[i]), Names(ns[i], given[i]));
      LeavesSnoc(ns, i);
      NamesSnoc(ns, given, i);
    }
  }

  /**
   Flattening lists every leaf of the inputs once, in the order of the paths that lead to them, and each
   is named after its input's name and every position or key on its path.
   */
  lemma FlattenFollowsPaths(inputs: seq<Nest>, given: seq<string>) returns (paths: seq<Path>)
    requires |given| == |inputs|
    ensures ListsAll(inputs, given, |inputs|, paths, AllLeaves(inputs), AllNames(inputs, given))
  {
    paths := PathsOfFirst(inputs, given, |inputs|);
    assert inputs[..|inputs|] == inputs && given[..|inputs|] == given;
  }

  // ----- what is supported, and what the name map says

  /** Some path leads to a value of an unsupported type. */
  ghost predicate HasForeign(ns: seq<Nest>) {
    exists p :: ReachIn(ns, |ns|, p) == Some(Foreign)
  }

  lemma {:induction false} SupportedReach(n: Nest, p: Path)
    requires Supported(n)
    ensures Reach(n, p) != Some(Foreign)
    decreases |p|
  {
    if p != [] && Child(n, p[0]).Some? {
      SupportedAt(Parts(n), p[0]);
      SupportedReach(Child(n, p[0]).value, p[1..]);
    }
  }

  lemma {:induction false} ForeignPath(n: Nest) returns (p: Path)
    requires !Supported(n)
    ensures Reach(n, p) == Some(Foreign)
    decreases Size(n), 1
  {
    if n.Foreign? {
      p := [];
    } else {
      p := ForeignPathIn(Parts(n));
    }
  }

  lemma {:induction false} ForeignPathIn(ns: seq<Nest>) returns (p: Path)
    requires !AllSupported(ns)
    ensures ReachIn(ns, |ns|, p) == Some(Foreign)
    decreases SizeAll(ns), 2
  {
    if !Supported(ns[0]) {
      var q := ForeignPath(ns[0]);
      p := [0] + q;
      assert p[1..] == q;
    } else {
      var q := ForeignPathIn(ns[1..]);
      p := [q[0] + 1] + q[1..];
      assert p[1..] == q[1..] && ns[p[0]] == ns[1..][q[0]];
    }
  }

  /** The inputs are supported exactly when no path leads to an unsupported value. */
  lemma SupportedExactly(inputs: seq<Nest>)
    ensures AllSupported(inputs) <==> !HasForeign(inputs)
  {
    if AllSupported(inputs) {
      forall p
        ensures ReachIn(inputs, |inputs|, p) != Some(Foreign)
      {
        if p != [] && p[0] < |inputs| {
          SupportedAt(inputs, p[0]);
          SupportedReach(inputs[p[0]], p[1..]);
        }
      }
    } else {
      var p := ForeignPathIn(inputs);
    }
  }

  /** A name is mapped to the names of the last present input that has it. */
  lemma {:induction false} NameMapExactly(inputs: seq<Nest>, names: seq<string>, i: nat)
    requires |inputs| == |names| && i < |inputs| && !inputs[i].Absent?
    requires forall j :: i < j < |inputs| && !inputs[j].Absent? ==> names[j] != names[i]
    ensures names[i] in NameMap(inputs, names) && NameMap(inputs, names)[names[i]] == Names(inputs[i], names[i])
  {
    var k := |inputs| - 1;
    if i < k {
      NameMapExactly(inputs[..k], names[..k], i);
    }
  }
}
