/** Merging requirement lines from many files into one version per package, as setup.py does. */
module Requirements {
  import opened Wrappers

  /** A version of "" means the package was named without one. */
  datatype Spec = Spec(package: string, version: string)

  datatype Error = Unrecognized(line: string) | Conflicting(package: string, previous: string, version: string)

  // ----- one line

  predicate NameChar(c: char) {
    'a' <= c <= 'z' || 'A' <= c <= 'Z' || '0' <= c <= '9' || c == '_' || c == '-'
  }

  predicate RelationChar(c: char) { c in "<>=!~" }

  function NameLength(line: string): (n: nat)
    ensures n <= |line| && (forall i :: 0 <= i < n ==> NameChar(line[i])) && (n < |line| ==> !NameChar(line[n]))
  {
    if line != "" && NameChar(line[0]) then 1 + NameLength(line[1..]) else 0
  }

  /** A version part starts with a relation and has something after it on the same line. */
  predicate VersionPart(s: string) {
    |s| >= 2 && RelationChar(s[0]) && forall i :: 1 <= i < |s| ==> RelationChar(s[i]) || s[i] != '\n'
  }

  /** The match of the whole stripped line, which is neither blank nor a comment. */
  function ParseLine(line: string): (r: Result<Spec, Error>)
    ensures r.Ok? ==> r.value.package + r.value.version == line && r.value.package != ""
  {
    var n := NameLength(line);
    assert line[..n] + line[n..] == line;
    if n > 0 && (n == |line| || VersionPart(line[n..])) then Ok(Spec(line[..n], line[n..])) else Err(Unrecognized(line))
  }

  /** No other way to cut the line into a name and a version part exists. */
  lemma ParseIsUnique(line: string, package: string, version: string)
    requires line == package + version && package != "" && forall i :: 0 <= i < |package| ==> NameChar(package[i])
    requires version == "" || VersionPart(version)
    ensures ParseLine(line) == Ok(Spec(package, version))
  {
    var n := NameLength(line);
    assert forall i :: 0 <= i < |package| ==> line[i] == package[i];
    if version != "" {
      assert line[|package|] == version[0];
    }
    assert n == |package|;
    assert line[..n] == package && line[n..] == version;
  }

  /** Relation characters up to k, and at least one more character on the same line. */
  ghost predicate RelationUpTo(s: string, k: nat) {
    && 1 <= k < |s| && (forall i :: 0 <= i < k ==> s[i] in {'<', '>', '=', '!', '~'})
    && forall i :: k <= i < |s| ==> s[i] != '\n'
  }

  /** The grammar of a line by code points: letters, digits, `_` and `-`, then relations and some more text. */
  ghost predicate Recognizes(line: string, package: string, version: string) {
    && line == package + version && package != ""
    && (forall i :: 0 <= i < |package| ==>
          var n := package[i] as int;
          48 <= n <= 57 || 65 <= n <= 90 || 97 <= n <= 122 || n == 95 || n == 45)
    && (version == "" || exists k :: RelationUpTo(version, k))
  }

  lemma VersionExactly(s: string)
    ensures VersionPart(s) <==> exists k :: RelationUpTo(s, k)
  {
    if VersionPart(s) {
      assert forall i :: 1 <= i < |s| && RelationChar(s[i]) ==> s[i] in {'<', '>', '=', '!', '~'};
      assert RelationUpTo(s, 1);
    }
    if k :| RelationUpTo(s, k) {
      assert forall i :: 0 <= i < k ==> RelationChar(s[i]);
    }
  }

  /** What is parsed from a line is exactly what the grammar recognizes in it. */
  lemma ParseExactly(line: string, package: string, version: string)
    ensures ParseLine(line) == Ok(Spec(package, version)) <==> Recognizes(line, package, version)
  {
    VersionExactly(version);
    if Recognizes(line, package, version) {
      ParseIsUnique(line, package, version);
    }
  }

  // ----- the merge loop

  ghost predicate Mentions(specs: seq<Spec>, package: string) {
    exists i :: 0 <= i < |specs| && specs[i].package == package
  }

  /** Spec j disagrees with an earlier version, and no unversioned spec has come before it. */
  ghost predicate ConflictAt(specs: seq<Spec>, i: nat, j: nat) {
    && i < j < |specs| && specs[i].package == specs[j].package
    && specs[i].version != "" && specs[j].version != "" && specs[i].version != specs[j].version
    && Spec(specs[j].package, "") !in specs[..j]
  }

  ghost predicate Conflict(specs: seq<Spec>) {
    exists i: nat, j: nat :: ConflictAt(specs, i, j)
  }

  /** Unversioned if any spec was, and otherwise the version of every spec. */
  ghost predicate Merged(specs: seq<Spec>, final: map<string, string>) {
    && (forall p :: p in final <==> Mentions(specs, p))
    && (forall p :: p in final ==>
          if Spec(p, "") in specs then final[p] == ""
          else final[p] != "" && forall i :: 0 <= i < |specs| && specs[i].package == p ==> specs[i].version == final[p])
  }

  /** Blank lines and comments name no package. */
  predicate Skipped(line: string) { line == "" || line[0] == '#' }

  /** The specs of the recognized lines, in order. */
  function SpecsOf(lines: seq<string>): seq<Spec> {
    if lines == [] then []
    else
      var line, before := lines[|lines| - 1], SpecsOf(lines[..|lines| - 1]);
      if Skipped(line) || ParseLine(line).Err? then before else before + [ParseLine(line).value]
  }

  ghost predicate AllRecognized(lines: seq<string>) {
    forall i :: 0 <= i < |lines| ==> lines[i] == "" || "#" <= lines[i] || ParseLine(lines[i]).Ok?
  }

  lemma NoNewConflict(specs: seq<Spec>, j: nat, final: map<string, string>)
    requires j < |specs| && Merged(specs[..j], final) && !Conflict(specs[..j])
    requires var p, v := specs[j].package, specs[j].version; p in final && v != "" ==> final[p] == "" || final[p] == v
    ensures !Conflict(specs[..j + 1])
  {
    var before, after := specs[..j], specs[..j + 1];
    forall i: nat, k: nat
      ensures !ConflictAt(after, i, k)
    {
      if i < k < j {
        assert after[..k] == before[..k];
        assert !ConflictAt(before, i, k);
      } else if i < k == j {
        assert after[..k] == before && before[i] == specs[i];
        if specs[i].package == specs[j].package {
          assert Mentions(before, specs[j].package);
        }
      }
    }
  }

  lemma NewConflict(specs: seq<Spec>, j: nat, final: map<string, string>)
    requires j < |specs| && Merged(specs[..j], final)
    requires var p, v := specs[j].package, specs[j].version; p in final && v != "" && final[p] != "" && final[p] != v
    ensures Conflict(specs)
  {
    var p := specs[j].package;
    assert Mentions(specs[..j], p);
    var i :| 0 <= i < j && specs[..j][i].package == p;
    assert ConflictAt(specs, i, j);
  }

  lemma MergedNext(specs: seq<Spec>, j: nat, final: map<string, string>, final': map<string, string>)
    requires j < |specs| && Merged(specs[..j], final)
    requires var p, v := specs[j].package, specs[j].version;
             final' == if p in final && (final[p] == "" || final[p] == v) then final else final[p := v]
    requires var p, v := specs[j].package, specs[j].version; p in final && v != "" ==> final[p] == "" || final[p] == v
    ensures Merged(specs[..j + 1], final')
  {
    var before, after, p := specs[..j], specs[..j + 1], specs[j].package;
    assert after == before + [specs[j]];
    forall q
      ensures q in final' <==> Mentions(after, q)
    {
      if Mentions(before, q) {
        var i :| 0 <= i < |before| && before[i].package == q;
        assert after[i].package == q;
      }
      assert after[j].package == p;
    }
  }

  /** One turn of the loop, for the last of `specs`. */
  method MergeOne(required: map<string, string>, final: map<string, string>, spec: Spec, ghost specs: seq<Spec>)
    returns (required': map<string, string>, final': map<string, string>, r: Result<map<string, string>, Error>)
    requires specs != [] && specs[|specs| - 1] == spec && required == final
    requires Merged(specs[..|specs| - 1], final) && !Conflict(specs[..|specs| - 1])
    ensures r.Ok? ==> required' == final' && Merged(specs, final') && !Conflict(specs)
    ensures r.Err? ==> r.error.Conflicting? && Conflict(specs)
  {
    required', final' := required, final;
    ghost var j := |specs| - 1;
    var package, version := spec.package, spec.version;
    if package in required {
      var previous := required[package];
      if previous != version {
        if version == "" {
          required', final' := required[package := ""], final[package := ""];
        } else if previous != "" {
          NewConflict(specs, j, final);
          r := Err(Conflicting(package, previous, version));
          return;
        }
      }
    } else {
      required', final' := required[package := version], final[package := version];
    }
    NoNewConflict(specs, j, final);
    MergedNext(specs, j, final, final');
    assert specs[..j + 1] == specs;
    r := Ok(final');
  }

  lemma ConflictOfPrefix(specs: seq<Spec>, more: seq<Spec>)
    requires specs <= more
    ensures Conflict(specs) ==> Conflict(more)
  {
    forall i: nat, j: nat | ConflictAt(specs, i, j)
      ensures ConflictAt(more, i, j)
    {
      assert more[..j] == specs[..j];
    }
  }

  /** A conflict among the first lines is a conflict among all. */
  lemma {:induction false} ConflictLasts(lines: seq<string>, i: nat)
    requires i <= |lines|
    ensures SpecsOf(lines[..i]) <= SpecsOf(lines)
    ensures Conflict(SpecsOf(lines[..i])) ==> Conflict(SpecsOf(lines))
    decreases |lines| - i
  {
    if i == |lines| {
      assert lines[..i] == lines;
    } else {
      ConflictLasts(lines, i + 1);
      assert lines[..i + 1][..i] == lines[..i];
      ConflictOfPrefix(SpecsOf(lines[..i]), SpecsOf(lines[..i + 1]));
    }
  }

  lemma SpecsNext(lines: seq<string>, i: nat)
    requires i < |lines|
    ensures SpecsOf(lines[..i + 1]) ==
            if Skipped(lines[i]) || ParseLine(lines[i]).Err? then SpecsOf(lines[..i])
            else SpecsOf(lines[..i]) + [ParseLine(lines[i]).value]
    ensures AllRecognized(lines[..i + 1]) <==>
            AllRecognized(lines[..i]) && (lines[i] == "" || "#" <= lines[i] || ParseLine(lines[i]).Ok?)
  {
    assert lines[..i + 1] == lines[..i] + [lines[i]];
  }

  /** The stripped lines of all files. Fails exactly when a line has no such form or two versions conflict. */
  method CollectModelRequirements(lines: seq<string>) returns (r: Result<map<string, string>, Error>)
    ensures r.Ok? <==> AllRecognized(lines) && !Conflict(SpecsOf(lines))
    ensures r.Ok? ==> Merged(SpecsOf(lines), r.value)
  {
    var requirementMap: map<string, string>, finalRequirements: map<string, string> := map[], map[];
    for i := 0 to |lines|
      invariant requirementMap == finalRequirements && Merged(SpecsOf(lines[..i]), finalRequirements)
      invariant AllRecognized(lines[..i]) && !Conflict(SpecsOf(lines[..i]))
    {
      SpecsNext(lines, i);
      if Skipped(lines[i]) { continue; }
      var parsed := ParseLine(lines[i]);
      if parsed.Err? { return Err(parsed.error); }
      ghost var specs := SpecsOf(lines[..i + 1]);
      assert specs[..|specs| - 1] == SpecsOf(lines[..i]);
      ConflictLasts(lines, i + 1);
      requirementMap, finalRequirements, r := MergeOne(requirementMap, finalRequirements, parsed.value, specs);
      if r.Err? { return; }
    }
    assert lines[..|lines|] == lines;
    return Ok(finalRequirements);
  }

  lemma SameMembers(specs: seq<Spec>, specs': seq<Spec>)
    requires multiset(specs) == multiset(specs')
    ensures forall s :: s in specs ==> s in specs'
  {
    forall s | s in specs
      ensures s in specs'
    {
      assert s in multiset(specs);
    }
  }

  /** Two orders of the same specs that both succeed agree, so the sorted listing is the same. */
  lemma OrderIrrelevant(specs: seq<Spec>, specs': seq<Spec>, final: map<string, string>, final': map<string, string>)
    requires multiset(specs) == multiset(specs')
    requires Merged(specs, final) && Merged(specs', final')
    ensures final == final'
  {
    SameMembers(specs, specs');
    SameMembers(specs', specs);
    forall p | p in final
      ensures p in final' && final[p] == final'[p]
    {
      assert Mentions(specs, p);
      var i :| 0 <= i < |specs| && specs[i].package == p;
      assert specs[i] in specs';
      assert Mentions(specs', p);
    }
    forall p | p in final'
      ensures p in final
    {
      assert Mentions(specs', p);
      var i :| 0 <= i < |specs'| && specs'[i].package == p;
      assert specs'[i] in specs;
    }
  }

  // ----- when the order decides

  /** Some package is listed with two different versions. */
  ghost predicate TwoVersions(specs: seq<Spec>, p: string, v: string, w: string) {
    Spec(p, v) in specs && Spec(p, w) in specs && v != "" && w != "" && v != w
  }

  ghost predicate Rearranges(specs': seq<Spec>, specs: seq<Spec>) { multiset(specs') == multiset(specs) }

  function Select(specs: seq<Spec>, versioned: bool): (r: seq<Spec>)
    ensures forall s :: s in r <==> s in specs && (s.version != "") == versioned
  {
    if specs == [] then []
    else (if (specs[0].version != "") == versioned then [specs[0]] else []) + Select(specs[1..], versioned)
  }

  lemma {:induction false} SelectParts(specs: seq<Spec>)
    ensures multiset(Select(specs, true)) + multiset(Select(specs, false)) == multiset(specs)
  {
    if specs != [] {
      SelectParts(specs[1..]);
      assert specs == [specs[0]] + specs[1..];
    }
  }

  lemma ConflictHasTwoVersions(specs: seq<Spec>) returns (p: string, v: string, w: string)
    requires Conflict(specs)
    ensures TwoVersions(specs, p, v, w)
  {
    var i: nat, j: nat :| ConflictAt(specs, i, j);
    p, v, w := specs[i].package, specs[i].version, specs[j].version;
    assert specs[i] == Spec(p, v) && specs[j] == Spec(p, w);
  }

  /** Two versions conflict, unless the package is listed without a version before the later one. */
  lemma TwoVersionsConflict(specs: seq<Spec>, n: nat, p: string, v: string, w: string)
    requires n <= |specs| && TwoVersions(specs[..n], p, v, w) && Spec(p, "") !in specs[..n]
    ensures Conflict(specs)
  {
    var i: nat :| i < n && specs[..n][i] == Spec(p, v);
    var j: nat :| j < n && specs[..n][j] == Spec(p, w);
    var first, second := if i < j then i else j, if i < j then j else i;
    assert specs[..second] == specs[..n][..second];
    assert ConflictAt(specs, first, second);
  }

  lemma FrontComesFirst(front: seq<Spec>, back: seq<Spec>, j: nat, s: Spec)
    requires j < |front + back| && (front + back)[j].version != "" && s in front
    requires forall x :: x in front ==> x.version == ""
    ensures s in (front + back)[..j]
  {
    assert forall k :: 0 <= k < |front| ==> (front + back)[k] in front;
    assert (front + back)[..j][..|front|] == front;
  }

  /** Unversioned specs in front silence every conflict of their packages. */
  lemma UnversionedFirstSucceeds(specs: seq<Spec>)
    requires forall p, v, w :: TwoVersions(specs, p, v, w) ==> Spec(p, "") in specs
    ensures !Conflict(Select(specs, false) + Select(specs, true))
  {
    var front, back := Select(specs, false), Select(specs, true);
    var all := front + back;
    forall i: nat, j: nat
      ensures !ConflictAt(all, i, j)
    {
      if i < j < |all| && all[i].package == all[j].package && all[i].version != all[j].version {
        if all[i].version != "" && all[j].version != "" {
          assert all[i] in all && all[j] in all;
          assert all[i] == Spec(all[i].package, all[i].version) && all[j] == Spec(all[j].package, all[j].version);
          assert TwoVersions(specs, all[j].package, all[i].version, all[j].version);
          FrontComesFirst(front, back, j, Spec(all[j].package, ""));
        }
      }
    }
  }

  /** One order of the specs fails and another succeeds. */
  ghost predicate OrderDecides(specs: seq<Spec>) {
    exists a, b :: Rearranges(a, specs) && Rearranges(b, specs) && Conflict(a) && !Conflict(b)
  }

  lemma SelectRearranges(specs: seq<Spec>)
    ensures Rearranges(Select(specs, true) + Select(specs, false), specs)
    ensures Rearranges(Select(specs, false) + Select(specs, true), specs)
  {
    SelectParts(specs);
  }

  lemma VersionedFirstFails(specs: seq<Spec>, p: string, v: string, w: string)
    requires TwoVersions(specs, p, v, w)
    ensures Conflict(Select(specs, true) + Select(specs, false))
  {
    var versioned, late := Select(specs, true), Select(specs, true) + Select(specs, false);
    assert late[..|versioned|] == versioned;
    TwoVersionsConflict(late, |versioned|, p, v, w);
  }

  lemma DecidedBy(specs: seq<Spec>, a: seq<Spec>, b: seq<Spec>)
    requires Rearranges(a, specs) && Rearranges(b, specs) && Conflict(a) && !Conflict(b)
    ensures OrderDecides(specs)
  {
  }

  lemma BothOrders(specs: seq<Spec>, p: string, v: string, w: string)
    requires TwoVersions(specs, p, v, w) && forall p, v, w :: TwoVersions(specs, p, v, w) ==> Spec(p, "") in specs
    ensures OrderDecides(specs)
  {
    var versioned, unversioned := Select(specs, true), Select(specs, false);
    UnversionedFirstSucceeds(specs);
    VersionedFirstFails(specs, p, v, w);
    SelectRearranges(specs);
    DecidedBy(specs, versioned + unversioned, unversioned + versioned);
  }

  /**
   Two orders of the same specs can differ in success exactly when some package has two different
   versions, and every package that has is also listed without one.
   */
  lemma OrderDecidesExactly(specs: seq<Spec>)
    ensures OrderDecides(specs) <==>
            && (exists p, v, w :: TwoVersions(specs, p, v, w))
            && (forall p, v, w :: TwoVersions(specs, p, v, w) ==> Spec(p, "") in specs)
  {
    if a, b :| Rearranges(a, specs) && Rearranges(b, specs) && Conflict(a) && !Conflict(b) {
      var p, v, w := ConflictHasTwoVersions(a);
      SameMembers(a, specs);
      SameMembers(specs, b);
      SameMembers(b, specs);
      assert TwoVersions(specs, p, v, w);
      forall p, v, w | TwoVersions(specs, p, v, w)
        ensures Spec(p, "") in specs
      {
        assert b[..|b|] == b;
        if Spec(p, "") !in b { TwoVersionsConflict(b, |b|, p, v, w); }
      }
    }
    if p, v, w :| TwoVersions(specs, p, v, w) {
      if forall p, v, w :: TwoVersions(specs, p, v, w) ==> Spec(p, "") in specs {
        BothOrders(specs, p, v, w);
      }
    }
  }

  /** The order decides whether the merge succeeds: an unversioned spec silences only what comes after it. */
  lemma OrderDecidesSuccess(p: string, v: string, w: string)
    requires v != "" && w != "" && v != w
    ensures Conflict([Spec(p, v), Spec(p, w), Spec(p, "")])
    ensures !Conflict([Spec(p, ""), Spec(p, v), Spec(p, w)])
  {
    assert ConflictAt([Spec(p, v), Spec(p, w), Spec(p, "")], 0, 1);
    var late := [Spec(p, ""), Spec(p, v), Spec(p, w)];
    forall i: nat, j: nat
      ensures !ConflictAt(late, i, j)
    {
      if i < j < |late| {
        assert late[..j][0] == Spec(p, "");
      }
    }
  }
}
