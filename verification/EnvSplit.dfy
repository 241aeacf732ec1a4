/** `env_as_vector`: delimiters are overwritten by terminators in a buffer, and the pieces read back as C strings. */
module EnvSplit {
  import opened Wrappers

  const NUL: char := '\0'

  predicate NoNul(s: string) { NUL !in s }

  predicate OccursAt(s: string, d: string, p: nat) {
    p + |d| <= |s| && forall i :: 0 <= i < |d| ==> s[p + i] == d[i]
  }

  /** The first occurrence at or after `from`. */
  function Find(s: string, d: string, from: nat): (r: Option<nat>)
    requires from <= |s|
    ensures r.Some? ==> from <= r.value && r.value + |d| <= |s|
    decreases |s| - from
  {
    if OccursAt(s, d, from) then Some(from) else if from == |s| then None else Find(s, d, from + 1)
  }

  /** What is found is the first occurrence, and nothing is found only when there is none. */
  lemma {:induction false} FindSpec(s: string, d: string, from: nat)
    requires from <= |s|
    ensures var r := Find(s, d, from);
            if r.Some? then OccursAt(s, d, r.value) && forall p :: from <= p < r.value ==> !OccursAt(s, d, p)
            else forall p :: from <= p ==> !OccursAt(s, d, p)
    decreases |s| - from
  {
    if !OccursAt(s, d, from) && from < |s| {
      FindSpec(s, d, from + 1);
    }
  }

  /** The C string that starts at the beginning of `s`. */
  function CString(s: string): string {
    if s == "" || s[0] == NUL then "" else [s[0]] + CString(s[1..])
  }

  lemma {:induction false} CStringWhole(s: string)
    requires NoNul(s)
    ensures CString(s) == s
  {
    if s != "" {
      assert s[0] in s;
      CStringWhole(s[1..]);
    }
  }

  /** Characters that are not terminators; each delimiter found costs one. */
  function Live(s: string): nat {
    if s == "" then 0 else (if s[0] == NUL then 0 else 1) + Live(s[1..])
  }

  lemma {:induction false} LiveAfterNul(s: string, p: nat)
    requires p < |s| && s[p] != NUL
    ensures Live(s[p := NUL]) == Live(s) - 1
  {
    if p > 0 {
      assert s[p := NUL][1..] == s[1..][p - 1 := NUL];
      LiveAfterNul(s[1..], p - 1);
    }
  }

  ghost predicate Delimiter(d: string) { d != "" && NoNul(d) }

  lemma FoundIsLive(s: string, d: string)
    requires Delimiter(d) && Find(s, d, 0).Some?
    ensures s[Find(s, d, 0).value] != NUL
  {
    FindSpec(s, d, 0);
    var pos := Find(s, d, 0).value;
    assert s[pos + 0] == d[0];
  }

  /** What the loop pushes from a buffer in which the current piece starts at `sub`. */
  ghost function SplitFrom(s: string, sub: nat, d: string): (pieces: seq<string>)
    requires Delimiter(d) && sub <= |s|
    ensures |pieces| >= 1
    decreases Live(s)
  {
    var pos := Find(s, d, 0);
    if pos.None? then [CString(s[sub..])]
    else
      var s' := s[pos.value := NUL];
      FoundIsLive(s, d);
      LiveAfterNul(s, pos.value);
      [CString(s'[sub..])] + SplitFrom(s', pos.value + |d|, d)
  }

  lemma SplitStep(s: string, sub: nat, d: string)
    requires Delimiter(d) && sub <= |s| && Find(s, d, 0).Some?
    ensures var pos := Find(s, d, 0).value; var s' := s[pos := NUL];
            && Live(s') < Live(s)
            && SplitFrom(s, sub, d) == [CString(s'[sub..])] + SplitFrom(s', pos + |d|, d)
  {
    FoundIsLive(s, d);
    LiveAfterNul(s, Find(s, d, 0).value);
  }

  /** The pieces pushed and the pieces still to come make up all of them. */
  ghost predicate Pushed(v: seq<string>, rest: seq<string>, all: seq<string>) {
    if v == [] then rest == all else all != [] && all[0] == v[0] && Pushed(v[1..], rest, all[1..])
  }

  lemma {:induction false} PushedNext(v: seq<string>, piece: string, rest: seq<string>, all: seq<string>)
    requires Pushed(v, [piece] + rest, all)
    ensures Pushed(v + [piece], rest, all)
  {
    if v == [] {
      assert [piece][1..] == [] && ([piece] + rest)[1..] == rest;
    } else {
      PushedNext(v[1..], piece, rest, all[1..]);
      assert (v + [piece])[1..] == v[1..] + [piece];
    }
  }

  lemma {:induction false} PushedAll(v: seq<string>, rest: seq<string>, all: seq<string>)
    requires Pushed(v, rest, all)
    ensures v + rest == all
  {
    if v == [] {
      assert v + rest == rest;
    } else {
      PushedAll(v[1..], rest, all[1..]);
      assert v + rest == [v[0]] + (v[1..] + rest);
    }
  }

  lemma PushedStep(v: seq<string>, s: string, sub: nat, d: string, all: seq<string>)
    requires Delimiter(d) && sub <= |s| && Find(s, d, 0).Some? && Pushed(v, SplitFrom(s, sub, d), all)
    ensures var pos := Find(s, d, 0).value; var s' := s[pos := NUL];
            Pushed(v + [CString(s'[sub..])], SplitFrom(s', pos + |d|, d), all)
  {
    var pos := Find(s, d, 0).value;
    var s' := s[pos := NUL];
    SplitStep(s, sub, d);
    PushedNext(v, CString(s'[sub..]), SplitFrom(s', pos + |d|, d), all);
  }

  // ----- the code

  lemma OccursIsSlice(s: string, d: string, p: nat)
    ensures OccursAt(s, d, p) <==> p + |d| <= |s| && s[p..p + |d|] == d
  {
    if p + |d| <= |s| && s[p..p + |d|] == d {
      forall i | 0 <= i < |d|
        ensures s[p + i] == d[i]
      {
        assert s[p..p + |d|][i] == s[p + i];
      }
    }
  }

  lemma FindIsFirst(s: string, d: string, from: nat, p: nat)
    requires from <= p <= |s| && OccursAt(s, d, p) && forall q :: from <= q < p ==> !OccursAt(s, d, q)
    ensures Find(s, d, from) == Some(p)
  {
    FindSpec(s, d, from);
  }

  method FindInBuffer(s: array<char>, d: string) returns (r: Option<nat>)
    ensures r == Find(s[..], d, 0)
  {
    var p := 0;
    while p <= s.Length
      invariant p <= s.Length + 1
      invariant forall q :: 0 <= q < p ==> !OccursAt(s[..], d, q)
    {
      OccursIsSlice(s[..], d, p);
      if p + |d| <= s.Length && s[p..p + |d|] == d {
        FindIsFirst(s[..], d, 0, p);
        return Some(p);
      }
      p := p + 1;
    }
    FindSpec(s[..], d, 0);
    return None;
  }

  lemma CStringNext(r: string, s: string, i: nat)
    requires i < |s| && s[i] != NUL
    ensures r + CString(s[i..]) == r + [s[i]] + CString(s[i + 1..])
  {
    assert s[i..][1..] == s[i + 1..];
  }

  method ReadCString(s: array<char>, sub: nat) returns (r: string)
    requires sub <= s.Length
    ensures r == CString(s[..][sub..])
  {
    r := "";
    var i := sub;
    ghost var text := s[..];
    while i < s.Length && s[i] != NUL
      invariant sub <= i <= s.Length
      invariant r + CString(text[i..]) == CString(text[sub..])
    {
      CStringNext(r, text, i);
      r := r + [s[i]];
      i := i + 1;
    }
    assert CString(text[i..]) == "";
  }

  /** Terminates the current piece at a delimiter found in the buffer and reads it back. */
  method CutPiece(s: array<char>, sub: nat, pos: nat, ghost d: string, ghost v: seq<string>, ghost all: seq<string>)
    returns (piece: string)
    requires Delimiter(d) && sub <= s.Length && Find(s[..], d, 0) == Some(pos)
    requires Pushed(v, SplitFrom(s[..], sub, d), all)
    modifies s
    ensures s[..] == old(s[..])[pos := NUL] && Live(s[..]) < Live(old(s[..])) && piece == CString(s[..][sub..])
    ensures Pushed(v + [piece], SplitFrom(s[..], pos + |d|, d), all)
  {
    SplitStep(s[..], sub, d);
    PushedStep(v, s[..], sub, d, all);
    s[pos] := NUL;
    piece := ReadCString(s, sub);
  }

  /** A delimiter with a terminator in it never occurs in a C string. */
  lemma TerminatorIsNotFound(s: string, d: string)
    requires NoNul(s) && !NoNul(d)
    ensures Find(s, d, 0).None?
  {
    FindSpec(s, d, 0);
    var i :| 0 <= i < |d| && d[i] == NUL;
    forall p: nat
      ensures !OccursAt(s, d, p)
    {
      if p + |d| <= |s| {
        assert s[p + i] != d[i];
      }
    }
  }

  /** What the loop pushes for a whole value. */
  ghost function Split(value: string, d: string): seq<string>
    requires d != ""
  {
    if NoNul(d) then SplitFrom(value, 0, d) else [value]
  }

  /** The loop: what it pushes, and where the last piece starts. */
  method CutAll(s: array<char>, d: string) returns (v: seq<string>, sub: nat)
    requires d != "" && (NoNul(d) || Find(s[..], d, 0).None?)
    modifies s
    ensures sub <= s.Length
    ensures if NoNul(d) then Pushed(v, [CString(s[..][sub..])], SplitFrom(old(s[..]), 0, d))
            else v == [] && sub == 0 && s[..] == old(s[..])
  {
    v, sub := [], 0;
    var pos := FindInBuffer(s, d);
    ghost var plain := NoNul(d);
    ghost var all := if plain then SplitFrom(s[..], 0, d) else [];
    while pos.Some?
      invariant sub <= s.Length && pos == Find(s[..], d, 0)
      invariant plain ==> Pushed(v, SplitFrom(s[..], sub, d), all)
      invariant !plain ==> pos.None? && v == [] && sub == 0 && s[..] == old(s[..])
      decreases Live(s[..])
    {
      var piece := CutPiece(s, sub, pos.value, d, v, all);
      v := v + [piece];
      sub := pos.value + |d|;
      pos := FindInBuffer(s, d);
    }
  }

  /** A value of the environment contains no terminator. The empty delimiter is treated below. */
  method EnvAsVector(value: Option<string>, delimiter: string) returns (v: seq<string>)
    requires value.Some? ==> NoNul(value.value) && delimiter != ""
    ensures v == if value.Some? then Split(value.value, delimiter) else []
  {
    if value.None? { return []; }
    var text := value.value;
    var s := new char[|text|](i requires 0 <= i < |text| => text[i]);
    assert s[..] == text;
    if !NoNul(delimiter) { TerminatorIsNotFound(text, delimiter); }
    var sub;
    v, sub := CutAll(s, delimiter);
    var last := ReadCString(s, sub);
    if NoNul(delimiter) {
      PushedAll(v, [last], SplitFrom(text, 0, delimiter));
    } else {
      CStringWhole(text);
    }
    v := v + [last];
  }

  /** The loop condition with an empty delimiter: it holds of every buffer, so the loop never ends. */
  lemma EmptyDelimiterAlwaysFound(s: string)
    ensures Find(s, "", 0) == Some(0)
  {
    assert OccursAt(s, "", 0);
  }

  // ----- joining restores the value exactly when the delimiter has no border

  function Join(pieces: seq<string>, d: string): string
    requires |pieces| >= 1
  {
    if |pieces| == 1 then pieces[0] else pieces[0] + d + Join(pieces[1..], d)
  }

  /** A border of length b: the delimiter begins and ends with the same b characters. */
  ghost predicate Border(d: string, b: nat) {
    0 < b < |d| && d[..b] == d[|d| - b..]
  }

  ghost predicate Unbordered(d: string) {
    forall b: nat :: !Border(d, b)
  }

  /** What the loop keeps: from `sub` on the buffer is the value, and before it no delimiter is left. */
  ghost predicate Scanning(value: string, s: string, sub: nat, d: string) {
    && |s| == |value| && sub <= |s| && s[sub..] == value[sub..]
    && forall p: nat :: p < sub ==> !OccursAt(s, d, p)
  }

  lemma OccursInTail(s: string, t: string, d: string, sub: nat, p: nat)
    requires |s| == |t| && sub <= p && sub <= |s| && s[sub..] == t[sub..]
    ensures OccursAt(s, d, p) <==> OccursAt(t, d, p)
  {
    forall j | sub <= j < |s|
      ensures s[j] == t[j]
    {
      assert s[j] == s[sub..][j - sub];
    }
  }

  /** Writing a terminator destroys the occurrences that overlap it and touches no other. */
  lemma NulDestroysOverlaps(s: string, pos: nat, d: string, p: nat)
    requires Delimiter(d) && pos < |s|
    ensures p <= pos < p + |d| ==> !OccursAt(s[pos := NUL], d, p)
    ensures OccursAt(s[pos := NUL], d, p) ==> OccursAt(s, d, p)
  {
    var s' := s[pos := NUL];
    if p <= pos < p + |d| {
      assert d[pos - p] != NUL;
      assert s'[p + (pos - p)] == NUL;
    }
  }

  /** Two overlapping occurrences give the delimiter a border. */
  lemma OverlapIsBorder(s: string, d: string, p: nat, q: nat)
    requires OccursAt(s, d, p) && OccursAt(s, d, q) && p < q < p + |d|
    ensures Border(d, |d| - (q - p))
  {
    var b := |d| - (q - p);
    forall i | 0 <= i < b
      ensures d[i] == d[|d| - b + i]
    {
      assert s[q + i] == s[p + (q - p + i)];
    }
  }

  lemma NoOverlap(s: string, d: string, p: nat, q: nat)
    requires OccursAt(s, d, p) && p < q < p + |d| && !Border(d, |d| - (q - p))
    ensures !OccursAt(s, d, q)
  {
    if OccursAt(s, d, q) { OverlapIsBorder(s, d, p, q); }
  }

  lemma StepOccurrence(s: string, pos: nat, d: string, p: nat)
    requires Delimiter(d) && Unbordered(d) && OccursAt(s, d, pos) && p < pos + |d|
    requires forall q: nat :: q < pos ==> !OccursAt(s, d, q)
    ensures !OccursAt(s[pos := NUL], d, p)
    ensures p != pos ==> !OccursAt(s, d, p)
  {
    NulDestroysOverlaps(s, pos, d, p);
    if pos < p {
      assert !Border(d, |d| - (p - pos));
      NoOverlap(s, d, pos, p);
    }
  }

  lemma {:induction false} CStringStops(s: string, n: nat)
    requires n < |s| && s[n] == NUL && NoNul(s[..n])
    ensures CString(s) == s[..n]
  {
    if n > 0 {
      assert s[0] == s[..n][0];
      assert s[1..][..n - 1] == s[..n][1..];
      CStringStops(s[1..], n - 1);
    }
  }

  lemma ScanStep(value: string, s: string, sub: nat, d: string)
    requires Delimiter(d) && Unbordered(d) && NoNul(value) && Scanning(value, s, sub, d)
    requires Find(s, d, 0).Some?
    ensures var pos := Find(s, d, 0).value; var s' := s[pos := NUL];
            && sub <= pos && Scanning(value, s', pos + |d|, d)
            && CString(s'[sub..]) == value[sub..pos]
            && OccursAt(value, d, pos)
            && (forall p: nat :: sub <= p < pos || pos < p < pos + |d| ==> !OccursAt(value, d, p))
  {
    FindSpec(s, d, 0);
    var pos := Find(s, d, 0).value;
    var s' := s[pos := NUL];
    assert s'[pos + |d|..] == s[pos + |d|..] == s[sub..][pos + |d| - sub..] == value[pos + |d|..];
    OccursInTail(s, value, d, sub, pos);
    CStringStops(s'[sub..], pos - sub);
    assert s'[sub..][..pos - sub] == s[sub..][..pos - sub] == value[sub..pos];
    forall p: nat | p < pos + |d|
      ensures !OccursAt(s', d, p)
      ensures sub <= p < pos || pos < p ==> !OccursAt(value, d, p)
    {
      if sub <= p { OccursInTail(s, value, d, sub, p); }
      StepOccurrence(s, pos, d, p);
    }
  }

  /** Occurrences of the delimiter at or after a position. */
  function Occurrences(value: string, d: string, from: nat): nat
    requires from <= |value|
    decreases |value| - from
  {
    if from == |value| then 0 else (if OccursAt(value, d, from) then 1 else 0) + Occurrences(value, d, from + 1)
  }

  lemma {:induction false} SkipNonOccurrences(value: string, d: string, p: nat, q: nat)
    requires d != "" && p <= q <= |value| && forall i: nat :: p <= i < q ==> !OccursAt(value, d, i)
    ensures Occurrences(value, d, p) == Occurrences(value, d, q)
    decreases q - p
  {
    if p < q {
      SkipNonOccurrences(value, d, p + 1, q);
    }
  }

  /** No piece contains the delimiter. */
  ghost predicate Clean(pieces: seq<string>, d: string) {
    forall i, p: nat :: 0 <= i < |pieces| ==> !OccursAt(pieces[i], d, p)
  }

  lemma OccursInSlice(value: string, d: string, from: nat, to: nat, p: nat)
    requires from <= to <= |value| && p + |d| <= to - from
    ensures OccursAt(value[from..to], d, p) <==> OccursAt(value, d, from + p)
  {
    var t := value[from..to];
    if OccursAt(t, d, p) {
      forall i | 0 <= i < |d|
        ensures value[from + p + i] == d[i]
      {
        assert t[p + i] == d[i];
      }
    }
    if OccursAt(value, d, from + p) {
      forall i | 0 <= i < |d|
        ensures t[p + i] == d[i]
      {
        assert value[from + p + i] == d[i];
      }
    }
  }

  lemma PieceIsClean(value: string, d: string, from: nat, to: nat)
    requires d != "" && from <= to <= |value|
    requires forall p: nat :: from <= p < to ==> p + |d| <= to ==> !OccursAt(value, d, p)
    ensures forall p: nat :: !OccursAt(value[from..to], d, p)
  {
    forall p: nat | p + |d| <= to - from
      ensures !OccursAt(value[from..to], d, p)
    {
      assert !OccursAt(value, d, from + p);
      OccursInSlice(value, d, from, to, p);
    }
  }

  lemma Glue(s: string, a: nat, b: nat, c: nat)
    requires a <= b <= c <= |s|
    ensures s[a..b] + s[b..c] + s[c..] == s[a..]
  {
  }

  lemma JoinCons(piece: string, rest: seq<string>, d: string, value: string, sub: nat, pos: nat)
    requires rest != [] && sub <= pos && OccursAt(value, d, pos)
    requires piece == value[sub..pos] && Join(rest, d) == value[pos + |d|..]
    ensures Join([piece] + rest, d) == value[sub..]
  {
    assert ([piece] + rest)[1..] == rest;
    OccursIsSlice(value, d, pos);
    Glue(value, sub, pos, pos + |d|);
  }

  /** What the loop emits from `sub` on: clean pieces that join to the rest of the value. */
  ghost predicate Restores(value: string, d: string, sub: nat, pieces: seq<string>)
    requires sub <= |value|
  {
    |pieces| >= 1 && Join(pieces, d) == value[sub..] && Clean(pieces, d) && |pieces| == Occurrences(value, d, sub) + 1
  }

  lemma OneMoreOccurrence(value: string, d: string, sub: nat, pos: nat)
    requires d != "" && sub <= pos && OccursAt(value, d, pos)
    requires forall p: nat :: sub <= p < pos || pos < p < pos + |d| ==> !OccursAt(value, d, p)
    ensures Occurrences(value, d, sub) == 1 + Occurrences(value, d, pos + |d|)
  {
    SkipNonOccurrences(value, d, sub, pos);
    SkipNonOccurrences(value, d, pos + 1, pos + |d|);
  }

  lemma RestoresCons(value: string, d: string, sub: nat, pos: nat, rest: seq<string>)
    requires d != "" && sub <= pos && OccursAt(value, d, pos) && Restores(value, d, pos + |d|, rest)
    requires forall p: nat :: sub <= p < pos || pos < p < pos + |d| ==> !OccursAt(value, d, p)
    ensures Restores(value, d, sub, [value[sub..pos]] + rest)
  {
    JoinCons(value[sub..pos], rest, d, value, sub, pos);
    OneMoreOccurrence(value, d, sub, pos);
    PieceIsClean(value, d, sub, pos);
  }

  lemma LastPiece(value: string, s: string, sub: nat, d: string)
    requires Delimiter(d) && NoNul(value) && Scanning(value, s, sub, d) && Find(s, d, 0).None?
    ensures Restores(value, d, sub, SplitFrom(s, sub, d))
  {
    FindSpec(s, d, 0);
    forall p: nat | sub <= p
      ensures !OccursAt(value, d, p)
    {
      OccursInTail(s, value, d, sub, p);
    }
    CStringWhole(value[sub..]);
    SkipNonOccurrences(value, d, sub, |value|);
    PieceIsClean(value, d, sub, |value|);
    assert value[sub..|value|] == value[sub..];
  }

  lemma {:induction false} ScanRestores(value: string, s: string, sub: nat, d: string)
    requires Delimiter(d) && Unbordered(d) && NoNul(value) && Scanning(value, s, sub, d)
    ensures Restores(value, d, sub, SplitFrom(s, sub, d))
    decreases Live(s)
  {
    if Find(s, d, 0).None? {
      LastPiece(value, s, sub, d);
    } else {
      var pos := Find(s, d, 0).value;
      SplitStep(s, sub, d);
      ScanStep(value, s, sub, d);
      ScanRestores(value, s[pos := NUL], pos + |d|, d);
      RestoresCons(value, d, sub, pos, SplitFrom(s[pos := NUL], pos + |d|, d));
    }
  }

  /**
   With an unbordered delimiter, in particular any single character, every value splits into one
   piece more than it has delimiters, no piece contains the delimiter, and joining restores it.
   */
  lemma SplitRestores(value: string, d: string)
    requires Delimiter(d) && Unbordered(d) && NoNul(value)
    ensures var pieces := SplitFrom(value, 0, d);
            Join(pieces, d) == value && Clean(pieces, d) && |pieces| == Occurrences(value, d, 0) + 1
  {
    ScanRestores(value, value, 0, d);
    assert value[0..] == value;
  }

  lemma OneCharacterIsUnbordered(d: string)
    requires |d| == 1
    ensures Unbordered(d)
  {
  }

  lemma JoinedLength(pieces: seq<string>, d: string)
    requires |pieces| >= 3
    ensures |Join(pieces, d)| >= |d| + |d|
  {
    assert Join(pieces[1..], d) == pieces[1] + d + Join(pieces[1..][1..], d);
  }

  lemma BorderOccurrences(d: string, b: nat)
    requires Delimiter(d) && Border(d, b)
    ensures var value := d[..|d| - b] + d; OccursAt(value, d, 0) && OccursAt(value[0 := NUL], d, |d| - b)
  {
    var value, n := d[..|d| - b] + d, |d| - b;
    forall i | 0 <= i < |d|
      ensures value[i] == d[i]
    {
      if i >= n {
        assert value[i] == d[i - n] == d[..b][i - n] == d[|d| - b..][i - n];
      }
    }
  }

  lemma AtLeastThreePieces(s: string, d: string, p: nat)
    requires Delimiter(d) && OccursAt(s, d, 0) && OccursAt(s[0 := NUL], d, p)
    ensures |SplitFrom(s, 0, d)| >= 3
  {
    FindIsFirst(s, d, 0, 0);
    SplitStep(s, 0, d);
    FindSpec(s[0 := NUL], d, 0);
    SplitStep(s[0 := NUL], |d|, d);
  }

  /** Where a delimiter overlaps itself, the second occurrence is cut out of the first. */
  lemma BorderBreaks(d: string, b: nat)
    requires Delimiter(d) && Border(d, b)
    ensures var value := d[..|d| - b] + d; NoNul(value) && Join(SplitFrom(value, 0, d), d) != value
  {
    var value := d[..|d| - b] + d;
    BorderOccurrences(d, b);
    AtLeastThreePieces(value, d, |d| - b);
    var pieces := SplitFrom(value, 0, d);
    JoinedLength(pieces, d);
  }

  /** The split can be undone for every value exactly when the delimiter has no border. */
  lemma RestoresExactlyWhenUnbordered(d: string)
    requires Delimiter(d)
    ensures (forall value :: NoNul(value) ==> Join(SplitFrom(value, 0, d), d) == value) <==> Unbordered(d)
  {
    if Unbordered(d) {
      forall value | NoNul(value)
        ensures Join(SplitFrom(value, 0, d), d) == value
      {
        SplitRestores(value, d);
      }
    } else {
      var b: nat :| Border(d, b);
      BorderBreaks(d, b);
    }
  }

  /** Three colons split at a double colon: the pieces do not join to what was split. */
  lemma DoubledDelimiterBreaks()
    ensures Join(SplitFrom(":::", 0, "::"), "::") != ":::"
  {
    assert Border("::", 1);
    BorderBreaks("::", 1);
    assert "::"[..1] + "::" == ":::";
  }
}
