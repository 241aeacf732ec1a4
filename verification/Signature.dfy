/** Laying a function signature out with one parameter per line, as the operation documentation does. */
module Signature {
  import opened Wrappers

  // ----- characters and trimming

  /** What Python's `str.strip` removes. */
  predicate IsSpace(c: char) {
    var n := c as int;
    || 0x09 <= n <= 0x0D || 0x1C <= n <= 0x20 || n == 0x85 || n == 0xA0 || n == 0x1680 || 0x2000 <= n <= 0x200A
    || n == 0x2028 || n == 0x2029 || n == 0x202F || n == 0x205F || n == 0x3000
  }

  predicate Blank(s: string) { forall i :: 0 <= i < |s| ==> IsSpace(s[i]) }

  function StripLeft(s: string): string {
    if s != "" && IsSpace(s[0]) then StripLeft(s[1..]) else s
  }

  lemma {:induction false} StripLeftCuts(s: string)
    ensures var r := StripLeft(s);
            && |r| <= |s| && s[|s| - |r|..] == r && Blank(s[..|s| - |r|])
            && (r != "" ==> !IsSpace(r[0]))
  {
    if s != "" && IsSpace(s[0]) {
      StripLeftCuts(s[1..]);
      var r := StripLeft(s);
      assert s[..|s| - |r|] == [s[0]] + s[1..][..|s| - 1 - |r|];
    }
  }

  function StripRight(s: string): string {
    if s != "" && IsSpace(s[|s| - 1]) then StripRight(s[..|s| - 1]) else s
  }

  lemma {:induction false} StripRightCuts(s: string)
    ensures var r := StripRight(s); r <= s && Blank(s[|r|..]) && (r != "" ==> !IsSpace(r[|r| - 1]))
  {
    if s != "" && IsSpace(s[|s| - 1]) {
      StripRightCuts(s[..|s| - 1]);
      var r := StripRight(s);
      assert s[|r|..] == s[..|s| - 1][|r|..] + [s[|s| - 1]];
    }
  }

  function Strip(s: string): (r: string) { StripRight(StripLeft(s)) }

  /** Nothing to trim at either end. */
  predicate Trim(s: string) { s != "" ==> !IsSpace(s[0]) && !IsSpace(s[|s| - 1]) }

  lemma StripRightParts(s: string) returns (b: string)
    requires s != "" ==> !IsSpace(s[0])
    ensures s == StripRight(s) + b && Blank(b) && Trim(StripRight(s))
  {
    StripRightCuts(s);
    b := s[|StripRight(s)|..];
  }

  lemma StripLeftParts(s: string) returns (a: string)
    ensures s == a + StripLeft(s) && Blank(a) && (StripLeft(s) != "" ==> !IsSpace(StripLeft(s)[0]))
  {
    StripLeftCuts(s);
    a := s[..|s| - |StripLeft(s)|];
  }

  lemma Regrouped(s: string, a: string, l: string, m: string, b: string)
    requires s == a + l && l == m + b
    ensures s == a + m + b
  {
  }

  /** Stripping cuts blanks off both ends and nothing else. */
  lemma StripParts(s: string) returns (a: string, b: string)
    ensures s == a + Strip(s) + b && Blank(a) && Blank(b) && Trim(Strip(s))
  {
    a := StripLeftParts(s);
    b := StripRightParts(StripLeft(s));
    Regrouped(s, a, StripLeft(s), Strip(s), b);
  }

  lemma StripLeftNone(s: string, c: char)
    requires s != "" && s[0] == c && !IsSpace(c)
    ensures StripLeft(s) == s
  {
  }

  lemma {:induction false} StripLeftOfBlank(s: string)
    requires Blank(s)
    ensures StripLeft(s) == ""
  {
    if s != "" {
      StripLeftOfBlank(s[1..]);
    }
  }

  lemma {:induction false} StripLeftOf(a: string, s: string)
    requires Blank(a)
    ensures StripLeft(a + s) == StripLeft(s)
  {
    if a == "" {
      assert a + s == s;
    } else {
      assert (a + s)[1..] == a[1..] + s;
      StripLeftOf(a[1..], s);
    }
  }

  lemma {:induction false} StripRightOf(m: string, b: string)
    requires Blank(b) && Trim(m)
    ensures StripRight(m + b) == m
  {
    if b == "" {
      assert m + b == m;
    } else {
      assert (m + b)[..|m + b| - 1] == m + b[..|b| - 1];
      StripRightOf(m, b[..|b| - 1]);
    }
  }

  /** The trimmed middle is determined by the string. */
  lemma StripUnique(a: string, m: string, b: string)
    requires Blank(a) && Blank(b) && Trim(m)
    ensures Strip(a + m + b) == m
  {
    assert a + m + b == a + (m + b);
    StripLeftOf(a, m + b);
    if m == "" {
      assert m + b == b;
      StripLeftOfBlank(b);
    } else {
      StripLeftNone(m + b, m[0]);
      StripRightOf(m, b);
    }
  }

  // ----- the parenthesis that matches the first one

  function Paren(c: char): int { if c == '(' then 1 else if c == ')' then -1 else 0 }

  /** Parentheses opened in `s` and not closed. */
  function Total(s: string): int { if s == "" then 0 else Paren(s[0]) + Total(s[1..]) }

  /** With `open` parentheses pending, none is closed that was not opened. */
  predicate NeverBelow(s: string, open: int) {
    open >= 0 && (s == "" || NeverBelow(s[1..], open + Paren(s[0])))
  }

  /** The code's scan from position i: the first closing parenthesis that brings the count to zero. */
  function MatchFrom(s: string, i: nat, count: int): (r: Option<nat>)
    requires i <= |s|
    ensures r.Some? ==> i <= r.value < |s| && s[r.value] == ')'
    decreases |s| - i
  {
    if i == |s| then None
    else if s[i] == ')' && count == 1 then Some(i)
    else MatchFrom(s, i + 1, count + Paren(s[i]))
  }

  /** The scan stops at the parenthesis that closes a balanced text, whatever follows. */
  lemma {:induction false} MatchCloses(s: string, i: nat, count: int, text: string)
    requires count >= 1 && i + |text| < |s| && s[i..i + |text|] == text && s[i + |text|] == ')'
    requires NeverBelow(text, count - 1) && Total(text) == 1 - count
    ensures MatchFrom(s, i, count) == Some(i + |text|)
    decreases |text|
  {
    if text != "" {
      assert s[i] == s[i..i + |text|][0] == text[0];
      assert s[i + 1..i + 1 + |text[1..]|] == s[i..i + |text|][1..];
      MatchCloses(s, i + 1, count + Paren(s[i]), text[1..]);
    }
  }

  /** And what it stops at is such a parenthesis. */
  lemma {:induction false} MatchIsBalanced(s: string, i: nat, count: int)
    requires count >= 1 && i <= |s| && MatchFrom(s, i, count).Some?
    ensures var e := MatchFrom(s, i, count).value; NeverBelow(s[i..e], count - 1) && Total(s[i..e]) == 1 - count
    decreases |s| - i
  {
    var e := MatchFrom(s, i, count).value;
    if e > i {
      MatchIsBalanced(s, i + 1, count + Paren(s[i]));
      assert s[i..e][0] == s[i] && s[i..e][1..] == s[i + 1..e];
    } else {
      assert s[i..e] == "";
    }
  }

  // ----- top-level commas

  function Bracket(c: char): int { if c in "[(" then 1 else if c in "])" then -1 else 0 }

  /** The text cut at commas that no bracket encloses. */
  function Pieces(s: string, depth: int): (r: seq<string>)
    ensures |r| >= 1
  {
    if s == "" then [""]
    else if s[0] == ',' && depth == 0 then [""] + Pieces(s[1..], 0)
    else
      var r := Pieces(s[1..], depth + Bracket(s[0]));
      [[s[0]] + r[0]] + r[1..]
  }

  function Join(pieces: seq<string>): string
    requires |pieces| >= 1
  {
    if |pieces| == 1 then pieces[0] else pieces[0] + "," + Join(pieces[1..])
  }

  lemma JoinHead(c: char, r: seq<string>)
    requires |r| >= 1
    ensures Join([[c] + r[0]] + r[1..]) == [c] + Join(r)
  {
    if |r| > 1 {
      assert ([[c] + r[0]] + r[1..])[1..] == r[1..];
    }
  }

  lemma {:induction false} PiecesJoin(s: string, depth: int)
    ensures Join(Pieces(s, depth)) == s
  {
    if s != "" {
      if s[0] == ',' && depth == 0 {
        PiecesJoin(s[1..], 0);
        assert ([""] + Pieces(s[1..], 0))[1..] == Pieces(s[1..], 0);
        assert "" + "," + s[1..] == s;
      } else {
        var r := Pieces(s[1..], depth + Bracket(s[0]));
        PiecesJoin(s[1..], depth + Bracket(s[0]));
        JoinHead(s[0], r);
        assert [s[0]] + s[1..] == s;
      }
    }
  }

  /** The parameters: every piece trimmed, except that a blank last piece is dropped. */
  function Params(pieces: seq<string>): (r: seq<string>)
    requires |pieces| >= 1
  {
    if |pieces| == 1 then (if Strip(pieces[0]) != "" then [Strip(pieces[0])] else [])
    else [Strip(pieces[0])] + Params(pieces[1..])
  }

  // ----- the layout

  function Lines(params: seq<string>): string {
    if params == [] then ""
    else "    " + params[0] + (if |params| > 1 then "," else "") + "\n" + Lines(params[1..])
  }

  datatype Parts = Parts(callee: string, text: string, tail: string)

  function FirstParen(sig: string): (n: nat)
    ensures n <= |sig| && '(' !in sig[..n] && (n < |sig| ==> sig[n] == '(')
  {
    if sig == "" || sig[0] == '(' then 0 else 1 + FirstParen(sig[1..])
  }

  lemma {:induction false} ParenFound(sig: string)
    requires '(' in sig
    ensures FirstParen(sig) < |sig|
  {
    if sig[0] != '(' {
      ParenFound(sig[1..]);
    }
  }

  /** Name, parameter text and the rest; `None` when there is nothing to lay out. */
  function Parse(sig: string): (r: Option<Parts>)
    ensures r.Some? ==> sig == r.value.callee + "(" + r.value.text + ")" + r.value.tail && '(' !in r.value.callee
  {
    if '(' !in sig || ')' !in sig then None
    else
      var n := FirstParen(sig);
      var rest := sig[n..];
      var e := MatchFrom(rest, 0, 0);
      if e.None? || e.value == 0 then None
      else
        assert sig[n] == '(' by { ParenFound(sig); }
        assert sig == sig[..n] + "(" + rest[1..e.value] + ")" + rest[e.value + 1..];
        Some(Parts(sig[..n], rest[1..e.value], rest[e.value + 1..]))
  }

  function Layout(p: Parts): string {
    p.callee + "(\n" + Lines(Params(Pieces(p.text, 0))) + ")" + p.tail
  }

  function Format(sig: string): string {
    var p := Parse(sig);
    if p.None? then sig else Layout(p.value)
  }

  // ----- cutting and joining are inverse

  function Weight(s: string): int { if s == "" then 0 else Bracket(s[0]) + Weight(s[1..]) }

  /** Scanned from `depth`, the text has no comma at depth zero. */
  predicate TopFree(s: string, depth: int) {
    s == "" || (!(s[0] == ',' && depth == 0) && TopFree(s[1..], depth + Bracket(s[0])))
  }

  predicate WellCut(r: seq<string>, depth: int) {
    && |r| >= 1 && TopFree(r[0], depth)
    && (|r| > 1 ==> depth + Weight(r[0]) == 0 && WellCut(r[1..], 0))
  }

  lemma {:induction false} PiecesWellCut(s: string, depth: int)
    ensures WellCut(Pieces(s, depth), depth)
  {
    if s != "" {
      if s[0] == ',' && depth == 0 {
        PiecesWellCut(s[1..], 0);
        assert ([""] + Pieces(s[1..], 0))[1..] == Pieces(s[1..], 0);
      } else {
        var r := Pieces(s[1..], depth + Bracket(s[0]));
        PiecesWellCut(s[1..], depth + Bracket(s[0]));
        var head := [s[0]] + r[0];
        assert head[1..] == r[0] && ([head] + r[1..])[1..] == r[1..];
      }
    }
  }

  lemma {:induction false} JoinPieces(r: seq<string>, depth: int)
    requires WellCut(r, depth)
    ensures Pieces(Join(r), depth) == r
    decreases |r|, |r[0]|
  {
    if r[0] == "" {
      if |r| > 1 {
        JoinPieces(r[1..], 0);
        assert Join(r)[1..] == Join(r[1..]);
      }
    } else {
      var c, t := r[0][0], r[0][1..];
      var r' := [t] + r[1..];
      assert r'[1..] == r[1..] && [c] + t == r[0] && [[c] + r'[0]] + r'[1..] == r;
      JoinPieces(r', depth + Bracket(c));
      JoinHead(c, r');
      assert Join(r)[1..] == Join(r');
    }
  }

  // ----- blanks carry no brackets and no commas

  lemma {:induction false} ScanConcat(a: string, b: string, depth: int)
    ensures Weight(a + b) == Weight(a) + Weight(b)
    ensures TopFree(a + b, depth) <==> TopFree(a, depth) && TopFree(b, depth + Weight(a))
  {
    if a == "" {
      assert a + b == b;
    } else {
      assert (a + b)[1..] == a[1..] + b;
      ScanConcat(a[1..], b, depth + Bracket(a[0]));
    }
  }

  function OnlyParens(s: string): string {
    if s == "" then "" else (if Paren(s[0]) != 0 then [s[0]] else "") + OnlyParens(s[1..])
  }

  lemma {:induction false} ScanBlank(s: string, depth: int)
    requires Blank(s)
    ensures Weight(s) == 0 && TopFree(s, depth) && OnlyParens(s) == ""
  {
    if s != "" {
      assert IsSpace(s[0]);
      ScanBlank(s[1..], depth);
    }
  }

  lemma {:induction false} ParensConcat(a: string, b: string)
    ensures OnlyParens(a + b) == OnlyParens(a) + OnlyParens(b)
  {
    if a == "" {
      assert a + b == b;
    } else {
      assert (a + b)[1..] == a[1..] + b;
      ParensConcat(a[1..], b);
    }
  }

  lemma NeverBelowStart(s: string, open: int)
    requires s != "" && Paren(s[0]) == 0
    ensures NeverBelow(s, open) == NeverBelow(s[1..], open)
  {
  }

  lemma {:induction false} ParensTotal(s: string)
    ensures Total(OnlyParens(s)) == Total(s)
  {
    if s != "" {
      ParensTotal(s[1..]);
      if Paren(s[0]) != 0 {
        assert OnlyParens(s)[1..] == OnlyParens(s[1..]);
      } else {
        assert OnlyParens(s) == OnlyParens(s[1..]);
      }
    }
  }

  lemma {:induction false} ParensNeverBelow(s: string, open: int)
    ensures NeverBelow(OnlyParens(s), open) == NeverBelow(s, open)
  {
    if s != "" {
      ParensNeverBelow(s[1..], open + Paren(s[0]));
      if Paren(s[0]) != 0 {
        assert OnlyParens(s)[1..] == OnlyParens(s[1..]);
      } else {
        assert OnlyParens(s) == OnlyParens(s[1..]);
        NeverBelowStart(s, open);
      }
    }
  }

  /** Padding with blanks changes neither the parameter nor what scanning sees. */
  lemma Padding(a: string, m: string, b: string, depth: int)
    requires Blank(a) && Blank(b)
    ensures Weight(a + m + b) == Weight(m) && (TopFree(a + m + b, depth) <==> TopFree(m, depth))
    ensures OnlyParens(a + m + b) == OnlyParens(m)
    ensures Trim(m) ==> Strip(a + m + b) == m
  {
    ScanBlank(a, depth);
    ScanBlank(b, depth + Weight(m));
    ScanConcat(a, m, depth);
    ScanConcat(a + m, b, depth);
    ParensConcat(a, m);
    ParensConcat(a + m, b);
    if Trim(m) { StripUnique(a, m, b); }
  }

  lemma StripScans(s: string, depth: int)
    ensures Weight(Strip(s)) == Weight(s) && (TopFree(Strip(s), depth) <==> TopFree(s, depth))
    ensures OnlyParens(Strip(s)) == OnlyParens(s) && Trim(Strip(s))
  {
    var a, b := StripParts(s);
    Padding(a, Strip(s), b, depth);
  }

  // ----- the laid-out parameters, cut again

  const INDENT: string := "\n    "

  lemma Blanks()
    ensures Blank(INDENT) && Blank("\n") && Blank("")
  {
  }

  /** The pieces between the commas of the laid-out text. */
  function Padded(params: seq<string>): (r: seq<string>)
    requires params != []
    ensures |r| == |params|
  {
    if |params| == 1 then [INDENT + params[0] + "\n"] else [INDENT + params[0] + ""] + Padded(params[1..])
  }

  lemma LineRegroups(param: string, comma: string, rest: string)
    ensures "\n" + ("    " + param + comma + "\n" + rest) == INDENT + param + comma + ("\n" + rest)
    ensures INDENT + param + "" + ("\n" + "") == INDENT + param + "\n"
  {
  }

  lemma {:induction false} PaddedJoin(params: seq<string>)
    requires params != []
    ensures Join(Padded(params)) == "\n" + Lines(params)
  {
    if |params| > 1 {
      PaddedJoin(params[1..]);
      assert Padded(params)[1..] == Padded(params[1..]);
      LineRegroups(params[0], ",", Lines(params[1..]));
      assert INDENT + params[0] + "" == INDENT + params[0];
    } else {
      assert Lines(params[1..]) == "";
      LineRegroups(params[0], "", "");
    }
  }

  /** Trimmed parameters without top-level commas; all but the last close what they open. */
  predicate Proper(params: seq<string>) {
    params == [] ||
    (&& Trim(params[0]) && TopFree(params[0], 0) && (|params| > 1 ==> Weight(params[0]) == 0)
     && Proper(params[1..]))
  }

  lemma {:induction false} PaddedWellCut(params: seq<string>)
    requires params != [] && Proper(params)
    ensures WellCut(Padded(params), 0)
  {
    Blanks();
    if |params| > 1 {
      Padding(INDENT, params[0], "", 0);
      PaddedWellCut(params[1..]);
      assert Padded(params)[1..] == Padded(params[1..]);
    } else {
      Padding(INDENT, params[0], "\n", 0);
    }
  }

  lemma ParamsCons(pieces: seq<string>)
    requires |pieces| > 1
    ensures var r := Params(pieces); |r| >= 1 && r[0] == Strip(pieces[0]) && r[1..] == Params(pieces[1..])
  {
  }

  lemma {:induction false} ParamsProper(pieces: seq<string>)
    requires WellCut(pieces, 0)
    ensures Proper(Params(pieces))
  {
    StripScans(pieces[0], 0);
    if |pieces| > 1 {
      ParamsProper(pieces[1..]);
      ParamsCons(pieces);
    }
  }

  /** Whether a blank parameter is listed last. */
  predicate EndsBlank(params: seq<string>) { params != [] && params[|params| - 1] == "" }

  function WithoutBlankEnd(params: seq<string>): seq<string> {
    if EndsBlank(params) then params[..|params| - 1] else params
  }

  lemma WithoutBlankEndCons(params: seq<string>)
    requires |params| > 1
    ensures WithoutBlankEnd(params) == [params[0]] + WithoutBlankEnd(params[1..])
  {
    assert params[..|params| - 1] == [params[0]] + params[1..][..|params| - 2];
  }

  lemma {:induction false} ParamsOfPadded(params: seq<string>)
    requires params != [] && Proper(params)
    ensures Params(Padded(params)) == WithoutBlankEnd(params)
  {
    Blanks();
    if |params| > 1 {
      Padding(INDENT, params[0], "", 0);
      ParamsOfPadded(params[1..]);
      assert Padded(params)[1..] == Padded(params[1..]);
      ParamsCons(Padded(params));
      WithoutBlankEndCons(params);
    } else {
      Padding(INDENT, params[0], "\n", 0);
    }
  }

  // ----- the laid-out text, parsed again

  lemma CommaHasNoParens()
    ensures OnlyParens(",") == "" && OnlyParens("") == ""
  {
  }

  lemma JoinParens(pieces: seq<string>)
    requires |pieces| > 1
    ensures OnlyParens(Join(pieces)) == OnlyParens(pieces[0]) + OnlyParens(Join(pieces[1..]))
  {
    ParensConcat(pieces[0] + ",", Join(pieces[1..]));
    ParensConcat(pieces[0], ",");
    CommaHasNoParens();
  }

  lemma SkipAfter(s: string, t: string)
    requires OnlyParens(t) == ""
    ensures OnlyParens(s + t) == OnlyParens(s)
  {
    ParensConcat(s, t);
  }

  lemma OnlyTwoCount(a: string, b: string, c: string, d: string, e: string)
    requires OnlyParens(a) == OnlyParens(c) == OnlyParens(d) == ""
    ensures OnlyParens(a + b + c + d + e) == OnlyParens(b) + OnlyParens(e)
  {
    ParensConcat(a, b);
    SkipAfter(a + b, c);
    SkipAfter(a + b + c, d);
    ParensConcat(a + b + c + d, e);
  }

  lemma LineParens(param: string, comma: string, rest: string)
    requires comma == "" || comma == ","
    ensures OnlyParens("    " + param + comma + "\n" + rest) == OnlyParens(param) + OnlyParens(rest)
  {
    ScanBlank("    ", 0);
    ScanBlank("\n", 0);
    CommaHasNoParens();
    OnlyTwoCount("    ", param, comma, "\n", rest);
  }

  lemma LinesParens(params: seq<string>)
    requires params != []
    ensures OnlyParens(Lines(params)) == OnlyParens(params[0]) + OnlyParens(Lines(params[1..]))
  {
    LineParens(params[0], if |params| > 1 then "," else "", Lines(params[1..]));
  }

  lemma {:induction false} LinesKeepParens(pieces: seq<string>)
    requires |pieces| >= 1
    ensures OnlyParens(Lines(Params(pieces))) == OnlyParens(Join(pieces))
  {
    StripScans(pieces[0], 0);
    if |pieces| > 1 {
      LinesKeepParens(pieces[1..]);
      ParamsCons(pieces);
      LinesParens(Params(pieces));
      JoinParens(pieces);
    } else if Strip(pieces[0]) != "" {
      LinesParens([Strip(pieces[0])]);
      assert [Strip(pieces[0])][1..] == [];
    }
  }

  /** The parameter text of a parsed signature closes every parenthesis it opens, and no other. */
  lemma ParsedIsBalanced(sig: string)
    requires Parse(sig).Some?
    ensures NeverBelow(Parse(sig).value.text, 0) && Total(Parse(sig).value.text) == 0
  {
    var rest := sig[FirstParen(sig)..];
    var e := MatchFrom(rest, 0, 0).value;
    ParenFound(sig);
    assert MatchFrom(rest, 0, 0) == MatchFrom(rest, 1, 1);
    MatchIsBalanced(rest, 1, 1);
  }

  lemma ParseIs(sig: string, n: nat, e: nat)
    requires n < |sig| && FirstParen(sig) == n && e > 0
    requires MatchFrom(sig[n..], 0, 0) == Some(e)
    ensures Parse(sig) == Some(Parts(sig[..n], sig[n..][1..e], sig[n..][e + 1..]))
  {
    assert sig[n] in sig && sig[n + e] in sig;
  }

  lemma MatchStarts(rest: string)
    requires rest != "" && rest[0] == '('
    ensures MatchFrom(rest, 0, 0) == MatchFrom(rest, 1, 1)
  {
  }

  /** The scan started at the first parenthesis stops after a balanced text. */
  lemma CloseFound(text: string, tail: string)
    requires NeverBelow(text, 0) && Total(text) == 0
    ensures MatchFrom("(" + text + ")" + tail, 0, 0) == Some(1 + |text|)
  {
    var rest := "(" + text + ")" + tail;
    assert rest[1..1 + |text|] == text;
    MatchCloses(rest, 1, 1, text);
    MatchStarts(rest);
  }

  lemma Regroups(callee: string, text: string, tail: string)
    ensures var sig, rest := callee + "(" + text + ")" + tail, "(" + text + ")" + tail;
            && sig[|callee|..] == rest && sig[..|callee|] == callee
            && rest[1..1 + |text|] == text && rest[1 + |text| + 1..] == tail
  {
  }

  lemma {:induction false} FirstParenIs(sig: string, n: nat)
    requires n < |sig| && sig[n] == '(' && '(' !in sig[..n]
    ensures FirstParen(sig) == n
  {
    if n > 0 {
      assert sig[0] == sig[..n][0];
      assert sig[1..][..n - 1] == sig[..n][1..];
      FirstParenIs(sig[1..], n - 1);
    }
  }

  /** A balanced text between a name and a tail is found again. */
  lemma ParseFinds(callee: string, text: string, tail: string)
    requires '(' !in callee && NeverBelow(text, 0) && Total(text) == 0
    ensures Parse(callee + "(" + text + ")" + tail) == Some(Parts(callee, text, tail))
  {
    var sig := callee + "(" + text + ")" + tail;
    Regroups(callee, text, tail);
    FirstParenIs(sig, |callee|);
    CloseFound(text, tail);
    ParseIs(sig, |callee|, 1 + |text|);
  }

  lemma LinesKeepTextParens(text: string)
    ensures OnlyParens("\n" + Lines(Params(Pieces(text, 0)))) == OnlyParens(text)
  {
    PiecesJoin(text, 0);
    LinesKeepParens(Pieces(text, 0));
    ScanBlank("\n", 0);
    ParensConcat("\n", Lines(Params(Pieces(text, 0))));
  }

  lemma SameParensSameBalance(a: string, b: string)
    requires OnlyParens(a) == OnlyParens(b)
    ensures NeverBelow(a, 0) == NeverBelow(b, 0) && Total(a) == Total(b)
  {
    ParensNeverBelow(a, 0);
    ParensNeverBelow(b, 0);
    ParensTotal(a);
    ParensTotal(b);
  }

  lemma LayoutBalanced(text: string)
    requires NeverBelow(text, 0) && Total(text) == 0
    ensures var laidOut := "\n" + Lines(Params(Pieces(text, 0))); NeverBelow(laidOut, 0) && Total(laidOut) == 0
  {
    LinesKeepTextParens(text);
    SameParensSameBalance("\n" + Lines(Params(Pieces(text, 0))), text);
  }

  lemma LayoutRegroups(callee: string, lines: string, tail: string)
    ensures callee + "(\n" + lines + ")" + tail == callee + "(" + ("\n" + lines) + ")" + tail
  {
  }

  lemma LayoutParses(sig: string)
    requires Parse(sig).Some?
    ensures var p := Parse(sig).value; var params := Params(Pieces(p.text, 0));
            Parse(Layout(p)) == Some(Parts(p.callee, "\n" + Lines(params), p.tail))
  {
    var p := Parse(sig).value;
    var lines := Lines(Params(Pieces(p.text, 0)));
    ParsedIsBalanced(sig);
    LayoutBalanced(p.text);
    ParseFinds(p.callee, "\n" + lines, p.tail);
    LayoutRegroups(p.callee, lines, p.tail);
  }

  // ----- what formatting promises

  /**
   Nothing is lost. The cut is at the parenthesis that matches the first one; the pieces rejoined
   with commas are the parameter text; and every listed parameter is its piece trimmed.
   */
  lemma FormattingLosesNothing(sig: string)
    requires Parse(sig).Some?
    ensures var p := Parse(sig).value; var pieces := Pieces(p.text, 0);
            && sig == p.callee + "(" + p.text + ")" + p.tail && '(' !in p.callee
            && NeverBelow(p.text, 0) && Total(p.text) == 0
            && Join(pieces) == p.text && WellCut(pieces, 0)
            && Format(sig) == p.callee + "(\n" + Lines(Params(pieces)) + ")" + p.tail
            && OnlyParens(Lines(Params(pieces))) == OnlyParens(p.text)
  {
    var p := Parse(sig).value;
    ParsedIsBalanced(sig);
    PiecesJoin(p.text, 0);
    PiecesWellCut(p.text, 0);
    LinesKeepParens(Pieces(p.text, 0));
  }

  /** There is nothing to lay out exactly when the first parenthesis is missing or never matched. */
  lemma UnparsedExactlyWhenUnmatched(sig: string)
    ensures Parse(sig).None? <==>
            '(' !in sig || MatchFrom(sig[FirstParen(sig)..], 0, 0).None?
  {
    if '(' in sig {
      ParenFound(sig);
      var rest := sig[FirstParen(sig)..];
      if MatchFrom(rest, 0, 0).Some? {
        assert rest[MatchFrom(rest, 0, 0).value] in sig;
      }
    }
  }

  lemma {:induction false} LinesShrink(params: seq<string>)
    requires params != []
    ensures |Lines(params[..|params| - 1])| < |Lines(params)|
  {
    if |params| > 1 {
      LinesShrink(params[1..]);
      var init := params[..|params| - 1];
      assert init[1..] == params[1..][..|params| - 2];
    }
  }

  lemma PiecesOfOne(c: char)
    requires Bracket(c) == 0 && c != ','
    ensures Pieces([c], 0) == [[c]]
  {
    assert [c][1..] == "";
    assert Pieces("", 0) == [""];
    assert [c] + "" == [c];
    assert [[c]] + [] == [[c]];
  }

  lemma BlankHasNoParams()
    ensures "\n" + Lines([]) == "\n" && Params(Pieces("\n", 0)) == []
  {
    var s := "\n";
    assert s[1..] == "";
    PiecesOfOne('\n');
    StripUnique(s, "", "");
    assert s + "" + "" == s;
  }

  lemma LinesListed(params: seq<string>)
    requires Proper(params)
    ensures Params(Pieces("\n" + Lines(params), 0)) == WithoutBlankEnd(params)
  {
    if params == [] {
      BlankHasNoParams();
    } else {
      PaddedJoin(params);
      PaddedWellCut(params);
      JoinPieces(Padded(params), 0);
      ParamsOfPadded(params);
    }
  }

  /** Cutting the laid-out parameters again loses a blank one at the end, and nothing else. */
  lemma ListedAgain(text: string)
    ensures var params := Params(Pieces(text, 0));
            Params(Pieces("\n" + Lines(params), 0)) == WithoutBlankEnd(params)
  {
    PiecesWellCut(text, 0);
    ParamsProper(Pieces(text, 0));
    LinesListed(Params(Pieces(text, 0)));
  }

  /** One line for each of some trimmed parameters without a comma of their own, the last of which is not blank. */
  ghost predicate LaidOut(text: string) {
    exists params :: Proper(params) && WithoutBlankEnd(params) == params && text == "\n" + Lines(params)
  }

  lemma SameInside(callee: string, a: string, b: string, tail: string)
    requires callee + "(" + a + ")" + tail == callee + "(" + b + ")" + tail
    ensures a == b
  {
    Regroups(callee, a, tail);
    Regroups(callee, b, tail);
  }

  /** A signature is left alone exactly when it has no parameter list or one that is laid out already. */
  lemma UnchangedExactlyWhenLaidOut(sig: string)
    ensures Format(sig) == sig <==> Parse(sig).None? || LaidOut(Parse(sig).value.text)
  {
    if Parse(sig).Some? {
      var p := Parse(sig).value;
      var params := Params(Pieces(p.text, 0));
      LayoutRegroups(p.callee, Lines(params), p.tail);
      if Format(sig) == sig {
        SameInside(p.callee, "\n" + Lines(params), p.text, p.tail);
        ListedAgain(p.text);
        PiecesWellCut(p.text, 0);
        ParamsProper(Pieces(p.text, 0));
        assert LaidOut(p.text);
      }
      if LaidOut(p.text) {
        var given :| Proper(given) && WithoutBlankEnd(given) == given && p.text == "\n" + Lines(given);
        LinesListed(given);
      }
    }
  }

  /** The last two pieces are blank: the code drops only the last one. */
  predicate BlankEnd(pieces: seq<string>) {
    |pieces| >= 2 && Blank(pieces[|pieces| - 2]) && Blank(pieces[|pieces| - 1])
  }

  lemma BlankIsStripped(s: string)
    ensures Blank(s) <==> Strip(s) == ""
  {
    if Blank(s) {
      StripUnique(s, "", "");
      assert s + "" + "" == s;
    } else {
      var a, b := StripParts(s);
      assert Strip(s) == "" ==> s == a + b;
    }
  }

  lemma {:induction false} ParamsEndBlank(pieces: seq<string>)
    requires |pieces| >= 1
    ensures EndsBlank(Params(pieces)) <==> BlankEnd(pieces)
  {
    BlankIsStripped(pieces[0]);
    if |pieces| == 2 {
      BlankIsStripped(pieces[1]);
      ParamsCons(pieces);
    } else if |pieces| > 2 {
      ParamsCons(pieces);
      ParamsCons(pieces[1..]);
      ParamsEndBlank(pieces[1..]);
    }
  }

  /** Formatting again changes nothing, unless the last two pieces between top-level commas are blank. */
  lemma IdempotentExactlyWhenNoBlankEnd(sig: string)
    ensures Format(Format(sig)) == Format(sig) <==> Parse(sig).None? || !BlankEnd(Pieces(Parse(sig).value.text, 0))
  {
    if Parse(sig).Some? {
      var p := Parse(sig).value;
      ListedAgain(p.text);
      LayoutParses(sig);
      ParamsEndBlank(Pieces(p.text, 0));
      var params := Params(Pieces(p.text, 0));
      if EndsBlank(params) { LinesShrink(params); }
      assert Format(Format(sig)) == p.callee + "(\n" + Lines(WithoutBlankEnd(params)) + ")" + p.tail;
    }
  }

  /** A signature that formatting twice changes twice: its one listed parameter is blank. */
  lemma FormattingTwiceCanDiffer()
    ensures Format(Format("f(,)")) != Format("f(,)")
  {
    var sig := "f(,)";
    assert sig == "f" + "(" + "," + ")" + "";
    assert NeverBelow(",", 0) && Total(",") == 0 by { assert ","[1..] == ""; }
    ParseFinds("f", ",", "");
    assert ","[1..] == "" && Pieces(",", 0) == [""] + Pieces("", 0) == ["", ""];
    assert BlankEnd(["", ""]);
    IdempotentExactlyWhenNoBlankEnd(sig);
  }

  // ----- what formatting is, without the scans

  /** Counted in this text, all that `(` and `[` open is closed by `)` and `]`. */
  ghost predicate AllClosed(s: string) {
    var m := multiset(s);
    m['('] + m['['] == m[')'] + m[']']
  }

  ghost predicate TopComma(s: string, i: nat) {
    i < |s| && s[i] == ',' && AllClosed(s[..i])
  }

  ghost function TopCommas(s: string, k: nat): nat -> bool {
    (i: nat) => k <= i && TopComma(s, i)
  }

  /** Where piece j starts and ends, when the text from k on is cut at the given positions. */
  ghost function StartOf(k: nat, at: seq<nat>, j: nat): nat
    requires j <= |at|
  {
    if j == 0 then k else at[j - 1] + 1
  }

  ghost function EndOf(s: string, at: seq<nat>, j: nat): nat
    requires j <= |at|
  {
    if j == |at| then |s| else at[j]
  }

  ghost predicate Slice(s: string, from: nat, to: nat, piece: string) {
    from <= to <= |s| && piece == s[from..to]
  }

  ghost predicate CutFrom(s: string, k: nat, at: seq<nat>, pieces: seq<string>) {
    && Lists(at, |s|, TopCommas(s, k)) && |pieces| == |at| + 1
    && forall j :: 0 <= j < |pieces| ==> Slice(s, StartOf(k, at, j), EndOf(s, at, j), pieces[j])
  }

  /** The text is cut exactly at its top-level commas. */
  ghost predicate Cut(s: string, pieces: seq<string>) {
    exists at :: CutFrom(s, 0, at, pieces)
  }

  /** What the prefix of length k leaves open. */
  ghost function DepthAt(s: string, k: nat): int
    requires k <= |s|
  {
    var m := multiset(s[..k]);
    (m['('] + m['[']) as int - (m[')'] + m[']']) as int
  }

  lemma DepthNext(s: string, k: nat)
    requires k < |s|
    ensures DepthAt(s, k + 1) == DepthAt(s, k) + Bracket(s[k])
  {
    assert s[..k + 1] == s[..k] + [s[k]];
  }

  lemma NoComma(s: string, k: nat, at: seq<nat>)
    requires Lists(at, |s|, TopCommas(s, k + 1)) && !TopComma(s, k)
    ensures Lists(at, |s|, TopCommas(s, k))
  {
    ListsAgree(at, |s|, TopCommas(s, k + 1), TopCommas(s, k));
  }

  lemma CommaFirst(s: string, k: nat, at: seq<nat>)
    requires Lists(at, |s|, TopCommas(s, k + 1)) && TopComma(s, k)
    ensures Lists([k] + at, |s|, TopCommas(s, k))
  {
    forall i: nat | i < |s| && TopCommas(s, k)(i)
      ensures i in [k] + at
    {
      if i != k {
        assert TopCommas(s, k + 1)(i);
        assert i in at;
      }
    }
    forall j | 0 <= j < |at|
      ensures k < at[j]
    {
      assert TopCommas(s, k + 1)(at[j]);
    }
  }

  lemma SliceGrows(s: string, k: nat, to: nat, piece: string)
    requires k < |s| && Slice(s, k + 1, to, piece)
    ensures Slice(s, k, to, [s[k]] + piece)
  {
  }

  lemma CutOther(s: string, k: nat, at: seq<nat>, pieces: seq<string>)
    requires k < |s| && CutFrom(s, k + 1, at, pieces) && !TopComma(s, k)
    ensures CutFrom(s, k, at, [[s[k]] + pieces[0]] + pieces[1..])
  {
    NoComma(s, k, at);
    assert Slice(s, StartOf(k + 1, at, 0), EndOf(s, at, 0), pieces[0]);
    SliceGrows(s, k, EndOf(s, at, 0), pieces[0]);
    forall j | 1 <= j < |pieces|
      ensures Slice(s, StartOf(k, at, j), EndOf(s, at, j), pieces[j])
    {
      assert Slice(s, StartOf(k + 1, at, j), EndOf(s, at, j), pieces[j]);
    }
  }

  lemma EndsMove(s: string, k: nat, at: seq<nat>, j: nat)
    requires 0 < j <= |at| + 1
    ensures StartOf(k, [k] + at, j) == StartOf(k + 1, at, j - 1) && EndOf(s, [k] + at, j) == EndOf(s, at, j - 1)
  {
  }

  lemma CutComma(s: string, k: nat, at: seq<nat>, pieces: seq<string>)
    requires k < |s| && CutFrom(s, k + 1, at, pieces) && TopComma(s, k)
    ensures CutFrom(s, k, [k] + at, [""] + pieces)
  {
    CommaFirst(s, k, at);
    forall j | 0 <= j <= |pieces|
      ensures Slice(s, StartOf(k, [k] + at, j), EndOf(s, [k] + at, j), ([""] + pieces)[j])
    {
      if j > 0 {
        EndsMove(s, k, at, j);
        assert Slice(s, StartOf(k + 1, at, j - 1), EndOf(s, at, j - 1), pieces[j - 1]);
      }
    }
  }

  /** Pieces of the text from k on, from those of the text after k. */
  lemma PiecesNext(s: string, k: nat)
    requires k < |s|
    ensures var pieces := Pieces(s[k + 1..], DepthAt(s, k + 1));
            Pieces(s[k..], DepthAt(s, k)) ==
            if TopComma(s, k) then [""] + pieces else [[s[k]] + pieces[0]] + pieces[1..]
  {
    DepthNext(s, k);
    assert s[k..][1..] == s[k + 1..] && s[k..][0] == s[k];
  }

  lemma {:induction false} PiecesAreCut(s: string, k: nat) returns (at: seq<nat>)
    requires k <= |s|
    ensures CutFrom(s, k, at, Pieces(s[k..], DepthAt(s, k)))
    decreases |s| - k
  {
    if k == |s| {
      at := [];
    } else {
      var rest := PiecesAreCut(s, k + 1);
      var pieces := Pieces(s[k + 1..], DepthAt(s, k + 1));
      PiecesNext(s, k);
      if TopComma(s, k) {
        at := [k] + rest;
        CutComma(s, k, rest, pieces);
      } else {
        at := rest;
        CutOther(s, k, rest, pieces);
      }
    }
  }

  /** The pieces are what lies between the commas before which every bracket is closed. */
  lemma PiecesCutAtTopCommas(s: string)
    ensures Cut(s, Pieces(s, 0))
  {
    var at := PiecesAreCut(s, 0);
    assert s[0..] == s && s[..0] == "";
  }

  ghost predicate Trimmed(s: string, r: string) {
    Trim(r) && exists a, b :: Blank(a) && Blank(b) && s == a + r + b
  }

  /** One trimmed parameter for each piece, except for a blank last one. */
  ghost predicate Trims(pieces: seq<string>, params: seq<string>)
    requires |pieces| >= 1
  {
    && |params| == (if Blank(pieces[|pieces| - 1]) then |pieces| - 1 else |pieces|)
    && forall j :: 0 <= j < |params| ==> Trimmed(pieces[j], params[j])
  }

  lemma {:induction false} ParamsAreTrimmed(pieces: seq<string>)
    requires |pieces| >= 1
    ensures Trims(pieces, Params(pieces))
  {
    var a, b := StripParts(pieces[0]);
    assert Trimmed(pieces[0], Strip(pieces[0]));
    if |pieces| == 1 {
      BlankIsStripped(pieces[0]);
    } else {
      ParamsAreTrimmed(pieces[1..]);
      ParamsCons(pieces);
    }
  }

  /** The parameters are the trimmed pieces between the top-level commas of the text. */
  ghost predicate Splits(text: string, params: seq<string>) {
    exists pieces :: |pieces| >= 1 && Cut(text, pieces) && Trims(pieces, params)
  }

  lemma ParamsSplit(text: string)
    ensures Splits(text, Params(Pieces(text, 0)))
  {
    PiecesCutAtTopCommas(text);
    ParamsAreTrimmed(Pieces(text, 0));
  }

  ghost predicate Balanced(s: string) {
    && (forall i :: 0 <= i <= |s| ==> multiset(s[..i])['('] >= multiset(s[..i])[')'])
    && multiset(s)['('] == multiset(s)[')']
  }

  lemma {:induction false} TotalCounts(s: string)
    ensures Total(s) + multiset(s)[')'] == multiset(s)['(']
  {
    if s != "" {
      assert s == [s[0]] + s[1..];
      TotalCounts(s[1..]);
    }
  }

  lemma {:induction false} NeverBelowCounts(s: string, open: nat)
    ensures NeverBelow(s, open) <==>
            forall i :: 0 <= i <= |s| ==> open + multiset(s[..i])['('] >= multiset(s[..i])[')']
  {
    if s != "" {
      var c, t := s[0], s[1..];
      forall i | 0 < i <= |s|
        ensures multiset(s[..i]) == multiset{c} + multiset(t[..i - 1])
      {
        assert s[..i] == [c] + t[..i - 1];
      }
      if open + Paren(c) >= 0 {
        NeverBelowCounts(t, open + Paren(c));
        if forall i :: 0 <= i <= |s| ==> open + multiset(s[..i])['('] >= multiset(s[..i])[')'] {
          forall i | 0 <= i <= |t|
            ensures open + Paren(c) + multiset(t[..i])['('] >= multiset(t[..i])[')']
          {
            assert multiset(s[..i + 1]) == multiset{c} + multiset(t[..i]);
          }
        }
      } else {
        assert multiset(s[..1]) == multiset{c} + multiset(t[..0]);
      }
    }
  }

  lemma BalancedExactly(s: string)
    ensures NeverBelow(s, 0) && Total(s) == 0 <==> Balanced(s)
  {
    TotalCounts(s);
    NeverBelowCounts(s, 0);
  }

  /** The signature is a name, a balanced parameter text in the first parentheses, and a tail. */
  ghost predicate Encloses(sig: string, p: Parts) {
    sig == p.callee + "(" + p.text + ")" + p.tail && '(' !in p.callee && Balanced(p.text)
  }

  lemma ParseExactly(sig: string, p: Parts)
    ensures Parse(sig) == Some(p) <==> Encloses(sig, p)
  {
    BalancedExactly(p.text);
    if Parse(sig) == Some(p) { ParsedIsBalanced(sig); }
    if Encloses(sig, p) { ParseFinds(p.callee, p.text, p.tail); }
  }

  ghost function Concat(lines: seq<string>): string {
    if lines == [] then "" else lines[0] + Concat(lines[1..])
  }

  /** One indented line for each parameter; all but the last end with a comma. */
  ghost predicate OneLineEach(params: seq<string>, lines: seq<string>) {
    && |lines| == |params|
    && forall i :: 0 <= i < |params| ==>
         lines[i] == "    " + params[i] + (if i < |params| - 1 then "," else "") + "\n"
  }

  lemma {:induction false} LinesAreOneEach(params: seq<string>) returns (lines: seq<string>)
    ensures OneLineEach(params, lines) && Lines(params) == Concat(lines)
  {
    if params == [] {
      lines := [];
    } else {
      var rest := LinesAreOneEach(params[1..]);
      lines := ["    " + params[0] + (if |params| > 1 then "," else "") + "\n"] + rest;
      assert lines[1..] == rest;
    }
  }

  /** The parts of the signature with the parameters of its text on lines of their own. */
  ghost predicate LaysOut(p: Parts, params: seq<string>, lines: seq<string>, formatted: string) {
    && Splits(p.text, params) && OneLineEach(params, lines)
    && formatted == p.callee + "(\n" + Concat(lines) + ")" + p.tail
  }

  /** A signature without a parameter list stays as it is; any other is laid out. */
  ghost predicate Formatted(sig: string, formatted: string) {
    && ((forall p :: !Encloses(sig, p)) ==> formatted == sig)
    && forall p :: Encloses(sig, p) ==> exists params, lines :: LaysOut(p, params, lines, formatted)
  }

  /** Formatting, in terms of counted brackets, trimmed text and written lines alone. */
  lemma FormatIsFormatted(sig: string)
    ensures Formatted(sig, Format(sig))
  {
    if Parse(sig).Some? {
      var p := Parse(sig).value;
      ParseExactly(sig, p);
      var lines := LinesAreOneEach(Params(Pieces(p.text, 0)));
      ParamsSplit(p.text);
      assert LaysOut(p, Params(Pieces(p.text, 0)), lines, Format(sig));
    }
    forall p | Encloses(sig, p)
      ensures exists params, lines :: LaysOut(p, params, lines, Format(sig))
    {
      ParseExactly(sig, p);
    }
  }

  // ----- the loops

  /** The scan for the closing parenthesis; -1 when there is none. */
  method FindClose(rest: string) returns (splitIdx: int)
    ensures MatchFrom(rest, 0, 0) == if splitIdx < 0 then None else Some(splitIdx)
    ensures splitIdx >= -1
  {
    var parenCount := 0;
    for i := 0 to |rest|
      invariant MatchFrom(rest, 0, 0) == MatchFrom(rest, i, parenCount)
    {
      if rest[i] == '(' {
        parenCount := parenCount + 1;
      } else if rest[i] == ')' {
        parenCount := parenCount - 1;
        if parenCount == 0 {
          return i;
        }
      }
    }
    return -1;
  }

  /** What is already read of a piece, put before the pieces still to come. */
  function Attach(current: string, pieces: seq<string>): (r: seq<string>)
    requires |pieces| >= 1
    ensures |r| == |pieces|
  {
    [current + pieces[0]] + pieces[1..]
  }

  lemma AttachChar(current: string, s: string, depth: int)
    requires s != "" && !(s[0] == ',' && depth == 0)
    ensures Attach(current, Pieces(s, depth)) == Attach(current + [s[0]], Pieces(s[1..], depth + Bracket(s[0])))
  {
    var r := Pieces(s[1..], depth + Bracket(s[0]));
    assert current + ([s[0]] + r[0]) == current + [s[0]] + r[0];
    assert ([[s[0]] + r[0]] + r[1..])[1..] == r[1..];
  }

  lemma AttachComma(current: string, s: string)
    requires s != "" && s[0] == ','
    ensures Params(Attach(current, Pieces(s, 0))) == [Strip(current)] + Params(Attach("", Pieces(s[1..], 0)))
  {
    var r := Pieces(s[1..], 0);
    assert ([""] + r)[1..] == r && current + "" == current;
    assert Attach(current, Pieces(s, 0)) == [current] + r;
    assert ([current] + r)[1..] == r;
    assert "" + r[0] == r[0] && [r[0]] + r[1..] == r;
  }

  /** The parameters still to be listed when the scan has read `current` of a piece and `rest` follows. */
  function Pending(current: string, rest: string, depth: int): seq<string> {
    Params(Attach(current, Pieces(rest, depth)))
  }

  lemma PendingStart(text: string)
    ensures Pending("", text, 0) == Params(Pieces(text, 0))
  {
    var r := Pieces(text, 0);
    assert "" + r[0] == r[0] && [r[0]] + r[1..] == r;
  }

  lemma PendingEnd(current: string, depth: int)
    ensures Pending(current, "", depth) == if Strip(current) != "" then [Strip(current)] else []
  {
    assert current + "" == current && Attach(current, [""]) == [current];
  }

  lemma PendingComma(current: string, s: string)
    requires s != "" && s[0] == ','
    ensures Pending(current, s, 0) == [Strip(current)] + Pending("", s[1..], 0)
  {
    AttachComma(current, s);
  }

  lemma PendingChar(current: string, s: string, depth: int)
    requires s != "" && !(s[0] == ',' && depth == 0)
    ensures Pending(current, s, depth) == Pending(current + [s[0]], s[1..], depth + Bracket(s[0]))
  {
    AttachChar(current, s, depth);
  }

  lemma ListedAppend(listed: seq<string>, param: string, pending: seq<string>)
    ensures listed + ([param] + pending) == listed + [param] + pending
  {
  }

  /** What is listed and what is pending make up all the parameters. */
  predicate Reading(listed: seq<string>, current: string, depth: int, rest: string, all: seq<string>) {
    listed + Pending(current, rest, depth) == all
  }

  lemma ReadComma(listed: seq<string>, current: string, s: string, all: seq<string>)
    requires s != "" && s[0] == ',' && Reading(listed, current, 0, s, all)
    ensures Reading(listed + [Strip(current)], "", 0, s[1..], all)
  {
    PendingComma(current, s);
    ListedAppend(listed, Strip(current), Pending("", s[1..], 0));
  }

  lemma ReadOther(listed: seq<string>, current: string, depth: int, s: string, all: seq<string>, depth': int)
    requires s != "" && Reading(listed, current, depth, s, all)
    requires !(s[0] == ',' && depth == 0) && depth' == depth + Bracket(s[0])
    ensures Reading(listed, current + [s[0]], depth', s[1..], all)
  {
    PendingChar(current, s, depth);
  }

  /** One turn of the splitting loop. */
  method ReadChar(params: seq<string>, current: string, depth: int, c: char, ghost s: string, ghost all: seq<string>)
    returns (params': seq<string>, current': string, depth': int)
    requires s != "" && s[0] == c && Reading(params, current, depth, s, all)
    ensures Reading(params', current', depth', s[1..], all)
  {
    params', current', depth' := params, current + [c], depth;
    if c in "[(" {
      depth' := depth + 1;
      ReadOther(params, current, depth, s, all, depth');
    } else if c in "])" {
      depth' := depth - 1;
      ReadOther(params, current, depth, s, all, depth');
    } else if c == ',' && depth == 0 {
      assert current'[..|current'| - 1] == current;
      ReadComma(params, current, s, all);
      params' := params + [Strip(current'[..|current'| - 1])];
      current' := "";
    } else {
      ReadOther(params, current, depth, s, all, depth');
    }
  }

  method SplitParameters(text: string) returns (params: seq<string>)
    ensures params == Params(Pieces(text, 0)) && Splits(text, params)
  {
    params := [];
    var current, depth := "", 0;
    PendingStart(text);
    assert text[0..] == text;
    for i := 0 to |text|
      invariant Reading(params, current, depth, text[i..], Params(Pieces(text, 0)))
    {
      ghost var s := text[i..];
      assert s[0] == text[i] && s[1..] == text[i + 1..];
      params, current, depth := ReadChar(params, current, depth, text[i], s, Params(Pieces(text, 0)));
    }
    assert text[|text|..] == "";
    PendingEnd(current, depth);
    if Strip(current) != "" {
      params := params + [Strip(current)];
    }
    ParamsSplit(text);
  }

  lemma LineAppended(a: string, b: string, c: string)
    ensures a + (b + c) == a + b + c
  {
  }

  /** The loop that writes the parameters. */
  method LayOutLines(callee: string, params: seq<string>, tail: string) returns (formatted: string)
    ensures formatted == callee + "(\n" + Lines(params) + ")" + tail
  {
    formatted := callee + "(\n";
    for i := 0 to |params|
      invariant formatted + Lines(params[i..]) == callee + "(\n" + Lines(params)
    {
      var comma := if i < |params| - 1 then "," else "";
      assert params[i..][0] == params[i] && params[i..][1..] == params[i + 1..];
      LineAppended(formatted, "    " + params[i] + comma + "\n", Lines(params[i + 1..]));
      formatted := formatted + ("    " + params[i] + comma + "\n");
    }
    assert params[|params|..] == [] && formatted + "" == formatted;
    formatted := formatted + ")" + tail;
  }

  method FormatSignature(sig: string) returns (formatted: string)
    ensures formatted == Format(sig)
  {
    if '(' !in sig || ')' !in sig {
      return sig;
    }
    var n := FirstParen(sig);
    var callee, rest := sig[..n], sig[n..];
    var splitIdx := FindClose(rest);
    if splitIdx <= 0 {
      return sig;
    }
    var tail := rest[splitIdx + 1..];
    var params := SplitParameters(rest[1..splitIdx]);
    formatted := LayOutLines(callee, params, tail);
  }
}
