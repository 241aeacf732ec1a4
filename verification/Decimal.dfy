/**
 Decimal rendering of node ids and positions inside generated names, as Python's `str` and
 f-strings produce it.
 */
module Decimal {
  function Digit(d: nat): (c: char)
    requires d < 10
    ensures '0' <= c <= '9'
  {
    "0123456789"[d]
  }

  /** The decimal digits of `n`, most significant first, with no leading zero. */
  function Render(n: nat): (s: string)
    ensures |s| > 0
    ensures forall i :: 0 <= i < |s| ==> '0' <= s[i] <= '9'
  {
    if n < 10 then [Digit(n)] else Render(n / 10) + [Digit(n % 10)]
  }

  /** The number that a text of digits stands for. */
  ghost function Reading(s: string): int {
    if s == "" then 0 else 10 * Reading(s[..|s| - 1]) + (s[|s| - 1] as int - '0' as int)
  }

  lemma {:induction false} RenderReads(n: nat)
    ensures Reading(Render(n)) == n
    ensures Render(n)[0] == '0' ==> n == 0
  {
    if n >= 10 {
      RenderReads(n / 10);
      assert Render(n)[..|Render(n)| - 1] == Render(n / 10);
    } else {
      assert Render(n)[..0] == "";
    }
  }

  lemma RenderParts(n: nat)
    ensures Render(n) == (if n < 10 then [] else Render(n / 10)) + [Digit(n % 10)]
    ensures n == 10 * (n / 10) + n % 10
  {
  }

  lemma LastDigit(a: string, b: string, i: nat, j: nat)
    requires i < 10 && j < 10 && a + [Digit(i)] == b + [Digit(j)]
    ensures a == b && i == j
  {
    assert a == (a + [Digit(i)])[..|a + [Digit(i)]| - 1];
    assert b == (b + [Digit(j)])[..|b + [Digit(j)]| - 1];
    assert Digit(i) == (a + [Digit(i)])[|a|] == (b + [Digit(j)])[|b|] == Digit(j);
  }

  lemma {:induction false} RenderInjective(m: nat, n: nat)
    requires Render(m) == Render(n)
    ensures m == n
    decreases m
  {
    RenderParts(m);
    RenderParts(n);
    LastDigit(if m < 10 then [] else Render(m / 10), if n < 10 then [] else Render(n / 10), m % 10, n % 10);
    if m >= 10 {
      RenderInjective(m / 10, n / 10);
    }
  }

  lemma LongerPrefixDiffers(a: string, m: nat, b: string, n: nat)
    requires |a| < |b|
    ensures a + "_" + Render(m) != b + "_" + Render(n)
  {
    var s, t := a + "_" + Render(m), b + "_" + Render(n);
    assert t[|b|] == '_';
    if |b| < |s| {
      assert s[|b|] == Render(m)[|b| - |a| - 1];
    }
  }

  /**
   A name ending in an underscore and a number determines both parts: the last underscore is the
   separator because a number contains none.
   */
  lemma SuffixInjective(a: string, m: nat, b: string, n: nat)
    requires a + "_" + Render(m) == b + "_" + Render(n)
    ensures a == b && m == n
  {
    var s, t := a + "_" + Render(m), b + "_" + Render(n);
    if |a| < |b| {
      LongerPrefixDiffers(a, m, b, n);
    } else if |b| < |a| {
      LongerPrefixDiffers(b, n, a, m);
    } else {
      assert a == s[..|a|] == t[..|a|] == b;
      assert Render(m) == s[|a| + 1..] == t[|a| + 1..] == Render(n);
      RenderInjective(m, n);
    }
  }
}
