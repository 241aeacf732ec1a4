/** Runs of a transition relation: how far its steps lead, and that a deterministic one has a single end. */
module Runs {
  /** n steps lead from s to s'. */
  ghost predicate Leads<S(!new)>(next: (S, S) -> bool, s: S, n: nat, s': S) {
    if n == 0 then s' == s else exists m :: Leads(next, s, n - 1, m) && next(m, s')
  }

  ghost predicate Final<S(!new)>(next: (S, S) -> bool, s: S) {
    forall s' :: !next(s, s')
  }

  ghost predicate Deterministic<S(!new)>(next: (S, S) -> bool) {
    forall s, a, b :: next(s, a) && next(s, b) ==> a == b
  }

  lemma FourSteps<S(!new)>(next: (S, S) -> bool, s: S, a: S, b: S, c: S, d: S)
    requires next(s, a) && next(a, b) && next(b, c) && next(c, d)
    ensures Leads(next, s, 4, d)
  {
    assert Leads(next, s, 0, s);
    assert Leads(next, s, 1, a);
    assert Leads(next, s, 2, b);
    assert Leads(next, s, 3, c);
  }

  /** The states that steps from `start` lead to. */
  ghost function From<S(!new)>(next: (S, S) -> bool, start: S): S -> bool {
    s => exists n: nat :: Leads(next, start, n, s)
  }

  /** What a step keeps. */
  ghost predicate Preserved<S(!new)>(next: (S, S) -> bool, inv: S -> bool) {
    forall s, s' {:trigger next(s, s')} :: inv(s) && next(s, s') ==> inv(s')
  }

  lemma {:induction false} PreservedAlong<S(!new)>(next: (S, S) -> bool, inv: S -> bool, s: S, n: nat, s': S)
    requires Preserved(next, inv) && inv(s) && Leads(next, s, n, s')
    ensures inv(s')
  {
    if n > 0 {
      var m :| Leads(next, s, n - 1, m) && next(m, s');
      PreservedAlong(next, inv, s, n - 1, m);
    }
  }

  lemma FromIsPreserved<S(!new)>(next: (S, S) -> bool, start: S)
    ensures From(next, start)(start) && Preserved(next, From(next, start))
  {
    assert Leads(next, start, 0, start);
    forall s, s' | From(next, start)(s) && next(s, s')
      ensures From(next, start)(s')
    {
      var n: nat :| Leads(next, start, n, s);
      assert Leads(next, start, n + 1, s');
    }
  }

  lemma {:induction false} LeadsIsUnique<S(!new)>(next: (S, S) -> bool, s: S, n: nat, a: S, b: S)
    requires Deterministic(next) && Leads(next, s, n, a) && Leads(next, s, n, b)
    ensures a == b
  {
    if n > 0 {
      var m :| Leads(next, s, n - 1, m) && next(m, a);
      var m' :| Leads(next, s, n - 1, m') && next(m', b);
      LeadsIsUnique(next, s, n - 1, m, m');
    }
  }

  /** A longer run goes on from where a shorter one ends. */
  lemma {:induction false} LeadsOn<S(!new)>(next: (S, S) -> bool, s: S, n: nat, a: S, n': nat, b: S)
    requires Deterministic(next) && Leads(next, s, n, a) && Leads(next, s, n', b) && n < n'
    ensures !Final(next, a)
  {
    var m :| Leads(next, s, n' - 1, m) && next(m, b);
    if n == n' - 1 {
      LeadsIsUnique(next, s, n, a, m);
    } else {
      LeadsOn(next, s, n, a, n' - 1, m);
    }
  }

  /** All runs that come to an end come to the same one. */
  lemma EndIsUnique<S(!new)>(next: (S, S) -> bool, s: S, n: nat, a: S, n': nat, b: S)
    requires Deterministic(next) && Leads(next, s, n, a) && Final(next, a) && Leads(next, s, n', b) && Final(next, b)
    ensures a == b
  {
    if n < n' {
      LeadsOn(next, s, n, a, n', b);
    } else if n' < n {
      LeadsOn(next, s, n', b, n, a);
    } else {
      LeadsIsUnique(next, s, n, a, b);
    }
  }
}
