/** What every component shares: the two result datatypes, and what it means to list things. */
module Wrappers {
  datatype Option<+T> = None | Some(value: T)

  /** `Err` stands for an exception or a failed assertion of the original. */
  datatype Result<+T, +E> = Ok(value: T) | Err(error: E)

  ghost predicate Distinct<T>(s: seq<T>) {
    forall i, j :: 0 <= i < j < |s| ==> s[i] != s[j]
  }

  /** `at` lists, in ascending order, exactly the chosen numbers below n. */
  ghost predicate Lists(at: seq<nat>, n: nat, chosen: nat -> bool) {
    && (forall j :: 0 <= j < |at| ==> at[j] < n && chosen(at[j]))
    && (forall i, j :: 0 <= i < j < |at| ==> at[i] < at[j])
    && (forall i: nat {:trigger i in at} :: i < n && chosen(i) ==> i in at)
  }

  /** Only the choice below n matters. */
  lemma ListsAgree(at: seq<nat>, n: nat, chosen: nat -> bool, chosen': nat -> bool)
    requires Lists(at, n, chosen) && forall i: nat :: i < n ==> chosen'(i) == chosen(i)
    ensures Lists(at, n, chosen')
  {
    forall i: nat | i < n && chosen'(i)
      ensures i in at
    {
      assert chosen(i);
      assert i in at;
    }
  }

  /** One number more to choose from. */
  lemma ListsNext(at: seq<nat>, n: nat, chosen: nat -> bool)
    requires Lists(at, n, chosen)
    ensures Lists(if chosen(n) then at + [n] else at, n + 1, chosen)
  {
    if chosen(n) {
      forall i: nat | i < n + 1 && chosen(i)
        ensures i in at + [n]
      {
        assert i < n ==> i in at;
      }
    }
  }

  lemma ListsShort(at: seq<nat>, n: nat, chosen: nat -> bool)
    requires Lists(at, n + 1, chosen) && !chosen(n)
    ensures Lists(at, n, chosen)
  {
    forall j | 0 <= j < |at|
      ensures at[j] < n
    {
      assert chosen(at[j]);
    }
  }

  lemma ListsEnd(at: seq<nat>, n: nat, chosen: nat -> bool)
    requires Lists(at, n + 1, chosen) && chosen(n)
    ensures at != [] && at[|at| - 1] == n && Lists(at[..|at| - 1], n, chosen)
  {
    assert n in at;
    var before := at[..|at| - 1];
    forall i: nat | i < n && chosen(i)
      ensures i in before
    {
      assert i in at;
      var k :| 0 <= k < |at| && at[k] == i;
      assert before[k] == i;
    }
  }

  /** There is one such list. */
  lemma {:induction false} ListsUnique(at: seq<nat>, at': seq<nat>, n: nat, chosen: nat -> bool)
    requires Lists(at, n, chosen) && Lists(at', n, chosen)
    ensures at == at'
    decreases n
  {
    if n > 0 {
      if chosen(n - 1) {
        ListsEnd(at, n - 1, chosen);
        ListsEnd(at', n - 1, chosen);
        ListsUnique(at[..|at| - 1], at'[..|at'| - 1], n - 1, chosen);
        assert at == at[..|at| - 1] + [n - 1];
      } else {
        ListsShort(at, n - 1, chosen);
        ListsShort(at', n - 1, chosen);
        ListsUnique(at, at', n - 1, chosen);
      }
    }
  }
}
