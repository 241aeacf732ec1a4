/**
 Lowering an axis permutation to a swap of two dimensions, once for Forge and once for the PyTorch
 fallback, and what both do to the index of a tensor element.
 */
module TransposeLowering {
  import opened Wrappers

  datatype Error = NotTwoAxes(found: nat)

  datatype Swap = Swap(dim0: int, dim1: int)

  /** Each of 0 .. |axes| - 1 occurs once. */
  ghost predicate Permutation(axes: seq<int>) {
    && (forall i :: 0 <= i < |axes| ==> 0 <= axes[i] < |axes|)
    && (forall i, j :: 0 <= i < j < |axes| ==> axes[i] != axes[j])
  }

  function NormalAxis(rank: nat, axis: int): int { if axis < 0 then axis + rank else axis }

  /** Negative axes count from the end. */
  function Normalized(axes: seq<int>): (r: seq<int>)
    ensures |r| == |axes| && forall i :: 0 <= i < |axes| ==> r[i] == NormalAxis(|axes|, axes[i])
  {
    seq(|axes|, i requires 0 <= i < |axes| => NormalAxis(|axes|, axes[i]))
  }

  /** The positions below n that the axes move, last first. */
  function Moved(axes: seq<int>, n: nat): (r: seq<int>)
    requires n <= |axes|
  {
    if n == 0 then [] else (if axes[n - 1] != n - 1 then [n - 1] else []) + Moved(axes, n - 1)
  }

  /** The axes found at the moved positions, last first. */
  function MovedAxes(axes: seq<int>, n: nat): (r: seq<int>)
    requires n <= |axes|
    ensures |r| == |Moved(axes, n)|
    ensures forall i :: 0 <= i < |r| ==> 0 <= Moved(axes, n)[i] < n && r[i] == axes[Moved(axes, n)[i]]
  {
    if n == 0 then [] else (if axes[n - 1] != n - 1 then [axes[n - 1]] else []) + MovedAxes(axes, n - 1)
  }

  /** What both the permutation and the swap do to an index (or to a shape). */
  function Gather<T>(axes: seq<int>, index: seq<T>): (r: seq<T>)
    requires |axes| == |index| && forall i :: 0 <= i < |axes| ==> 0 <= axes[i] < |axes|
    ensures |r| == |index| && forall i :: 0 <= i < |axes| ==> r[i] == index[axes[i]]
  {
    seq(|axes|, i requires 0 <= i < |axes| => index[axes[i]])
  }

  function SwapDims<T>(s: Swap, index: seq<T>): seq<T>
    requires 0 <= NormalAxis(|index|, s.dim0) < |index| && 0 <= NormalAxis(|index|, s.dim1) < |index|
  {
    var a, b := NormalAxis(|index|, s.dim0), NormalAxis(|index|, s.dim1);
    index[a := index[b]][b := index[a]]
  }

  ghost predicate SwapsLike<T(!new)>(s: Swap, axes: seq<int>) {
    && 0 <= NormalAxis(|axes|, s.dim0) < |axes| && 0 <= NormalAxis(|axes|, s.dim1) < |axes|
    && (forall i :: 0 <= i < |axes| ==> 0 <= axes[i] < |axes|)
    && forall index: seq<T> :: |index| == |axes| ==> SwapDims(s, index) == Gather(axes, index)
  }

  // ----- the two lowerings

  method NormalizeAxes(axes: seq<int>) returns (normal: seq<int>)
    ensures normal == Normalized(axes)
    ensures |normal| == |axes|
    ensures forall i :: 0 <= i < |axes| ==> normal[i] == if axes[i] < 0 then axes[i] + |axes| else axes[i]
  {
    normal := axes;
    for i := 0 to |axes|
      invariant |normal| == |axes|
      invariant forall j :: 0 <= j < |axes| ==> normal[j] == if j < i then NormalAxis(|axes|, axes[j]) else axes[j]
    {
      if normal[i] < 0 {
        normal := normal[i := normal[i] + |axes|];
      }
    }
  }

  method TransposedAxes(normal: seq<int>) returns (transposed: seq<int>)
    ensures transposed == MovedAxes(normal, |normal|)
  {
    transposed := [];
    for i := 0 to |normal|
      invariant transposed == MovedAxes(normal, i)
    {
      if normal[i] != i {
        transposed := [normal[i]] + transposed;
      }
    }
  }

  /** The Forge lowering emits a swap for two moved axes, and for the identity on two axes. */
  predicate ForgeEmits(axes: seq<int>) {
    var n := Normalized(axes);
    |Moved(n, |n|)| == 2 || (|Moved(n, |n|)| == 0 && |n| == 2)
  }

  /** The moved axes, last first, or all axes when none is moved. Forge dimensions count from the end. */
  function ForgeSwap(axes: seq<int>): Swap
    requires ForgeEmits(axes)
  {
    var n := Normalized(axes);
    var found := if |Moved(n, |n|)| == 2 then MovedAxes(n, |n|) else n;
    Swap(found[0] - |n|, found[1] - |n|)
  }

  lemma FoundAxes(axes: seq<int>)
    ensures var n := Normalized(axes); var moved := MovedAxes(n, |n|); var found := if moved == [] then n else moved;
            && (|found| == 2 <==> ForgeEmits(axes))
            && (|found| == 2 ==> ForgeSwap(axes) == Swap(found[0] - |n|, found[1] - |n|))
            && |moved| == |Moved(n, |n|)|
  {
  }

  method PopulateTransposeArgs(axes: seq<int>) returns (r: Result<Swap, Error>)
    ensures r.Ok? <==> ForgeEmits(axes)
    ensures r.Ok? ==> r.value == ForgeSwap(axes)
    ensures r.Err? ==> var n := Normalized(axes); var found := |Moved(n, |n|)|;
                       r.error == NotTwoAxes(if found == 0 then |n| else found)
  {
    var rank := |axes|;
    var normal := NormalizeAxes(axes);
    var transposed := TransposedAxes(normal);
    FoundAxes(axes);
    if |transposed| == 0 {
      transposed := normal;
    }
    if |transposed| != 2 {
      return Err(NotTwoAxes(|transposed|));
    }
    return Ok(Swap(transposed[0] - rank, transposed[1] - rank));
  }

  /** Ascending order of the same positions. */
  function MovedUp(axes: seq<int>, n: nat): (r: seq<int>)
    requires n <= |axes|
  {
    if n == 0 then [] else MovedUp(axes, n - 1) + if axes[n - 1] != n - 1 then [n - 1] else []
  }

  /** The PyTorch lowering compares the axes as written, without normalizing them. */
  method PopulateTorchTransposeArgs(axes: seq<int>) returns (r: Result<Swap, Error>)
    ensures var moved := MovedUp(axes, |axes|);
            r == if |moved| == 2 then Ok(Swap(moved[0], moved[1])) else Err(NotTwoAxes(|moved|))
  {
    var changed := [];
    for i := 0 to |axes|
      invariant changed == MovedUp(axes, i)
    {
      if i != axes[i] {
        changed := changed + [i];
      }
    }
    if |changed| != 2 {
      return Err(NotTwoAxes(|changed|));
    }
    return Ok(Swap(changed[0], changed[1]));
  }

  // ----- permutations that move two axes

  lemma MovedNext(axes: seq<int>, n: nat)
    requires n < |axes|
    ensures n == 0 ==> Moved(axes, n) == [] && MovedUp(axes, n) == []
    ensures Moved(axes, n + 1) == (if axes[n] != n then [n] else []) + Moved(axes, n)
    ensures MovedUp(axes, n + 1) == MovedUp(axes, n) + if axes[n] != n then [n] else []
  {
  }

  lemma {:induction false} MovedMembers(axes: seq<int>, n: nat)
    requires n <= |axes|
    ensures forall i :: i in Moved(axes, n) <==> 0 <= i < n && axes[i] != i
    ensures forall i, j :: 0 <= i < j < |Moved(axes, n)| ==> Moved(axes, n)[i] > Moved(axes, n)[j]
  {
    if n > 0 {
      MovedMembers(axes, n - 1);
      var rest := Moved(axes, n - 1);
      assert forall j :: 0 <= j < |rest| ==> rest[j] in rest;
    }
  }

  /** A permutation that moves exactly two positions exchanges them. */
  lemma TwoMovedExchange(axes: seq<int>) returns (a: nat, b: nat)
    requires Permutation(axes) && |Moved(axes, |axes|)| == 2
    ensures a < b < |axes| && Moved(axes, |axes|) == [b, a]
    ensures axes[a] == b && axes[b] == a
    ensures forall i :: 0 <= i < |axes| && i != a && i != b ==> axes[i] == i
  {
    MovedMembers(axes, |axes|);
    var moved := Moved(axes, |axes|);
    assert moved[0] in moved && moved[1] in moved;
    a, b := moved[1], moved[0];
    forall i | 0 <= i < |axes| && i != a && i != b
      ensures axes[i] == i
    {
      assert i !in moved;
    }
    assert axes[axes[a]] != axes[a] && axes[axes[b]] != axes[b];
  }

  /** A permutation cannot move exactly one position. */
  lemma NotOneMoved(axes: seq<int>)
    requires Permutation(axes)
    ensures |Moved(axes, |axes|)| != 1
  {
    MovedMembers(axes, |axes|);
    var moved := Moved(axes, |axes|);
    if |moved| > 0 {
      var a := moved[0];
      assert a in moved;
      assert axes[axes[a]] != axes[a];
      var i :| 0 <= i < |moved| && moved[i] == axes[a];
      assert i != 0;
    }
  }

  lemma ExchangeSwaps<T>(axes: seq<int>, a: nat, b: nat, s: Swap, index: seq<T>)
    requires a < b < |axes| == |index| && axes[a] == b && axes[b] == a
    requires forall i :: 0 <= i < |axes| && i != a && i != b ==> axes[i] == i
    requires NormalAxis(|axes|, s.dim0) == a && NormalAxis(|axes|, s.dim1) == b
    ensures SwapDims(s, index) == Gather(axes, index)
  {
  }

  ghost predicate Identity(axes: seq<int>) {
    forall i :: 0 <= i < |axes| ==> axes[i] == i
  }

  /** For every permutation moving exactly two axes, the emitted swap permutes every index as the axes do. */
  lemma ForgeSwapIsPermutation<T(!new)>(axes: seq<int>)
    requires var n := Normalized(axes); Permutation(n) && |Moved(n, |n|)| == 2
    ensures SwapsLike<T>(ForgeSwap(axes), Normalized(axes))
  {
    var n := Normalized(axes);
    var a, b := TwoMovedExchange(n);
    var s := ForgeSwap(axes);
    forall index: seq<T> | |index| == |n|
      ensures SwapDims(s, index) == Gather(n, index)
    {
      ExchangeSwaps(n, a, b, s, index);
    }
  }

  /** Position i holds the axis that exchanging a and b puts there. */
  ghost predicate Exchanges(axes: seq<int>, a: nat, b: nat) {
    forall i :: 0 <= i < |axes| ==> axes[i] == if i == a then b else if i == b then a else i
  }

  lemma {:induction false} ExchangedMoved(axes: seq<int>, a: nat, b: nat, n: nat)
    requires a < b && Exchanges(axes, a, b) && n <= |axes|
    ensures Moved(axes, n) == (if b < n then [b] else []) + (if a < n then [a] else [])
  {
    if n > 0 {
      ExchangedMoved(axes, a, b, n - 1);
      assert axes[n - 1] != n - 1 <==> n - 1 == a || n - 1 == b;
    }
  }

  /** The dimensions that Forge swaps are the two exchanged ones in ascending order, counted from the end. */
  lemma ExchangeIsLowered(axes: seq<int>, a: nat, b: nat)
    requires a < b < |axes| && Exchanges(Normalized(axes), a, b)
    ensures ForgeEmits(axes) && ForgeSwap(axes) == Swap(a - |axes|, b - |axes|)
  {
    var n := Normalized(axes);
    ExchangedMoved(n, a, b, |n|);
  }

  /** The identity on two axes is lowered as if they were exchanged. */
  lemma IdentityIsLowered(axes: seq<int>)
    requires |axes| == 2 && Identity(Normalized(axes))
    ensures ForgeEmits(axes) && ForgeSwap(axes) == Swap(-2, -1)
  {
    var n := Normalized(axes);
    MovedNext(n, 0);
    MovedNext(n, 1);
  }

  lemma NoneMoved(axes: seq<int>)
    requires |Moved(axes, |axes|)| == 0
    ensures Identity(axes)
  {
    MovedMembers(axes, |axes|);
    forall i | 0 <= i < |axes|
      ensures axes[i] == i
    {
      assert i !in Moved(axes, |axes|);
    }
  }

  /**
   Whenever the Forge lowering emits a swap for a permutation, the swap is right exactly when the
   permutation moves something: the identity on two axes is lowered to a swap of the two.
   */
  lemma ForgeSwapRightExactlyWhenMoving(axes: seq<int>)
    requires Permutation(Normalized(axes)) && ForgeEmits(axes)
    ensures SwapsLike<int>(ForgeSwap(axes), Normalized(axes)) <==> !Identity(Normalized(axes))
  {
    var n := Normalized(axes);
    MovedMembers(n, |n|);
    if |Moved(n, |n|)| == 2 {
      ForgeSwapIsPermutation<int>(axes);
      assert Moved(n, |n|)[0] in Moved(n, |n|);
    } else {
      NoneMoved(n);
      var index := [10, 20];
      assert SwapDims(ForgeSwap(axes), index)[0] == 20 && Gather(n, index)[0] == 10;
    }
  }

  /** The axes [0, 1] leave a matrix as it is, and the emitted swap transposes it. */
  lemma IdentityLoweredToSwap(axes: seq<int>)
    requires |axes| == 2 && axes[0] == 0 && axes[1] == 1
    ensures ForgeEmits(axes) && !SwapsLike<int>(ForgeSwap(axes), Normalized(axes))
  {
    var n := Normalized(axes);
    MovedNext(n, 0);
    MovedNext(n, 1);
    assert Permutation(n);
    assert Identity(n);
    ForgeSwapRightExactlyWhenMoving(axes);
  }

  // ----- against the PyTorch lowering

  /** Some axis that stays in place is written as a negative number. */
  ghost predicate NegativeFixed(axes: seq<int>, n: nat)
    requires n <= |axes|
  {
    exists i :: 0 <= i < n && axes[i] < 0 && Normalized(axes)[i] == i
  }

  /** The raw comparison finds the moved positions and the fixed ones written negatively. */
  lemma {:induction false} RawMoves(axes: seq<int>, n: nat)
    requires n <= |axes|
    ensures |MovedUp(axes, n)| >= |Moved(Normalized(axes), n)|
    ensures |MovedUp(axes, n)| == |Moved(Normalized(axes), n)| <==> !NegativeFixed(axes, n)
    ensures !NegativeFixed(axes, n) ==>
              forall i :: 0 <= i < |MovedUp(axes, n)| ==>
                MovedUp(axes, n)[i] == Moved(Normalized(axes), n)[|MovedUp(axes, n)| - 1 - i]
  {
    if n > 0 {
      RawMoves(axes, n - 1);
      assert NegativeFixed(axes, n) <==>
             NegativeFixed(axes, n - 1) || (axes[n - 1] < 0 && Normalized(axes)[n - 1] == n - 1);
    }
  }

  /**
   For a permutation moving exactly two axes, the PyTorch lowering succeeds exactly when every axis
   that stays is written without a sign, and then it names the same two dimensions as Forge.
   */
  lemma TorchAgreesWithForge(axes: seq<int>)
    requires var n := Normalized(axes); Permutation(n) && |Moved(n, |n|)| == 2
    ensures |MovedUp(axes, |axes|)| == 2 <==> !NegativeFixed(axes, |axes|)
    ensures |MovedUp(axes, |axes|)| == 2 ==>
              && MovedUp(axes, |axes|)[0] == NormalAxis(|axes|, ForgeSwap(axes).dim0)
              && MovedUp(axes, |axes|)[1] == NormalAxis(|axes|, ForgeSwap(axes).dim1)
  {
    RawMoves(axes, |axes|);
    var a, b := TwoMovedExchange(Normalized(axes));
  }

  lemma {:induction false} MovedUpMembers(axes: seq<int>, n: nat)
    requires n <= |axes|
    ensures forall i :: 0 <= i < |MovedUp(axes, n)| ==> 0 <= MovedUp(axes, n)[i] < n
    ensures forall i, j :: 0 <= i < j < |MovedUp(axes, n)| ==> MovedUp(axes, n)[i] < MovedUp(axes, n)[j]
    ensures forall i :: i in MovedUp(axes, n) <==> 0 <= i < n && axes[i] != i
  {
    if n > 0 {
      MovedUpMembers(axes, n - 1);
    }
  }

  lemma IdentityIsNoSwap(n: seq<int>, a: nat, b: nat)
    requires a < b < |n| && Identity(n)
    ensures !SwapsLike<int>(Swap(a, b), n)
  {
    var index := seq(|n|, i => i);
    assert SwapDims(Swap(a, b), index)[a] == b && Gather(n, index)[a] == a;
  }

  lemma ExchangeSwapsLike(n: seq<int>, a: nat, b: nat)
    requires Permutation(n) && Moved(n, |n|) == [b, a]
    ensures SwapsLike<int>(Swap(a, b), n) && !Identity(n)
  {
    var a', b' := TwoMovedExchange(n);
    forall index: seq<int> | |index| == |n|
      ensures SwapDims(Swap(a, b), index) == Gather(n, index)
    {
      ExchangeSwaps(n, a, b, Swap(a, b), index);
    }
  }

  /** What the PyTorch lowering emits is right exactly when the permutation moves something. */
  lemma TorchSwapRightExactlyWhenMoving(axes: seq<int>)
    requires Permutation(Normalized(axes)) && |MovedUp(axes, |axes|)| == 2
    ensures var moved := MovedUp(axes, |axes|);
            SwapsLike<int>(Swap(moved[0], moved[1]), Normalized(axes)) <==> !Identity(Normalized(axes))
  {
    var n, moved := Normalized(axes), MovedUp(axes, |axes|);
    MovedUpMembers(axes, |axes|);
    RawMoves(axes, |axes|);
    NotOneMoved(n);
    if |Moved(n, |n|)| == 2 {
      assert Moved(n, |n|) == [moved[1], moved[0]];
      ExchangeSwapsLike(n, moved[0], moved[1]);
    } else {
      NoneMoved(n);
      IdentityIsNoSwap(n, moved[0], moved[1]);
    }
  }

  /** The last axis, kept in place but written as -1, makes the PyTorch lowering count three moved axes. */
  lemma NegativeFixedAxisIsRefused(axes: seq<int>)
    requires |axes| == 3 && axes[0] == 1 && axes[1] == 0 && axes[2] == -1
    ensures |MovedUp(axes, |axes|)| == 3 && ForgeEmits(axes)
  {
    var n := Normalized(axes);
    assert n[0] == 1 && n[1] == 0 && n[2] == 2;
    forall i | 0 <= i < 3
      ensures MovedUp(axes, i + 1) == MovedUp(axes, i) + [i]
    {
      MovedNext(axes, i);
    }
    MovedNext(axes, 0);
    MovedNext(n, 0);
    MovedNext(n, 1);
    MovedNext(n, 2);
    assert Moved(n, 3) == [] + ([1] + ([0] + []));
  }

  /** Two axes that stay in place, written negatively, are lowered to a swap by PyTorch. */
  lemma NegativeIdentityIsSwapped(axes: seq<int>)
    requires |axes| == 2 && axes[0] == -2 && axes[1] == -1
    ensures var moved := MovedUp(axes, |axes|);
            |moved| == 2 && !SwapsLike<int>(Swap(moved[0], moved[1]), Normalized(axes))
  {
    var n := Normalized(axes);
    assert n[0] == 0 && n[1] == 1;
    MovedNext(axes, 0);
    MovedNext(axes, 1);
    assert MovedUp(axes, 2) == [] + [0] + [1];
    assert Permutation(n) && Identity(n);
    TorchSwapRightExactlyWhenMoving(axes);
  }
}
