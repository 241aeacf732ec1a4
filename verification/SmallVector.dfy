/** `SmallVector`: few elements in the object's own bytes, more in a heap vector; the union holds one of the two. */
module SmallVector {
  /** `Inline` bytes beyond the current size hold arbitrary values. */
  datatype Storage<T> = Inline(slots: array<T>) | Heap(vec: seq<T>)

  /** An insertion point past the end appends. */
  function Inserted<T>(c: seq<T>, pos: nat, v: T): (r: seq<T>) {
    if pos <= |c| then c[..pos] + [v] + c[pos..] else c + [v]
  }

  /** Elements before the position stay, and those from it on move up by one. */
  lemma InsertedInFull<T>(c: seq<T>, pos: nat, v: T)
    ensures var r := Inserted(c, pos, v);
            && |r| == |c| + 1 && r[if pos < |c| then pos else |c|] == v
            && (forall i :: 0 <= i < |c| ==> c[i] == r[if i < pos then i else i + 1])
  {
  }

  lemma InsertedAtEnd<T>(c: seq<T>, pos: nat, v: T)
    ensures Inserted(c, |c|, v) == c + [v] && (pos >= |c| ==> Inserted(c, pos, v) == c + [v])
  {
    assert c[..|c|] + [v] + c[|c|..] == c + [v];
  }

  lemma SwappedDown<T>(c: seq<T>, v: T, i: nat)
    requires 0 < i <= |c|
    ensures var s := Inserted(c, i, v);
            |s| == |c| + 1 && s[i - 1 := s[i]][i := s[i - 1]] == Inserted(c, i - 1, v)
  {
  }

  /** In `s` the elements of `c` after `pos` have moved down by one as far as `to`. */
  ghost predicate Shifted<T>(s: seq<T>, c: seq<T>, pos: nat, to: nat) {
    && |s| == |c|
    && forall i {:trigger s[i]} :: 0 <= i < |c| ==>
         s[i] == if pos <= i < to && i + 1 < |c| then c[i + 1] else c[i]
  }

  lemma ShiftedDown<T>(s: seq<T>, c: seq<T>, pos: nat, to: nat)
    requires pos <= to && to + 1 < |c| && Shifted(s, c, pos, to)
    ensures Shifted(s[to := s[to + 1]], c, pos, to + 1)
  {
    assert s[to + 1] == c[to + 1];
    forall i | 0 <= i < |c| && i != to
      ensures s[to := s[to + 1]][i] == s[i]
    {
    }
  }

  lemma ShiftedEnd<T>(s: seq<T>, c: seq<T>, pos: nat)
    requires pos < |c| && Shifted(s, c, pos, |c| - 1)
    ensures s[..|c| - 1] == c[..pos] + c[pos + 1..]
  {
    forall i | 0 <= i < |c| - 1
      ensures s[i] == (c[..pos] + c[pos + 1..])[i]
    {
    }
  }

  class SmallVector<T(0)> {
    const sizeElems: nat
    var currSize: nat
    var storage: Storage<T>

    constructor (sizeElems: nat)
      ensures Valid() && this.sizeElems == sizeElems && Contents() == [] && fresh(Bytes())
    {
      this.sizeElems, currSize := sizeElems, 0;
      var raw := new T[sizeElems];
      storage := Inline(raw);
    }

    ghost function Bytes(): set<object>
      reads this
    {
      if storage.Inline? then {storage.slots} else {}
    }

    /** The heap vector is in use exactly when the elements do not fit. */
    ghost predicate Valid()
      reads this
    {
      if currSize <= sizeElems then storage.Inline? && storage.slots.Length == sizeElems
      else storage.Heap? && |storage.vec| == currSize
    }

    ghost function Contents(): (c: seq<T>)
      requires Valid()
      reads this, Bytes()
      ensures |c| == currSize
    {
      if storage.Inline? then storage.slots[..currSize] else storage.vec
    }

    method Get(i: nat) returns (x: T)
      requires Valid() && i < currSize
      ensures x == Contents()[i]
    {
      x := if currSize <= sizeElems then storage.slots[i] else storage.vec[i];
    }

    method Set(i: nat, x: T)
      requires Valid() && i < currSize
      modifies this`storage, Bytes()
      ensures Valid() && Bytes() == old(Bytes()) && Contents() == old(Contents())[i := x]
    {
      if currSize <= sizeElems {
        storage.slots[i] := x;
      } else {
        storage := Heap(storage.vec[i := x]);
      }
    }

    /** The elements are copied aside first, because the vector header overwrites them. */
    method FromArrToVec()
      requires storage.Inline? && storage.slots.Length == sizeElems
      modifies this`storage
      ensures storage == Heap(old(storage.slots[..]))
    {
      var arr := storage.slots[..];
      storage := Heap(arr);
    }

    method FromVecToArr()
      requires storage.Heap? && sizeElems <= |storage.vec|
      modifies this`storage
      ensures storage.Inline? && fresh(storage.slots) && storage.slots[..] == old(storage.vec)[..sizeElems]
    {
      var arr := storage.vec[..sizeElems];
      var raw := new T[sizeElems](i requires 0 <= i < |arr| => arr[i]);
      storage := Inline(raw);
      assert raw[..] == arr;
    }

    method PushBack(t: T)
      requires Valid()
      modifies this`currSize, this`storage, Bytes()
      ensures Valid() && Contents() == old(Contents()) + [t] && fresh(Bytes() - old(Bytes()))
    {
      var i := currSize;
      currSize := currSize + 1;
      if i < sizeElems {
        storage.slots[i] := t;
        return;
      }
      if i == sizeElems {
        FromArrToVec();
      }
      storage := Heap(storage.vec + [t]);
    }

    method PopBack()
      requires Valid() && currSize > 0
      modifies this`currSize, this`storage
      ensures Valid() && Contents() == old(Contents())[..old(currSize) - 1] && fresh(Bytes() - old(Bytes()))
    {
      ShrinkByOne();
    }

    /** The end of both `pop_back` and `erase`. */
    method ShrinkByOne()
      requires Valid() && currSize > 0
      modifies this`currSize, this`storage
      ensures Valid() && Contents() == old(Contents())[..old(currSize) - 1] && fresh(Bytes() - old(Bytes()))
    {
      currSize := currSize - 1;
      if currSize > sizeElems {
        storage := Heap(storage.vec[..currSize]);
      } else if currSize == sizeElems {
        FromVecToArr();
      }
    }

    method SwapWithPrevious(i: nat)
      requires Valid() && 0 < i < currSize
      modifies this`storage, Bytes()
      ensures Valid() && Bytes() == old(Bytes())
      ensures Contents() == old(Contents())[i - 1 := old(Contents())[i]][i := old(Contents())[i - 1]]
    {
      var a := Get(i - 1);
      var b := Get(i);
      Set(i - 1, b);
      Set(i, a);
    }

    /** The new element is swapped down from the end. */
    method Insert(pos: nat, v: T)
      requires Valid()
      modifies this`currSize, this`storage, Bytes()
      ensures Valid() && fresh(Bytes() - old(Bytes()))
      ensures Contents() == Inserted(old(Contents()), pos, v)
    {
      ghost var c := Contents();
      InsertedAtEnd(c, pos, v);
      PushBack(v);
      var i := currSize - 1;
      while i > pos
        invariant Valid() && currSize == |c| + 1 && i <= |c| && (i == |c| || pos <= i)
        invariant Contents() == Inserted(c, i, v) && fresh(Bytes() - old(Bytes()))
      {
        SwappedDown(c, v, i);
        SwapWithPrevious(i);
        i := i - 1;
      }
    }

    method CopyElement(from: nat, to: nat)
      requires Valid() && from < currSize && to < currSize
      modifies this`storage, Bytes()
      ensures Valid() && Bytes() == old(Bytes()) && Contents() == old(Contents())[to := old(Contents())[from]]
    {
      var x := Get(from);
      Set(to, x);
    }

    /** The loop of `erase`: the elements after `pos` move down by one, and the last one stays behind. */
    method MoveDown(pos: nat)
      requires Valid() && pos < currSize
      modifies this`storage, Bytes()
      ensures Valid() && Bytes() == old(Bytes()) && Shifted(Contents(), old(Contents()), pos, currSize - 1)
    {
      ghost var c := Contents();
      var to, from := pos, pos + 1;
      while from != currSize
        invariant Valid() && currSize == |c| && to + 1 == from && pos < from <= currSize
        invariant Shifted(Contents(), c, pos, to) && Bytes() == old(Bytes())
        decreases currSize - from
      {
        ShiftedDown(Contents(), c, pos, to);
        CopyElement(from, to);
        from, to := from + 1, to + 1;
      }
    }

    method Erase(pos: nat)
      requires Valid() && pos < currSize
      modifies this`currSize, this`storage, Bytes()
      ensures Valid() && Contents() == old(Contents())[..pos] + old(Contents())[pos + 1..]
      ensures fresh(Bytes() - old(Bytes()))
    {
      ghost var c := Contents();
      MoveDown(pos);
      ShiftedEnd(Contents(), c, pos);
      ShrinkByOne();
    }

    method Clear()
      requires Valid()
      modifies this`currSize, this`storage
      ensures Valid() && Contents() == [] && fresh(Bytes() - old(Bytes()))
    {
      if currSize > sizeElems {
        var raw := new T[sizeElems];
        storage := Inline(raw);
      }
      currSize := 0;
    }

    /**
     Copy assignment. A vector may be assigned to itself while its elements are inline; beyond that the
     code would construct the heap vector from the bytes that it overwrites.
     */
    method Assign(other: SmallVector<T>)
      requires Valid() && other.Valid() && other.sizeElems == sizeElems
      requires if other == this then currSize <= sizeElems else Bytes() !! other.Bytes()
      modifies this`currSize, this`storage, Bytes()
      ensures Valid() && Contents() == old(other.Contents())
      ensures other.Valid() && other.Contents() == old(other.Contents())
      ensures fresh(Bytes() - old(Bytes()))
    {
      currSize := other.currSize;
      if other.currSize <= sizeElems {
        if storage.Heap? {
          var raw := new T[sizeElems];
          storage := Inline(raw);
        }
        for i := 0 to currSize
          invariant storage.Inline? && storage.slots.Length == sizeElems
          invariant other != this ==> storage.slots != other.storage.slots
          invariant currSize == other.currSize && other.Valid() && other.Contents() == old(other.Contents())
          invariant storage.slots[..i] == other.storage.slots[..i] && fresh(Bytes() - old(Bytes()))
        {
          storage.slots[i] := other.storage.slots[i];
        }
      } else {
        storage := Heap(other.storage.vec);
      }
    }
  }

  // ----- whole runs

  datatype Command<T> =
    | PushBack(value: T) | PopBack | Insert(pos: nat, value: T) | Erase(pos: nat) | Clear | CopyFrom(values: seq<T>)

  /** The same command on a plain sequence, when its caller may issue it. */
  ghost predicate Allowed<T>(c: seq<T>, cmd: Command<T>) {
    match cmd
    case PopBack => c != []
    case Erase(pos) => pos < |c|
    case _ => true
  }

  function Apply<T>(c: seq<T>, cmd: Command<T>): seq<T>
    requires Allowed(c, cmd)
  {
    match cmd
    case PushBack(v) => c + [v]
    case PopBack => c[..|c| - 1]
    case Insert(pos, v) => Inserted(c, pos, v)
    case Erase(pos) => c[..pos] + c[pos + 1..]
    case Clear => []
    case CopyFrom(values) => values
  }

  ghost predicate AllAllowed<T>(c: seq<T>, cmds: seq<Command<T>>)
    decreases |cmds|
  {
    cmds == [] || (Allowed(c, cmds[0]) && AllAllowed(Apply(c, cmds[0]), cmds[1..]))
  }

  function ApplyAll<T>(c: seq<T>, cmds: seq<Command<T>>): seq<T>
    requires AllAllowed(c, cmds)
    decreases |cmds|
  {
    if cmds == [] then c else ApplyAll(Apply(c, cmds[0]), cmds[1..])
  }

  method Build<T(0)>(sizeElems: nat, values: seq<T>) returns (v: SmallVector<T>)
    ensures fresh(v) && v.Valid() && fresh(v.Bytes()) && v.sizeElems == sizeElems && v.Contents() == values
  {
    v := new SmallVector(sizeElems);
    for i := 0 to |values|
      invariant v.Valid() && fresh(v.Bytes()) && v.Contents() == values[..i]
    {
      v.PushBack(values[i]);
    }
  }

  method Execute<T(0)>(v: SmallVector<T>, cmd: Command<T>)
    requires v.Valid() && Allowed(v.Contents(), cmd)
    modifies v, v.Bytes()
    ensures v.Valid() && v.Contents() == Apply(old(v.Contents()), cmd) && fresh(v.Bytes() - old(v.Bytes()))
  {
    match cmd
    case PushBack(x) => v.PushBack(x);
    case PopBack => v.PopBack();
    case Insert(pos, x) => v.Insert(pos, x);
    case Erase(pos) => v.Erase(pos);
    case Clear => v.Clear();
    case CopyFrom(values) =>
      var other := Build(v.sizeElems, values);
      v.Assign(other);
  }

  /**
   Over every run of allowed commands the vector holds what a plain sequence would hold, and the
   heap is in use exactly when the size exceeds the inline capacity.
   */
  method ExecuteAll<T(0)>(v: SmallVector<T>, cmds: seq<Command<T>>)
    requires v.Valid() && AllAllowed(v.Contents(), cmds)
    modifies v, v.Bytes()
    ensures v.Valid() && v.Contents() == ApplyAll(old(v.Contents()), cmds)
    ensures v.storage.Heap? <==> |v.Contents()| > v.sizeElems
    ensures fresh(v.Bytes() - old(v.Bytes()))
  {
    for i := 0 to |cmds|
      invariant v.Valid() && fresh(v.Bytes() - old(v.Bytes()))
      invariant AllAllowed(v.Contents(), cmds[i..])
      invariant ApplyAll(v.Contents(), cmds[i..]) == ApplyAll(old(v.Contents()), cmds)
    {
      assert cmds[i..][0] == cmds[i] && cmds[i..][1..] == cmds[i + 1..];
      Execute(v, cmds[i]);
    }
  }
}
