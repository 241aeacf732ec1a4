/** `SimpleQueue`: a bounded queue with a read pointer that pops move along with the data. */
module SimpleQueue {
  import opened Wrappers
  import opened CppInt

  datatype Error = Full | Empty | OutOfBounds

  datatype State<T> = State(queue: seq<T>, maxSize: int, rdPtr: int, shadowRdPtr: int, offset: int)

  ghost predicate InRange<T>(s: State<T>) {
    IsInt(s.maxSize) && |s.queue| <= AsSize(s.maxSize)
  }

  function ReadAt<T>(s: State<T>, ptr: int): Result<T, Error> {
    if 0 <= ptr && 0 <= ptr + s.offset < |s.queue| then Ok(s.queue[ptr + s.offset]) else Err(OutOfBounds)
  }

  datatype Op<T> = Push(value: T) | Pop

  /** `None` when the operation's assertion fails. */
  function StepResult<T>(s: State<T>, op: Op<T>): Option<State<T>>
    requires InRange(s)
  {
    match op
    case Push(v) => if |s.queue| == AsSize(s.maxSize) then None else Some(s.(queue := s.queue + [v]))
    case Pop =>
      if s.queue == [] then None
      else
        var ptr := if s.rdPtr > 0 then s.rdPtr - 1 else s.rdPtr;
        Some(s.(queue := s.queue[1..], rdPtr := ptr, shadowRdPtr := ptr))
  }

  class SimpleQueue<T> {
    const maxSize: int
    var dataQueue: seq<T>
    var rdPtr: int
    var shadowRdPtr: int
    var offset: int

    constructor (maxSize: int)
      requires IsInt(maxSize)
      ensures Snapshot() == State([], maxSize, 0, 0, 0)
    {
      this.maxSize, dataQueue, rdPtr, shadowRdPtr, offset := maxSize, [], 0, 0, 0;
    }

    function Snapshot(): State<T>
      reads this
    {
      State(dataQueue, maxSize, rdPtr, shadowRdPtr, offset)
    }

    method PushBlocking(value: T) returns (r: Result<(), Error>)
      requires InRange(Snapshot())
      modifies this`dataQueue
      ensures StepResult(old(Snapshot()), Push(value)) == if r.Ok? then Some(Snapshot()) else None
      ensures r.Err? ==> Snapshot() == old(Snapshot())
      ensures r.Ok? <==> old(|dataQueue|) != (if maxSize < 0 then maxSize + 0x1_0000_0000_0000_0000 else maxSize)
      ensures r.Ok? ==> Snapshot() == old(Snapshot()).(queue := old(dataQueue) + [value])
    {
      if |dataQueue| == AsSize(maxSize) { return Err(Full); }
      dataQueue := dataQueue + [value];
      return Ok(());
    }

    method PopBlockingByRef() returns (r: Result<T, Error>)
      requires InRange(Snapshot())
      modifies this`dataQueue, this`rdPtr, this`shadowRdPtr
      ensures StepResult(old(Snapshot()), Pop) == if r.Ok? then Some(Snapshot()) else None
      ensures r.Ok? <==> old(dataQueue) != []
      ensures r.Ok? ==> old(dataQueue) == [r.value] + dataQueue && offset == old(offset) && shadowRdPtr == rdPtr
      ensures r.Ok? ==> rdPtr == if old(rdPtr) > 0 then old(rdPtr) - 1 else old(rdPtr)
      ensures r.Err? ==> Snapshot() == old(Snapshot())
    {
      if dataQueue == [] { return Err(Empty); }
      var value := dataQueue[0];
      dataQueue := dataQueue[1..];
      if rdPtr > 0 {
        rdPtr := rdPtr - 1;
      }
      shadowRdPtr := rdPtr;
      return Ok(value);
    }

    method Clear(useShadowRdPtr: bool)
      modifies this`dataQueue, this`rdPtr, this`shadowRdPtr
      ensures Snapshot() == old(Snapshot()).(queue := [], shadowRdPtr := 0,
                              rdPtr := if useShadowRdPtr then old(rdPtr) else 0)
    {
      dataQueue := [];
      if useShadowRdPtr {
        shadowRdPtr := 0;
      } else {
        rdPtr := 0;
        shadowRdPtr := rdPtr;
      }
    }

    method SetPtr(ptr: int, useShadowRdPtr: bool)
      modifies this`rdPtr, this`shadowRdPtr
      ensures Snapshot() == old(Snapshot()).(shadowRdPtr := ptr, rdPtr := if useShadowRdPtr then old(rdPtr) else ptr)
    {
      if !useShadowRdPtr {
        rdPtr := ptr;
      }
      shadowRdPtr := ptr;
    }

    method Read(useShadowRdPtr: bool) returns (r: Result<T, Error>)
      ensures r == ReadAt(Snapshot(), if useShadowRdPtr then shadowRdPtr else rdPtr)
      ensures var ptr := if useShadowRdPtr then shadowRdPtr else rdPtr;
              && (r.Ok? <==> ptr >= 0 && 0 <= ptr + offset < |dataQueue|)
              && (r.Ok? ==> r.value == dataQueue[ptr + offset])
    {
      var ptr := if useShadowRdPtr then shadowRdPtr else rdPtr;
      if 0 <= ptr && 0 <= ptr + offset < |dataQueue| {
        return Ok(dataQueue[ptr + offset]);
      }
      return Err(OutOfBounds);
    }
  }

  // ----- runs of pushes and pops

  function Run<T>(s: State<T>, ops: seq<Op<T>>): (r: Option<State<T>>)
    requires InRange(s)
    ensures r.Some? ==> InRange(r.value) && r.value.maxSize == s.maxSize && r.value.offset == s.offset
    decreases |ops|
  {
    if ops == [] then Some(s)
    else
      match StepResult(s, ops[0])
      case None => None
      case Some(s') => Run(s', ops[1..])
  }

  function PushedValues<T>(ops: seq<Op<T>>): seq<T> {
    if ops == [] then [] else (if ops[0].Push? then [ops[0].value] else []) + PushedValues(ops[1..])
  }

  function PopCount<T>(ops: seq<Op<T>>): nat {
    if ops == [] then 0 else (if ops[0].Pop? then 1 else 0) + PopCount(ops[1..])
  }

  /** Everything that ever was in the queue, oldest first. */
  function Stream<T>(s: State<T>, ops: seq<Op<T>>): seq<T> { s.queue + PushedValues(ops) }

  /** A push leaves the stream as it is; a pop consumes its first element. */
  lemma StreamAfter<T>(s: State<T>, ops: seq<Op<T>>)
    requires ops != [] && InRange(s) && StepResult(s, ops[0]).Some?
    ensures var s1 := StepResult(s, ops[0]).value;
            Stream(s1, ops[1..]) == Stream(s, ops)[(if ops[0].Push? then 0 else 1)..]
    ensures ops[0].Pop? ==> Stream(s, ops) != []
  {
    if ops[0].Push? {
      assert s.queue + ([ops[0].value] + PushedValues(ops[1..])) == s.queue + [ops[0].value] + PushedValues(ops[1..]);
    } else {
      assert s.queue == [s.queue[0]] + s.queue[1..];
    }
  }

  lemma DropAgain<T>(stream: seq<T>, k: nat)
    requires 1 + k <= |stream|
    ensures stream[1..][k..] == stream[1 + k..]
  {
  }

  /**
   The queue is the stream from the number of pops on; each pop takes one off the read pointer until
   it reaches zero, and resynchronizes the shadow pointer.
   */
  lemma {:induction false} RunFollowsStream<T>(s: State<T>, ops: seq<Op<T>>)
    requires InRange(s) && s.rdPtr >= 0 && Run(s, ops).Some?
    ensures var s', k := Run(s, ops).value, PopCount(ops);
            && k <= |Stream(s, ops)| && s'.queue == Stream(s, ops)[k..]
            && s'.rdPtr == (if k <= s.rdPtr then s.rdPtr - k else 0)
            && s'.shadowRdPtr == (if k == 0 then s.shadowRdPtr else s'.rdPtr)
    decreases |ops|
  {
    if ops != [] {
      var s1 := StepResult(s, ops[0]).value;
      StreamAfter(s, ops);
      RunFollowsStream(s1, ops[1..]);
      if ops[0].Pop? {
        DropAgain(Stream(s, ops), PopCount(ops[1..]));
      }
    }
  }

  /** Where in the stream a read looks. */
  function StreamPosition<T>(s: State<T>, ops: seq<Op<T>>): int
    requires InRange(s) && Run(s, ops).Some?
  {
    PopCount(ops) + Run(s, ops).value.rdPtr + s.offset
  }

  /** After k pops a read looks where it looked before exactly when k is at most the read pointer at the start. */
  lemma PositionStaysPut<T>(s: State<T>, ops: seq<Op<T>>)
    requires InRange(s) && s.rdPtr >= 0 && Run(s, ops).Some?
    ensures StreamPosition(s, ops) == s.rdPtr + s.offset <==> PopCount(ops) <= s.rdPtr
  {
    RunFollowsStream(s, ops);
  }

  /** A read that was in bounds then returns the same element. */
  lemma ReadStaysPut<T>(s: State<T>, ops: seq<Op<T>>)
    requires InRange(s) && s.rdPtr >= 0 && s.offset >= 0 && Run(s, ops).Some?
    requires s.rdPtr + s.offset < |s.queue| && PopCount(ops) <= s.rdPtr
    ensures var s' := Run(s, ops).value;
            && ReadAt(s', s'.rdPtr) == ReadAt(s, s.rdPtr) == Ok(s.queue[s.rdPtr + s.offset])
            && s'.rdPtr + s'.offset < |s'.queue| && s'.queue[s'.rdPtr + s'.offset] == s.queue[s.rdPtr + s.offset]
  {
    RunFollowsStream(s, ops);
  }

  method Execute<T>(q: SimpleQueue<T>, ops: seq<Op<T>>) returns (ok: bool)
    requires InRange(q.Snapshot())
    modifies q
    ensures ok <==> Run(old(q.Snapshot()), ops).Some?
    ensures ok ==> Run(old(q.Snapshot()), ops) == Some(q.Snapshot())
  {
    for i := 0 to |ops|
      invariant InRange(q.Snapshot())
      invariant Run(q.Snapshot(), ops[i..]) == Run(old(q.Snapshot()), ops)
    {
      assert ops[i..][0] == ops[i] && ops[i..][1..] == ops[i + 1..];
      match ops[i]
      case Push(v) =>
        var r := q.PushBlocking(v);
        if r.Err? { return false; }
      case Pop =>
        var r := q.PopBlockingByRef();
        if r.Err? { return false; }
    }
    return true;
  }
}
