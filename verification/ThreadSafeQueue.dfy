/** `ThreadSafeQueue` as a transition system: any number of threads, one mutex, one condition variable. */
module ThreadSafeQueue {
  import opened Wrappers
  import opened CppInt

  type Tid = nat

  datatype Call<T> = PushBack(value: T) | PushFront(value: T) | Pop | Clear

  /**
   What a thread is doing. `Entering` and `Woken` want the mutex; `Checking`, `Notifying` and
   `Leaving` hold it; `Asleep` has released it inside the condition variable's wait.
   */
  datatype Phase<T> =
    | Idle
    | Entering(call: Call<T>)
    | Checking(call: Call<T>)
    | Asleep(call: Call<T>)
    | Woken(call: Call<T>)
    | Notifying
    | Leaving

  /** What a critical section did to the queue, in the order of lock acquisition. */
  datatype Event<T> = PushedBack(value: T) | PushedFront(value: T) | Popped(value: T) | Cleared

  datatype State<T> = State(queue: seq<T>, threads: map<Tid, Phase<T>>, history: seq<Event<T>>)

  // ----- one step

  /** The predicate each call waits for. */
  predicate MayProceed<T>(maxSize: int, queue: seq<T>, call: Call<T>)
    requires IsInt(maxSize)
  {
    match call
    case PushBack(_) => maxSize == 0 || |queue| < AsSize(maxSize)
    case PushFront(_) => maxSize == 0 || |queue| < AsSize(maxSize)
    case Pop => queue != []
    case Clear => true
  }

  predicate HoldsLock<T>(p: Phase<T>) {
    p.Checking? || p.Notifying? || p.Leaving?
  }

  predicate LockFree<T>(s: State<T>) {
    forall t :: t in s.threads ==> !HoldsLock(s.threads[t])
  }

  function Enter<T>(s: State<T>, t: Tid, p: Phase<T>): State<T> {
    s.(threads := s.threads[t := p])
  }

  datatype Action<T> =
    | Begin(call: Call<T>)      // a thread calls a method and waits for the mutex
    | Acquire                   // it, or a woken sleeper, gets the mutex
    | Block                     // its wait condition is false: sleep and release the mutex
    | Act                       // its wait condition is true: update the queue
    | NotifyOne(sleeper: Tid)   // a push wakes one sleeping thread, whichever it is
    | NotifyNone                // a push finds nobody asleep
    | Unlock
    | Spurious                  // a sleeping thread wakes without being notified

  function Acted<T>(s: State<T>, t: Tid, call: Call<T>): State<T>
    requires call.Pop? ==> s.queue != []
  {
    match call
    case PushBack(v) => Enter(s, t, Notifying).(queue := s.queue + [v], history := s.history + [PushedBack(v)])
    case PushFront(v) => Enter(s, t, Notifying).(queue := [v] + s.queue, history := s.history + [PushedFront(v)])
    case Pop => Enter(s, t, Leaving).(queue := s.queue[1..], history := s.history + [Popped(s.queue[0])])
    case Clear => Enter(s, t, Leaving).(queue := [], history := s.history + [Cleared])
  }

  ghost predicate Step<T>(maxSize: int, s: State<T>, t: Tid, a: Action<T>, s': State<T>)
    requires IsInt(maxSize)
  {
    t in s.threads &&
    var p := s.threads[t];
    match a
    case Begin(call) => p.Idle? && s' == Enter(s, t, Entering(call))
    case Acquire => (p.Entering? || p.Woken?) && LockFree(s) && s' == Enter(s, t, Checking(p.call))
    case Block => p.Checking? && !MayProceed(maxSize, s.queue, p.call) && s' == Enter(s, t, Asleep(p.call))
    case Act => p.Checking? && MayProceed(maxSize, s.queue, p.call) && s' == Acted(s, t, p.call)
    case NotifyOne(u) =>
      p.Notifying? && u in s.threads && s.threads[u].Asleep? &&
      s' == Enter(Enter(s, u, Woken(s.threads[u].call)), t, Leaving)
    case NotifyNone =>
      p.Notifying? && (forall u :: u in s.threads ==> !s.threads[u].Asleep?) && s' == Enter(s, t, Leaving)
    case Unlock => p.Leaving? && s' == Enter(s, t, Idle)
    case Spurious => p.Asleep? && s' == Enter(s, t, Woken(p.call))
  }

  // ----- runs

  ghost predicate Initial<T>(s: State<T>) {
    s.queue == [] && s.history == [] && forall t :: t in s.threads ==> s.threads[t].Idle?
  }

  /** A run: `states[0]` is initial, and thread `moves[i].0` takes states[i] to states[i + 1]. */
  ghost predicate Run<T>(maxSize: int, states: seq<State<T>>, moves: seq<(Tid, Action<T>)>)
    requires IsInt(maxSize)
  {
    && |states| == |moves| + 1 && Initial(states[0])
    && forall i :: 0 <= i < |moves| ==> Step(maxSize, states[i], moves[i].0, moves[i].1, states[i + 1])
  }

  ghost predicate Reachable<T(!new)>(maxSize: int, s: State<T>)
    requires IsInt(maxSize)
  {
    exists states, moves :: Run(maxSize, states, moves) && states[|states| - 1] == s
  }

  // ----- the sequential specification

  /** The effect of one event on a queue that allows it. */
  function Apply<T(==)>(q: seq<T>, e: Event<T>): Option<seq<T>> {
    match e
    case PushedBack(v) => Some(q + [v])
    case PushedFront(v) => Some([v] + q)
    case Popped(v) => if q != [] && q[0] == v then Some(q[1..]) else None
    case Cleared => Some([])
  }

  /** A double-ended queue run by one thread; a pop of the wrong value is impossible. */
  function Replay<T(==)>(history: seq<Event<T>>): Option<seq<T>> {
    if history == [] then Some([])
    else
      match Replay(history[..|history| - 1])
      case None => None
      case Some(q) => Apply(q, history[|history| - 1])
  }

  /** All values the history pushed, popped, and discarded by clearing. */
  function Pushed<T>(history: seq<Event<T>>): multiset<T> {
    if history == [] then multiset{}
    else
      var e := history[|history| - 1];
      Pushed(history[..|history| - 1]) + if e.PushedBack? || e.PushedFront? then multiset{e.value} else multiset{}
  }

  function PoppedValues<T>(history: seq<Event<T>>): multiset<T> {
    if history == [] then multiset{}
    else
      var e := history[|history| - 1];
      PoppedValues(history[..|history| - 1]) + if e.Popped? then multiset{e.value} else multiset{}
  }

  function ClearedValues<T(==)>(history: seq<Event<T>>): multiset<T>
    requires Replay(history).Some?
  {
    if history == [] then multiset{}
    else
      var before := history[..|history| - 1];
      ClearedValues(before) + if history[|history| - 1].Cleared? then multiset(Replay(before).value) else multiset{}
  }

  lemma EventConserves<T>(q: seq<T>, e: Event<T>)
    requires Apply(q, e).Some?
    ensures e.PushedBack? || e.PushedFront? ==> multiset(Apply(q, e).value) == multiset(q) + multiset{e.value}
    ensures e.Popped? ==> multiset(q) == multiset(Apply(q, e).value) + multiset{e.value}
    ensures e.Cleared? ==> multiset(Apply(q, e).value) == multiset{}
  {
    if e.Popped? {
      assert q == [q[0]] + q[1..];
    }
  }

  /** Every value pushed has been popped, discarded, or is still in the queue; none twice. */
  lemma {:induction false} Conservation<T>(history: seq<Event<T>>)
    requires Replay(history).Some?
    ensures Pushed(history) == PoppedValues(history) + ClearedValues(history) + multiset(Replay(history).value)
  {
    if history != [] {
      var before, e := history[..|history| - 1], history[|history| - 1];
      Conservation(before);
      EventConserves(Replay(before).value, e);
    }
  }

  // ----- safety

  /** The lock excludes, the history is a run of a sequential deque, and the bound holds. */
  ghost predicate Safe<T>(maxSize: int, s: State<T>)
    requires IsInt(maxSize)
  {
    && (forall t, u :: t in s.threads && u in s.threads ==>
          HoldsLock(s.threads[t]) && HoldsLock(s.threads[u]) ==> t == u)
    && Replay(s.history) == Some(s.queue)
    && (maxSize != 0 ==> |s.queue| <= AsSize(maxSize))
  }

  lemma StepSafe<T>(maxSize: int, s: State<T>, t: Tid, a: Action<T>, s': State<T>)
    requires IsInt(maxSize)
    requires Safe(maxSize, s) && Step(maxSize, s, t, a, s')
    ensures Safe(maxSize, s')
  {
    if s'.history != s.history {
      assert s'.history[..|s'.history| - 1] == s.history;
    }
  }

  lemma {:induction false} RunSafe<T>(maxSize: int, states: seq<State<T>>, moves: seq<(Tid, Action<T>)>, i: nat)
    requires IsInt(maxSize)
    requires Run(maxSize, states, moves) && i < |states|
    ensures Safe(maxSize, states[i])
  {
    if i > 0 {
      RunSafe(maxSize, states, moves, i - 1);
      StepSafe(maxSize, states[i - 1], moves[i - 1].0, moves[i - 1].1, states[i]);
    }
  }

  /** Between getting the mutex and releasing it. */
  ghost predicate Inside<T>(p: Phase<T>) {
    match p
    case Checking(_) => true
    case Notifying => true
    case Leaving => true
    case _ => false
  }

  /**
   In every interleaving: mutual exclusion, the bound, pops in lock order are those of a
   sequential deque, and no value is lost, invented or delivered twice.
   */
  lemma ReachableSafe<T(!new)>(maxSize: int, s: State<T>)
    requires IsInt(maxSize)
    requires Reachable(maxSize, s)
    ensures Safe(maxSize, s)
    ensures Pushed(s.history) == PoppedValues(s.history) + ClearedValues(s.history) + multiset(s.queue)
    ensures forall t, u :: t in s.threads && u in s.threads && Inside(s.threads[t]) && Inside(s.threads[u]) ==> t == u
  {
    var states: seq<State<T>>, moves: seq<(Tid, Action<T>)> :| Run(maxSize, states, moves) && states[|states| - 1] == s;
    RunSafe(maxSize, states, moves, |states| - 1);
    Conservation(s.history);
  }

  // ----- what the calls do

  /** Room for one more value: a bound of zero is none, a negative one is read as an unsigned 64-bit size. */
  ghost predicate HasRoom(maxSize: int, size: nat) {
    maxSize == 0 || size < maxSize || (maxSize < 0 && size < maxSize + 0x1_0000_0000_0000_0000)
  }

  /** When the critical section of a call runs, what it does to the queue, what it records and whom it wakes. */
  lemma CallDoes<T>(maxSize: int, s: State<T>, t: Tid, s': State<T>)
    requires IsInt(maxSize) && Step(maxSize, s, t, Act, s')
    ensures t in s.threads && s.threads[t].Checking?
    ensures match s.threads[t].call
            case PushBack(v) =>
              && HasRoom(maxSize, |s.queue|) && s'.queue == s.queue + [v]
              && s'.history == s.history + [PushedBack(v)] && s'.threads == s.threads[t := Notifying]
            case PushFront(v) =>
              && HasRoom(maxSize, |s.queue|) && s'.queue == [v] + s.queue
              && s'.history == s.history + [PushedFront(v)] && s'.threads == s.threads[t := Notifying]
            case Pop =>
              && s.queue != [] && s.queue == [s.queue[0]] + s'.queue
              && s'.history == s.history + [Popped(s.queue[0])] && s'.threads == s.threads[t := Leaving]
            case Clear =>
              && s'.queue == [] && s'.history == s.history + [Cleared] && s'.threads == s.threads[t := Leaving]
  {
  }

  /** When a call goes to sleep instead; clearing never does. */
  lemma CallWaits<T>(maxSize: int, s: State<T>, t: Tid, s': State<T>)
    requires IsInt(maxSize) && Step(maxSize, s, t, Block, s')
    ensures t in s.threads && s.threads[t].Checking?
    ensures match s.threads[t].call
            case Pop => s.queue == []
            case Clear => false
            case _ => !HasRoom(maxSize, |s.queue|)
    ensures s' == s.(threads := s.threads[t := Asleep(s.threads[t].call)])
  {
  }

  /** The call whose critical section is move i, if it is one. */
  ghost function CallAt<T>(states: seq<State<T>>, moves: seq<(Tid, Action<T>)>, i: nat): Option<Call<T>>
    requires i < |moves| && i < |states|
  {
    var s, t := states[i], moves[i].0;
    if moves[i].1.Act? && t in s.threads && s.threads[t].Checking? then Some(s.threads[t].call) else None
  }

  /** The values of the `push_blocking` calls among the first n moves, in the order of the lock. */
  ghost function PushCalls<T>(states: seq<State<T>>, moves: seq<(Tid, Action<T>)>, n: nat): seq<T>
    requires n <= |moves| && n <= |states|
  {
    if n == 0 then []
    else
      var call := CallAt(states, moves, n - 1);
      PushCalls(states, moves, n - 1) + if call.Some? && call.value.PushBack? then [call.value.value] else []
  }

  /** The front values that the pops among the first n moves take. */
  ghost function PopCalls<T>(states: seq<State<T>>, moves: seq<(Tid, Action<T>)>, n: nat): seq<T>
    requires n <= |moves| && n <= |states|
  {
    if n == 0 then []
    else
      var call, queue := CallAt(states, moves, n - 1), states[n - 1].queue;
      PopCalls(states, moves, n - 1) + if call == Some(Pop) && queue != [] then [queue[0]] else []
  }

  ghost predicate Usual<T>(call: Option<Call<T>>) {
    call.Some? ==> call.value.PushBack? || call.value.Pop?
  }

  lemma MoveInOrder<T>(maxSize: int, s: State<T>, t: Tid, a: Action<T>, s': State<T>)
    requires IsInt(maxSize) && Step(maxSize, s, t, a, s')
    ensures !a.Act? ==> s'.queue == s.queue && s'.history == s.history
    ensures a.Act? && s.threads[t].call.PushBack? ==> s'.queue == s.queue + [s.threads[t].call.value]
    ensures a.Act? && s.threads[t].call.Pop? ==> s.queue != [] && s.queue == [s.queue[0]] + s'.queue
  {
  }

  /**
   First in, first out, across all interleavings: without `push_front_blocking` and `clear`, the values
   popped followed by the values still queued are the values pushed, in the order of the lock.
   */
  lemma {:induction false} FirstInFirstOut<T>(maxSize: int, states: seq<State<T>>, moves: seq<(Tid, Action<T>)>,
                                              n: nat)
    requires IsInt(maxSize) && Run(maxSize, states, moves) && n <= |moves|
    requires forall i :: 0 <= i < n ==> Usual(CallAt(states, moves, i))
    ensures PopCalls(states, moves, n) + states[n].queue == PushCalls(states, moves, n)
  {
    if n > 0 {
      FirstInFirstOut(maxSize, states, moves, n - 1);
      assert Usual(CallAt(states, moves, n - 1));
      MoveInOrder(maxSize, states[n - 1], moves[n - 1].0, moves[n - 1].1, states[n]);
    }
  }

  // ----- no lost wakeup, when the queue is unbounded

  ghost predicate SleepingConsumer<T>(s: State<T>) {
    exists t :: t in s.threads && s.threads[t] == Asleep(Pop)
  }

  predicate Serves<T>(p: Phase<T>) {
    p.Notifying? || ((p.Woken? || p.Checking?) && p.call.Pop?)
  }

  /** Threads that owe a wakeup or are consumers on their way to the queue. */
  ghost function Servers<T>(s: State<T>): set<Tid> {
    set t | t in s.threads && Serves(s.threads[t])
  }

  ghost function WokenConsumers<T>(s: State<T>): set<Tid> {
    set t | t in s.threads && s.threads[t] == Woken(Pop)
  }

  /** While a consumer sleeps, there is at least one server for each queued value. */
  ghost predicate Attended<T>(s: State<T>) {
    && (forall t :: t in s.threads && s.threads[t].Asleep? ==> s.threads[t].call.Pop?)
    && (SleepingConsumer(s) ==> |s.queue| <= |Servers(s)|)
  }

  lemma ServersAfter<T>(s: State<T>, t: Tid, p: Phase<T>)
    requires t in s.threads
    ensures Servers(Enter(s, t, p)) == if Serves(p) then Servers(s) + {t} else Servers(s) - {t}
  {
  }

  lemma ServerCount<T>(s: State<T>, t: Tid)
    ensures t in Servers(s) ==> |Servers(s) - {t}| == |Servers(s)| - 1 && |Servers(s) + {t}| == |Servers(s)|
    ensures t !in Servers(s) ==> |Servers(s) - {t}| == |Servers(s)| && |Servers(s) + {t}| == |Servers(s)| + 1
  {
    assert t in Servers(s) ==> Servers(s) + {t} == Servers(s);
    assert t !in Servers(s) ==> Servers(s) - {t} == Servers(s);
  }

  /** The notifier hands its service on to the consumer it wakes. */
  lemma WakeAttended<T>(s: State<T>, t: Tid, a: Action<T>, s': State<T>)
    requires Attended(s) && Step(0, s, t, a, s') && a.NotifyOne?
    ensures Attended(s')
  {
    var u := a.sleeper;
    ServersAfter(s, u, Woken(s.threads[u].call));
    ServersAfter(Enter(s, u, Woken(s.threads[u].call)), t, Leaving);
    assert Servers(s') == Servers(s) + {u} - {t};
    assert t in Servers(s) && u !in Servers(s);
    assert |Servers(s) + {u} - {t}| == |Servers(s)|;
    assert SleepingConsumer(s);
  }

  lemma SleepersBefore<T>(s: State<T>, t: Tid, a: Action<T>, s': State<T>)
    requires Step(0, s, t, a, s') && !a.NotifyOne? && SleepingConsumer(s')
    ensures a.Block? || SleepingConsumer(s)
  {
    var u :| u in s'.threads && s'.threads[u] == Asleep(Pop);
    if u != t {
      assert s.threads[u] == Asleep(Pop);
    }
  }

  /** Of the phases that a thread moves between, only asleep ones matter to who may be asleep. */
  lemma SleepersPop<T>(s: State<T>, t: Tid, a: Action<T>, s': State<T>)
    requires Attended(s) && Step(0, s, t, a, s') && !a.NotifyOne?
    ensures forall u :: u in s'.threads && s'.threads[u].Asleep? ==> s'.threads[u].call.Pop?
  {
  }

  lemma ActBalance<T>(s: State<T>, t: Tid, s': State<T>)
    requires Step(0, s, t, Act, s')
    ensures |s'.queue| - |Servers(s')| <= |s.queue| - |Servers(s)| || s'.queue == []
  {
    ServersAfter(s, t, s'.threads[t]);
    assert Servers(s') == Servers(Enter(s, t, s'.threads[t]));
    ServerCount(s, t);
  }

  lemma OtherBalance<T>(s: State<T>, t: Tid, a: Action<T>, s': State<T>)
    requires Step(0, s, t, a, s') && !a.NotifyOne? && !a.Act? && (a.Block? ==> s.threads[t].call.Pop?)
    ensures s'.queue == s.queue && (a.Block? ==> s'.queue == [])
    ensures !a.Block? && !a.NotifyNone? ==> |Servers(s')| >= |Servers(s)|
  {
    ServersAfter(s, t, s'.threads[t]);
    ServerCount(s, t);
  }

  /** Queue and servers change together. */
  lemma ServersBalance<T>(s: State<T>, t: Tid, a: Action<T>, s': State<T>)
    requires Step(0, s, t, a, s') && !a.NotifyOne? && (a.Block? ==> s.threads[t].call.Pop?)
    ensures a.Block? ==> s'.queue == []
    ensures !a.Block? && !a.NotifyNone? ==> |s'.queue| - |Servers(s')| <= |s.queue| - |Servers(s)| || s'.queue == []
  {
    if a.Act? {
      ActBalance(s, t, s');
    } else {
      OtherBalance(s, t, a, s');
    }
  }

  /** This is the arithmetic of one step. */
  lemma StepAttended<T>(s: State<T>, t: Tid, a: Action<T>, s': State<T>)
    requires Attended(s) && Step(0, s, t, a, s')
    ensures Attended(s')
  {
    if a.NotifyOne? {
      WakeAttended(s, t, a, s');
    } else {
      SleepersPop(s, t, a, s');
      if SleepingConsumer(s') {
        SleepersBefore(s, t, a, s');
        ServersBalance(s, t, a, s');
      }
    }
  }

  lemma {:induction false} RunAttended<T>(states: seq<State<T>>, moves: seq<(Tid, Action<T>)>, i: nat)
    requires Run(0, states, moves) && i < |states|
    ensures Attended(states[i])
  {
    if i > 0 {
      RunAttended(states, moves, i - 1);
      StepAttended(states[i - 1], moves[i - 1].0, moves[i - 1].1, states[i]);
    }
  }

  /**
   In every interleaving of an unbounded queue: whenever the mutex is free and a consumer sleeps,
   there are at least as many woken consumers as queued values.
   */
  lemma NoLostWakeup<T(!new)>(s: State<T>)
    requires Reachable(0, s) && LockFree(s) && SleepingConsumer(s)
    ensures |s.queue| <= |WokenConsumers(s)|
    ensures s.queue != [] ==> exists c :: c in s.threads && s.threads[c] == Woken(Pop)
  {
    var states: seq<State<T>>, moves: seq<(Tid, Action<T>)> :| Run(0, states, moves) && states[|states| - 1] == s;
    RunAttended(states, moves, |states| - 1);
    assert Servers(s) == WokenConsumers(s);
    if s.queue != [] {
      assert WokenConsumers(s) != {};
      var c :| c in WokenConsumers(s);
    }
  }

  /** A woken consumer that gets the free mutex takes the front value. */
  lemma WokenConsumerPops<T>(maxSize: int, s: State<T>, c: Tid) returns (locked: State<T>, done: State<T>)
    requires IsInt(maxSize)
    requires LockFree(s) && s.queue != [] && c in s.threads && s.threads[c] == Woken(Pop)
    ensures Step(maxSize, s, c, Acquire, locked) && Step(maxSize, locked, c, Act, done)
    ensures done.queue == s.queue[1..] && done.history == s.history + [Popped(s.queue[0])]
  {
    locked := Enter(s, c, Checking(Pop));
    done := Acted(locked, c, Pop);
  }

  // ----- and only then

  /** Somebody sleeps although it could proceed, and nobody has been woken to make that good. */
  ghost predicate Stuck<T>(maxSize: int, s: State<T>)
    requires IsInt(maxSize)
  {
    && LockFree(s)
    && (exists t :: t in s.threads && s.threads[t].Asleep? && MayProceed(maxSize, s.queue, s.threads[t].call))
    && (forall u :: u in s.threads && s.threads[u].Woken? ==> !MayProceed(maxSize, s.queue, s.threads[u].call))
  }

  lemma {:induction false} Extend<T(!new)>(maxSize: int, s: State<T>, t: Tid, a: Action<T>, s': State<T>)
    requires IsInt(maxSize)
    requires Reachable(maxSize, s) && Step(maxSize, s, t, a, s')
    ensures Reachable(maxSize, s')
  {
    var states: seq<State<T>>, moves: seq<(Tid, Action<T>)> :| Run(maxSize, states, moves) && states[|states| - 1] == s;
    var states', moves' := states + [s'], moves + [(t, a)];
    forall i | 0 <= i < |moves'|
      ensures Step(maxSize, states'[i], moves'[i].0, moves'[i].1, states'[i + 1])
    {
      if i < |moves| {
        assert Step(maxSize, states[i], moves[i].0, moves[i].1, states[i + 1]);
      }
    }
    assert Run(maxSize, states', moves');
  }

  /** Thread 0, alone, can fill the queue to any size the bound allows. */
  lemma {:induction false} Fill<T(!new)>(maxSize: int, v: T, n: nat) returns (s: State<T>)
    requires IsInt(maxSize) && maxSize != 0 && n <= AsSize(maxSize)
    ensures Reachable(maxSize, s) && |s.queue| == n
    ensures s.threads == map[0 := Idle, 1 := Idle, 2 := Idle]
  {
    if n == 0 {
      s := State([], map[0 := Idle, 1 := Idle, 2 := Idle], []);
      assert Run(maxSize, [s], []);
      assert [s][|[s]| - 1] == s;
    } else {
      var s0 := Fill(maxSize, v, n - 1);
      var s1 := Enter(s0, 0, Entering(PushBack(v)));
      Extend(maxSize, s0, 0, Begin(PushBack(v)), s1);
      var s2 := Enter(s1, 0, Checking(PushBack(v)));
      Extend(maxSize, s1, 0, Acquire, s2);
      var s3 := Acted(s2, 0, PushBack(v));
      Extend(maxSize, s2, 0, Act, s3);
      var s4 := Enter(s3, 0, Leaving);
      Extend(maxSize, s3, 0, NotifyNone, s4);
      s := Enter(s4, 0, Idle);
      Extend(maxSize, s4, 0, Unlock, s);
      assert s.threads == map[0 := Idle, 1 := Idle, 2 := Idle];
    }
  }

  /** A bounded queue strands a producer: a pop makes room and notifies nobody. */
  lemma BoundedGetsStuck<T(!new)>(maxSize: int, v: T) returns (s: State<T>)
    requires IsInt(maxSize) && maxSize != 0
    ensures Reachable(maxSize, s) && Stuck(maxSize, s)
  {
    var s0 := Fill(maxSize, v, AsSize(maxSize));
    var s1 := Enter(s0, 1, Entering(PushBack(v)));
    Extend(maxSize, s0, 1, Begin(PushBack(v)), s1);
    var s2 := Enter(s1, 1, Checking(PushBack(v)));
    Extend(maxSize, s1, 1, Acquire, s2);
    var s3 := Enter(s2, 1, Asleep(PushBack(v)));
    Extend(maxSize, s2, 1, Block, s3);
    var s4 := Enter(s3, 2, Entering(Pop));
    Extend(maxSize, s3, 2, Begin(Pop), s4);
    var s5 := Enter(s4, 2, Checking(Pop));
    Extend(maxSize, s4, 2, Acquire, s5);
    var s6 := Acted(s5, 2, Pop);
    Extend(maxSize, s5, 2, Act, s6);
    s := Enter(s6, 2, Idle);
    Extend(maxSize, s6, 2, Unlock, s);
    assert s.threads == map[0 := Idle, 1 := Asleep(PushBack(v)), 2 := Idle];
    assert s.threads[1].Asleep? && MayProceed(maxSize, s.queue, s.threads[1].call);
  }

  lemma UnboundedNotStuck<T(!new)>(s: State<T>)
    requires Reachable(0, s)
    ensures !Stuck(0, s)
  {
    var states: seq<State<T>>, moves: seq<(Tid, Action<T>)> :| Run(0, states, moves) && states[|states| - 1] == s;
    RunAttended(states, moves, |states| - 1);
    if LockFree(s) && s.queue != [] && SleepingConsumer(s) {
      NoLostWakeup(s);
    }
  }

  /** No interleaving strands a sleeper exactly when the queue has no bound. */
  lemma NeverStuckExactlyWhenUnbounded<T(!new)>(maxSize: int, v: T)
    requires IsInt(maxSize)
    ensures (forall s: State<T> :: Reachable(maxSize, s) ==> !Stuck(maxSize, s)) <==> maxSize == 0
  {
    if maxSize != 0 {
      var s := BoundedGetsStuck(maxSize, v);
    } else {
      forall s: State<T> | Reachable(0, s)
        ensures !Stuck(0, s)
      {
        UnboundedNotStuck(s);
      }
    }
  }
}
