/** mcs.c: the MCS queue lock, one shared memory access per step, any number of threads, any schedule. */
module McsLock {
  import opened Sequences
  import opened Options

  /** Where a thread stands: the access it makes next. Fault stands for a failed assert or a read through
      a null pointer. */
  datatype Pc =
    | Idle
    | ClearNext
    | Exchange
    | SetLocked(prev: nat)
    | SetNext(prev: nat)
    | Spin
    | Critical
    | TestNext
    | CompareAndSwap
    | AwaitNext
    | ReadNext
    | Unlock(succ: nat)
    | Fault

  /** `queue` holds the threads from their exchange to the end of their release, `arrivals` every exchange
      and `entries` every return from acquire so far: records of the run that no step reads. */
  datatype State = State(head: Option<nat>, next: seq<Option<nat>>, locked: seq<bool>, pcs: seq<Pc>,
                         queue: seq<nat>, arrivals: seq<nat>, entries: seq<nat>)

  function Initial(n: nat): State {
    State(None, seq(n, _ => None), seq(n, _ => false), seq(n, _ => Idle), [], [], [])
  }

  ghost predicate Shape(s: State) {
    && |s.next| == |s.locked| == |s.pcs|
    && forall t :: 0 <= t < |s.pcs| ==>
         match s.pcs[t]
         case SetLocked(p) => p < |s.pcs|
         case SetNext(p) => p < |s.pcs|
         case Unlock(u) => u < |s.pcs|
         case _ => true
  }

  function Enter(s: State, t: nat): State
    requires t < |s.pcs|
  {
    s.(pcs := s.pcs[t := Critical], entries := s.entries + [t])
  }

  function Leave(s: State, t: nat): State
    requires t < |s.pcs|
  {
    s.(pcs := s.pcs[t := Idle], queue := if s.queue == [] then [] else s.queue[1..])
  }

  function Move(s: State, t: nat, pc: Pc): State
    requires t < |s.pcs|
  {
    s.(pcs := s.pcs[t := pc])
  }

  /** The next step of thread t. A step that finds a spin loop's condition unmet changes nothing. With
      lockedFirst the two writes of mcs_acquire come in the order of the source, else the other way. */
  function Step(lockedFirst: bool, s: State, t: nat): State
    requires Shape(s)
  {
    if t >= |s.pcs| then s else
    match s.pcs[t]
    case Idle => Move(s, t, if s.locked[t] then Fault else ClearNext)
    case ClearNext => Move(s.(next := s.next[t := None]), t, Exchange)
    case Exchange =>
      var r := s.(head := Some(t), queue := s.queue + [t], arrivals := s.arrivals + [t]);
      if s.head.None? then Enter(r, t)
      else if s.head.value >= |s.pcs| then Move(r, t, Fault)
      else Move(r, t, if lockedFirst then SetLocked(s.head.value) else SetNext(s.head.value))
    case SetLocked(prev) =>
      Move(s.(locked := s.locked[t := true]), t, if lockedFirst then SetNext(prev) else Spin)
    case SetNext(prev) =>
      Move(s.(next := s.next[prev := Some(t)]), t, if lockedFirst then Spin else SetLocked(prev))
    case Spin => if s.locked[t] then s else Enter(s, t)
    case Critical => Move(s, t, TestNext)
    case TestNext => Move(s, t, if s.next[t].None? then CompareAndSwap else ReadNext)
    case CompareAndSwap => if s.head == Some(t) then Leave(s.(head := None), t) else Move(s, t, AwaitNext)
    case AwaitNext => if s.next[t].None? then s else Move(s, t, ReadNext)
    case ReadNext =>
      Move(s, t, if s.next[t].None? || s.next[t].value >= |s.pcs| then Fault else Unlock(s.next[t].value))
    case Unlock(succ) => Leave(s.(locked := s.locked[succ := false]), t)
    case Fault => s
  }

  lemma {:induction false} StepKeepsShape(lockedFirst: bool, s: State, t: nat)
    requires Shape(s)
    ensures Shape(Step(lockedFirst, s, t)) && |Step(lockedFirst, s, t).pcs| == |s.pcs|
  {
  }

  /** The state after the threads of `schedule` have taken one step each, in that order. */
  function Run(lockedFirst: bool, s: State, schedule: seq<nat>): (r: State)
    requires Shape(s)
    ensures Shape(r) && |r.pcs| == |s.pcs|
  {
    if schedule == [] then s
    else
      var init := Run(lockedFirst, s, schedule[..|schedule| - 1]);
      StepKeepsShape(lockedFirst, init, schedule[|schedule| - 1]);
      Step(lockedFirst, init, schedule[|schedule| - 1])
  }

  // ---------- the invariant ----------

  predicate Outside(pc: Pc) {
    pc.Idle? || pc.ClearNext? || pc.Exchange?
  }

  /** Between the return from acquire and the end of release. */
  predicate Holding(pc: Pc) {
    pc.Critical? || pc.TestNext? || pc.CompareAndSwap? || pc.AwaitNext? || pc.ReadNext? || pc.Unlock?
  }

  predicate Waiting(pc: Pc) {
    pc.SetLocked? || pc.SetNext? || pc.Spin?
  }

  /** A queued thread that is not at the front waits, marked locked before its predecessor can see it. */
  ghost predicate WaiterOk(s: State, i: nat)
    requires Shape(s) && 0 < i < |s.queue| && s.queue[i] < |s.pcs|
  {
    match s.pcs[s.queue[i]]
    case SetLocked(prev) => prev == s.queue[i - 1] && !s.locked[s.queue[i]]
    case SetNext(prev) => prev == s.queue[i - 1] && s.locked[s.queue[i]]
    case Spin => s.locked[s.queue[i]]
    case _ => false
  }

  /** The front thread has been let in. */
  ghost predicate FrontOk(s: State)
    requires Shape(s) && s.queue != [] && s.queue[0] < |s.pcs|
  {
    var t := s.queue[0];
    && !s.locked[t]
    && match s.pcs[t]
       case AwaitNext => |s.queue| > 1
       case ReadNext => s.next[t].Some?
       case Unlock(succ) => s.next[t] == Some(succ)
       case pc => pc.Spin? || Holding(pc)
  }

  /** A thread's next is the thread behind it from the moment that one has linked itself in. */
  ghost predicate LinkOk(s: State, i: nat)
    requires Shape(s) && i < |s.queue| && forall j :: 0 <= j < |s.queue| ==> s.queue[j] < |s.pcs|
  {
    s.next[s.queue[i]] ==
      if i + 1 < |s.queue| && s.pcs[s.queue[i + 1]] == Spin then Some(s.queue[i + 1]) else None
  }

  ghost predicate OutsideOk(s: State, t: nat)
    requires Shape(s) && t < |s.pcs|
  {
    if t in s.queue then !Outside(s.pcs[t])
    else Outside(s.pcs[t]) && !s.locked[t] && (s.pcs[t].Exchange? ==> s.next[t].None?)
  }

  /** The queued threads that have not entered yet. */
  function NotEntered(s: State): seq<nat>
    requires forall i :: 0 <= i < |s.queue| ==> s.queue[i] < |s.pcs|
  {
    if s.queue != [] && Holding(s.pcs[s.queue[0]]) then s.queue[1..] else s.queue
  }

  ghost predicate QueueOk(s: State) {
    && (forall i :: 0 <= i < |s.queue| ==> s.queue[i] < |s.pcs|)
    && (forall i, j :: 0 <= i < j < |s.queue| ==> s.queue[i] != s.queue[j])
    && s.head == if s.queue == [] then None else Some(s.queue[|s.queue| - 1])
  }

  /** The thread at place i of the queue. */
  ghost predicate PlaceOk(s: State, i: nat)
    requires Shape(s) && QueueOk(s) && i < |s.queue|
  {
    LinkOk(s, i) && if i == 0 then FrontOk(s) else WaiterOk(s, i)
  }

  ghost predicate Inv(s: State) {
    && Shape(s) && QueueOk(s)
    && (forall t :: 0 <= t < |s.pcs| ==> OutsideOk(s, t))
    && (forall i :: 0 <= i < |s.queue| ==> PlaceOk(s, i))
    && s.arrivals == s.entries + NotEntered(s)
  }

  // ---------- every step keeps it ----------

  // For each kind of step: what it does to one place, and to one thread's standing outside the queue.

  lemma {:induction false} OutsidePlace(s: State, t: nat, i: nat)
    requires Shape(s) && QueueOk(s) && t < |s.pcs| && (s.pcs[t].Idle? || s.pcs[t].ClearNext?) && OutsideOk(s, t)
    requires i < |s.queue| && PlaceOk(s, i)
    ensures var r := Step(true, s, t); Shape(r) && QueueOk(r) && PlaceOk(r, i)
  {
  }

  lemma {:induction false} OutsideThread(s: State, t: nat, u: nat)
    requires Shape(s) && t < |s.pcs| && (s.pcs[t].Idle? || s.pcs[t].ClearNext?) && OutsideOk(s, t)
    requires u < |s.pcs| && OutsideOk(s, u)
    ensures var r := Step(true, s, t); Shape(r) && |r.pcs| == |s.pcs| && OutsideOk(r, u)
  {
  }

  lemma {:induction false} OutsideStep(s: State, t: nat)
    requires Inv(s) && t < |s.pcs| && (s.pcs[t].Idle? || s.pcs[t].ClearNext?)
    ensures Inv(Step(true, s, t))
  {
    var r := Step(true, s, t);
    assert OutsideOk(s, t);
    forall u | 0 <= u < |r.pcs|
      ensures Shape(r) && OutsideOk(r, u)
    {
      assert OutsideOk(s, u);
      OutsideThread(s, t, u);
    }
    forall i | 0 <= i < |s.queue|
      ensures QueueOk(r) && PlaceOk(r, i)
    {
      assert PlaceOk(s, i);
      OutsidePlace(s, t, i);
    }
  }

  lemma {:induction false} ExchangeQueue(s: State, t: nat)
    requires Shape(s) && QueueOk(s) && t < |s.pcs| && s.pcs[t].Exchange? && OutsideOk(s, t)
    ensures var r := Step(true, s, t); Shape(r) && QueueOk(r) && |r.pcs| == |s.pcs| && r.queue == s.queue + [t]
  {
    var r := Step(true, s, t);
    forall i, j | 0 <= i < j < |r.queue|
      ensures r.queue[i] != r.queue[j]
    {
      assert s.queue[i] in s.queue;
    }
  }

  lemma {:induction false} ExchangePlace(s: State, t: nat, i: nat)
    requires Shape(s) && QueueOk(s) && t < |s.pcs| && s.pcs[t].Exchange? && OutsideOk(s, t)
    requires i < |s.queue| && PlaceOk(s, i)
    ensures var r := Step(true, s, t); Shape(r) && QueueOk(r) && i < |r.queue| && PlaceOk(r, i)
  {
    ExchangeQueue(s, t);
    assert s.queue[i] in s.queue && (i + 1 < |s.queue| ==> s.queue[i + 1] in s.queue)
           && (i > 0 ==> s.queue[i - 1] in s.queue);
  }

  lemma {:induction false} ExchangeOwnPlace(s: State, t: nat)
    requires Shape(s) && QueueOk(s) && t < |s.pcs| && s.pcs[t].Exchange? && OutsideOk(s, t)
    ensures var r := Step(true, s, t); Shape(r) && QueueOk(r) && |s.queue| < |r.queue| && PlaceOk(r, |s.queue|)
  {
    ExchangeQueue(s, t);
  }

  lemma {:induction false} ExchangeThread(s: State, t: nat, u: nat)
    requires Shape(s) && QueueOk(s) && t < |s.pcs| && s.pcs[t].Exchange? && OutsideOk(s, t)
    requires u < |s.pcs| && OutsideOk(s, u)
    ensures var r := Step(true, s, t); Shape(r) && |r.pcs| == |s.pcs| && OutsideOk(r, u)
  {
    ExchangeQueue(s, t);
  }

  lemma {:induction false} ExchangeStep(s: State, t: nat)
    requires Inv(s) && t < |s.pcs| && s.pcs[t].Exchange?
    ensures Inv(Step(true, s, t))
  {
    var r := Step(true, s, t);
    assert OutsideOk(s, t);
    ExchangeQueue(s, t);
    forall u | 0 <= u < |r.pcs|
      ensures OutsideOk(r, u)
    {
      assert OutsideOk(s, u);
      ExchangeThread(s, t, u);
    }
    forall i | 0 <= i < |r.queue|
      ensures PlaceOk(r, i)
    {
      if i < |s.queue| {
        assert PlaceOk(s, i);
        ExchangePlace(s, t, i);
      } else {
        ExchangeOwnPlace(s, t);
      }
    }
    ExchangeArrives(s, t);
  }

  lemma {:induction false} ExchangeArrives(s: State, t: nat)
    requires Inv(s) && t < |s.pcs| && s.pcs[t].Exchange?
    requires var r := Step(true, s, t); r.queue == s.queue + [t] && Shape(r) && QueueOk(r)
    ensures var r := Step(true, s, t); r.arrivals == r.entries + NotEntered(r)
  {
    var r := Step(true, s, t);
    assert OutsideOk(s, t);
    if s.queue != [] {
      assert s.queue[0] in s.queue;
      assert NotEntered(r) == NotEntered(s) + [t];
    }
  }

  lemma {:induction false} SetLockedPlace(s: State, k: nat, i: nat)
    requires Shape(s) && QueueOk(s) && 0 < k < |s.queue| && s.pcs[s.queue[k]].SetLocked? && PlaceOk(s, k)
    requires i < |s.queue| && PlaceOk(s, i)
    ensures var r := Step(true, s, s.queue[k]); Shape(r) && QueueOk(r) && PlaceOk(r, i)
  {
  }

  lemma {:induction false} SetNextPlace(s: State, k: nat, i: nat)
    requires Shape(s) && QueueOk(s) && 0 < k < |s.queue| && s.pcs[s.queue[k]].SetNext? && PlaceOk(s, k)
             && PlaceOk(s, k - 1)
    requires i < |s.queue| && PlaceOk(s, i)
    ensures var r := Step(true, s, s.queue[k]); Shape(r) && QueueOk(r) && PlaceOk(r, i)
  {
    if i == k {
      assert LinkOk(Step(true, s, s.queue[k]), i);
    }
  }

  lemma {:induction false} LinkThread(s: State, k: nat, u: nat)
    requires Shape(s) && QueueOk(s) && 0 < k < |s.queue| && PlaceOk(s, k) && u < |s.pcs| && OutsideOk(s, u)
    requires s.pcs[s.queue[k]].SetLocked? || s.pcs[s.queue[k]].SetNext?
    ensures var r := Step(true, s, s.queue[k]); Shape(r) && |r.pcs| == |s.pcs| && OutsideOk(r, u)
  {
    assert s.queue[k] in s.queue && s.queue[k - 1] in s.queue;
  }

  lemma {:induction false} LinkThreads(s: State, k: nat)
    requires Inv(s) && 0 < k < |s.queue| && (s.pcs[s.queue[k]].SetLocked? || s.pcs[s.queue[k]].SetNext?)
    ensures var r := Step(true, s, s.queue[k]);
            Shape(r) && |r.pcs| == |s.pcs| && forall u :: 0 <= u < |r.pcs| ==> OutsideOk(r, u)
  {
    var r := Step(true, s, s.queue[k]);
    StepKeepsShape(true, s, s.queue[k]);
    assert PlaceOk(s, k);
    forall u | 0 <= u < |r.pcs|
      ensures OutsideOk(r, u)
    {
      assert OutsideOk(s, u);
      LinkThread(s, k, u);
    }
  }

  lemma {:induction false} LinkPlaces(s: State, k: nat)
    requires Inv(s) && 0 < k < |s.queue| && (s.pcs[s.queue[k]].SetLocked? || s.pcs[s.queue[k]].SetNext?)
    ensures var r := Step(true, s, s.queue[k]);
            Shape(r) && QueueOk(r) && |r.queue| == |s.queue| && forall i :: 0 <= i < |r.queue| ==> PlaceOk(r, i)
  {
    var r := Step(true, s, s.queue[k]);
    assert PlaceOk(s, k) && PlaceOk(s, k - 1);
    SetPlace(s, k, k);
    forall i | 0 <= i < |r.queue|
      ensures PlaceOk(r, i)
    {
      assert PlaceOk(s, i);
      SetPlace(s, k, i);
    }
  }

  lemma {:induction false} SetPlace(s: State, k: nat, i: nat)
    requires Shape(s) && QueueOk(s) && 0 < k < |s.queue| && PlaceOk(s, k) && PlaceOk(s, k - 1)
    requires s.pcs[s.queue[k]].SetLocked? || s.pcs[s.queue[k]].SetNext?
    requires i < |s.queue| && PlaceOk(s, i)
    ensures var r := Step(true, s, s.queue[k]); Shape(r) && QueueOk(r) && r.queue == s.queue && PlaceOk(r, i)
  {
    if s.pcs[s.queue[k]].SetLocked? {
      SetLockedPlace(s, k, i);
    } else {
      SetNextPlace(s, k, i);
    }
  }

  /** The two steps by which a waiting thread links itself in. */
  lemma {:induction false} LinkStep(s: State, k: nat)
    requires Inv(s) && 0 < k < |s.queue| && (s.pcs[s.queue[k]].SetLocked? || s.pcs[s.queue[k]].SetNext?)
    ensures Inv(Step(true, s, s.queue[k]))
  {
    LinkThreads(s, k);
    LinkPlaces(s, k);
    LinkArrivals(s, k);
  }

  lemma {:induction false} LinkArrivals(s: State, k: nat)
    requires Shape(s) && QueueOk(s) && 0 < k < |s.queue| && s.arrivals == s.entries + NotEntered(s)
    requires s.pcs[s.queue[k]].SetLocked? || s.pcs[s.queue[k]].SetNext?
    requires var r := Step(true, s, s.queue[k]); Shape(r) && QueueOk(r)
    ensures var r := Step(true, s, s.queue[k]); r.arrivals == r.entries + NotEntered(r)
  {
    assert s.queue[0] != s.queue[k];
  }

  lemma {:induction false} FirstMoves(a: seq<nat>, b: seq<nat>)
    requires b != []
    ensures a + b == (a + [b[0]]) + b[1..]
  {
  }

  /** The front thread going from one place of its code to another, in the queue. */
  lemma {:induction false} FrontPlace(s: State, r: State, i: nat)
    requires Shape(s) && QueueOk(s) && s.queue != [] && Shape(r) && FrontMoved(s, r) && FrontOk(r)
    requires i < |s.queue| && PlaceOk(s, i)
    ensures QueueOk(r) && PlaceOk(r, i)
  {
  }

  ghost predicate FrontMoved(s: State, r: State)
    requires Shape(s) && QueueOk(s) && s.queue != []
  {
    && r.head == s.head && r.next == s.next && r.locked == s.locked && r.queue == s.queue
    && |r.pcs| == |s.pcs| && r.pcs == s.pcs[s.queue[0] := r.pcs[s.queue[0]]] && Holding(r.pcs[s.queue[0]])
  }

  lemma {:induction false} FrontMoves(s: State, r: State)
    requires Inv(s) && s.queue != [] && Shape(r) && FrontMoved(s, r) && FrontOk(r)
    requires r.arrivals == r.entries + NotEntered(r)
    ensures Inv(r)
  {
    assert s.queue[0] in s.queue;
    forall u | 0 <= u < |r.pcs|
      ensures OutsideOk(r, u)
    {
      assert OutsideOk(s, u);
    }
    forall i | 0 <= i < |s.queue|
      ensures QueueOk(r) && PlaceOk(r, i)
    {
      assert PlaceOk(s, i);
      FrontPlace(s, r, i);
    }
  }

  /** Steps of the front thread that keep it in the queue. */
  lemma {:induction false} FrontStep(s: State)
    requires Inv(s) && s.queue != []
    requires Step(true, s, s.queue[0]).queue == s.queue
    ensures Inv(Step(true, s, s.queue[0]))
  {
    var t := s.queue[0];
    var r := Step(true, s, t);
    StepKeepsShape(true, s, t);
    assert PlaceOk(s, 0);
    FirstMoves(s.entries, s.queue);
    if r != s {
      FrontMoves(s, r);
    }
  }

  lemma {:induction false} LeaveQueue(s: State)
    requires Shape(s) && QueueOk(s) && s.queue != [] && PlaceOk(s, 0)
    requires Step(true, s, s.queue[0]).queue != s.queue
    ensures var r := Step(true, s, s.queue[0]); Shape(r) && QueueOk(r) && |r.pcs| == |s.pcs| && r.queue == s.queue[1..]
  {
    var t, r := s.queue[0], Step(true, s, s.queue[0]);
    StepKeepsShape(true, s, t);
    assert s.pcs[t].CompareAndSwap? || s.pcs[t].Unlock?;
  }

  lemma {:induction false} LeavePlace(s: State, i: nat)
    requires Shape(s) && QueueOk(s) && s.queue != [] && PlaceOk(s, 0)
    requires Step(true, s, s.queue[0]).queue != s.queue
    requires i + 1 < |s.queue| && PlaceOk(s, i + 1)
    ensures var r := Step(true, s, s.queue[0]); Shape(r) && QueueOk(r) && i < |r.queue| && PlaceOk(r, i)
  {
    LeaveQueue(s);
  }

  lemma {:induction false} LeaveThread(s: State, u: nat)
    requires Shape(s) && QueueOk(s) && s.queue != [] && PlaceOk(s, 0)
    requires Step(true, s, s.queue[0]).queue != s.queue
    requires u < |s.pcs| && OutsideOk(s, u)
    ensures var r := Step(true, s, s.queue[0]); Shape(r) && |r.pcs| == |s.pcs| && OutsideOk(r, u)
  {
    LeaveQueue(s);
    var r := Step(true, s, s.queue[0]);
    assert u in r.queue ==> u in s.queue && u != s.queue[0];
    assert u in s.queue ==> u in r.queue || u == s.queue[0];
    assert |s.queue| > 1 ==> s.queue[1] in s.queue;
  }

  /** The two ways out: the queue empties, or the next thread is let in. */
  lemma {:induction false} LeaveStep(s: State)
    requires Inv(s) && s.queue != []
    requires Step(true, s, s.queue[0]).queue != s.queue
    ensures Inv(Step(true, s, s.queue[0]))
  {
    var r := Step(true, s, s.queue[0]);
    assert PlaceOk(s, 0);
    LeaveQueue(s);
    forall u | 0 <= u < |r.pcs|
      ensures OutsideOk(r, u)
    {
      assert OutsideOk(s, u);
      LeaveThread(s, u);
    }
    forall i | 0 <= i < |r.queue|
      ensures PlaceOk(r, i)
    {
      assert PlaceOk(s, i + 1);
      LeavePlace(s, i);
    }
    LeaveArrivals(s);
  }

  lemma {:induction false} LeaveArrivals(s: State)
    requires Inv(s) && s.queue != [] && PlaceOk(s, 0)
    requires var r := Step(true, s, s.queue[0]); r.queue == s.queue[1..] && Shape(r) && QueueOk(r)
    ensures var r := Step(true, s, s.queue[0]); r.arrivals == r.entries + NotEntered(r)
  {
    if |s.queue| > 1 {
      assert PlaceOk(s, 1);
    }
  }

  lemma {:induction false} StepKeepsInv(s: State, t: nat)
    requires Inv(s)
    ensures Inv(Step(true, s, t))
  {
    if t < |s.pcs| {
      assert OutsideOk(s, t);
      if t in s.queue {
        var k :| 0 <= k < |s.queue| && s.queue[k] == t;
        if k == 0 {
          if Step(true, s, t).queue == s.queue {
            FrontStep(s);
          } else {
            LeaveStep(s);
          }
        } else {
          assert PlaceOk(s, k);
          if !s.pcs[t].Spin? {
            LinkStep(s, k);
          }
        }
      } else if s.pcs[t].Exchange? {
        ExchangeStep(s, t);
      } else {
        OutsideStep(s, t);
      }
    }
  }

  lemma {:induction false} RunKeepsInv(s: State, schedule: seq<nat>)
    requires Inv(s)
    ensures Inv(Run(true, s, schedule))
  {
    if schedule != [] {
      RunKeepsInv(s, schedule[..|schedule| - 1]);
      StepKeepsInv(Run(true, s, schedule[..|schedule| - 1]), schedule[|schedule| - 1]);
    }
  }

  // ---------- safety ----------

  /** Every state of every run: at most one thread is between acquire and release; threads enter in the
      order of their exchange; no assert fails, no null pointer is followed, and a thread outside the
      lock finds itself unlocked. */
  lemma {:induction false} RunsAreSafe(n: nat, schedule: seq<nat>)
    ensures var s := Run(true, Initial(n), schedule);
            && (forall t, u :: 0 <= t < n && 0 <= u < n && Holding(s.pcs[t]) && Holding(s.pcs[u]) ==> t == u)
            && s.entries <= s.arrivals
            && (forall t :: 0 <= t < n ==> !s.pcs[t].Fault?)
            && (forall t :: 0 <= t < n && Outside(s.pcs[t]) ==> !s.locked[t])
  {
    var s := Run(true, Initial(n), schedule);
    RunKeepsInv(Initial(n), schedule);
    forall t | 0 <= t < n
      ensures Holding(s.pcs[t]) ==> s.queue != [] && t == s.queue[0]
      ensures !s.pcs[t].Fault? && (Outside(s.pcs[t]) ==> !s.locked[t])
    {
      assert OutsideOk(s, t);
      if t in s.queue {
        var i :| 0 <= i < |s.queue| && s.queue[i] == t;
        assert PlaceOk(s, i);
      }
    }
  }

  // ---------- progress ----------

  /** A step that would only go round a spin loop once more. */
  predicate Spins(s: State, t: nat)
    requires t < |s.pcs| == |s.next| == |s.locked|
  {
    (s.pcs[t].Spin? && s.locked[t]) || (s.pcs[t].AwaitNext? && s.next[t].None?)
  }

  /** No hand-off is lost: in every state of every run in which threads are queued, up to any thread
      that has not entered yet there is one that can go on without spinning. */
  lemma {:induction false} SomeoneMoves(s: State, k: nat) returns (i: nat)
    requires Inv(s) && k < |s.queue| && (Waiting(s.pcs[s.queue[k]]) || k == |s.queue| - 1)
    ensures i <= k && !Spins(s, s.queue[i]) && Step(true, s, s.queue[i]) != s
  {
    i := 0;
    assert PlaceOk(s, 0);
    if Spins(s, s.queue[0]) {
      assert PlaceOk(s, 1);
      i := 1;
    }
  }

  /** How many steps of its own a queued thread is from leaving the queue, spinning aside. */
  function Rank(pc: Pc, locked: bool): nat {
    match pc
    case SetLocked(_) => 10
    case SetNext(_) => 9
    case Spin => if locked then 8 else 7
    case Critical => 6
    case TestNext => 5
    case CompareAndSwap => 4
    case AwaitNext => 3
    case ReadNext => 2
    case Unlock(_) => 1
    case _ => 0
  }

  function RankOf(s: State, t: nat): nat
    requires t < |s.pcs| == |s.locked|
  {
    Rank(s.pcs[t], s.locked[t])
  }

  /** The ranks of the given threads added up. */
  function Ranks(s: State, threads: seq<nat>): nat
    requires |s.pcs| == |s.locked| && forall i :: 0 <= i < |threads| ==> threads[i] < |s.pcs|
  {
    if threads == [] then 0 else RankOf(s, threads[0]) + Ranks(s, threads[1..])
  }

  lemma {:induction false} RanksMonotone(s: State, r: State, threads: seq<nat>)
    requires |s.pcs| == |s.locked| == |r.pcs| == |r.locked|
    requires forall i :: 0 <= i < |threads| ==> threads[i] < |s.pcs| && RankOf(r, threads[i]) <= RankOf(s, threads[i])
    ensures Ranks(r, threads) <= Ranks(s, threads)
    ensures (exists i :: 0 <= i < |threads| && RankOf(r, threads[i]) < RankOf(s, threads[i])) ==>
              Ranks(r, threads) < Ranks(s, threads)
  {
    if threads != [] {
      RanksMonotone(s, r, threads[1..]);
      if i :| 0 < i < |threads| && RankOf(r, threads[i]) < RankOf(s, threads[i]) {
        assert threads[1..][i - 1] == threads[i];
      }
    }
  }

  lemma {:induction false} RanksBound(s: State, threads: seq<nat>)
    requires |s.pcs| == |s.locked| && forall i :: 0 <= i < |threads| ==> threads[i] < |s.pcs|
    ensures Ranks(s, threads) <= 10 * |threads|
  {
    if threads != [] {
      RanksBound(s, threads[1..]);
    }
  }

  function PlaceOf(queue: seq<nat>, t: nat): (k: nat)
    ensures t in queue ==> k < |queue| && queue[k] == t
  {
    if queue == [] || queue[0] == t then 0 else 1 + PlaceOf(queue[1..], t)
  }

  lemma {:induction false} PlaceOfPrefix(queue: seq<nat>, more: seq<nat>, t: nat)
    requires t in queue
    ensures PlaceOf(queue + more, t) == PlaceOf(queue, t)
  {
    if queue[0] != t {
      PlaceOfPrefix(queue[1..], more, t);
      assert (queue + more)[1..] == queue[1..] + more;
    }
  }

  /** t has exchanged and not entered. */
  predicate IsWaiting(s: State, t: nat) {
    t < |s.pcs| && Waiting(s.pcs[t])
  }

  /** The threads t waits for, and t itself. */
  function UpTo(s: State, t: nat): seq<nat>
    requires t in s.queue
  {
    s.queue[..PlaceOf(s.queue, t) + 1]
  }

  lemma {:induction false} WaitingIsQueued(s: State, t: nat)
    requires Inv(s) && IsWaiting(s, t)
    ensures t in s.queue
  {
    assert OutsideOk(s, t);
  }

  /** A step of a thread that is not queued touches no queued one. */
  lemma {:induction false} OutsideRanks(s: State, u: nat, x: nat)
    requires Shape(s) && u < |s.pcs| && x < |s.pcs| && x in s.queue && u !in s.queue && OutsideOk(s, u)
    ensures var r := Step(true, s, u);
            |r.pcs| == |r.locked| == |s.pcs| && RankOf(r, x) == RankOf(s, x)
  {
  }

  /** A step of a queued thread, for another one. */
  lemma {:induction false} OtherRanks(s: State, k: nat, x: nat)
    requires Shape(s) && QueueOk(s) && k < |s.queue| && PlaceOk(s, k) && x < |s.pcs| && x != s.queue[k]
    ensures var r := Step(true, s, s.queue[k]);
            |r.pcs| == |r.locked| == |s.pcs| && RankOf(r, x) <= RankOf(s, x)
  {
  }

  /** A step of a queued thread, for itself. */
  lemma {:induction false} OwnRank(s: State, k: nat)
    requires Shape(s) && QueueOk(s) && k < |s.queue| && PlaceOk(s, k)
    ensures var u, r := s.queue[k], Step(true, s, s.queue[k]);
            |r.pcs| == |r.locked| == |s.pcs|
            && (u in r.queue ==> RankOf(r, u) + (if Spins(s, u) then 0 else 1) <= RankOf(s, u))
  {
  }

  /** Ranks under one step: the step's own thread goes down unless it spins, nobody goes up. */
  lemma {:induction false} StepRanks(s: State, u: nat, x: nat)
    requires Inv(s) && u < |s.pcs| && x < |s.pcs| && x in s.queue
    ensures var r := Step(true, s, u);
            |r.pcs| == |r.locked| == |s.pcs| && (x in r.queue ==> RankOf(r, x) <= RankOf(s, x))
            && (u == x && !Spins(s, u) && x in r.queue ==> RankOf(r, x) < RankOf(s, x))
  {
    if u in s.queue {
      var k :| 0 <= k < |s.queue| && s.queue[k] == u;
      assert PlaceOk(s, k);
      if x == u {
        OwnRank(s, k);
      } else {
        OtherRanks(s, k, x);
      }
    } else {
      assert OutsideOk(s, u);
      OutsideRanks(s, u, x);
    }
  }

  ghost predicate AllQueued(s: State, threads: seq<nat>) {
    forall i :: 0 <= i < |threads| ==> threads[i] < |s.pcs| && threads[i] in s.queue
  }

  lemma {:induction false} RanksDrop(s: State, r: State, u: nat, threads: seq<nat>)
    requires Inv(s) && u < |s.pcs| && r == Step(true, s, u) && |r.pcs| == |r.locked| == |s.pcs|
    requires AllQueued(s, threads) && AllQueued(r, threads)
    ensures Ranks(r, threads) + (if u in threads && !Spins(s, u) then 1 else 0) <= Ranks(s, threads)
  {
    forall i | 0 <= i < |threads|
      ensures RankOf(r, threads[i]) <= RankOf(s, threads[i])
      ensures threads[i] == u && !Spins(s, u) ==> RankOf(r, threads[i]) < RankOf(s, threads[i])
    {
      StepRanks(s, u, threads[i]);
    }
    RanksMonotone(s, r, threads);
  }

  lemma {:induction false} UpToGrown(s: State, r: State, u: nat, t: nat)
    requires t in s.queue && (r.queue == s.queue || r.queue == s.queue + [u])
    ensures t in r.queue && UpTo(r, t) == UpTo(s, t)
  {
    if r.queue != s.queue {
      PlaceOfPrefix(s.queue, [u], t);
    }
  }

  lemma {:induction false} UpToIsQueued(s: State, t: nat)
    requires QueueOk(s) && t in s.queue
    ensures AllQueued(s, UpTo(s, t))
  {
  }

  /** StepLowers when nobody leaves the queue. */
  lemma {:induction false} StayLowers(s: State, r: State, u: nat, t: nat)
    requires Inv(s) && t in s.queue && u < |s.pcs| && r == Step(true, s, u)
    requires Inv(r) && (r.queue == s.queue || r.queue == s.queue + [u])
    ensures t in r.queue && |r.pcs| == |s.pcs|
    ensures Ranks(r, UpTo(r, t)) + (if u in UpTo(s, t) && !Spins(s, u) then 1 else 0) <= Ranks(s, UpTo(s, t))
  {
    StepKeepsShape(true, s, u);
    UpToGrown(s, r, u, t);
    UpToIsQueued(s, t);
    UpToIsQueued(r, t);
    RanksDrop(s, r, u, UpTo(s, t));
  }

  lemma {:induction false} FrontHasRank(s: State)
    requires Inv(s) && s.queue != []
    ensures s.queue[0] < |s.pcs| && RankOf(s, s.queue[0]) > 0
  {
    assert PlaceOk(s, 0) && OutsideOk(s, s.queue[0]);
    assert s.queue[0] in s.queue;
  }

  lemma {:induction false} UpToTail(s: State, r: State, t: nat)
    requires t in s.queue && t != s.queue[0] && r.queue == s.queue[1..]
    ensures t in r.queue && UpTo(s, t)[0] == s.queue[0] && UpTo(s, t)[1..] == UpTo(r, t)
  {
  }

  lemma {:induction false} RanksCons(s: State, threads: seq<nat>)
    requires threads != [] && |s.pcs| == |s.locked| && forall i :: 0 <= i < |threads| ==> threads[i] < |s.pcs|
    ensures Ranks(s, threads) == RankOf(s, threads[0]) + Ranks(s, threads[1..])
  {
  }

  /** StepLowers when the front thread leaves. */
  lemma {:induction false} LeaveLowers(s: State, r: State, t: nat)
    requires Inv(s) && t in s.queue && t != s.queue[0] && r == Step(true, s, s.queue[0])
    requires Inv(r) && r.queue == s.queue[1..]
    ensures t in r.queue && |r.pcs| == |s.pcs|
    ensures Ranks(r, UpTo(r, t)) + 1 <= Ranks(s, UpTo(s, t))
  {
    StepKeepsShape(true, s, s.queue[0]);
    UpToTail(s, r, t);
    UpToIsQueued(s, t);
    UpToIsQueued(r, t);
    assert AllQueued(s, UpTo(r, t));
    RanksDrop(s, r, s.queue[0], UpTo(r, t));
    FrontHasRank(s);
    RanksCons(s, UpTo(s, t));
  }

  lemma {:induction false} QueueChanges(s: State, u: nat)
    requires Inv(s) && u < |s.pcs|
    ensures var r := Step(true, s, u);
            r.queue == s.queue || r.queue == s.queue + [u]
              || (s.queue != [] && r.queue == s.queue[1..] && u == s.queue[0])
  {
    assert OutsideOk(s, u);
    if u in s.queue {
      var k :| 0 <= k < |s.queue| && s.queue[k] == u;
      assert PlaceOk(s, k);
    }
  }

  /** While t waits, every non-spinning step of t or a thread ahead of it lowers the sum of their ranks,
      and no step of any thread raises it. */
  lemma {:induction false} StepLowers(s: State, u: nat, t: nat)
    requires Inv(s) && IsWaiting(s, t) && u < |s.pcs| && IsWaiting(Step(true, s, u), t)
    ensures var r := Step(true, s, u);
            && t in s.queue && t in r.queue && Inv(r)
            && Ranks(r, UpTo(r, t)) + (if u in UpTo(s, t) && !Spins(s, u) then 1 else 0) <= Ranks(s, UpTo(s, t))
  {
    StepKeepsInv(s, u);
    WaitingIsQueued(s, t);
    WaitingIsQueued(Step(true, s, u), t);
    QueueChanges(s, u);
    var r := Step(true, s, u);
    if r.queue == s.queue || r.queue == s.queue + [u] {
      StayLowers(s, r, u, t);
    } else {
      LeaveLowers(s, r, t);
    }
  }

  /** The non-spinning steps that t and the threads ahead of it take while t waits. */
  function Moves(s: State, schedule: seq<nat>, t: nat): nat
    requires Inv(s)
    decreases |schedule|
  {
    if schedule == [] || !IsWaiting(s, t) then 0
    else
      var u := schedule[0];
      StepKeepsInv(s, u);
      WaitingIsQueued(s, t);
      (if u < |s.pcs| && u in UpTo(s, t) && !Spins(s, u) then 1 else 0) + Moves(Step(true, s, u), schedule[1..], t)
  }

  /** Starvation freedom under any schedule: a thread at place k of the queue enters after at most
      10 * (k + 1) non-spinning steps of itself and the k threads ahead of it, of which, by SomeoneMoves,
      one can always be taken. */
  lemma {:induction false} WaitIsBounded(s: State, schedule: seq<nat>, t: nat)
    requires Inv(s) && IsWaiting(s, t)
    ensures t in s.queue
    ensures Moves(s, schedule, t) <= Ranks(s, UpTo(s, t)) <= 10 * (PlaceOf(s.queue, t) + 1)
    decreases |schedule|
  {
    WaitingIsQueued(s, t);
    RanksBound(s, UpTo(s, t));
    if schedule != [] {
      var u := schedule[0];
      var r := Step(true, s, u);
      StepKeepsInv(s, u);
      if IsWaiting(r, t) {
        WaitIsBounded(r, schedule[1..], t);
        if u < |s.pcs| {
          StepLowers(s, u, t);
        }
      } else if u in UpTo(s, t) {
        WaiterHasRank(s, t);
      }
    }
  }

  /** A release hands the lock over within 15 such steps of the two threads concerned. */
  lemma {:induction false} HandOffIsBounded(s: State, schedule: seq<nat>, t: nat)
    requires Inv(s) && IsWaiting(s, t) && |s.queue| > 1 && s.queue[1] == t && s.pcs[s.queue[0]].TestNext?
    ensures Moves(s, schedule, t) <= 15
  {
    WaitIsBounded(s, schedule, t);
    var a := UpTo(s, t);
    assert PlaceOf(s.queue, t) == 1;
    assert a == [s.queue[0], t];
    assert Ranks(s, a) == RankOf(s, s.queue[0]) + Ranks(s, a[1..]);
    assert Ranks(s, a[1..]) == RankOf(s, t) + Ranks(s, a[1..][1..]);
  }

  lemma {:induction false} WaiterHasRank(s: State, t: nat)
    requires Inv(s) && IsWaiting(s, t) && t in s.queue
    ensures Ranks(s, UpTo(s, t)) > 0
  {
    FrontHasRank(s);
    assert UpTo(s, t)[0] == s.queue[0];
  }

  // ---------- one thread's own way through acquire and release ----------

  /** n steps of thread t. */
  function Alone(t: nat, n: nat): (r: seq<nat>)
    ensures |r| == n
  {
    if n == 0 then [] else Alone(t, n - 1) + [t]
  }

  lemma {:induction false} RunAlone(lockedFirst: bool, s: State, t: nat, n: nat)
    requires Shape(s)
    ensures n == 0 ==> Run(lockedFirst, s, Alone(t, n)) == s
    ensures n > 0 ==> Run(lockedFirst, s, Alone(t, n)) == Step(lockedFirst, Run(lockedFirst, s, Alone(t, n - 1)), t)
  {
    if n > 0 {
      assert Alone(t, n)[..n - 1] == Alone(t, n - 1);
    }
  }

  lemma {:induction false} RunAlone4(lockedFirst: bool, s: State, t: nat)
    requires Shape(s)
    ensures var s1 := Step(lockedFirst, s, t);
            Shape(s1) && var s2 := Step(lockedFirst, s1, t);
            Shape(s2) && var s3 := Step(lockedFirst, s2, t);
            Shape(s3) && Run(lockedFirst, s, Alone(t, 1)) == s1 && Run(lockedFirst, s, Alone(t, 3)) == s3
            && Run(lockedFirst, s, Alone(t, 4)) == Step(lockedFirst, s3, t)
  {
    RunAlone(lockedFirst, s, t, 0);
    RunAlone(lockedFirst, s, t, 1);
    RunAlone(lockedFirst, s, t, 2);
    RunAlone(lockedFirst, s, t, 3);
    RunAlone(lockedFirst, s, t, 4);
  }

  /** On a free lock, acquire is the clearing of next and the exchange, and no lock flag is written. */
  lemma {:induction false} AcquireFree(s: State, t: nat)
    requires Shape(s) && t < |s.pcs| && s.pcs[t].Idle? && !s.locked[t] && s.head.None?
    ensures var r := Run(true, s, Alone(t, 3));
            && r.pcs == s.pcs[t := Critical] && r.head == Some(t)
            && r.next == s.next[t := None] && r.locked == s.locked
  {
    RunAlone4(true, s, t);
  }

  /** Behind another thread p, it marks itself locked, links itself behind p and spins. */
  lemma {:induction false} AcquireBehind(s: State, t: nat, p: nat)
    requires Shape(s) && t < |s.pcs| && p < |s.pcs| && p != t && s.pcs[t].Idle? && !s.locked[t] && s.head == Some(p)
    ensures var r := Run(true, s, Alone(t, 5));
            && r.pcs == s.pcs[t := Spin] && r.head == Some(t)
            && r.next == s.next[t := None][p := Some(t)] && r.locked == s.locked[t := true]
            && Step(true, r, t) == r
  {
    RunAlone4(true, s, t);
    RunAlone(true, s, t, 5);
    var r := Run(true, s, Alone(t, 4));
    assert r.pcs == s.pcs[t := SetNext(p)] && r.next == s.next[t := None] && r.locked == s.locked[t := true];
  }

  /** Nobody queued behind: the test of next, and the compare-and-swap that frees the lock. */
  lemma {:induction false} ReleaseAlone(s: State, t: nat)
    requires Shape(s) && t < |s.pcs| && s.pcs[t].Critical? && s.next[t].None? && s.head == Some(t)
    ensures var r := Run(true, s, Alone(t, 3));
            r.pcs == s.pcs[t := Idle] && r.head == None && r.next == s.next && r.locked == s.locked
  {
    RunAlone4(true, s, t);
  }

  /** A successor u already linked: its lock flag is cleared, without a compare-and-swap. */
  lemma {:induction false} ReleaseToSuccessor(s: State, t: nat, u: nat)
    requires Shape(s) && t < |s.pcs| && u < |s.pcs| && s.pcs[t].Critical? && s.next[t] == Some(u)
    ensures var r := Run(true, s, Alone(t, 4));
            r.pcs == s.pcs[t := Idle] && r.head == s.head && r.next == s.next && r.locked == s.locked[u := false]
  {
    RunAlone4(true, s, t);
  }

  /** Somebody has exchanged but not linked itself yet: the compare-and-swap fails, and the thread waits for
      the link, changing nothing. */
  lemma {:induction false} ReleaseWaitsForLink(s: State, t: nat)
    requires Shape(s) && t < |s.pcs| && s.pcs[t].Critical? && s.next[t].None? && s.head != Some(t)
    ensures var r := Run(true, s, Alone(t, 3)); r == Move(s, t, AwaitNext) && Step(true, r, t) == r
  {
    RunAlone4(true, s, t);
  }

  // ---------- the order of the two writes ----------

  /** The schedule the source's comment warns of: thread 0 acquires, thread 1 links itself in behind it,
      thread 0 releases, and only then does thread 1 mark itself locked. */
  function LostHandOff(): seq<nat> {
    Alone(0, 3) + Alone(1, 4) + Alone(0, 4) + Alone(1, 1)
  }

  /** Thread 1 spins, and thread 0 is outside or lines up behind it. */
  ghost predicate Stuck(s: State) {
    && Shape(s) && |s.pcs| == 2 && s.pcs[1] == Spin && s.locked[1]
    && match s.pcs[0]
       case Idle => s.head == Some(1) && !s.locked[0]
       case ClearNext => s.head == Some(1)
       case Exchange => s.head == Some(1)
       case SetNext(prev) => prev == 1
       case SetLocked(prev) => true
       case Spin => s.locked[0]
       case _ => false
  }

  lemma {:induction false} StuckStep(s: State, t: nat)
    requires Stuck(s)
    ensures Stuck(Step(false, s, t))
  {
  }

  lemma {:induction false} StuckForever(s: State, schedule: seq<nat>)
    requires Stuck(s)
    ensures Stuck(Run(false, s, schedule))
  {
    if schedule != [] {
      StuckForever(s, schedule[..|schedule| - 1]);
      StuckStep(Run(false, s, schedule[..|schedule| - 1]), schedule[|schedule| - 1]);
    }
  }

  lemma {:induction false} RunConcat(lockedFirst: bool, s: State, a: seq<nat>, b: seq<nat>)
    requires Shape(s)
    ensures Run(lockedFirst, s, a + b) == Run(lockedFirst, Run(lockedFirst, s, a), b)
  {
    if b == [] {
      assert a + b == a;
    } else {
      RunConcat(lockedFirst, s, a, b[..|b| - 1]);
      ConcatInit(a, b);
    }
  }

  /** A state of two threads with the lock in these hands. */
  predicate At(s: State, head: nat, pcs: seq<Pc>, next: seq<Option<nat>>) {
    s.head == Some(head) && s.pcs == pcs && s.next == next && s.locked == [false, false]
  }

  lemma {:induction false} TwoThreads()
    ensures Initial(2) == State(None, [None, None], [false, false], [Idle, Idle], [], [], [])
  {
  }

  lemma {:induction false} FirstAcquires(s: State)
    requires s == State(None, [None, None], [false, false], [Idle, Idle], [], [], [])
    ensures Shape(s) && At(Run(false, s, Alone(0, 3)), 0, [Critical, Idle], [None, None])
  {
    RunAlone4(false, s, 0);
  }

  lemma {:induction false} SecondLinks(s: State)
    requires At(s, 0, [Critical, Idle], [None, None])
    ensures Shape(s) && At(Run(false, s, Alone(1, 4)), 1, [Critical, SetLocked(0)], [Some(1), None])
  {
    RunAlone4(false, s, 1);
  }

  lemma {:induction false} FirstReleases(s: State)
    requires At(s, 1, [Critical, SetLocked(0)], [Some(1), None])
    ensures Shape(s) && At(Run(false, s, Alone(0, 4)), 1, [Idle, SetLocked(0)], [Some(1), None])
  {
    RunAlone4(false, s, 0);
  }

  lemma {:induction false} SecondLocks(s: State)
    requires At(s, 1, [Idle, SetLocked(0)], [Some(1), None])
    ensures Shape(s) && Stuck(Run(false, s, Alone(1, 1)))
  {
    RunAlone4(false, s, 1);
  }

  lemma {:induction false} RunOfLostHandOff()
    ensures Stuck(Run(false, Initial(2), LostHandOff()))
  {
    var s := Initial(2);
    var a, b, c := Alone(0, 3), Alone(1, 4), Alone(0, 4);
    RunConcat(false, s, a, b);
    RunConcat(false, s, a + b, c);
    RunConcat(false, s, a + b + c, Alone(1, 1));
    TwoThreads();
    FirstAcquires(s);
    SecondLinks(Run(false, s, a));
    FirstReleases(Run(false, s, a + b));
    SecondLocks(Run(false, s, a + b + c));
  }

  /** With the two writes exchanged there is a run of two threads after which, whatever they do next,
      thread 1 spins for ever: the order of the source is needed. */
  lemma {:induction false} OrderMatters(continuation: seq<nat>)
    ensures Stuck(Run(false, Initial(2), LostHandOff() + continuation))
  {
    RunOfLostHandOff();
    RunConcat(false, Initial(2), LostHandOff(), continuation);
    StuckForever(Run(false, Initial(2), LostHandOff()), continuation);
  }
}
