/** tpool.c: rounds of work handed to a pool of threads, one shared access per step, any schedule. The
    increment of num_workers_done and the read of num_workers after it are two steps. */
module ThreadPool {
  import opened Options

  /** Where the thread that owns the pool stands, from tpool_set to the return of tpool_wait. */
  datatype MainPc =
    | SetFunc
    | SetWorkers
    | SetArg(i: nat)
    | BeginTest
    | ResetDone
    | SetDie(i: nat)
    | PostRun(i: nat)
    | WaitTest
    | AwaitAll
    | Finished

  /** The argument tpool_set gets for one of a round's threads. */
  datatype Arg = Arg(round: nat, slot: nat)

  /** Where a pool thread stands in thread_loop; `leaving` marks the copy of the code after the loop. */
  datatype Pc =
    | AwaitRun
    | CheckDie
    | ReadFunc
    | ReadArg(func: Option<nat>)
    | Call(func: Option<nat>, arg: Option<Arg>)
    | Increment(leaving: bool)
    | Compare(count: nat, leaving: bool)
    | PostAll(leaving: bool)
    | Exited

  /** One call: by which thread, during which round, of which function and on which argument. */
  datatype Called = Called(worker: nat, round: nat, func: Option<nat>, arg: Option<Arg>)

  /** counted, finisher, posts and calls are records of the run that no step reads: who has incremented
      in this round, who found itself last, the round of every post of sem_all_workers_done, and every call. */
  datatype State = State(numWorkers: nat, done: nat, die: bool, func: Option<nat>, args: seq<Option<Arg>>,
                         semRun: seq<nat>, semAll: nat, main: MainPc, round: nat, workers: seq<Pc>,
                         counted: seq<bool>, finisher: Option<nat>, posts: seq<nat>, calls: seq<Called>)

  function AllFalse(n: nat): (r: seq<bool>)
    ensures |r| == n && forall i :: 0 <= i < n ==> !r[i]
  {
    if n == 0 then [] else AllFalse(n - 1) + [false]
  }

  /** After tpool_create(n). */
  function Initial(n: nat): State {
    State(n, 0, false, None, seq(n, _ => None), seq(n, _ => 0), 0, SetFunc, 0, seq(n, _ => AwaitRun),
          AllFalse(n), None, [], [])
  }

  /** The threads a round runs: those tpool_set is called with, and in tpool_destroy, the round after
      the last, all of them. */
  function Workers(rounds: seq<nat>, n: nat, r: nat): nat {
    if r < |rounds| then rounds[r] else n
  }

  ghost predicate Shape(s: State) {
    |s.args| == |s.semRun| == |s.counted| == |s.workers|
  }

  function NextRound(s: State, destroying: bool): State {
    s.(round := s.round + 1, main := if destroying then Finished else SetFunc,
       counted := AllFalse(|s.workers|), finisher := None)
  }

  /** tpool_set, tpool_begin and tpool_wait for each round, whose function is named by the number of the
      round and whose arguments by round and thread; then tpool_destroy. */
  function MainStep(rounds: seq<nat>, s: State): (r: State)
    requires Shape(s)
    ensures Shape(r) && |r.workers| == |s.workers|
  {
    var n, destroying := |s.workers|, s.round >= |rounds|;
    match s.main
    case SetFunc =>
      if destroying then s.(main := SetWorkers) else s.(func := Some(s.round), main := SetWorkers)
    case SetWorkers =>
      s.(numWorkers := Workers(rounds, n, s.round), main := if destroying then ResetDone else SetArg(0))
    case SetArg(i) =>
      if i < Workers(rounds, n, s.round) && i < n then
        s.(args := s.args[i := Some(Arg(s.round, i))], main := SetArg(i + 1))
      else s.(main := BeginTest)
    case BeginTest => s.(main := if s.numWorkers == 0 then WaitTest else ResetDone)
    case ResetDone => s.(done := 0, main := if destroying then SetDie(0) else PostRun(0))
    case SetDie(i) => if i < n then s.(die := true, main := PostRun(i)) else s.(main := AwaitAll)
    case PostRun(i) =>
      if i < s.numWorkers && i < n then
        s.(semRun := s.semRun[i := s.semRun[i] + 1], main := if destroying then SetDie(i + 1) else PostRun(i + 1))
      else s.(main := WaitTest)
    case WaitTest => if s.numWorkers == 0 then NextRound(s, destroying) else s.(main := AwaitAll)
    case AwaitAll => if s.semAll == 0 then s else NextRound(s.(semAll := s.semAll - 1), destroying)
    case Finished => s
  }

  function Goto(s: State, i: nat, pc: Pc): State
    requires i < |s.workers|
  {
    s.(workers := s.workers[i := pc])
  }

  /** thread_loop */
  function WorkerStep(s: State, i: nat): (r: State)
    requires Shape(s) && i < |s.workers|
    ensures Shape(r) && |r.workers| == |s.workers|
  {
    match s.workers[i]
    case AwaitRun => if s.semRun[i] == 0 then s else Goto(s.(semRun := s.semRun[i := s.semRun[i] - 1]), i, CheckDie)
    case CheckDie => Goto(s, i, if s.die then Increment(true) else ReadFunc)
    case ReadFunc => Goto(s, i, ReadArg(s.func))
    case ReadArg(func) => Goto(s, i, Call(func, s.args[i]))
    case Call(func, arg) => Goto(s.(calls := s.calls + [Called(i, s.round, func, arg)]), i, Increment(false))
    case Increment(leaving) =>
      Goto(s.(done := s.done + 1, counted := s.counted[i := true],
              finisher := if s.done + 1 == s.numWorkers then Some(i) else s.finisher),
           i, Compare(s.done + 1, leaving))
    case Compare(count, leaving) =>
      Goto(s, i, if count == s.numWorkers then PostAll(leaving) else if leaving then Exited else AwaitRun)
    case PostAll(leaving) =>
      Goto(s.(semAll := s.semAll + 1, posts := s.posts + [s.round]), i, if leaving then Exited else AwaitRun)
    case Exited => s
  }

  /** Thread number |workers| is the one that owns the pool. */
  function Step(rounds: seq<nat>, s: State, t: nat): (r: State)
    requires Shape(s)
    ensures Shape(r) && |r.workers| == |s.workers|
  {
    if t < |s.workers| then WorkerStep(s, t) else if t == |s.workers| then MainStep(rounds, s) else s
  }

  function Run(rounds: seq<nat>, s: State, schedule: seq<nat>): (r: State)
    requires Shape(s)
    ensures Shape(r) && |r.workers| == |s.workers|
  {
    if schedule == [] then s
    else Step(rounds, Run(rounds, s, schedule[..|schedule| - 1]), schedule[|schedule| - 1])
  }

  // ---------- what a round promises ----------

  /** The calls thread i made during round r. */
  function CallsOf(calls: seq<Called>, i: nat, r: nat): seq<Called> {
    if calls == [] then []
    else
      var last := calls[|calls| - 1];
      CallsOf(calls[..|calls| - 1], i, r) + if last.worker == i && last.round == r then [last] else []
  }

  function PostsOf(posts: seq<nat>, r: nat): nat {
    if posts == [] then 0 else PostsOf(posts[..|posts| - 1], r) + if posts[|posts| - 1] == r then 1 else 0
  }

  /** The call round r is for, on thread i: of the round's function, on the thread's own argument. */
  function OwnCall(i: nat, r: nat): Called {
    Called(i, r, Some(r), Some(Arg(r, i)))
  }

  /** The calls of thread i during round r: its own, if the round runs it, and no other. */
  ghost predicate CallsOk(rounds: seq<nat>, s: State, r: nat, i: nat) {
    CallsOf(s.calls, i, r) == if r < |rounds| && i < rounds[r] then [OwnCall(i, r)] else []
  }

  /** A round that tpool_wait has returned from: sem_all_workers_done was posted once, or never if the
      round is empty, and each of the round's threads has run the round's function exactly once, on its
      own argument, and nothing else. In the round of tpool_destroy no function runs. */
  ghost predicate RoundOk(rounds: seq<nat>, s: State, r: nat) {
    && PostsOf(s.posts, r) == (if Workers(rounds, |s.workers|, r) == 0 then 0 else 1)
    && forall i :: 0 <= i < |s.workers| ==> CallsOk(rounds, s, r, i)
  }

  ghost predicate Safe(rounds: seq<nat>, s: State) {
    forall r :: 0 <= r < s.round ==> RoundOk(rounds, s, r)
  }

  /** No round runs fewer threads than an earlier one, empty rounds aside. */
  ghost predicate NeverFewer(rounds: seq<nat>) {
    forall a, b :: 0 <= a < b < |rounds| && rounds[b] != 0 ==> rounds[a] <= rounds[b]
  }

  ghost predicate Fits(rounds: seq<nat>, n: nat) {
    forall r :: 0 <= r < |rounds| ==> rounds[r] <= n
  }

  // ---------- the invariant ----------

  /** How many threads have been posted in this round. */
  function Posted(s: State): nat {
    match s.main
    case SetDie(i) => i
    case PostRun(i) => i
    case WaitTest => s.numWorkers
    case AwaitAll => s.numWorkers
    case _ => 0
  }

  /** The round is not empty and num_workers_done has been reset for it. */
  predicate Active(s: State) {
    s.numWorkers > 0 && (s.main.SetDie? || s.main.PostRun? || s.main.WaitTest? || s.main.AwaitAll?)
  }

  /** A count that equals neither num_workers now nor the number of threads of any round to come. */
  ghost predicate Harmless(rounds: seq<nat>, s: State, count: nat) {
    && count > 0 && (s.numWorkers == 0 || count < s.numWorkers)
    && forall r :: s.round <= r <= |rounds| ==>
         Workers(rounds, |s.workers|, r) == 0 || count < Workers(rounds, |s.workers|, r)
  }

  /** A thread that has nothing left to do for the rounds so far but, perhaps, its comparison. */
  ghost predicate Resting(rounds: seq<nat>, s: State, pc: Pc) {
    match pc
    case AwaitRun => !s.main.Finished?
    case Exited => s.main.Finished?
    case Compare(count, leaving) => leaving == s.main.Finished? && Harmless(rounds, s, count)
    case _ => false
  }

  /** A thread that has taken its post and not yet incremented. */
  ghost predicate Working(rounds: seq<nat>, s: State, i: nat, pc: Pc)
    requires Shape(s) && i < |s.workers|
  {
    match pc
    case CheckDie => true
    case ReadFunc => s.round < |rounds|
    case ReadArg(func) => s.round < |rounds| && func == Some(s.round)
    case Call(func, arg) => s.round < |rounds| && func == Some(s.round) && arg == Some(Arg(s.round, i))
    case Increment(leaving) => leaving == (s.round >= |rounds|)
    case _ => false
  }

  /** A thread that has incremented in this round. */
  ghost predicate CountedPc(rounds: seq<nat>, s: State, i: nat, pc: Pc) {
    match pc
    case AwaitRun => s.round < |rounds|
    case Exited => s.round >= |rounds|
    case Compare(count, leaving) =>
      && leaving == (s.round >= |rounds|)
      && if s.finisher == Some(i) then count == s.numWorkers else Harmless(rounds, s, count)
    case PostAll(leaving) => leaving == (s.round >= |rounds|) && s.finisher == Some(i)
    case _ => false
  }

  ghost predicate WorkerOk(rounds: seq<nat>, s: State, i: nat)
    requires Shape(s) && i < |s.workers|
  {
    if i >= Posted(s) then !s.counted[i] && s.semRun[i] == 0 && Resting(rounds, s, s.workers[i])
    else if s.counted[i] then s.semRun[i] == 0 && CountedPc(rounds, s, i, s.workers[i])
    else if s.semRun[i] == 1 then Resting(rounds, s, s.workers[i])
    else s.semRun[i] == 0 && Working(rounds, s, i, s.workers[i])
  }

  /** The function has been called for this round. */
  predicate HasCalled(rounds: seq<nat>, s: State, i: nat)
    requires Shape(s) && i < |s.workers|
  {
    s.round < |rounds| && i < Posted(s) && (s.counted[i] || s.workers[i].Increment?)
  }

  function CountTrue(b: seq<bool>): nat {
    if b == [] then 0 else CountTrue(b[..|b| - 1]) + if b[|b| - 1] then 1 else 0
  }

  ghost predicate HasPosted(s: State) {
    s.finisher.Some? && s.finisher.value < |s.workers|
    && !s.workers[s.finisher.value].Compare? && !s.workers[s.finisher.value].PostAll?
  }

  ghost predicate CountsOk(s: State)
    requires Shape(s)
  {
    && (Active(s) ==> s.done == CountTrue(s.counted))
    && (s.finisher.Some? <==> Active(s) && s.done == s.numWorkers)
    && (s.finisher.Some? ==> s.finisher.value < |s.workers| && s.counted[s.finisher.value])
    && s.semAll == (if HasPosted(s) then 1 else 0)
  }

  /** The round's function and its first k arguments are in place. */
  ghost predicate IsSet(rounds: seq<nat>, s: State, k: nat) {
    s.round < |rounds| ==>
      k <= |s.args| && s.func == Some(s.round) && forall i :: 0 <= i < k ==> s.args[i] == Some(Arg(s.round, i))
  }

  ghost predicate MainOk(rounds: seq<nat>, s: State)
    requires Shape(s)
  {
    var n, w := |s.workers|, Workers(rounds, |s.workers|, s.round);
    && s.round <= |rounds| + 1 && (s.round == |rounds| + 1 <==> s.main.Finished?)
    && s.numWorkers <= n
    && (!s.main.SetFunc? && !s.main.SetWorkers? && !s.main.Finished? ==> s.numWorkers == w)
    && (s.die ==> s.round >= |rounds|)
    && Posted(s) <= n
    && match s.main
       case SetWorkers => IsSet(rounds, s, 0)
       case SetArg(i) => s.round < |rounds| && i <= w && IsSet(rounds, s, i)
       case BeginTest => s.round < |rounds| && IsSet(rounds, s, w)
       case ResetDone => (s.round < |rounds| ==> w > 0) && IsSet(rounds, s, w)
       case SetDie(i) => s.round == |rounds| && i <= w && (i > 0 ==> s.die)
       case PostRun(i) => i <= w && w > 0 && (s.round == |rounds| ==> s.die && i < w) && IsSet(rounds, s, w)
       case WaitTest => s.round < |rounds| && IsSet(rounds, s, w)
       case AwaitAll => (if s.round == |rounds| then s.die || w == 0 else w > 0) && IsSet(rounds, s, w)
       case _ => true
  }

  /** The state itself, without the record of the run. */
  ghost predicate StateOk(rounds: seq<nat>, s: State) {
    && Shape(s) && MainOk(rounds, s) && CountsOk(s)
    && forall i :: 0 <= i < |s.workers| ==> WorkerOk(rounds, s, i)
  }

  /** The calls of thread i in this round so far. */
  ghost predicate CallsSoFar(rounds: seq<nat>, s: State, i: nat)
    requires Shape(s) && i < |s.workers|
  {
    CallsOf(s.calls, i, s.round) == if HasCalled(rounds, s, i) then [OwnCall(i, s.round)] else []
  }

  /** Nothing is recorded for a round to come. */
  ghost predicate NothingAhead(s: State) {
    && (forall k :: 0 <= k < |s.posts| ==> s.posts[k] <= s.round)
    && (forall k :: 0 <= k < |s.calls| ==> s.calls[k].round <= s.round)
  }

  /** The record of the rounds that are over, of this round so far, and of the rounds to come. */
  ghost predicate RecordOk(rounds: seq<nat>, s: State)
    requires Shape(s)
  {
    && Safe(rounds, s) && NothingAhead(s)
    && PostsOf(s.posts, s.round) == (if HasPosted(s) then 1 else 0)
    && forall i :: 0 <= i < |s.workers| ==> CallsSoFar(rounds, s, i)
  }

  ghost predicate Inv(rounds: seq<nat>, s: State) {
    StateOk(rounds, s) && RecordOk(rounds, s)
  }

  // ---------- records and counts ----------

  lemma {:induction false} CallsSnoc(calls: seq<Called>, c: Called, i: nat, r: nat)
    ensures CallsOf(calls + [c], i, r)
         == CallsOf(calls, i, r) + if c.worker == i && c.round == r then [c] else []
  {
    assert (calls + [c])[..|calls|] == calls;
  }

  lemma {:induction false} PostsSnoc(posts: seq<nat>, p: nat, r: nat)
    ensures PostsOf(posts + [p], r) == PostsOf(posts, r) + if p == r then 1 else 0
  {
    assert (posts + [p])[..|posts|] == posts;
  }

  lemma {:induction false} NoCallsYet(calls: seq<Called>, i: nat, r: nat)
    requires forall k :: 0 <= k < |calls| ==> calls[k].round < r
    ensures CallsOf(calls, i, r) == []
  {
    if calls != [] {
      NoCallsYet(calls[..|calls| - 1], i, r);
    }
  }

  lemma {:induction false} NoPostsYet(posts: seq<nat>, r: nat)
    requires forall k :: 0 <= k < |posts| ==> posts[k] < r
    ensures PostsOf(posts, r) == 0
  {
    if posts != [] {
      NoPostsYet(posts[..|posts| - 1], r);
    }
  }

  lemma {:induction false} CountTrueSet(b: seq<bool>, i: nat)
    requires i < |b| && !b[i]
    ensures CountTrue(b[i := true]) == CountTrue(b) + 1
  {
    var n := |b| - 1;
    if i == n {
      assert b[i := true][..n] == b[..n];
    } else {
      CountTrueSet(b[..n], i);
      assert b[i := true][..n] == b[..n][i := true];
    }
  }

  /** When only the first p can be counted, a full count means all of them are. */
  lemma {:induction false} CountTrueBelow(b: seq<bool>, p: nat)
    requires forall i :: p <= i < |b| ==> !b[i]
    ensures CountTrue(b) <= p && CountTrue(b) <= |b|
    ensures CountTrue(b) == p ==> forall i :: 0 <= i < p && i < |b| ==> b[i]
  {
    if b != [] {
      var n := |b| - 1;
      CountTrueBelow(b[..n], if p < n then p else n);
      if p > n {
        CountTrueBelow(b[..n], n);
      }
    }
  }

  lemma {:induction false} CountAllFalse(n: nat)
    ensures CountTrue(AllFalse(n)) == 0
  {
    CountTrueBelow(AllFalse(n), 0);
  }

  // ---------- every step of a pool thread keeps the invariant ----------

  /** r differs from s, as far as the other threads can tell, only in what thread i did. */
  ghost predicate OnlyThread(s: State, r: State, i: nat)
    requires Shape(s)
  {
    && Shape(r) && |r.workers| == |s.workers|
    && r.numWorkers == s.numWorkers && r.die == s.die && r.main == s.main && r.round == s.round
    && r.func == s.func && r.args == s.args
    && (r.finisher == s.finisher || (s.finisher.None? && r.finisher == Some(i)))
    && forall j :: 0 <= j < |s.workers| && j != i ==>
         r.workers[j] == s.workers[j] && r.semRun[j] == s.semRun[j] && r.counted[j] == s.counted[j]
  }

  lemma {:induction false} OthersKeep(rounds: seq<nat>, s: State, r: State, i: nat)
    requires Shape(s) && OnlyThread(s, r, i) && MainOk(rounds, s)
    requires forall j :: 0 <= j < |s.workers| ==> WorkerOk(rounds, s, j)
    ensures forall j :: 0 <= j < |s.workers| && j != i ==> WorkerOk(rounds, r, j)
    ensures MainOk(rounds, r) && Posted(r) == Posted(s)
    ensures forall j :: 0 <= j < |s.workers| && j != i ==> HasCalled(rounds, r, j) == HasCalled(rounds, s, j)
  {
    forall j | 0 <= j < |s.workers| && j != i
      ensures WorkerOk(rounds, r, j)
    {
      assert WorkerOk(rounds, s, j);
    }
  }

  /** What holds of the rounds that are over does not change when the record of this round grows. */
  lemma {:induction false} PastKeeps(rounds: seq<nat>, s: State, r: State)
    requires Safe(rounds, s) && |r.workers| == |s.workers| && r.round == s.round
    requires forall p :: 0 <= p < s.round ==> PostsOf(r.posts, p) == PostsOf(s.posts, p)
    requires forall i, p :: 0 <= i < |s.workers| && 0 <= p < s.round ==>
             CallsOf(r.calls, i, p) == CallsOf(s.calls, i, p)
    ensures Safe(rounds, r)
  {
    forall p | 0 <= p < s.round
      ensures RoundOk(rounds, r, p)
    {
      assert RoundOk(rounds, s, p);
      forall i | 0 <= i < |s.workers|
        ensures CallsOk(rounds, r, p, i)
      {
        assert CallsOk(rounds, s, p, i);
      }
    }
  }

  /** Steps that call nothing and post nothing leave the record as it is. */
  lemma {:induction false} RecordKeeps(rounds: seq<nat>, s: State, r: State)
    requires Shape(s) && RecordOk(rounds, s) && Shape(r) && |r.workers| == |s.workers| && r.round == s.round
    requires r.posts == s.posts && r.calls == s.calls && HasPosted(r) == HasPosted(s)
    requires forall i :: 0 <= i < |s.workers| ==> HasCalled(rounds, r, i) == HasCalled(rounds, s, i)
    ensures RecordOk(rounds, r)
  {
    PastKeeps(rounds, s, r);
    forall i | 0 <= i < |s.workers|
      ensures CallsSoFar(rounds, r, i)
    {
      assert CallsSoFar(rounds, s, i);
    }
  }

  /** A step that neither calls, nor increments, nor posts. */
  predicate IsQuiet(pc: Pc) {
    pc.AwaitRun? || pc.CheckDie? || pc.ReadFunc? || pc.ReadArg? || pc.Compare? || pc.Exited?
  }

  /** A thread on its way to its call. */
  lemma {:induction false} UncountedThread(rounds: seq<nat>, s: State, i: nat)
    requires Shape(s) && MainOk(rounds, s) && CountsOk(s) && i < |s.workers| && WorkerOk(rounds, s, i)
    requires IsQuiet(s.workers[i]) && !s.workers[i].Compare?
    ensures var r := WorkerStep(s, i);
            && OnlyThread(s, r, i) && WorkerOk(rounds, r, i)
            && HasPosted(r) == HasPosted(s) && HasCalled(rounds, r, i) == HasCalled(rounds, s, i)
  {
  }

  lemma {:induction false} ComparingThread(rounds: seq<nat>, s: State, i: nat)
    requires Shape(s) && MainOk(rounds, s) && CountsOk(s) && i < |s.workers| && WorkerOk(rounds, s, i)
    requires s.workers[i].Compare?
    ensures var r := WorkerStep(s, i);
            && OnlyThread(s, r, i) && WorkerOk(rounds, r, i)
            && HasPosted(r) == HasPosted(s) && HasCalled(rounds, r, i) == HasCalled(rounds, s, i)
  {
  }

  lemma {:induction false} QuietStep(rounds: seq<nat>, s: State, i: nat)
    requires StateOk(rounds, s) && i < |s.workers| && IsQuiet(s.workers[i])
    ensures var r := WorkerStep(s, i);
            && StateOk(rounds, r) && HasPosted(r) == HasPosted(s)
            && forall j :: 0 <= j < |s.workers| ==> HasCalled(rounds, r, j) == HasCalled(rounds, s, j)
  {
    assert WorkerOk(rounds, s, i);
    if s.workers[i].Compare? {
      ComparingThread(rounds, s, i);
    } else {
      UncountedThread(rounds, s, i);
    }
    OthersKeep(rounds, s, WorkerStep(s, i), i);
  }

  lemma {:induction false} CallStep(rounds: seq<nat>, s: State, i: nat)
    requires StateOk(rounds, s) && i < |s.workers| && s.workers[i].Call?
    ensures var r := WorkerStep(s, i);
            && StateOk(rounds, r) && HasPosted(r) == HasPosted(s)
            && r.calls == s.calls + [OwnCall(i, s.round)]
            && !HasCalled(rounds, s, i) && HasCalled(rounds, r, i)
            && forall j :: 0 <= j < |s.workers| && j != i ==> HasCalled(rounds, r, j) == HasCalled(rounds, s, j)
  {
    var r := WorkerStep(s, i);
    assert WorkerOk(rounds, s, i);
    OthersKeep(rounds, s, r, i);
    assert WorkerOk(rounds, r, i);
  }

  lemma {:induction false} CallRecord(rounds: seq<nat>, s: State, r: State, i: nat)
    requires Shape(s) && RecordOk(rounds, s) && Shape(r) && |r.workers| == |s.workers| && r.round == s.round
    requires i < |s.workers| && r.calls == s.calls + [OwnCall(i, s.round)] && r.posts == s.posts
    requires HasPosted(r) == HasPosted(s) && !HasCalled(rounds, s, i) && HasCalled(rounds, r, i)
    requires forall j :: 0 <= j < |s.workers| && j != i ==> HasCalled(rounds, r, j) == HasCalled(rounds, s, j)
    ensures RecordOk(rounds, r)
  {
    forall j, p | 0 <= j < |s.workers| && 0 <= p < s.round
      ensures CallsOf(r.calls, j, p) == CallsOf(s.calls, j, p)
    {
      CallsSnoc(s.calls, OwnCall(i, s.round), j, p);
    }
    PastKeeps(rounds, s, r);
    forall j | 0 <= j < |s.workers|
      ensures CallsSoFar(rounds, r, j)
    {
      CallsSnoc(s.calls, OwnCall(i, s.round), j, s.round);
      assert CallsSoFar(rounds, s, j);
    }
  }

  /** A count below that of its own round is below that of every later round, if none runs fewer. */
  lemma {:induction false} CountIsHarmless(rounds: seq<nat>, s: State, count: nat)
    requires Shape(s) && MainOk(rounds, s) && NeverFewer(rounds) && Fits(rounds, |s.workers|)
    requires s.round <= |rounds| && s.numWorkers == Workers(rounds, |s.workers|, s.round) && 0 < count < s.numWorkers
    ensures Harmless(rounds, s, count)
  {
  }

  lemma {:induction false} IncrementStep(rounds: seq<nat>, s: State, i: nat)
    requires StateOk(rounds, s) && NeverFewer(rounds) && Fits(rounds, |s.workers|)
    requires i < |s.workers| && s.workers[i].Increment?
    ensures var r := WorkerStep(s, i);
            && StateOk(rounds, r) && HasPosted(r) == HasPosted(s)
            && forall j :: 0 <= j < |s.workers| ==> HasCalled(rounds, r, j) == HasCalled(rounds, s, j)
  {
    var r := WorkerStep(s, i);
    assert WorkerOk(rounds, s, i);
    CountTrueSet(s.counted, i);
    forall j | Posted(s) <= j < |s.workers|
      ensures !r.counted[j]
    {
      assert WorkerOk(rounds, s, j);
    }
    CountTrueBelow(r.counted, Posted(s));
    OthersKeep(rounds, s, r, i);
    if s.done + 1 < s.numWorkers {
      CountIsHarmless(rounds, r, s.done + 1);
    }
    assert WorkerOk(rounds, r, i);
  }

  lemma {:induction false} PostStep(rounds: seq<nat>, s: State, i: nat)
    requires StateOk(rounds, s) && i < |s.workers| && s.workers[i].PostAll?
    ensures var r := WorkerStep(s, i);
            && StateOk(rounds, r) && !HasPosted(s) && HasPosted(r) && r.posts == s.posts + [s.round]
            && forall j :: 0 <= j < |s.workers| ==> HasCalled(rounds, r, j) == HasCalled(rounds, s, j)
  {
    var r := WorkerStep(s, i);
    assert WorkerOk(rounds, s, i);
    OthersKeep(rounds, s, r, i);
    assert WorkerOk(rounds, r, i);
  }

  lemma {:induction false} PostRecord(rounds: seq<nat>, s: State, r: State)
    requires Shape(s) && RecordOk(rounds, s) && Shape(r) && |r.workers| == |s.workers| && r.round == s.round
    requires r.calls == s.calls && r.posts == s.posts + [s.round] && !HasPosted(s) && HasPosted(r)
    requires forall j :: 0 <= j < |s.workers| ==> HasCalled(rounds, r, j) == HasCalled(rounds, s, j)
    ensures RecordOk(rounds, r)
  {
    forall p: nat
      ensures PostsOf(r.posts, p) == PostsOf(s.posts, p) + if p == s.round then 1 else 0
    {
      PostsSnoc(s.posts, s.round, p);
    }
    PastKeeps(rounds, s, r);
    forall j | 0 <= j < |s.workers|
      ensures CallsSoFar(rounds, r, j)
    {
      assert CallsSoFar(rounds, s, j);
    }
  }

  lemma {:induction false} CallKeepsInv(rounds: seq<nat>, s: State, i: nat)
    requires Inv(rounds, s) && i < |s.workers| && s.workers[i].Call?
    ensures Inv(rounds, WorkerStep(s, i))
  {
    CallStep(rounds, s, i);
    CallRecord(rounds, s, WorkerStep(s, i), i);
  }

  lemma {:induction false} PostKeepsInv(rounds: seq<nat>, s: State, i: nat)
    requires Inv(rounds, s) && i < |s.workers| && s.workers[i].PostAll?
    ensures Inv(rounds, WorkerStep(s, i))
  {
    PostStep(rounds, s, i);
    PostRecord(rounds, s, WorkerStep(s, i));
  }

  lemma {:induction false} WorkerStepKeepsInv(rounds: seq<nat>, s: State, i: nat)
    requires Inv(rounds, s) && NeverFewer(rounds) && Fits(rounds, |s.workers|) && i < |s.workers|
    ensures Inv(rounds, WorkerStep(s, i))
  {
    match s.workers[i]
    case Call(_, _) => CallKeepsInv(rounds, s, i);
    case PostAll(_) => PostKeepsInv(rounds, s, i);
    case Increment(_) =>
      IncrementStep(rounds, s, i);
      RecordKeeps(rounds, s, WorkerStep(s, i));
    case _ =>
      QuietStep(rounds, s, i);
      RecordKeeps(rounds, s, WorkerStep(s, i));
  }

  // ---------- every step of the owner keeps the invariant ----------

  /** A step of the owner that does not end a round. */
  predicate IsWithinRound(s: State) {
    !s.main.AwaitAll? && !(s.main.WaitTest? && s.numWorkers == 0)
  }

  lemma {:induction false} OwnerKeepsMain(rounds: seq<nat>, s: State)
    requires Shape(s) && MainOk(rounds, s) && Fits(rounds, |s.workers|) && IsWithinRound(s)
    ensures MainOk(rounds, MainStep(rounds, s))
  {
  }

  /** A thread that has not been posted has not been counted, and keeps resting while the round is set up. */
  lemma {:induction false} SetupKeepsThread(rounds: seq<nat>, s: State, i: nat)
    requires Shape(s) && MainOk(rounds, s) && Fits(rounds, |s.workers|) && i < |s.workers| && WorkerOk(rounds, s, i)
    requires s.main.SetFunc? || s.main.SetWorkers? || s.main.SetArg? || s.main.BeginTest? || s.main.ResetDone?
    ensures var r := MainStep(rounds, s);
            WorkerOk(rounds, r, i) && !HasCalled(rounds, s, i) && !HasCalled(rounds, r, i) && !s.counted[i]
  {
  }

  lemma {:induction false} RunKeepsThread(rounds: seq<nat>, s: State, i: nat)
    requires Shape(s) && MainOk(rounds, s) && i < |s.workers| && WorkerOk(rounds, s, i)
    requires s.main.SetDie? || s.main.PostRun? || (s.main.WaitTest? && s.numWorkers > 0) || s.main.Finished?
    ensures var r := MainStep(rounds, s);
            WorkerOk(rounds, r, i) && HasCalled(rounds, r, i) == HasCalled(rounds, s, i)
  {
  }

  lemma {:induction false} SetupStep(rounds: seq<nat>, s: State)
    requires StateOk(rounds, s) && Fits(rounds, |s.workers|)
    requires s.main.SetFunc? || s.main.SetWorkers? || s.main.SetArg? || s.main.BeginTest? || s.main.ResetDone?
    ensures var r := MainStep(rounds, s);
            && StateOk(rounds, r) && HasPosted(r) == HasPosted(s)
            && forall i :: 0 <= i < |s.workers| ==> HasCalled(rounds, r, i) == HasCalled(rounds, s, i)
  {
    var r := MainStep(rounds, s);
    OwnerKeepsMain(rounds, s);
    forall i | 0 <= i < |s.workers|
      ensures WorkerOk(rounds, r, i) && !HasCalled(rounds, s, i) && !HasCalled(rounds, r, i) && !s.counted[i]
    {
      assert WorkerOk(rounds, s, i);
      SetupKeepsThread(rounds, s, i);
    }
    CountTrueBelow(s.counted, 0);
  }

  lemma {:induction false} RunStep(rounds: seq<nat>, s: State)
    requires StateOk(rounds, s) && Fits(rounds, |s.workers|)
    requires s.main.SetDie? || s.main.PostRun? || (s.main.WaitTest? && s.numWorkers > 0) || s.main.Finished?
    ensures var r := MainStep(rounds, s);
            && StateOk(rounds, r) && HasPosted(r) == HasPosted(s)
            && forall i :: 0 <= i < |s.workers| ==> HasCalled(rounds, r, i) == HasCalled(rounds, s, i)
  {
    var r := MainStep(rounds, s);
    OwnerKeepsMain(rounds, s);
    forall i | 0 <= i < |s.workers|
      ensures WorkerOk(rounds, r, i) && HasCalled(rounds, r, i) == HasCalled(rounds, s, i)
    {
      assert WorkerOk(rounds, s, i);
      RunKeepsThread(rounds, s, i);
    }
  }

  lemma {:induction false} WithinRoundStep(rounds: seq<nat>, s: State)
    requires StateOk(rounds, s) && Fits(rounds, |s.workers|) && IsWithinRound(s)
    ensures var r := MainStep(rounds, s);
            && StateOk(rounds, r) && HasPosted(r) == HasPosted(s)
            && forall i :: 0 <= i < |s.workers| ==> HasCalled(rounds, r, i) == HasCalled(rounds, s, i)
  {
    match s.main
    case SetDie(_) => RunStep(rounds, s);
    case PostRun(_) => RunStep(rounds, s);
    case WaitTest => RunStep(rounds, s);
    case Finished => RunStep(rounds, s);
    case _ => SetupStep(rounds, s);
  }

  /** The record when a round is over. */
  lemma {:induction false} NextRecord(rounds: seq<nat>, s: State, r: State)
    requires Shape(s) && RecordOk(rounds, s) && Shape(r) && |r.workers| == |s.workers|
    requires r.round == s.round + 1 && r.posts == s.posts && r.calls == s.calls
    requires HasPosted(s) <==> Workers(rounds, |s.workers|, s.round) > 0
    requires forall i :: 0 <= i < |s.workers| ==> HasCalled(rounds, s, i) == (s.round < |rounds| && i < rounds[s.round])
    requires !HasPosted(r) && forall i :: 0 <= i < |s.workers| ==> !HasCalled(rounds, r, i)
    ensures RecordOk(rounds, r)
  {
    NoPostsYet(r.posts, r.round);
    forall i | 0 <= i < |s.workers|
      ensures CallsOk(rounds, r, s.round, i) && CallsSoFar(rounds, r, i)
    {
      assert CallsSoFar(rounds, s, i);
      NoCallsYet(r.calls, i, r.round);
    }
    assert RoundOk(rounds, r, s.round);
    forall p | 0 <= p < s.round
      ensures RoundOk(rounds, r, p)
    {
      PastRound(rounds, s, r, p);
    }
  }

  lemma {:induction false} PastRound(rounds: seq<nat>, s: State, r: State, p: nat)
    requires RoundOk(rounds, s, p) && |r.workers| == |s.workers| && r.posts == s.posts && r.calls == s.calls
    ensures RoundOk(rounds, r, p)
  {
    forall i | 0 <= i < |s.workers|
      ensures CallsOk(rounds, r, p, i)
    {
      assert CallsOk(rounds, s, p, i);
    }
  }

  lemma {:induction false} EmptyRoundStep(rounds: seq<nat>, s: State)
    requires Inv(rounds, s) && s.main.WaitTest? && s.numWorkers == 0
    ensures Inv(rounds, MainStep(rounds, s))
  {
    var r := MainStep(rounds, s);
    CountAllFalse(|s.workers|);
    forall i | 0 <= i < |s.workers|
      ensures WorkerOk(rounds, r, i) && !HasCalled(rounds, r, i)
    {
      assert WorkerOk(rounds, s, i);
    }
    NextRecord(rounds, s, r);
  }

  /** When sem_all_workers_done has been posted, every thread of the round has been counted. */
  lemma {:induction false} PostMeansAllCounted(rounds: seq<nat>, s: State)
    requires StateOk(rounds, s) && s.main.AwaitAll? && s.semAll > 0
    ensures HasPosted(s) && s.numWorkers > 0 && forall i :: 0 <= i < |s.workers| ==> s.counted[i] == (i < s.numWorkers)
  {
    forall i | s.numWorkers <= i < |s.workers|
      ensures !s.counted[i]
    {
      assert WorkerOk(rounds, s, i);
    }
    CountTrueBelow(s.counted, s.numWorkers);
  }

  /** A thread that has been counted has nothing left to do but, perhaps, its comparison. */
  lemma {:induction false} CountedKeepsThread(rounds: seq<nat>, s: State, i: nat)
    requires Shape(s) && MainOk(rounds, s) && i < |s.workers| && WorkerOk(rounds, s, i)
    requires s.main.AwaitAll? && s.semAll > 0 && s.numWorkers > 0 && s.counted[i] == (i < s.numWorkers) && HasPosted(s)
    ensures WorkerOk(rounds, MainStep(rounds, s), i)
            && HasCalled(rounds, s, i) == (s.round < |rounds| && i < rounds[s.round])
  {
  }

  lemma {:induction false} NextRoundOk(rounds: seq<nat>, s: State)
    requires Shape(s) && MainOk(rounds, s) && CountsOk(s) && s.main.AwaitAll? && s.semAll > 0
    ensures var r := MainStep(rounds, s); MainOk(rounds, r) && CountsOk(r)
  {
    CountAllFalse(|s.workers|);
  }

  lemma {:induction false} AwaitStepState(rounds: seq<nat>, s: State)
    requires StateOk(rounds, s) && s.main.AwaitAll? && s.semAll > 0
    ensures StateOk(rounds, MainStep(rounds, s))
    ensures forall i :: 0 <= i < |s.workers| ==> HasCalled(rounds, s, i) == (s.round < |rounds| && i < rounds[s.round])
  {
    var r := MainStep(rounds, s);
    PostMeansAllCounted(rounds, s);
    NextRoundOk(rounds, s);
    forall i | 0 <= i < |s.workers|
      ensures WorkerOk(rounds, r, i) && HasCalled(rounds, s, i) == (s.round < |rounds| && i < rounds[s.round])
    {
      assert WorkerOk(rounds, s, i);
      CountedKeepsThread(rounds, s, i);
    }
  }

  lemma {:induction false} AwaitStep(rounds: seq<nat>, s: State)
    requires Inv(rounds, s) && s.main.AwaitAll? && s.semAll > 0
    ensures Inv(rounds, MainStep(rounds, s))
  {
    AwaitStepState(rounds, s);
    PostMeansAllCounted(rounds, s);
    NextRecord(rounds, s, MainStep(rounds, s));
  }

  lemma {:induction false} StepKeepsInv(rounds: seq<nat>, s: State, t: nat)
    requires Inv(rounds, s) && NeverFewer(rounds) && Fits(rounds, |s.workers|)
    ensures Inv(rounds, Step(rounds, s, t))
  {
    if t < |s.workers| {
      WorkerStepKeepsInv(rounds, s, t);
    } else if t == |s.workers| {
      if s.main.AwaitAll? {
        if s.semAll > 0 {
          AwaitStep(rounds, s);
        }
      } else if s.main.WaitTest? && s.numWorkers == 0 {
        EmptyRoundStep(rounds, s);
      } else {
        WithinRoundStep(rounds, s);
        RecordKeeps(rounds, s, MainStep(rounds, s));
      }
    }
  }

  lemma {:induction false} InitialInv(rounds: seq<nat>, n: nat)
    ensures Inv(rounds, Initial(n))
  {
    var s := Initial(n);
    forall i | 0 <= i < n
      ensures WorkerOk(rounds, s, i)
    {
    }
  }

  /** If no round runs fewer threads than an earlier one, every state of every run is safe. */
  lemma {:induction false} NeverFewerIsSafe(rounds: seq<nat>, n: nat, schedule: seq<nat>)
    requires Fits(rounds, n) && NeverFewer(rounds)
    ensures Inv(rounds, Run(rounds, Initial(n), schedule)) && Safe(rounds, Run(rounds, Initial(n), schedule))
  {
    if schedule == [] {
      InitialInv(rounds, n);
    } else {
      var init := schedule[..|schedule| - 1];
      NeverFewerIsSafe(rounds, n, init);
      StepKeepsInv(rounds, Run(rounds, Initial(n), init), schedule[|schedule| - 1]);
    }
  }

  /** The wait ends: while the owner waits, some pool thread has a step to take. */
  lemma {:induction false} WaitIsServed(rounds: seq<nat>, s: State) returns (i: nat)
    requires StateOk(rounds, s) && s.main.AwaitAll? && s.semAll == 0 && |s.workers| > 0
    ensures i < |s.workers| && WorkerStep(s, i) != s
  {
    if s.finisher.Some? {
      i := s.finisher.value;
      assert WorkerOk(rounds, s, i);
    } else {
      if forall j :: 0 <= j < s.numWorkers ==> s.counted[j] {
        AllCounted(s.counted, s.numWorkers);
        forall j | s.numWorkers <= j < |s.workers|
          ensures !s.counted[j]
        {
          assert WorkerOk(rounds, s, j);
        }
        CountTrueBelow(s.counted, s.numWorkers);
        assert false;
      }
      i :| 0 <= i < s.numWorkers && !s.counted[i];
      assert WorkerOk(rounds, s, i);
    }
  }

  /** When tpool_destroy returns, every thread of the pool has left its loop for good. */
  lemma {:induction false} DestroyStopsAll(rounds: seq<nat>, n: nat, schedule: seq<nat>, i: nat)
    requires Fits(rounds, n) && NeverFewer(rounds) && i < n
    requires Run(rounds, Initial(n), schedule).main.Finished?
    ensures var s := Run(rounds, Initial(n), schedule);
            && s.round == |rounds| + 1
            && (s.workers[i].Exited? || (s.workers[i].Compare? && s.workers[i].leaving))
  {
    NeverFewerIsSafe(rounds, n, schedule);
    assert WorkerOk(rounds, Run(rounds, Initial(n), schedule), i);
  }

  lemma {:induction false} AllCounted(b: seq<bool>, p: nat)
    requires p <= |b| && forall i :: 0 <= i < p ==> b[i]
    ensures CountTrue(b) >= p
  {
    if b != [] {
      AllCounted(b[..|b| - 1], if p < |b| then p else p - 1);
    }
  }
}
