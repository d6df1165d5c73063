/** When a round runs fewer threads than an earlier one: a schedule in which a thread's late comparison
    ends that round before anybody has run in it. With NeverFewerIsSafe this makes the condition exact. */
module ThreadPoolRaces {
  import opened Sequences
  import opened Options
  import opened ThreadPool
  import MergeTree

  // ---------- running schedules ----------

  lemma {:induction false} RunConcat(rounds: seq<nat>, s: State, a: seq<nat>, b: seq<nat>)
    requires Shape(s)
    ensures Run(rounds, s, a + b) == Run(rounds, Run(rounds, s, a), b)
  {
    if b == [] {
      assert a + b == a;
    } else {
      RunConcat(rounds, s, a, b[..|b| - 1]);
      ConcatInit(a, b);
    }
  }

  lemma {:induction false} RunOne(rounds: seq<nat>, s: State, t: nat)
    requires Shape(s)
    ensures Run(rounds, s, [t]) == Step(rounds, s, t)
  {
    assert Run(rounds, s, [t]) == Step(rounds, Run(rounds, s, [t][..0]), t);
    assert [t][..0] == [];
  }

  /** One step more at the end of a schedule. */
  lemma {:induction false} Then(rounds: seq<nat>, s: State, schedule: seq<nat>, t: nat)
    requires Shape(s)
    ensures Run(rounds, s, schedule + [t]) == Step(rounds, Run(rounds, s, schedule), t)
  {
    RunConcat(rounds, s, schedule, [t]);
    RunOne(rounds, Run(rounds, s, schedule), t);
  }

  // ---------- the states of a well-behaved round ----------

  /** Nothing was called in round r or a later one. */
  ghost predicate CallsBefore(calls: seq<Called>, r: nat) {
    forall k :: 0 <= k < |calls| ==> calls[k].round < r
  }

  /** All threads wait to be run, except that thread lag - 1 may still have to compare the count `lag`. */
  ghost predicate Lagging(s: State, lag: nat) {
    forall i :: 0 <= i < |s.workers| ==>
      s.workers[i] == if i + 1 == lag then Compare(lag, false) else AwaitRun
  }

  /** Between two rounds. */
  ghost predicate Rest(s: State, round: nat, lag: nat) {
    && Shape(s) && s.round == round && s.main.SetFunc? && !s.die && s.semAll == 0
    && (forall i :: 0 <= i < |s.semRun| ==> s.semRun[i] == 0)
    && Lagging(s, lag) && CallsBefore(s.calls, round)
  }

  /** The owner is setting arguments or posting; k says how far it is. */
  ghost predicate Setting(s: State, round: nat, w: nat, lag: nat, args: nat, posts: nat, semAll: nat) {
    && Shape(s) && s.round == round && s.numWorkers == w && !s.die && s.semAll == semAll
    && args <= w && posts <= w <= |s.workers|
    && (forall i :: 0 <= i < |s.semRun| ==> s.semRun[i] == if i < posts then 1 else 0)
    && Lagging(s, lag) && CallsBefore(s.calls, round)
  }

  lemma {:induction false} SetArgs(rounds: seq<nat>, s: State, w: nat, lag: nat, k: nat, semAll: nat)
    returns (schedule: seq<nat>, r: State)
    requires s.round < |rounds| && rounds[s.round] == w && s.main == SetArg(k)
    requires Setting(s, s.round, w, lag, k, 0, semAll)
    ensures r == Run(rounds, s, schedule) && |r.workers| == |s.workers|
    ensures Setting(r, s.round, w, lag, w, 0, semAll) && r.main == BeginTest && r.calls == s.calls
    decreases w - k
  {
    var n := |s.workers|;
    var next := Step(rounds, s, n);
    RunOne(rounds, s, n);
    if k < w {
      var rest;
      rest, r := SetArgs(rounds, next, w, lag, k + 1, semAll);
      schedule := [n] + rest;
      RunConcat(rounds, s, [n], rest);
    } else {
      schedule, r := [n], next;
    }
  }

  lemma {:induction false} PostRuns(rounds: seq<nat>, s: State, w: nat, lag: nat, k: nat, semAll: nat)
    returns (schedule: seq<nat>, r: State)
    requires s.round < |rounds| && rounds[s.round] == w > 0 && s.main == PostRun(k)
    requires Setting(s, s.round, w, lag, w, k, semAll)
    ensures r == Run(rounds, s, schedule) && |r.workers| == |s.workers|
    ensures Setting(r, s.round, w, lag, w, w, semAll) && r.main == WaitTest && r.calls == s.calls && r.done == s.done
    decreases w - k
  {
    var n := |s.workers|;
    var next := Step(rounds, s, n);
    RunOne(rounds, s, n);
    if k < w {
      var rest;
      rest, r := PostRuns(rounds, next, w, lag, k + 1, semAll);
      schedule := [n] + rest;
      RunConcat(rounds, s, [n], rest);
    } else {
      schedule, r := [n], next;
    }
  }

  /** The owner's first two writes of a round. */
  lemma {:induction false} Open(rounds: seq<nat>, s: State, lag: nat) returns (r: State)
    requires s.round < |rounds| && Rest(s, s.round, lag) && rounds[s.round] <= |s.workers|
    ensures r == Run(rounds, s, [|s.workers|] + [|s.workers|]) && |r.workers| == |s.workers|
    ensures Setting(r, s.round, rounds[s.round], lag, 0, 0, 0) && r.main == SetArg(0) && r.calls == s.calls
  {
    var n := |s.workers|;
    RunOne(rounds, s, n);
    Then(rounds, s, [n], n);
    r := Step(rounds, Step(rounds, s, n), n);
  }

  /** The owner alone, from its first argument to its wait. */
  lemma {:induction false} Begin(rounds: seq<nat>, s: State, w: nat, lag: nat, semAll: nat)
    returns (schedule: seq<nat>, r: State)
    requires s.round < |rounds| && rounds[s.round] == w > 0 && s.main == SetArg(0)
    requires Setting(s, s.round, w, lag, 0, 0, semAll)
    ensures r == Run(rounds, s, schedule) && |r.workers| == |s.workers|
    ensures Setting(r, s.round, w, lag, w, w, semAll) && r.main == AwaitAll && r.calls == s.calls && r.done == 0
  {
    var n := |s.workers|;
    var first, s1 := SetArgs(rounds, s, w, lag, 0, semAll);
    var s3 := Step(rounds, Step(rounds, s1, n), n);
    var second, s4 := PostRuns(rounds, s3, w, lag, 0, semAll);
    r := Step(rounds, s4, n);
    Then(rounds, s, first, n);
    Then(rounds, s, first + [n], n);
    RunConcat(rounds, s, first + [n] + [n], second);
    schedule := first + [n] + [n] + second + [n];
    Then(rounds, s, first + [n] + [n] + second, n);
  }

  // ---------- a whole round ----------

  /** The first k threads of the round are done, in order; thread lag - 1 has its comparison to make. */
  ghost predicate Half(s: State, round: nat, w: nat, lag: nat, k: nat) {
    && Shape(s) && s.round == round && s.numWorkers == w && !s.die && s.main == AwaitAll
    && k <= w <= |s.workers| && s.done == k && s.semAll == (if k == w then 1 else 0)
    && (forall i :: 0 <= i < |s.semRun| ==> s.semRun[i] == if k <= i < w then 1 else 0)
    && Lagging(s, if lag <= k then lag else 0) && CallsBefore(s.calls, round + 1)
  }

  /** Thread k has run and incremented, and stands before its comparison. */
  ghost predicate Counted(s: State, r: State, k: nat)
    requires Shape(s) && Shape(r) && |r.workers| == |s.workers| && k < |s.workers|
  {
    && r.round == s.round && r.numWorkers == s.numWorkers && !r.die && r.main == s.main && r.semAll == s.semAll
    && r.done == k + 1 && r.workers == s.workers[k := Compare(k + 1, false)] && r.semRun == s.semRun[k := 0]
    && CallsBefore(r.calls, s.round + 1)
  }

  /** Thread k takes its post, runs and increments. */
  lemma {:induction false} Work(rounds: seq<nat>, s: State, w: nat, lag: nat, k: nat)
    returns (schedule: seq<nat>, r: State)
    requires Half(s, s.round, w, lag, k) && k < w && lag < w
    ensures r == Run(rounds, s, schedule) && |r.workers| == |s.workers|
    ensures Counted(s, r, k)
  {
    var s1 := Step(rounds, s, k);
    var s2 := Step(rounds, s1, k);
    var s3 := Step(rounds, s2, k);
    var s4 := Step(rounds, s3, k);
    var s5 := Step(rounds, s4, k);
    r := Step(rounds, s5, k);
    RunOne(rounds, s, k);
    Then(rounds, s, [k], k);
    Then(rounds, s, [k] + [k], k);
    Then(rounds, s, [k] + [k] + [k], k);
    Then(rounds, s, [k] + [k] + [k] + [k], k);
    Then(rounds, s, [k] + [k] + [k] + [k] + [k], k);
    schedule := [k] + [k] + [k] + [k] + [k] + [k];
  }

  /** Thread k's whole turn: unless it is to lag, it compares too, and posts if it is the last. */
  lemma {:induction false} Turn(rounds: seq<nat>, s: State, w: nat, lag: nat, k: nat)
    returns (schedule: seq<nat>, r: State)
    requires Half(s, s.round, w, lag, k) && k < w && lag < w
    ensures r == Run(rounds, s, schedule) && |r.workers| == |s.workers|
    ensures Half(r, s.round, w, lag, k + 1)
  {
    schedule, r := Work(rounds, s, w, lag, k);
    if k + 1 != lag {
      Then(rounds, s, schedule, k);
      schedule, r := schedule + [k], Step(rounds, r, k);
      if k + 1 == w {
        Then(rounds, s, schedule, k);
        schedule, r := schedule + [k], Step(rounds, r, k);
      }
    }
  }

  lemma {:induction false} Turns(rounds: seq<nat>, s: State, w: nat, lag: nat, k: nat)
    returns (schedule: seq<nat>, r: State)
    requires Half(s, s.round, w, lag, k) && lag < w
    ensures r == Run(rounds, s, schedule) && |r.workers| == |s.workers|
    ensures Half(r, s.round, w, lag, w)
    decreases w - k
  {
    if k == w {
      schedule, r := [], s;
    } else {
      var first, s1 := Turn(rounds, s, w, lag, k);
      var rest;
      rest, r := Turns(rounds, s1, w, lag, k + 1);
      schedule := first + rest;
      RunConcat(rounds, s, first, rest);
    }
  }

  /** A round in which everybody behaves, after which thread lag - 1 has still to compare (nobody, if
      lag is 0). */
  lemma {:induction false} FullRound(rounds: seq<nat>, s: State, lag: nat) returns (schedule: seq<nat>, r: State)
    requires s.round < |rounds| && Rest(s, s.round, 0) && lag < rounds[s.round] <= |s.workers|
    ensures r == Run(rounds, s, schedule) && |r.workers| == |s.workers| && Rest(r, s.round + 1, lag)
  {
    var n, w := |s.workers|, rounds[s.round];
    var s1 := Open(rounds, s, 0);
    var a, s2 := Begin(rounds, s1, w, 0, 0);
    RunConcat(rounds, s, [n] + [n], a);
    var b, s3 := Turns(rounds, s2, w, lag, 0);
    RunConcat(rounds, s, [n] + [n] + a, b);
    r := Step(rounds, s3, n);
    schedule := [n] + [n] + a + b + [n];
    Then(rounds, s, [n] + [n] + a + b, n);
  }

  /** A round without threads. */
  lemma {:induction false} EmptyRound(rounds: seq<nat>, s: State, lag: nat) returns (schedule: seq<nat>, r: State)
    requires s.round < |rounds| && Rest(s, s.round, lag) && rounds[s.round] == 0
    ensures r == Run(rounds, s, schedule) && |r.workers| == |s.workers| && Rest(r, s.round + 1, lag)
  {
    var n := |s.workers|;
    var s2 := Open(rounds, s, lag);
    var s3 := Step(rounds, s2, n);
    var s4 := Step(rounds, s3, n);
    r := Step(rounds, s4, n);
    Then(rounds, s, [n] + [n], n);
    Then(rounds, s, [n] + [n] + [n], n);
    Then(rounds, s, [n] + [n] + [n] + [n], n);
    schedule := [n] + [n] + [n] + [n] + [n];
  }

  lemma {:induction false} RoundsUpTo(rounds: seq<nat>, n: nat, k: nat) returns (schedule: seq<nat>)
    requires Fits(rounds, n) && k <= |rounds|
    ensures var r := Run(rounds, Initial(n), schedule); |r.workers| == n && Rest(r, k, 0)
  {
    if k == 0 {
      schedule := [];
    } else {
      var init := RoundsUpTo(rounds, n, k - 1);
      var s := Run(rounds, Initial(n), init);
      var rest, r;
      if rounds[k - 1] == 0 {
        rest, r := EmptyRound(rounds, s, 0);
      } else {
        rest, r := FullRound(rounds, s, 0);
      }
      schedule := init + rest;
      RunConcat(rounds, Initial(n), init, rest);
    }
  }

  lemma {:induction false} EmptyRounds(rounds: seq<nat>, s: State, lag: nat, k: nat)
    returns (schedule: seq<nat>, r: State)
    requires s.round <= k <= |rounds| && Rest(s, s.round, lag) && forall i :: s.round <= i < k ==> rounds[i] == 0
    ensures r == Run(rounds, s, schedule) && |r.workers| == |s.workers| && Rest(r, k, lag)
    decreases k - s.round
  {
    if s.round == k {
      schedule, r := [], s;
    } else {
      var first, s1 := EmptyRound(rounds, s, lag);
      var rest;
      rest, r := EmptyRounds(rounds, s1, lag, k);
      schedule := first + rest;
      RunConcat(rounds, s, first, rest);
    }
  }

  /** The race: the late thread compares its old count with the new round's number of threads, finds
      them equal and posts; the owner sets up the round, waits and returns, and nobody has run. */
  lemma {:induction false} LateRound(rounds: seq<nat>, s: State) returns (schedule: seq<nat>, r: State)
    requires s.round < |rounds| && 0 < rounds[s.round] <= |s.workers| && Rest(s, s.round, rounds[s.round])
    ensures r == Run(rounds, s, schedule) && |r.workers| == |s.workers|
    ensures r.round == s.round + 1 && CallsBefore(r.calls, s.round)
  {
    var n, w := |s.workers|, rounds[s.round];
    var late := w - 1;
    var s1 := Open(rounds, s, w);
    var s2 := Step(rounds, s1, late);
    var s3 := Step(rounds, s2, late);
    Then(rounds, s, [n] + [n], late);
    Then(rounds, s, [n] + [n] + [late], late);
    var a, s4 := Begin(rounds, s3, w, 0, 1);
    RunConcat(rounds, s, [n] + [n] + [late] + [late], a);
    r := Step(rounds, s4, n);
    schedule := [n] + [n] + [late] + [late] + a + [n];
    Then(rounds, s, [n] + [n] + [late] + [late] + a, n);
  }

  // ---------- the condition is exact ----------

  /** If some round runs fewer threads than an earlier one, then there are two such rounds with only
      empty ones between them. */
  lemma {:induction false} AdjacentDrop(rounds: seq<nat>, a: nat, b: nat) returns (x: nat, y: nat)
    requires a < b < |rounds| && rounds[b] != 0 && rounds[a] > rounds[b]
    ensures x < y < |rounds| && rounds[x] > rounds[y] > 0 && forall i :: x < i < y ==> rounds[i] == 0
    decreases b - a
  {
    if c :| a < c < b && rounds[c] != 0 {
      if rounds[c] > rounds[b] {
        x, y := AdjacentDrop(rounds, c, b);
      } else {
        x, y := AdjacentDrop(rounds, a, c);
      }
    } else {
      x, y := a, b;
    }
  }

  /** If some round runs fewer threads than an earlier one, there is a run in which tpool_wait has
      returned from a round with threads and none of them has run anything. */
  lemma {:induction false} FewerIsUnsafe(rounds: seq<nat>, n: nat) returns (schedule: seq<nat>, late: nat)
    requires Fits(rounds, n) && !NeverFewer(rounds)
    ensures var r := Run(rounds, Initial(n), schedule);
            && late < |rounds| && 0 < rounds[late] <= n && r.round == late + 1
            && (forall i :: CallsOf(r.calls, i, late) == [])
            && !Safe(rounds, r)
  {
    var a, b :| 0 <= a < b < |rounds| && rounds[b] != 0 && rounds[a] > rounds[b];
    a, b := AdjacentDrop(rounds, a, b);
    var before := RoundsUpTo(rounds, n, a);
    var s := Run(rounds, Initial(n), before);
    var first, s1 := FullRound(rounds, s, rounds[b]);
    RunConcat(rounds, Initial(n), before, first);
    var empty, s2 := EmptyRounds(rounds, s1, rounds[b], b);
    RunConcat(rounds, Initial(n), before + first, empty);
    var last, r := LateRound(rounds, s2);
    RunConcat(rounds, Initial(n), before + first + empty, last);
    schedule, late := before + first + empty + last, b;
    forall i
      ensures CallsOf(r.calls, i, b) == []
    {
      NoCallsYet(r.calls, i, b);
    }
    assert !CallsOk(rounds, r, b, 0);
    assert !RoundOk(rounds, r, b);
  }

  /** For any pool and any sequence of rounds: every run keeps the promise of every round exactly when
      no round runs fewer threads than an earlier one, empty rounds aside. */
  lemma {:induction false} SafeIffNeverFewer(rounds: seq<nat>, n: nat)
    requires Fits(rounds, n)
    ensures (forall schedule :: Safe(rounds, Run(rounds, Initial(n), schedule))) <==> NeverFewer(rounds)
  {
    if NeverFewer(rounds) {
      forall schedule
        ensures Safe(rounds, Run(rounds, Initial(n), schedule))
      {
        NeverFewerIsSafe(rounds, n, schedule);
      }
    } else {
      var schedule, late := FewerIsUnsafe(rounds, n);
    }
  }

  // ---------- the rounds the runtime itself runs ----------

  /** merge(): one round per pass, each with half the threads, the owner being one of them. */
  function MergeRounds(threads: nat): seq<nat>
    requires threads > 0
  {
    [threads - 1] + if threads > 1 then MergeRounds(threads / 2) else []
  }

  /** As many rounds as merge() takes, the i-th with the merge threads halved i times, less the owner. */
  lemma {:induction false} MergeRoundsHalve(threads: nat, i: nat)
    requires threads > 0
    ensures |MergeRounds(threads)| == 1 + MergeTree.Log2(threads)
    ensures i < |MergeRounds(threads)| ==>
              var w := MergeRounds(threads)[i] + 1;
              Times2(w, i) <= threads < Times2(w, i) + Times2(1, i)
  {
    if threads > 1 {
      MergeRoundsHalve(threads / 2, if i > 0 then i - 1 else 0);
    }
  }

  /** n doubled i times. */
  function Times2(n: nat, i: nat): nat {
    if i == 0 then n else 2 * Times2(n, i - 1)
  }

  /** start_workers hands all but one thread's share of each phase to the pool. */
  function JobRounds(mapThreads: nat, reduceThreads: nat, mergeThreads: nat, mergeLen: nat): seq<nat>
    requires mapThreads > 0 && reduceThreads > 0 && mergeThreads > 0
  {
    [mapThreads - 1, reduceThreads - 1] + if mergeLen > 1 then MergeRounds(mergeThreads) else []
  }

  /** The first round with fewer threads than an earlier one, if any, is among the first four. */
  lemma {:induction false} RoundsNeverFewerIff(m: nat, r: nat, g: nat, mergeLen: nat)
    requires m > 0 && r > 0 && g > 0
    ensures NeverFewer(JobRounds(m, r, g, mergeLen)) <==>
              (m <= r || r == 1) && (mergeLen > 1 ==> g <= 3 && (g == 1 || (m <= g && r <= g)))
  {
    var rounds := JobRounds(m, r, g, mergeLen);
    assert rounds[0] == m - 1 && rounds[1] == r - 1;
    if mergeLen > 1 {
      assert rounds[2] == g - 1;
      if g > 1 {
        assert MergeRounds(g)[1..] == MergeRounds(g / 2) && MergeRounds(g / 2)[0] == g / 2 - 1;
        assert rounds[3] == g / 2 - 1;
      }
      if g <= 3 {
        assert |rounds| <= 4;
      }
    }
  }

  /** For which thread counts a job's own rounds meet the condition. With one output queue per reduce
      thread: up to three reduce threads and no more map than reduce threads, or one reduce thread; from
      four on the first merge round runs fewer threads than the reduce round before it. With one queue per
      reduce task the merge threads are the user's to choose: one will do, two or three if neither of the
      other phases runs more. */
  lemma {:induction false} JobRoundsNeverFewerIff(queuePerTask: bool, argMerge: int, m: nat, r: nat)
    requires m > 0 && r > 0
    ensures var g := MergeTree.MergeThreads(queuePerTask, argMerge, r);
            NeverFewer(JobRounds(m, r, g, MergeTree.MergeLen(queuePerTask, r))) <==>
              && (m <= r || r == 1)
              && if queuePerTask then g == 1 || (g <= 3 && m <= g && r <= g) else r <= 3
  {
    RoundsNeverFewerIff(m, r, MergeTree.MergeThreads(queuePerTask, argMerge, r), MergeTree.MergeLen(queuePerTask, r));
  }

  lemma {:induction false} MergeRoundsBelow(threads: nat)
    requires threads > 0
    ensures forall r :: 0 <= r < |MergeRounds(threads)| ==> MergeRounds(threads)[r] < threads
  {
    if threads > 1 {
      MergeRoundsBelow(threads / 2);
    }
  }

  /** The pool is created with as many threads as env_init finds map threads, at least the m that the map
      phase runs. The assert of tpool_set holds in every round of a job exactly when there is at most one
      reduce thread more than that and, with one queue per reduce task, at most one merge thread more. */
  lemma {:induction false} JobRoundsFitIff(poolThreads: nat, queuePerTask: bool, argMerge: int, m: nat, r: nat)
    requires 0 < m <= poolThreads && r > 0
    ensures var g := MergeTree.MergeThreads(queuePerTask, argMerge, r);
            Fits(JobRounds(m, r, g, MergeTree.MergeLen(queuePerTask, r)), poolThreads) <==>
              r <= poolThreads + 1 && (queuePerTask ==> g <= poolThreads + 1)
  {
    var g, mergeLen := MergeTree.MergeThreads(queuePerTask, argMerge, r), MergeTree.MergeLen(queuePerTask, r);
    var rounds := JobRounds(m, r, g, mergeLen);
    MergeRoundsBelow(g);
    assert rounds[1] == r - 1 && (mergeLen > 1 ==> rounds[2] == g - 1);
    forall i | 2 <= i < |rounds|
      ensures rounds[i] < g
    {
      assert rounds[i] == MergeRounds(g)[i - 2];
    }
  }

  /** For the thread counts of a job that the pool has room for: every run of the pool keeps its promise in
      every phase of the job exactly under that condition. */
  lemma {:induction false} JobIsSafeIff(poolThreads: nat, queuePerTask: bool, argMerge: int, m: nat, r: nat)
    requires 0 < m <= poolThreads && 0 < r <= poolThreads + 1
    requires queuePerTask ==> MergeTree.MergeThreads(queuePerTask, argMerge, r) <= poolThreads + 1
    ensures var g := MergeTree.MergeThreads(queuePerTask, argMerge, r);
            var rounds := JobRounds(m, r, g, MergeTree.MergeLen(queuePerTask, r));
            (forall schedule :: Safe(rounds, Run(rounds, Initial(poolThreads), schedule))) <==>
              && (m <= r || r == 1)
              && if queuePerTask then g == 1 || (g <= 3 && m <= g && r <= g) else r <= 3
  {
    var g := MergeTree.MergeThreads(queuePerTask, argMerge, r);
    JobRoundsFitIff(poolThreads, queuePerTask, argMerge, m, r);
    JobRoundsNeverFewerIff(queuePerTask, argMerge, m, r);
    SafeIffNeverFewer(JobRounds(m, r, g, MergeTree.MergeLen(queuePerTask, r)), poolThreads);
  }
}
