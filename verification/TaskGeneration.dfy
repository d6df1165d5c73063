/** Task generation: array_splitter and the splitting loop, the distribution of map tasks over
    locality groups, and gen_reduce_tasks. */
module TaskGeneration {
  import opened Options
  import opened TaskQueue
  import opened Sequences
  import opened Permutations

  /** Everything queued, whichever queue it is in. */
  function AllTasks(queues: Queues): multiset<Task> {
    Together(queues, |queues|)
  }

  /** k * n as repeated addition, which keeps products out of the loops below. */
  function Times(k: nat, n: nat): nat {
    if n == 0 then 0 else Times(k, n - 1) + k
  }

  lemma {:induction false} TimesIsProduct(k: nat, n: nat)
    ensures Times(k, n) == k * n
  {
    if n > 0 {
      TimesIsProduct(k, n - 1);
      assert k * n == k * (n - 1) + k;
    }
  }

  // ---------- array_splitter ----------

  /** The units in the first n tasks. */
  function Units(tasks: seq<Task>, n: nat): nat
    requires n <= |tasks|
  {
    if n == 0 then 0 else Units(tasks, n - 1) + tasks[n - 1].len
  }

  lemma {:induction false} UnitsPrefix(tasks: seq<Task>, task: Task, n: nat)
    requires n <= |tasks|
    ensures Units(tasks + [task], n) == Units(tasks, n)
  {
    if n > 0 {
      UnitsPrefix(tasks, task, n - 1);
    }
  }

  /** Task i: its id, its length of `req` units unless it is the last, and its place in the data. */
  predicate CutAt(tasks: seq<Task>, base: int, unitSize: nat, req: nat, i: nat)
    requires i < |tasks|
  {
    && tasks[i].id == i && 0 < tasks[i].len <= req && (i < |tasks| - 1 ==> tasks[i].len == req)
    && tasks[i].data == base + Times(unitSize, Units(tasks, i))
  }

  /** The tasks cut [0, done) into consecutive pieces. */
  ghost predicate Cuts(tasks: seq<Task>, base: int, unitSize: nat, req: nat, done: nat) {
    && (forall i :: 0 <= i < |tasks| ==> CutAt(tasks, base, unitSize, req, i))
    && done == Units(tasks, |tasks|)
  }

  lemma {:induction false} CutsSnoc(tasks: seq<Task>, base: int, unitSize: nat, req: nat, done: nat, task: Task)
    requires Cuts(tasks, base, unitSize, req, done) && (tasks != [] ==> tasks[|tasks| - 1].len == req)
    requires task.id == |tasks| && 0 < task.len <= req && task.data == base + Times(unitSize, done)
    ensures Cuts(tasks + [task], base, unitSize, req, done + task.len)
  {
    UnitsPrefix(tasks, task, |tasks|);
    forall i | 0 <= i <= |tasks|
      ensures CutAt(tasks + [task], base, unitSize, req, i)
    {
      UnitsPrefix(tasks, task, i);
      if i < |tasks| {
        assert CutAt(tasks, base, unitSize, req, i);
      }
    }
  }

  class ArraySplitter {
    const base: int
    const unitSize: nat
    const dataUnits: nat
    var splitterPos: nat

    constructor (base: int, unitSize: nat, dataSize: nat)
      requires unitSize > 0
      ensures splitterPos == 0 && this.base == base && this.unitSize == unitSize && dataUnits == dataSize / unitSize
    {
      this.base, this.unitSize, dataUnits, splitterPos := base, unitSize, dataSize / unitSize, 0;
    }

    /** array_splitter: the next piece, or false at the end of the data. */
    method Split(reqUnits: nat) returns (more: bool, length: nat, data: int)
      requires reqUnits > 0 && splitterPos <= dataUnits
      modifies this
      ensures splitterPos <= dataUnits
      ensures more == (old(splitterPos) < dataUnits)
      ensures !more ==> splitterPos == old(splitterPos)
      ensures more ==> data == base + Times(unitSize, old(splitterPos)) && splitterPos == old(splitterPos) + length
      ensures more ==> 0 < length <= reqUnits && (length < reqUnits ==> splitterPos == dataUnits)
    {
      if splitterPos >= dataUnits {
        return false, 0, 0;
      }
      data := base + splitterPos * unitSize;
      TimesIsProduct(unitSize, splitterPos);
      length := if splitterPos + reqUnits > dataUnits then dataUnits - splitterPos else reqUnits;
      splitterPos := splitterPos + length;
      more := true;
    }
  }

  /** What a splitter hands out for one task. */
  datatype MapArgs = MapArgs(length: nat, data: int)

  /** gen_map_tasks_split, with any splitter, given as the answers to its calls, of which the first to fail
      is number `last`: one task for each answer before, in order, with consecutive ids. No task at all is
      the error result 0. */
  method GenMapTasksSplit(splitter: nat -> Option<MapArgs>, ghost last: nat) returns (tasks: seq<Task>, count: nat)
    requires splitter(last).None? && forall i :: 0 <= i < last ==> splitter(i).Some?
    ensures count == |tasks| == last
    ensures forall i :: 0 <= i < last ==> tasks[i] == Task(i, splitter(i).value.length, splitter(i).value.data)
  {
    var curTaskId := 0;
    tasks := [];
    var args := splitter(0);
    while args.Some?
      invariant curTaskId == |tasks| <= last && args == splitter(curTaskId)
      invariant forall i :: 0 <= i < |tasks| ==> tasks[i] == Task(i, splitter(i).value.length, splitter(i).value.data)
      decreases last - curTaskId
    {
      tasks := tasks + [Task(curTaskId, args.value.length, args.value.data)];
      curTaskId := curTaskId + 1;
      args := splitter(curTaskId);
    }
    count := curTaskId;
  }

  /** The same loop with array_splitter, which keeps its own position: the tasks cut up all the data units,
      no more, no less; no data gives the error result 0. */
  method GenArrayTasks(splitter: ArraySplitter, chunkSize: nat) returns (tasks: seq<Task>, count: nat)
    requires chunkSize > 0 && splitter.splitterPos == 0
    modifies splitter
    ensures count == |tasks| && Cuts(tasks, splitter.base, splitter.unitSize, chunkSize, splitter.dataUnits)
    ensures count == 0 <==> splitter.dataUnits == 0
  {
    tasks := [];
    var more, length, data := splitter.Split(chunkSize);
    ghost var pos: nat := 0;
    while more
      invariant splitter.splitterPos <= splitter.dataUnits
      invariant tasks != [] ==> pos > 0
      invariant more && tasks != [] ==> tasks[|tasks| - 1].len == chunkSize
      invariant Cuts(tasks, splitter.base, splitter.unitSize, chunkSize, pos)
      invariant more ==> data == splitter.base + Times(splitter.unitSize, pos) && splitter.splitterPos == pos + length
      invariant more ==> 0 < length <= chunkSize && (length < chunkSize ==> splitter.splitterPos == splitter.dataUnits)
      invariant !more ==> pos == splitter.splitterPos == splitter.dataUnits
      decreases splitter.dataUnits - pos
    {
      CutsSnoc(tasks, splitter.base, splitter.unitSize, chunkSize, pos, Task(|tasks|, length, data));
      tasks := tasks + [Task(|tasks|, length, data)];
      pos := pos + length;
      more, length, data := splitter.Split(chunkSize);
    }
    count := |tasks|;
  }

  // ---------- even shares ----------

  /** What the first n of several receivers get together: an even share each, and one more while the
      leftover lasts. */
  function Quota(share: nat, leftover: int, n: nat): nat {
    if n == 0 then 0 else Quota(share, leftover, n - 1) + share + if n - 1 < leftover then 1 else 0
  }

  lemma {:induction false} QuotaClosed(share: nat, leftover: int, n: nat)
    ensures Quota(share, leftover, n)
            == Times(share, n) + if leftover <= 0 then 0 else if n < leftover then n else leftover
  {
    if n > 0 {
      QuotaClosed(share, leftover, n - 1);
    }
  }

  lemma {:induction false} QuotaGrows(share: nat, leftover: int, n: nat, m: nat)
    requires n <= m
    ensures Quota(share, leftover, n) <= Quota(share, leftover, m)
    decreases m - n
  {
    if n < m {
      QuotaGrows(share, leftover, n, m - 1);
    }
  }

  // ---------- gen_map_tasks_distribute_lgrp ----------

  /** The tasks sent to queue x, in the order they were sent. */
  function SentTo(tasks: seq<Task>, groups: seq<nat>, numQueues: nat, x: nat): seq<Task>
    requires |tasks| == |groups| && numQueues > 0
  {
    if tasks == [] then []
    else
      var n := |tasks| - 1;
      SentTo(tasks[..n], groups[..n], numQueues, x) + if groups[n] % numQueues == x then [tasks[n]] else []
  }

  lemma {:induction false} SentToSnoc(tasks: seq<Task>, groups: seq<nat>, numQueues: nat, x: nat, task: Task, g: nat)
    requires |tasks| == |groups| && numQueues > 0
    ensures SentTo(tasks + [task], groups + [g], numQueues, x)
         == SentTo(tasks, groups, numQueues, x) + if g % numQueues == x then [task] else []
  {
    assert (tasks + [task])[..|tasks|] == tasks && (groups + [g])[..|groups|] == groups;
  }

  /** Where a task sent as number i belongs when the first `extra` groups get one more than the rest. */
  ghost predicate InGroup(per: nat, extra: nat, numLgrps: nat, g: nat, i: int) {
    g < numLgrps && Quota(per, extra, g) <= i < Quota(per, extra, g + 1)
  }

  /** What has been sent so far: a prefix of the tasks, in order, each to its group. */
  ghost predicate Sent(before: Queues, now: Queues, numQueues: nat, tasks: seq<Task>, groups: seq<nat>,
                       per: nat, extra: nat, numLgrps: nat)
    requires 0 < numQueues == |before| == |now|
  {
    && |groups| <= |tasks|
    && (forall x :: 0 <= x < numQueues ==> now[x] == before[x] + SentTo(tasks[..|groups|], groups, numQueues, x))
    && (forall i :: 0 <= i < |groups| ==> InGroup(per, extra, numLgrps, groups[i], i))
  }

  method SendNext(tq: TaskQ, tasks: seq<Task>, lgrp: nat, ghost before: Queues, ghost groups: seq<nat>,
                  ghost per: nat, ghost extra: nat, ghost numLgrps: nat, task: Task)
    requires tq.Valid() && |before| == tq.numQueues && |groups| < |tasks| && task == tasks[|groups|]
    requires Sent(before, tq.history, tq.numQueues, tasks, groups, per, extra, numLgrps)
    requires InGroup(per, extra, numLgrps, lgrp, |groups|)
    modifies tq
    ensures tq.Valid() && Sent(before, tq.history, tq.numQueues, tasks, groups + [lgrp], per, extra, numLgrps)
  {
    ghost var n := |groups|;
    ghost var index := tq.EnqueueSeq(task, lgrp, 0);
    PrefixStep(tasks, n);
    forall x | 0 <= x < tq.numQueues
      ensures tq.history[x] == before[x] + SentTo(tasks[..n + 1], groups + [lgrp], tq.numQueues, x)
    {
      SentToSnoc(tasks[..n], groups, tq.numQueues, x, task, lgrp);
    }
  }

  /** The loops of gen_map_tasks_distribute_lgrp. */
  method SendShares(tq: TaskQ, tasks: seq<Task>, numLgrps: nat, per: nat, extra: nat)
    returns (rest: seq<Task>, ghost groups: seq<nat>)
    requires tq.Valid() && tasks != [] && Quota(per, extra, numLgrps) == |tasks| && (per == 0 ==> extra == |tasks|)
    modifies tq
    ensures tq.Valid() && rest == [] && |groups| == |tasks|
    ensures Sent(old(tq.history), tq.history, tq.numQueues, tasks, groups, per, extra, numLgrps)
  {
    var lgrp, leftover, stop := 0, extra, false;
    ghost var before := tq.history;
    rest, groups := tasks, [];
    while lgrp < numLgrps && !stop
      invariant 0 <= lgrp <= numLgrps && tq.Valid() && !stop
      invariant Sent(before, tq.history, tq.numQueues, tasks, groups, per, extra, numLgrps)
      invariant rest == tasks[|groups|..] && |groups| == Quota(per, extra, lgrp)
      invariant leftover == if lgrp < extra then extra - lgrp else 0
      invariant per == 0 ==> |groups| == if lgrp < extra then lgrp else extra
      decreases numLgrps - lgrp
    {
      var remaining: int := per;
      if leftover > 0 {
        remaining := remaining + 1;
        leftover := leftover - 1;
      }
      QuotaGrows(per, extra, lgrp + 1, numLgrps);
      ghost var end := Quota(per, extra, lgrp + 1);
      var again := true;
      while again
        invariant tq.Valid() && Sent(before, tq.history, tq.numQueues, tasks, groups, per, extra, numLgrps)
        invariant rest == tasks[|groups|..] && |groups| + remaining == end <= |tasks|
        invariant Quota(per, extra, lgrp) <= |groups| <= end
        invariant if again then remaining > 0 || rest == [] else remaining == 0
        decreases |rest|, again
      {
        if rest == [] {
          again := false;
        } else {
          SendNext(tq, tasks, lgrp, before, groups, per, extra, numLgrps, rest[0]);
          groups, rest := groups + [lgrp], rest[1..];
          remaining := remaining - 1;
          again := remaining != 0;
        }
      }
      if remaining != 0 {
        stop := true;
      }
      lgrp := lgrp + 1;
    }
  }

  /** An even share each, and one more for the first few, add up to all the tasks. */
  lemma {:induction false} EvenShares(tasks: nat, n: nat)
    requires n > 0
    ensures tasks - (tasks / n) * n == tasks % n
    ensures Quota(tasks / n, tasks % n, n) == tasks && (tasks / n == 0 ==> tasks % n == tasks)
  {
    TimesIsProduct(tasks / n, n);
    QuotaClosed(tasks / n, tasks % n, n);
  }

  /** The shares the source computes. */
  method LgrpShares(numTasks: nat, numMapThreads: nat, lgrpSize: nat) returns (numLgrps: nat, per: nat, extra: nat)
    requires lgrpSize > 0
    ensures numLgrps == if numMapThreads / lgrpSize == 0 then 1 else numMapThreads / lgrpSize
    ensures per == numTasks / numLgrps && extra == numTasks % numLgrps
    ensures Quota(per, extra, numLgrps) == numTasks && (per == 0 ==> extra == numTasks)
  {
    numLgrps := numMapThreads / lgrpSize;
    if numLgrps == 0 {
      numLgrps := 1;
    }
    per := numTasks / numLgrps;
    extra := numTasks - per * numLgrps;
    EvenShares(numTasks, numLgrps);
  }

  /** gen_map_tasks_distribute_lgrp: pops every task once and in order, giving each group its even
      share, the first groups one more each while there is a remainder. */
  method DistributeLgrp(tq: TaskQ, tasks: seq<Task>, numMapThreads: nat, lgrpSize: nat)
    returns (rest: seq<Task>, ghost groups: seq<nat>)
    requires tq.Valid() && lgrpSize > 0 && tasks != []
    modifies tq
    ensures tq.Valid() && rest == [] && |groups| == |tasks|
    ensures var n := if numMapThreads / lgrpSize == 0 then 1 else numMapThreads / lgrpSize;
            Sent(old(tq.history), tq.history, tq.numQueues, tasks, groups, |tasks| / n, |tasks| % n, n)
  {
    var numLgrps, per, extra := LgrpShares(|tasks|, numMapThreads, lgrpSize);
    rest, groups := SendShares(tq, tasks, numLgrps, per, extra);
  }

  // ---------- gen_reduce_tasks ----------

  /** The reduce tasks 0, 1, 2, ..., once each. */
  ghost predicate IdTasks(sent: seq<Task>) {
    forall i :: 0 <= i < |sent| ==> sent[i] == Task(i, 0, 0)
  }

  /** How many reduce tasks are queued. The source computes the leftover with the number of MAP
      threads, though the share is per REDUCE thread. */
  function Queued(tasks: nat, reduceThreads: nat, mapThreads: nat): nat
    requires reduceThreads > 0
  {
    var share := tasks / reduceThreads;
    var n := Quota(share, tasks - share * mapThreads, reduceThreads);
    if n < tasks then n else tasks
  }

  lemma {:induction false} TimesDiffer(share: nat, m: nat, r: nat)
    requires r <= m
    ensures Times(share, m) == Times(share, r) + share * (m - r)
  {
    TimesIsProduct(share, m);
    TimesIsProduct(share, r);
    assert share * m == share * r + share * (m - r);
  }

  /** What the shares leave, from the products they are made of. */
  lemma {:induction false} SharesLeave(tasks: nat, share: nat, r: nat, m: nat, short: nat)
    requires r > 0 && tasks == Times(share, r) + tasks % r && tasks % r < r && (share == 0 <==> tasks < r)
    requires m >= r ==> Times(share, m) == Times(share, r) + short
    requires m <= r ==> Times(share, m) <= Times(share, r)
    requires m > r && share > 0 ==> short > 0
    ensures var n := Quota(share, tasks - Times(share, m), r);
            && (m <= r || tasks < r ==> n >= tasks)
            && (m > r && tasks >= r ==>
                  n <= tasks && tasks - n <= tasks % r && tasks - n <= short
                    && (tasks - n == tasks % r || tasks - n == short))
  {
    QuotaClosed(share, tasks - Times(share, m), r);
    TimesZero(r);
    TimesZero(m);
  }

  /** How many tasks are not queued: none unless there are more map than reduce threads; then the remainder
      of the division, or one share for each map thread too many, whichever is less. */
  lemma {:induction false} TasksLost(tasks: nat, r: nat, m: nat)
    requires r > 0
    ensures Queued(tasks, r, m) <= tasks
    ensures m <= r || tasks < r ==> Queued(tasks, r, m) == tasks
    ensures m > r && tasks >= r ==>
              var lost, short := tasks - Queued(tasks, r, m), (tasks / r) * (m - r);
              && lost <= tasks % r && lost <= short && (lost == tasks % r || lost == short)
  {
    var share := tasks / r;
    DivisionAsTimes(tasks, r);
    TimesIsProduct(share, m);
    if m <= r {
      TimesGrows(share, m, r);
      SharesLeave(tasks, share, r, m, 0);
    } else {
      TimesDiffer(share, m, r);
      ShortIsPositive(share, m - r);
      SharesLeave(tasks, share, r, m, share * (m - r));
    }
  }

  lemma {:induction false} ShortIsPositive(share: nat, d: nat)
    requires d > 0
    ensures share > 0 ==> share * d > 0
  {
  }

  method QueueReduceTask(tq: TaskQ, id: nat, ghost base: multiset<Task>, ghost sent: seq<Task>)
    requires tq.Valid() && AllTasks(tq.history) == base + multiset(sent)
    modifies tq
    ensures tq.Valid() && AllTasks(tq.history) == base + multiset(sent + [Task(id, 0, 0)])
  {
    var random: nat := *;
    ghost var history := tq.history;
    ghost var index := tq.EnqueueSeq(Task(id, 0, 0), -1, random);
    TogetherGrows(history, tq.history, index, [Task(id, 0, 0)], |history|);
    AddAgain(base, multiset(sent), multiset([Task(id, 0, 0)]));
  }

  /** The do-while loop of gen_reduce_tasks: one thread's share, or all that is left. */
  method QueueShare(tq: TaskQ, first: nat, share: nat, numReduceTasks: nat, ghost base: multiset<Task>,
                    ghost before: seq<Task>)
    returns (taskId: nat, full: bool, ghost sent: seq<Task>)
    requires tq.Valid() && AllTasks(tq.history) == base + multiset(before) && IdTasks(before) && |before| == first
    requires first <= numReduceTasks && (share > 0 || first == numReduceTasks)
    modifies tq
    ensures tq.Valid() && AllTasks(tq.history) == base + multiset(sent) && IdTasks(sent) && |sent| == taskId
    ensures taskId == if first + share < numReduceTasks then first + share else numReduceTasks
    ensures full ==> taskId == numReduceTasks
  {
    var remaining := share;
    taskId, full, sent := first, true, before;
    while taskId < numReduceTasks
      invariant tq.Valid() && AllTasks(tq.history) == base + multiset(sent) && IdTasks(sent) && |sent| == taskId
      invariant full && taskId <= numReduceTasks && taskId + remaining == first + share
      invariant remaining > 0 || taskId == numReduceTasks
    {
      QueueReduceTask(tq, taskId, base, sent);
      sent := sent + [Task(taskId, 0, 0)];
      taskId := taskId + 1;
      remaining := remaining - 1;
      if remaining == 0 {
        full := false;
        break;
      }
    }
  }

  /** The loops of gen_reduce_tasks. */
  method QueueShares(tq: TaskQ, numReduceTasks: nat, numReduceThreads: nat, share: nat, leftover: int)
    returns (ghost sent: seq<Task>)
    requires tq.Valid() && (share == 0 ==> leftover == numReduceTasks)
    modifies tq
    ensures tq.Valid() && AllTasks(tq.history) == old(AllTasks(tq.history)) + multiset(sent) && IdTasks(sent)
    ensures var n := Quota(share, leftover, numReduceThreads);
            |sent| == if n < numReduceTasks then n else numReduceTasks
  {
    var taskId, left, full := 0, leftover, false;
    sent := [];
    for tid := 0 to numReduceThreads
      invariant tq.Valid() && AllTasks(tq.history) == old(AllTasks(tq.history)) + multiset(sent)
      invariant IdTasks(sent) && |sent| == taskId
      invariant taskId == if Quota(share, leftover, tid) < numReduceTasks then Quota(share, leftover, tid)
                else numReduceTasks
      invariant left == if leftover <= 0 then leftover else if tid < leftover then leftover - tid else 0
      invariant share == 0 ==> taskId == if tid < leftover then tid else leftover
    {
      var remaining := share;
      if left > 0 {
        remaining := remaining + 1;
        left := left - 1;
      }
      taskId, full, sent := QueueShare(tq, taskId, remaining, numReduceTasks, old(AllTasks(tq.history)), sent);
      if full {
        QuotaGrows(share, leftover, tid + 1, numReduceThreads);
        return;
      }
    }
  }

  /** gen_reduce_tasks: queues the ids 0, 1, 2, ... once each, on randomly chosen queues. */
  method GenReduceTasks(tq: TaskQ, numReduceTasks: nat, numReduceThreads: nat, numMapThreads: nat)
    returns (ghost sent: seq<Task>)
    requires tq.Valid() && numReduceTasks > 0 && numReduceThreads > 0
    modifies tq
    ensures tq.Valid() && AllTasks(tq.history) == old(AllTasks(tq.history)) + multiset(sent)
    ensures IdTasks(sent) && |sent| == Queued(numReduceTasks, numReduceThreads, numMapThreads) <= numReduceTasks
    ensures numMapThreads <= numReduceThreads || numReduceTasks < numReduceThreads ==> |sent| == numReduceTasks
    ensures numMapThreads > numReduceThreads && numReduceTasks >= numReduceThreads ==>
              var lost, short := numReduceTasks - |sent|,
                (numReduceTasks / numReduceThreads) * (numMapThreads - numReduceThreads);
              && lost <= numReduceTasks % numReduceThreads && lost <= short
              && (lost == numReduceTasks % numReduceThreads || lost == short)
  {
    var tasksPerThread := numReduceTasks / numReduceThreads;
    var tasksLeftover := numReduceTasks - tasksPerThread * numMapThreads;
    TasksLost(numReduceTasks, numReduceThreads, numMapThreads);
    sent := QueueShares(tq, numReduceTasks, numReduceThreads, tasksPerThread, tasksLeftover);
  }

  lemma {:induction false} TimesGrows(share: nat, m: nat, n: nat)
    ensures if m <= n then Times(share, m) <= Times(share, n) else Times(share, m) >= Times(share, n) + share
    decreases if m <= n then n - m else m - n
  {
    if m < n {
      TimesGrows(share, m, n - 1);
    } else if m > n {
      TimesGrows(share, m - 1, n);
    }
  }

  lemma {:induction false} TimesZero(n: nat)
    ensures Times(0, n) == 0
  {
    TimesIsProduct(0, n);
  }

  lemma {:induction false} DivisionAsTimes(tasks: nat, threads: nat)
    requires threads > 0
    ensures tasks == Times(tasks / threads, threads) + tasks % threads && 0 <= tasks % threads < threads
    ensures tasks / threads == 0 <==> tasks < threads
  {
    TimesIsProduct(tasks / threads, threads);
  }

  /** The shares of all reduce threads together, with the leftover the source computes. */
  lemma {:induction false} SharesCoverIff(tasks: nat, threads: nat, mapThreads: nat, share: nat)
    requires Times(share, threads) <= tasks < Times(share, threads) + threads
    requires share == 0 <==> tasks < threads
    ensures Quota(share, tasks - Times(share, mapThreads), threads) >= tasks
       <==> mapThreads <= threads || tasks == Times(share, threads) || share == 0
  {
    QuotaClosed(share, tasks - Times(share, mapThreads), threads);
    TimesGrows(share, mapThreads, threads);
    TimesZero(threads);
    TimesZero(mapThreads);
  }

  /** Every reduce task is queued exactly when there are no more map threads than reduce threads, or
      the tasks divide evenly, or there are fewer tasks than reduce threads. */
  lemma {:induction false} AllQueuedIff(tasks: nat, reduceThreads: nat, mapThreads: nat)
    requires tasks > 0 && reduceThreads > 0
    ensures Queued(tasks, reduceThreads, mapThreads) == tasks
       <==> mapThreads <= reduceThreads || tasks % reduceThreads == 0 || tasks < reduceThreads
  {
    DivisionAsTimes(tasks, reduceThreads);
    SharesCoverIff(tasks, reduceThreads, mapThreads, tasks / reduceThreads);
    TimesIsProduct(tasks / reduceThreads, mapThreads);
  }

  /** With 5 map threads, 3 reduce threads and 256 reduce tasks, task 255 is never queued: the keys
      that fall to it are missing from the result. */
  lemma {:induction false} LastTaskLost()
    ensures Queued(256, 3, 5) == 255
  {
    QuotaClosed(85, 256 - 85 * 5, 3);
    TimesIsProduct(85, 3);
  }
}
