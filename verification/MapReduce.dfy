/** map_reduce(): the map phase, the reduce phase and the merge, each run to its barrier, and what the
    result of a whole job is. */
module MapReduce {
  import opened Sequences
  import opened Options
  import opened KeyOrder
  import opened IntermediateTable
  import opened ValueIterator
  import opened OutputQueue
  import opened GroupReduce
  import opened ReduceWorker
  import opened TaskQueueRuns
  import opened TaskGeneration
  import opened MapReduceJob
  import opened Permutations
  import opened JobResult
  import opened JobOutput
  import JobConsequences
  import KWayMerge
  import MergeTree

  /** env->intermediate_vals: one row per map thread, one array per reduce task. */
  type Grid = seq<seq<KeyValsArr>>

  ghost predicate Row(row: seq<KeyValsArr>, thread: nat, tasks: nat) {
    |row| == tasks && forall j :: 0 <= j < |row| ==> row[j].thread == thread && row[j].task == j
  }

  ghost predicate IsGrid(grid: Grid, threads: nat, tasks: nat) {
    |grid| == threads && forall t :: 0 <= t < |grid| ==> Row(grid[t], t, tasks)
  }

  // ---------- the map phase ----------

  predicate IsTask(job: Job, j: int) {
    0 <= j < job.reduceTasks
  }

  /** The tables of a thread that has emitted `pairs`. */
  ghost predicate Filled(job: Job, row: seq<KeyValsArr>, pairs: seq<KeyVal>)
    requires |row| == job.reduceTasks
    reads row
  {
    forall j {:trigger IsTask(job, j)} :: IsTask(job, j) ==>
      row[j].Valid() && row[j].pos == 0 && row[j].arr == PlainTable(PairsFor(job, pairs, j))
  }

  lemma {:induction false} PairsForSnoc(job: Job, pairs: seq<KeyVal>, kv: KeyVal, j: nat)
    ensures PairsFor(job, pairs + [kv], j) == PairsFor(job, pairs, j) + if TaskOf(job, kv.key) == j then [kv] else []
  {
    assert (pairs + [kv])[..|pairs|] == pairs;
  }

  lemma {:induction false} PlainTableSnoc(pairs: seq<KeyVal>, kv: KeyVal)
    ensures PlainTable(pairs + [kv]) == Insert(PlainTable(pairs), kv.key, kv.val)
  {
    assert (pairs + [kv])[..|pairs|] == pairs;
  }

  /** emit_intermediate */
  method EmitIntermediate(job: Job, row: seq<KeyValsArr>, kv: KeyVal, ghost thread: nat, ghost before: seq<KeyVal>)
    requires ValidJob(job) && Row(row, thread, job.reduceTasks) && Filled(job, row, before)
    modifies row
    ensures Filled(job, row, before + [kv])
  {
    var reducePos := job.taskOf(kv.key);
    assert reducePos == TaskOf(job, kv.key) && IsTask(job, reducePos);
    row[reducePos].InsertKeyValMerged(kv.key, kv.val);
    forall j | IsTask(job, j)
      ensures row[j].Valid() && row[j].pos == 0 && row[j].arr == PlainTable(PairsFor(job, before + [kv], j))
    {
      PairsForSnoc(job, before, kv, j);
      PlainTableSnoc(PairsFor(job, before, j), kv);
      assert PairsFor(job, before, j) + [] == PairsFor(job, before, j);
    }
  }

  /** The user's map function on one task: a sequence of emits. */
  method MapTask(job: Job, row: seq<KeyValsArr>, pairs: seq<KeyVal>, ghost thread: nat, ghost before: seq<KeyVal>)
    requires ValidJob(job) && Row(row, thread, job.reduceTasks) && Filled(job, row, before)
    modifies row
    ensures Filled(job, row, before + pairs)
  {
    ghost var done := before;
    for i := 0 to |pairs|
      invariant Filled(job, row, done) && done == before + pairs[..i]
    {
      EmitIntermediate(job, row, pairs[i], thread, done);
      done := done + [pairs[i]];
    }
    assert done == before + pairs;
  }

  method NewRow(thread: nat, tasks: nat) returns (row: seq<KeyValsArr>)
    ensures Row(row, thread, tasks) && fresh(row)
    ensures forall j :: 0 <= j < |row| ==> row[j].Valid() && row[j].pos == 0 && row[j].arr == []
  {
    row := [];
    for j := 0 to tasks
      invariant Row(row, thread, j) && fresh(row)
      invariant forall i :: 0 <= i < |row| ==> row[i].Valid() && row[i].pos == 0 && row[i].arr == []
    {
      var a := new KeyValsArr(thread, j);
      row := row + [a];
    }
  }

  method NewGrid(job: Job, threads: nat) returns (grid: Grid)
    ensures IsGrid(grid, threads, job.reduceTasks)
    ensures forall t :: 0 <= t < threads ==> fresh(grid[t]) && Filled(job, grid[t], [])
  {
    grid := [];
    for t := 0 to threads
      invariant IsGrid(grid, t, job.reduceTasks)
      invariant forall u :: 0 <= u < t ==>
                Row(grid[u], u, job.reduceTasks) && fresh(grid[u]) && Filled(job, grid[u], [])
    {
      var row := NewRow(t, job.reduceTasks);
      grid := grid + [row];
    }
  }

  /** No array is in two rows. */
  lemma {:induction false} RowsApart(grid: Grid, tasks: nat, n: nat)
    requires IsGrid(grid, |grid|, tasks) && n < |grid|
    ensures forall a :: a in grid[n] ==> a.thread == n
    ensures forall t, a :: 0 <= t < |grid| && t != n && a in grid[t] ==> a !in grid[n]
  {
    forall t, a | 0 <= t < |grid| && a in grid[t]
      ensures a.thread == t
    {
      assert Row(grid[t], t, tasks);
    }
  }

  lemma {:induction false} CollectedStep(items: seq<seq<KeyVal>>, runs: seq<Delivery>, i: nat, byTask: bool, q: nat)
    requires i < |runs| && forall d :: d in runs ==> d.task.id < |items|
    ensures Collected(items, runs[..i + 1], byTask, q)
         == Collected(items, runs[..i], byTask, q) + if Slot(byTask, runs[i]) == q then items[runs[i].task.id] else []
  {
    assert runs[..i + 1][..i] == runs[..i];
  }

  /** The rows while the map tasks of `runs` have run. */
  ghost predicate Mapped(job: Job, grid: Grid, mapped: seq<seq<KeyVal>>, runs: seq<Delivery>)
    requires IsGrid(grid, |grid|, job.reduceTasks) && forall d :: d in runs ==> d.task.id < |mapped|
    reads set t, j | 0 <= t < |grid| && 0 <= j < |grid[t]| :: grid[t][j]
  {
    forall t :: 0 <= t < |grid| ==>
      Row(grid[t], t, job.reduceTasks) && Filled(job, grid[t], Collected(mapped, runs, false, t))
  }

  /** One map task, on the thread it was handed to: no other thread's row changes. */
  method MapNext(job: Job, grid: Grid, mapped: seq<seq<KeyVal>>, runs: seq<Delivery>, i: nat)
    requires ValidJob(job) && IsGrid(grid, |grid|, job.reduceTasks) && i < |runs|
    requires forall d :: d in runs ==> d.task.id < |mapped| && d.thread < |grid|
    requires Mapped(job, grid, mapped, runs[..i])
    modifies grid[runs[i].thread]
    ensures Mapped(job, grid, mapped, runs[..i + 1])
  {
    var d := runs[i];
    ghost var before := Collected(mapped, runs[..i], false, d.thread);
    MapTask(job, grid[d.thread], mapped[d.task.id], d.thread, before);
    RowsApart(grid, job.reduceTasks, d.thread);
    forall t | 0 <= t < |grid|
      ensures Row(grid[t], t, job.reduceTasks) && Filled(job, grid[t], Collected(mapped, runs[..i + 1], false, t))
    {
      CollectedStep(mapped, runs, i, false, t);
      assert Collected(mapped, runs[..i], false, t) + [] == Collected(mapped, runs[..i], false, t);
      if t != d.thread {
        assert old(Filled(job, grid[t], Collected(mapped, runs[..i], false, t)));
      }
    }
  }

  /** The tables the reduce phase finds: combined, if the job has a combiner. */
  ghost predicate Ready(job: Job, row: seq<KeyValsArr>, pairs: seq<KeyVal>)
    requires |row| == job.reduceTasks
    reads row
  {
    forall j {:trigger IsTask(job, j)} :: IsTask(job, j) ==>
      row[j].pos == 0 && row[j].arr == CombinedTable(job.combiner, PlainTable(PairsFor(job, pairs, j)))
  }

  /** The tables when the combiner has run on the first n. */
  ghost predicate ReadyBelow(job: Job, row: seq<KeyValsArr>, pairs: seq<KeyVal>, n: nat)
    requires |row| == job.reduceTasks
    reads row
  {
    forall j {:trigger IsTask(job, j)} :: IsTask(job, j) ==> row[j].pos == 0 && row[j].arr == TableAt(job, pairs, j, n)
  }

  function TableAt(job: Job, pairs: seq<KeyVal>, j: nat, n: nat): (table: seq<KeyVals>)
    ensures ReadableTable(table)
  {
    var table := PlainTable(PairsFor(job, pairs, j));
    if j < n then CombinedTable(job.combiner, table) else table
  }

  /** run_combiner for one reduce task. */
  method CombineOne(job: Job, row: seq<KeyValsArr>, i: nat, ghost thread: nat, ghost pairs: seq<KeyVal>)
    requires Row(row, thread, job.reduceTasks) && i < |row| && job.combiner.Some? && ReadyBelow(job, row, pairs, i)
    modifies row
    ensures ReadyBelow(job, row, pairs, i + 1)
  {
    assert IsTask(job, i);
    ghost var table := TableAt(job, pairs, i, i);
    assert AllReadable(table);
    RunCombiner(job.combiner.value, row[i]);
    assert row[i].arr == CombinedTable(job.combiner, table);
    forall j | IsTask(job, j)
      ensures row[j].pos == 0 && row[j].arr == TableAt(job, pairs, j, i + 1)
    {
      assert j != i ==> row[j] != row[i] && TableAt(job, pairs, j, i + 1) == TableAt(job, pairs, j, i);
    }
  }

  /** The end of map_worker: the combiner, if any, over all tables of the thread. */
  method CombineRow(job: Job, row: seq<KeyValsArr>, ghost thread: nat, ghost pairs: seq<KeyVal>)
    requires Row(row, thread, job.reduceTasks) && Filled(job, row, pairs)
    modifies row
    ensures Ready(job, row, pairs)
  {
    if job.combiner.Some? {
      for i := 0 to |row|
        invariant ReadyBelow(job, row, pairs, i)
      {
        CombineOne(job, row, i, thread, pairs);
      }
    }
  }

  ghost predicate AllReady(job: Job, grid: Grid, emitted: seq<seq<KeyVal>>)
    requires IsGrid(grid, |emitted|, job.reduceTasks)
    reads set t, j | 0 <= t < |grid| && 0 <= j < |grid[t]| :: grid[t][j]
  {
    forall t :: 0 <= t < |grid| ==> Row(grid[t], t, job.reduceTasks) && Ready(job, grid[t], emitted[t])
  }

  /** What each of the first n map threads emits, whatever order the tasks are handed out in. */
  function EmittedByThreads(mapped: seq<seq<KeyVal>>, runs: seq<Delivery>, n: nat): (r: seq<seq<KeyVal>>)
    requires forall d :: d in runs ==> d.task.id < |mapped|
    ensures |r| == n && forall t :: 0 <= t < n ==> r[t] == Collected(mapped, runs, false, t)
  {
    seq(n, (t: nat) => Collected(mapped, runs, false, t))
  }

  method MapTasks(job: Job, mapped: seq<seq<KeyVal>>, runs: seq<Delivery>, threads: nat) returns (grid: Grid)
    requires ValidJob(job) && forall d :: d in runs ==> d.task.id < |mapped| && d.thread < threads
    ensures IsGrid(grid, threads, job.reduceTasks) && forall t :: 0 <= t < threads ==> fresh(grid[t])
    ensures Mapped(job, grid, mapped, runs)
  {
    grid := NewGrid(job, threads);
    assert runs[..0] == [];
    for i := 0 to |runs|
      invariant Mapped(job, grid, mapped, runs[..i])
    {
      MapNext(job, grid, mapped, runs, i);
    }
    assert runs[..|runs|] == runs;
  }

  /** The rows when the first n threads have run their combiner. */
  ghost predicate PartlyReady(job: Job, grid: Grid, emitted: seq<seq<KeyVal>>, n: nat)
    requires IsGrid(grid, |emitted|, job.reduceTasks)
    reads set t, j | 0 <= t < |grid| && 0 <= j < |grid[t]| :: grid[t][j]
  {
    forall t :: 0 <= t < |grid| ==>
      Row(grid[t], t, job.reduceTasks)
        && if t < n then Ready(job, grid[t], emitted[t]) else Filled(job, grid[t], emitted[t])
  }

  method CombineNext(job: Job, grid: Grid, n: nat, ghost emitted: seq<seq<KeyVal>>)
    requires IsGrid(grid, |emitted|, job.reduceTasks) && n < |grid|
    requires PartlyReady(job, grid, emitted, n)
    modifies grid[n]
    ensures PartlyReady(job, grid, emitted, n + 1)
  {
    CombineRow(job, grid[n], n, emitted[n]);
    RowsApart(grid, job.reduceTasks, n);
    forall t | 0 <= t < |grid|
      ensures Row(grid[t], t, job.reduceTasks)
              && if t < n + 1 then Ready(job, grid[t], emitted[t]) else Filled(job, grid[t], emitted[t])
    {
      if t < n {
        assert old(Ready(job, grid[t], emitted[t]));
      } else if t > n {
        assert old(Filled(job, grid[t], emitted[t]));
      }
    }
  }

  /** Every thread's combiner run, after its last task. */
  method CombineRows(job: Job, grid: Grid, ghost emitted: seq<seq<KeyVal>>)
    requires IsGrid(grid, |emitted|, job.reduceTasks) && PartlyReady(job, grid, emitted, 0)
    modifies set t, j | 0 <= t < |grid| && 0 <= j < |grid[t]| :: grid[t][j]
    ensures AllReady(job, grid, emitted)
  {
    for n := 0 to |grid|
      invariant PartlyReady(job, grid, emitted, n)
    {
      CombineNext(job, grid, n, emitted);
    }
  }

  /** map(), for tasks that emit the pairs `mapped` and are handed to the threads as `runs` says. */
  method MapPhase(job: Job, mapped: seq<seq<KeyVal>>, runs: seq<Delivery>, threads: nat) returns (grid: Grid)
    requires ValidJob(job) && forall d :: d in runs ==> d.task.id < |mapped| && d.thread < threads
    ensures IsGrid(grid, threads, job.reduceTasks) && forall t :: 0 <= t < threads ==> fresh(grid[t])
    ensures AllReady(job, grid, EmittedByThreads(mapped, runs, threads))
  {
    grid := MapTasks(job, mapped, runs, threads);
    CombineRows(job, grid, EmittedByThreads(mapped, runs, threads));
  }

  // ---------- the reduce phase ----------

  /** intermediate_vals[0 .. threads-1][j] */
  function ColumnAt(grid: Grid, j: nat): (arrays: seq<KeyValsArr>)
    requires forall t :: 0 <= t < |grid| ==> j < |grid[t]|
    ensures |arrays| == |grid| && forall t :: 0 <= t < |arrays| ==> arrays[t] == grid[t][j]
  {
    seq(|grid|, t requires 0 <= t < |grid| => grid[t][j])
  }

  /** The tables reduce task j reads, all positions at the start. */
  ghost predicate Waiting(grid: Grid, tasks: nat, j: nat, tables: Tables)
    requires IsGrid(grid, |grid|, tasks) && j < tasks
    reads set t | 0 <= t < |grid| && j < |grid[t]| :: grid[t][j]
  {
    ReduceWorker.Holds(ColumnAt(grid, j), tables, KWayMerge.Zeros(|tables|))
  }

  function TaskTables(job: Job, emitted: seq<seq<KeyVal>>, j: nat): (tables: Tables)
    ensures ReadableTables(tables) && |tables| == |emitted|
  {
    CombinedTables(job.combiner, PlainTables(EmittedFor(job, emitted, j)))
  }

  lemma {:induction false} ReadyIsWaiting(job: Job, grid: Grid, emitted: seq<seq<KeyVal>>, j: nat)
    requires IsGrid(grid, |emitted|, job.reduceTasks) && IsTask(job, j) && AllReady(job, grid, emitted)
    ensures Waiting(grid, job.reduceTasks, j, TaskTables(job, emitted, j))
  {
    var arrays, tables := ColumnAt(grid, j), TaskTables(job, emitted, j);
    forall t | 0 <= t < |arrays|
      ensures arrays[t].arr == tables[t] && arrays[t].pos == 0
    {
      assert Ready(job, grid[t], emitted[t]) && IsTask(job, j);
    }
  }

  /** reduce_worker_do_next_task, on the column of whichever task it was handed. */
  method ReduceOne(job: Job, grid: Grid, itr: Iterator, out: KeyValArr, j: nat, ghost tables: Tables,
                   ghost output: seq<KeyVal>)
    requires IsGrid(grid, |grid|, job.reduceTasks) && j < job.reduceTasks && Waiting(grid, job.reduceTasks, j, tables)
    requires ReadableTables(tables) && output == Outputs(job.reduce, Groups(tables, KWayMerge.Zeros(|tables|)))
    requires itr.Empty() && itr.maxList >= |grid|
    requires out.Valid() && (job.queuePerTask || Sorted(out.arr))
    modifies (set t | 0 <= t < |grid| && j < |grid[t]| :: grid[t][j])`pos, itr, out`allocLen, out`arr
    ensures itr.Empty()
    ensures out.Valid() && (job.queuePerTask || Sorted(out.arr))
    ensures out.arr == EmitAll(job.queuePerTask, old(out.arr), output)
  {
    var arrays := ColumnAt(grid, j);
    forall t | 0 <= t < |arrays|
      ensures arrays[t].thread == t
    {
      assert Row(grid[t], t, job.reduceTasks);
    }
    ReduceTask(arrays, itr, job.reduce, job.queuePerTask, out, tables, KWayMerge.Zeros(|tables|));
  }

  /** Every task not yet handed out still has its tables waiting. */
  ghost predicate OthersWait(job: Job, grid: Grid, tables: seq<Tables>, runs: seq<Delivery>)
    requires IsGrid(grid, |grid|, job.reduceTasks) && |tables| == job.reduceTasks
    reads set t, j | 0 <= t < |grid| && 0 <= j < |grid[t]| :: grid[t][j]
  {
    forall j {:trigger IsTask(job, j)} :: IsTask(job, j) && j !in Ids(runs) ==>
      Waiting(grid, job.reduceTasks, j, tables[j])
  }

  ghost predicate QueueHolds(job: Job, queue: KeyValArr, q: nat, outputs: seq<seq<KeyVal>>, runs: seq<Delivery>)
    requires forall d :: d in runs ==> d.task.id < |outputs|
    reads queue
  {
    && queue.index == q && queue.Valid() && queue.pos == 0
    && (job.queuePerTask || Sorted(queue.arr))
    && queue.arr == EmitAll(job.queuePerTask, [], Collected(outputs, runs, job.queuePerTask, q))
  }

  /** finals[q] holds what the delivered tasks emitted into queue q. */
  ghost predicate Queues(job: Job, finals: seq<KeyValArr>, outputs: seq<seq<KeyVal>>, runs: seq<Delivery>)
    requires forall d :: d in runs ==> d.task.id < |outputs|
    reads finals
  {
    forall q :: 0 <= q < |finals| ==> QueueHolds(job, finals[q], q, outputs, runs)
  }

  lemma {:induction false} IdsStep(runs: seq<Delivery>, i: nat)
    requires i < |runs|
    ensures Ids(runs[..i + 1]) == Ids(runs[..i]) + [runs[i].task.id]
  {
  }

  /** A task handed out once is not among those handed out before. */
  lemma {:induction false} HandedOutOnce(runs: seq<Delivery>, n: nat, threads: nat, i: nat)
    requires HandsOut(runs, n, threads) && i < |runs|
    ensures runs[i].task.id !in Ids(runs[..i])
  {
    var id, ids := runs[i].task.id, Ids(runs);
    if id in Ids(runs[..i]) {
      var k :| 0 <= k < i && Ids(runs[..i])[k] == id;
      TwoPlaces(ids, k, i);
      IotaOnce(n, id);
      assert false;
    }
  }

  /** Running task j leaves the tables of the other tasks as they were. */
  method ReduceApart(job: Job, grid: Grid, itr: Iterator, out: KeyValArr, runs: seq<Delivery>, i: nat,
                     ghost tables: seq<Tables>, ghost output: seq<KeyVal>)
    requires IsGrid(grid, |grid|, job.reduceTasks) && |tables| == job.reduceTasks
    requires i < |runs| && runs[i].task.id < job.reduceTasks
    requires runs[i].task.id !in Ids(runs[..i]) && OthersWait(job, grid, tables, runs[..i])
    requires var t := tables[runs[i].task.id];
             ReadableTables(t) && output == Outputs(job.reduce, Groups(t, KWayMerge.Zeros(|t|)))
    requires itr.Empty() && itr.maxList >= |grid|
    requires out.Valid() && (job.queuePerTask || Sorted(out.arr))
    modifies (set t, j | 0 <= t < |grid| && 0 <= j < |grid[t]| :: grid[t][j])`pos, itr, out`allocLen, out`arr
    ensures OthersWait(job, grid, tables, runs[..i + 1]) && itr.Empty()
    ensures out.Valid() && (job.queuePerTask || Sorted(out.arr))
    ensures out.arr == EmitAll(job.queuePerTask, old(out.arr), output)
  {
    var id := runs[i].task.id;
    assert IsTask(job, id);
    ReduceOne(job, grid, itr, out, id, tables[id], output);
    IdsStep(runs, i);
    forall j | IsTask(job, j) && j !in Ids(runs[..i + 1])
      ensures Waiting(grid, job.reduceTasks, j, tables[j])
    {
      assert j !in Ids(runs[..i]) && j != id;
      assert old(Waiting(grid, job.reduceTasks, j, tables[j]));
    }
  }

  lemma {:induction false} QueueStep(outputs: seq<seq<KeyVal>>, runs: seq<Delivery>, i: nat, append: bool, q: nat)
    requires i < |runs| && forall d :: d in runs ==> d.task.id < |outputs|
    ensures var before := EmitAll(append, [], Collected(outputs, runs[..i], append, q));
            EmitAll(append, [], Collected(outputs, runs[..i + 1], append, q))
            == if Slot(append, runs[i]) == q then EmitAll(append, before, outputs[runs[i].task.id]) else before
  {
    var kvs := Collected(outputs, runs[..i], append, q);
    CollectedStep(outputs, runs, i, append, q);
    if Slot(append, runs[i]) == q {
      EmitAllConcat(append, [], kvs, outputs[runs[i].task.id]);
    } else {
      assert kvs + [] == kvs;
    }
  }

  /** A queue that held what the first i tasks emitted into it, and has got the next task's output if that
      is for this queue. */
  lemma {:induction false} QueueAfter(job: Job, queue: KeyValArr, q: nat, outputs: seq<seq<KeyVal>>,
                                      runs: seq<Delivery>, i: nat, before: seq<KeyVal>)
    requires i < |runs| && forall d :: d in runs ==> d.task.id < |outputs|
    requires before == EmitAll(job.queuePerTask, [], Collected(outputs, runs[..i], job.queuePerTask, q))
    requires queue.index == q && queue.Valid() && queue.pos == 0 && (job.queuePerTask || Sorted(queue.arr))
    requires queue.arr
          == if Slot(job.queuePerTask, runs[i]) == q then EmitAll(job.queuePerTask, before, outputs[runs[i].task.id])
                          else before
    ensures QueueHolds(job, queue, q, outputs, runs[..i + 1])
  {
    QueueStep(outputs, runs, i, job.queuePerTask, q);
  }

  ghost function Contents(finals: seq<KeyValArr>): (rows: seq<seq<KeyVal>>)
    reads finals
    ensures |rows| == |finals| && forall q :: 0 <= q < |rows| ==> rows[q] == finals[q].arr
  {
    if finals == [] then [] else Contents(finals[..|finals| - 1]) + [finals[|finals| - 1].arr]
  }

  /** The queues when the i-th task has put its output into its own. */
  lemma {:induction false} QueuesAfter(job: Job, finals: seq<KeyValArr>, outputs: seq<seq<KeyVal>>,
                                       runs: seq<Delivery>, i: nat, before: seq<seq<KeyVal>>)
    requires i < |runs| && |before| == |finals| && forall d :: d in runs ==> d.task.id < |outputs|
    requires forall q :: 0 <= q < |finals| ==>
               && finals[q].index == q && finals[q].Valid() && finals[q].pos == 0
               && (job.queuePerTask || Sorted(finals[q].arr))
               && IsQueued(job, before[q], outputs, runs[..i], q)
    requires forall q :: 0 <= q < |finals| ==>
               finals[q].arr == if q == Slot(job.queuePerTask, runs[i])
                                then EmitAll(job.queuePerTask, before[q], outputs[runs[i].task.id]) else before[q]
    ensures Queues(job, finals, outputs, runs[..i + 1])
  {
    forall q | 0 <= q < |finals|
      ensures QueueHolds(job, finals[q], q, outputs, runs[..i + 1])
    {
      assert IsQueued(job, before[q], outputs, runs[..i], q);
      QueueAfter(job, finals[q], q, outputs, runs, i, before[q]);
    }
  }

  ghost predicate IsQueued(job: Job, kvs: seq<KeyVal>, outputs: seq<seq<KeyVal>>, runs: seq<Delivery>, q: nat)
    requires forall d :: d in runs ==> d.task.id < |outputs|
  {
    kvs == EmitAll(job.queuePerTask, [], Collected(outputs, runs, job.queuePerTask, q))
  }

  /** What each reduce task finds and what it emits. */
  ghost predicate AreTasks(job: Job, tables: seq<Tables>, outputs: seq<seq<KeyVal>>) {
    && |tables| == |outputs| == job.reduceTasks
    && forall j {:trigger IsTask(job, j)} :: IsTask(job, j) ==>
         ReadableTables(tables[j]) && outputs[j] == Outputs(job.reduce, Groups(tables[j], KWayMerge.Zeros(|tables[j]|)))
  }

  /** One reduce task, by the thread it was handed to. */
  method ReduceNext(job: Job, grid: Grid, itr: Iterator, finals: seq<KeyValArr>, runs: seq<Delivery>, i: nat,
                    ghost tables: seq<Tables>, ghost outputs: seq<seq<KeyVal>>)
    requires IsGrid(grid, |grid|, job.reduceTasks) && i < |runs| && AreTasks(job, tables, outputs)
    requires forall d :: d in runs ==> d.task.id < job.reduceTasks && Slot(job.queuePerTask, d) < |finals|
    requires runs[i].task.id !in Ids(runs[..i])
    requires OthersWait(job, grid, tables, runs[..i]) && Queues(job, finals, outputs, runs[..i])
    requires itr.Empty() && itr.maxList >= |grid|
    modifies (set t, j | 0 <= t < |grid| && 0 <= j < |grid[t]| :: grid[t][j])`pos
    modifies itr
    modifies (set q | q in finals)`allocLen, (set q | q in finals)`arr
    ensures OthersWait(job, grid, tables, runs[..i + 1]) && Queues(job, finals, outputs, runs[..i + 1])
    ensures itr.Empty()
  {
    var d := runs[i];
    var slot, id := if job.queuePerTask then d.task.id else d.thread, d.task.id;
    assert slot == Slot(job.queuePerTask, d) && IsTask(job, id);
    forall q | 0 <= q < |finals|
      ensures finals[q].index == q && finals[q].Valid() && finals[q].pos == 0
              && (job.queuePerTask || Sorted(finals[q].arr))
      ensures IsQueued(job, finals[q].arr, outputs, runs[..i], q)
    {
      assert QueueHolds(job, finals[q], q, outputs, runs[..i]);
    }
    ghost var before := Contents(finals);
    ReduceApart(job, grid, itr, finals[slot], runs, i, tables, outputs[id]);
    QueuesAfter(job, finals, outputs, runs, i, before);
  }

  method NewQueues(n: nat) returns (finals: seq<KeyValArr>)
    ensures |finals| == n && fresh(finals)
    ensures forall q :: 0 <= q < n ==>
            finals[q].index == q && finals[q].Valid() && finals[q].arr == [] && finals[q].pos == 0
  {
    finals := [];
    for q := 0 to n
      invariant |finals| == q && fresh(finals)
      invariant forall p :: 0 <= p < q ==>
                finals[p].index == p && finals[p].Valid() && finals[p].arr == [] && finals[p].pos == 0
    {
      var queue := new KeyValArr(q);
      finals := finals + [queue];
    }
  }

  /** The reduce workers' iterators between two tasks. */
  ghost predicate AllIdle(itrs: seq<Iterator>, maxList: nat)
    reads itrs
  {
    forall t :: 0 <= t < |itrs| ==> itrs[t].Empty() && itrs[t].maxList == maxList
  }

  /** iter_init, by each reduce worker for itself. */
  method NewIterators(n: nat, numLists: nat) returns (itrs: seq<Iterator>)
    requires numLists > 0
    ensures |itrs| == n && fresh(itrs) && AllIdle(itrs, numLists)
  {
    itrs := [];
    for t := 0 to n
      invariant |itrs| == t && fresh(itrs) && AllIdle(itrs, numLists)
    {
      var itr := new Iterator(numLists);
      itrs := itrs + [itr];
    }
  }

  /** One reduce task, with the iterator of the thread it was handed to. */
  method ReduceTurn(job: Job, grid: Grid, itrs: seq<Iterator>, finals: seq<KeyValArr>, runs: seq<Delivery>, i: nat,
                    ghost tables: seq<Tables>, ghost outputs: seq<seq<KeyVal>>)
    requires IsGrid(grid, |grid|, job.reduceTasks) && i < |runs| && AreTasks(job, tables, outputs)
    requires forall d :: d in runs ==> d.task.id < job.reduceTasks && Slot(job.queuePerTask, d) < |finals|
    requires runs[i].task.id !in Ids(runs[..i]) && runs[i].thread < |itrs|
    requires OthersWait(job, grid, tables, runs[..i]) && Queues(job, finals, outputs, runs[..i])
    requires AllIdle(itrs, |grid|)
    modifies (set t, j | 0 <= t < |grid| && 0 <= j < |grid[t]| :: grid[t][j])`pos
    modifies itrs
    modifies (set q | q in finals)`allocLen, (set q | q in finals)`arr
    ensures OthersWait(job, grid, tables, runs[..i + 1]) && Queues(job, finals, outputs, runs[..i + 1])
    ensures AllIdle(itrs, |grid|)
  {
    ReduceNext(job, grid, itrs[runs[i].thread], finals, runs, i, tables, outputs);
  }

  /** Every reduce task, in the order in which they are handed out. */
  method ReduceTasks(job: Job, grid: Grid, itrs: seq<Iterator>, finals: seq<KeyValArr>, runs: seq<Delivery>,
                     ghost threads: nat, ghost queued: nat, ghost tables: seq<Tables>, ghost outputs: seq<seq<KeyVal>>)
    requires IsGrid(grid, |grid|, job.reduceTasks) && AreTasks(job, tables, outputs)
    requires forall d :: d in runs ==> d.task.id < job.reduceTasks && Slot(job.queuePerTask, d) < |finals|
    requires HandsOut(runs, queued, threads) && |itrs| == threads
    requires OthersWait(job, grid, tables, []) && Queues(job, finals, outputs, [])
    requires AllIdle(itrs, |grid|)
    modifies (set t, j | 0 <= t < |grid| && 0 <= j < |grid[t]| :: grid[t][j])`pos
    modifies itrs
    modifies (set q | q in finals)`allocLen, (set q | q in finals)`arr
    ensures Queues(job, finals, outputs, runs)
  {
    assert runs[..0] == [];
    for i := 0 to |runs|
      invariant OthersWait(job, grid, tables, runs[..i]) && Queues(job, finals, outputs, runs[..i])
      invariant AllIdle(itrs, |grid|)
    {
      HandedOutOnce(runs, queued, threads, i);
      ReduceTurn(job, grid, itrs, finals, runs, i, tables, outputs);
    }
    assert runs[..|runs|] == runs;
  }

  /** reduce(), for tasks handed to the threads as `runs` says. */
  method ReducePhase(job: Job, grid: Grid, runs: seq<Delivery>, threads: nat, ghost queued: nat,
                     ghost tables: seq<Tables>, ghost outputs: seq<seq<KeyVal>>)
    returns (finals: seq<KeyValArr>)
    requires IsGrid(grid, |grid|, job.reduceTasks) && |grid| > 0 && AreTasks(job, tables, outputs)
    requires HandsOut(runs, queued, threads) && queued <= job.reduceTasks
    requires OthersWait(job, grid, tables, [])
    modifies (set t, j | 0 <= t < |grid| && 0 <= j < |grid[t]| :: grid[t][j])`pos
    ensures |finals| == (if job.queuePerTask then job.reduceTasks else threads) && fresh(finals)
    ensures forall d :: d in runs ==> d.task.id < job.reduceTasks
    ensures Queues(job, finals, outputs, runs)
  {
    HandedOutIds(runs, queued, threads);
    finals := NewQueues(if job.queuePerTask then job.reduceTasks else threads);
    var itrs := NewIterators(threads, |grid|);
    ReduceTasks(job, grid, itrs, finals, runs, threads, queued, tables, outputs);
  }

  // ---------- the whole job ----------

  /** num_map_threads once map() has capped it with the number of map tasks. */
  function MapThreads(numMapThreads: nat, numMapTasks: nat): (threads: nat)
    ensures threads <= numMapThreads && threads <= numMapTasks
    ensures threads == numMapThreads || threads == numMapTasks
  {
    if numMapTasks < numMapThreads then numMapTasks else numMapThreads
  }

  lemma {:induction false} QueueHasItems(job: Job, queue: KeyValArr, q: nat, outputs: seq<seq<KeyVal>>,
                                         runs: seq<Delivery>)
    requires forall d :: d in runs ==> d.task.id < |outputs|
    requires QueueHolds(job, queue, q, outputs, runs)
    ensures multiset(queue.arr) == multiset(Collected(outputs, runs, job.queuePerTask, q))
  {
    EmitAllKeepsEverything(job.queuePerTask, [], Collected(outputs, runs, job.queuePerTask, q));
  }

  /** The queues as rows: sorted, and together everything the delivered tasks emitted. */
  lemma {:induction false} QueuesAreRows(job: Job, finals: seq<KeyValArr>, emitted: seq<seq<KeyVal>>,
                                         runs: seq<Delivery>, queued: nat, threads: nat, rows: seq<seq<KeyVal>>)
    requires |finals| == |rows| == (if job.queuePerTask then job.reduceTasks else threads)
    requires HandsOut(runs, queued, threads) && queued <= job.reduceTasks
    requires forall d :: d in runs ==> d.task.id < job.reduceTasks
    requires Queues(job, finals, TaskOutputs(job, emitted), runs)
    requires job.queuePerTask ==> EmitsUnderKey(job.reduce)
    requires forall q :: 0 <= q < |rows| ==> rows[q] == finals[q].arr
    ensures forall q :: 0 <= q < |finals| ==> finals[q].index == q && finals[q].pos == 0 && Sorted(rows[q])
    ensures multiset(Flatten(rows)) == Together(TaskOutputs(job, emitted), queued)
  {
    var outputs := TaskOutputs(job, emitted);
    forall q | 0 <= q < |finals|
      ensures finals[q].index == q && finals[q].pos == 0 && Sorted(rows[q])
      ensures multiset(rows[q]) == multiset(Collected(outputs, runs, job.queuePerTask, q))
    {
      assert QueueHolds(job, finals[q], q, outputs, runs);
      QueueHasItems(job, finals[q], q, outputs, runs);
      QueueSorted(job, emitted, runs, queued, threads, q);
    }
    RowsHoldEverything(rows, outputs, runs, job.queuePerTask, threads, queued);
  }

  /** merge(), on the output queues of the reduce phase. */
  method MergePhase(job: Job, finals: seq<KeyValArr>, numMergeThreads: nat, ghost emitted: seq<seq<KeyVal>>,
                    ghost outputs: seq<seq<KeyVal>>, ghost runs: seq<Delivery>, ghost queued: nat, ghost threads: nat)
    returns (result: seq<KeyVal>, rounds: nat)
    requires |finals| == (if job.queuePerTask then job.reduceTasks else threads) && |finals| >= 1
    requires HandsOut(runs, queued, threads) && queued <= job.reduceTasks
    requires forall d :: d in runs ==> d.task.id < job.reduceTasks
    requires outputs == TaskOutputs(job, emitted) && Queues(job, finals, outputs, runs)
    requires job.queuePerTask ==> EmitsUnderKey(job.reduce)
    requires numMergeThreads >= 1 && (|finals| > 1 ==> 2 * numMergeThreads <= |finals|)
    modifies (set v | v in finals)`pos
    ensures Sorted(result) && multiset(result) == Together(outputs, queued)
    ensures rounds == if |finals| <= 1 then 0 else 1 + MergeTree.Log2(numMergeThreads)
  {
    ghost var rows := Contents(finals);
    QueuesAreRows(job, finals, emitted, runs, queued, threads, rows);
    result, rounds := MergeTree.Merge(finals, numMergeThreads, rows);
    StableSortIsPermutation(Flatten(rows), result);
  }

  lemma {:induction false} TasksAreReady(job: Job, grid: Grid, emitted: seq<seq<KeyVal>>)
    returns (tables: seq<Tables>, outputs: seq<seq<KeyVal>>)
    requires IsGrid(grid, |emitted|, job.reduceTasks) && AllReady(job, grid, emitted)
    ensures |tables| == |outputs| == job.reduceTasks
    ensures OthersWait(job, grid, tables, []) && AreTasks(job, tables, outputs)
    ensures outputs == TaskOutputs(job, emitted)
  {
    tables, outputs := seq(job.reduceTasks, (j: nat) => TaskTables(job, emitted, j)), TaskOutputs(job, emitted);
    forall j | IsTask(job, j)
      ensures Waiting(grid, job.reduceTasks, j, tables[j])
      ensures ReadableTables(tables[j])
              && outputs[j] == Outputs(job.reduce, Groups(tables[j], KWayMerge.Zeros(|tables[j]|)))
    {
      ReadyIsWaiting(job, grid, emitted, j);
    }
  }

  /** map_reduce(): for any pairs the map tasks emit, any thread counts env_init may settle on, and any
      way the map and reduce tasks are handed out, the result array is sorted and holds exactly what
      one reduce call per distinct key, on exactly the values emitted for it, emits; for the keys whose
      reduce task is queued, which AllQueuedIff tells are all of them or not. Each map thread emits what its
      tasks emit, and all threads together emit all of it. Every phase is taken as a completed barrier. */
  method MapReduce(job: Job, mapped: seq<seq<KeyVal>>, numMapThreads: nat, numReduceThreads: nat, numMergeThreads: nat,
                   mapRuns: seq<Delivery>, reduceRuns: seq<Delivery>)
    returns (result: seq<KeyVal>, rounds: nat)
    requires ValidJob(job) && job.reduceTasks > 0 && mapped != [] && numMapThreads > 0 && numReduceThreads > 0
    requires job.queuePerTask ==> EmitsUnderKey(job.reduce)
    requires var mergeLen := if job.queuePerTask then job.reduceTasks else numReduceThreads;
             numMergeThreads >= 1 && (mergeLen > 1 ==> 2 * numMergeThreads <= mergeLen)
    requires HandsOut(mapRuns, |mapped|, MapThreads(numMapThreads, |mapped|))
    requires var queued := Queued(job.reduceTasks, numReduceThreads, MapThreads(numMapThreads, |mapped|));
             HandsOut(reduceRuns, queued, numReduceThreads)
    ensures var mergeLen := if job.queuePerTask then job.reduceTasks else numReduceThreads;
            rounds == if mergeLen <= 1 then 0 else 1 + MergeTree.Log2(numMergeThreads)
    ensures forall d :: d in mapRuns ==> d.task.id < |mapped|
    ensures var threads := MapThreads(numMapThreads, |mapped|);
            var emitted := EmittedByThreads(mapped, mapRuns, threads);
            && multiset(Flatten(emitted)) == multiset(Flatten(mapped))
            && IsResult(job, emitted, Queued(job.reduceTasks, numReduceThreads, threads), result)
  {
    var threads := MapThreads(numMapThreads, |mapped|);
    ghost var queued := Queued(job.reduceTasks, numReduceThreads, threads);
    HandedOutIds(mapRuns, |mapped|, threads);
    ghost var emitted := EmittedByThreads(mapped, mapRuns, threads);
    ThreadsEmitEverything(mapped, mapRuns, threads, emitted);
    var grid := MapPhase(job, mapped, mapRuns, threads);
    ghost var tables, outputs := TasksAreReady(job, grid, emitted);
    var finals := ReducePhase(job, grid, reduceRuns, numReduceThreads, queued, tables, outputs);
    result, rounds := MergePhase(job, finals, numMergeThreads, emitted, outputs, reduceRuns, queued, numReduceThreads);
    OutputsMakeResult(job, emitted, queued, result);
  }

  /** A thread count as env_init settles on it. */
  function Given(arg: int, numProcs: nat): nat {
    if arg > 0 then arg else numProcs
  }

  /** The map threads of a job with some number of map tasks, and the reduce tasks that get queued. */
  function MapThreadsOf(numProcs: nat, argMap: int, numMapTasks: nat): nat {
    MapThreads(Given(argMap, numProcs), numMapTasks)
  }

  function QueuedOf(job: Job, numProcs: nat, argMap: int, argReduce: int, numMapTasks: nat): nat
    requires numProcs > 0
  {
    Queued(job.reduceTasks, Given(argReduce, numProcs), MapThreadsOf(numProcs, argMap, numMapTasks))
  }

  /** With no more map tasks than reduce threads, in particular with a single one, every reduce task is
      queued, however many map threads are asked for. */
  lemma {:induction false} FewMapTasksLoseNothing(job: Job, numProcs: nat, argMap: int, argReduce: int,
                                                  numMapTasks: nat)
    requires numProcs > 0 && numMapTasks <= Given(argReduce, numProcs)
    ensures QueuedOf(job, numProcs, argMap, argReduce, numMapTasks) == job.reduceTasks
  {
    TasksLost(job.reduceTasks, Given(argReduce, numProcs), MapThreadsOf(numProcs, argMap, numMapTasks));
  }

  /** Then every emitted key is in the result, if reduce emits anything for the values it reads. */
  lemma {:induction false} FewMapTasksKeepEveryKey(job: Job, emitted: seq<seq<KeyVal>>, numProcs: nat, argMap: int,
                                                   argReduce: int,
                                                   numMapTasks: nat, result: seq<KeyVal>, k: Key)
    requires numProcs > 0 && numMapTasks <= Given(argReduce, numProcs)
    requires ValidJob(job) && EmitsUnderKey(job.reduce) && forall key, vals :: vals != [] ==>
             job.reduce(key, vals) != []
    requires IsResult(job, emitted, QueuedOf(job, numProcs, argMap, argReduce, numMapTasks), result)
    ensures IsEmitted(emitted, k) <==> exists i :: 0 <= i < |result| && KeyCmp(result[i].key, k) == 0
  {
    FewMapTasksLoseNothing(job, numProcs, argMap, argReduce, numMapTasks);
    JobConsequences.QueuedKeysAreFound(job, emitted, job.reduceTasks, result, k);
  }

  /** map_reduce() from env_init on: whatever thread counts the user asks for, the merge rounds find at
      least two inputs per thread, and the result is that of MapReduce. Taking the phases as completed
      barriers leaves out that tpool_set aborts when there are more reduce or merge threads than the pool
      serves, which ThreadPoolRaces.JobRoundsFitIff is about. */
  method RunJob(job: Job, mapped: seq<seq<KeyVal>>, numProcs: nat, argMap: int, argReduce: int, argMerge: int,
                mapRuns: seq<Delivery>, reduceRuns: seq<Delivery>)
    returns (result: seq<KeyVal>, rounds: nat)
    requires ValidJob(job) && mapped != [] && numProcs > 0
    requires job.reduceTasks == MergeTree.ReduceTasks(job.queuePerTask)
    requires job.queuePerTask ==> EmitsUnderKey(job.reduce)
    requires HandsOut(mapRuns, |mapped|, MapThreadsOf(numProcs, argMap, |mapped|))
    requires HandsOut(reduceRuns, QueuedOf(job, numProcs, argMap, argReduce, |mapped|), Given(argReduce, numProcs))
    ensures var numReduce := Given(argReduce, numProcs);
            rounds == if MergeTree.MergeLen(job.queuePerTask, numReduce) <= 1 then 0
                      else 1 + MergeTree.Log2(MergeTree.MergeThreads(job.queuePerTask, argMerge, numReduce))
    ensures forall d :: d in mapRuns ==> d.task.id < |mapped|
    ensures var emitted := EmittedByThreads(mapped, mapRuns, MapThreadsOf(numProcs, argMap, |mapped|));
            && multiset(Flatten(emitted)) == multiset(Flatten(mapped))
            && IsResult(job, emitted, QueuedOf(job, numProcs, argMap, argReduce, |mapped|), result)
            && (|mapped| <= Given(argReduce, numProcs) ==> IsResult(job, emitted, job.reduceTasks, result))
  {
    if |mapped| <= Given(argReduce, numProcs) {
      FewMapTasksLoseNothing(job, numProcs, argMap, argReduce, |mapped|);
    }
    var numMap, numReduce, numMerge, numReduceTasks, mergeLen :=
      MergeTree.EnvInitCounts(numProcs, job.queuePerTask, argMap, argReduce, argMerge);
    result, rounds := MapReduce(job, mapped, numMap, numReduce, numMerge, mapRuns, reduceRuns);
  }
}
