/** What a whole job computes: from the pairs each map task emits, through the intermediate tables and
    the group-by, to the pairs each reduce task emits, whoever runs the tasks. */
module MapReduceJob {
  import opened Options
  import opened KeyOrder
  import opened IntermediateTable
  import opened ValueIterator
  import opened GroupReduce
  import opened ReduceWorker
  import TaskQueue
  import opened TaskQueueRuns
  import opened KWayMerge
  import opened Permutations

  /** The user's callbacks and choices; taskOf is reduce_pos of emit_intermediate. */
  datatype Job = Job(taskOf: Key -> nat, reduceTasks: nat, combiner: Option<seq<Val> -> Val>, reduce: Reducer,
                     queuePerTask: bool)

  ghost predicate ValidJob(job: Job) {
    && (forall k :: TaskOf(job, k) < job.reduceTasks)
    && (forall a, b :: KeyCmp(a, b) == 0 ==> TaskOf(job, a) == TaskOf(job, b))
  }

  function TaskOf(job: Job, key: Key): nat {
    job.taskOf(key)
  }

  /** r is what is left of p when n is taken away as often as possible. */
  ghost predicate IsRest(p: nat, n: nat, r: nat) {
    r < n && exists q: nat :: p == q * n + r
  }

  lemma {:induction false} RestsAreRests(partition: (nat, Key) -> nat, n: nat)
    requires n > 0
    ensures forall k :: IsRest(partition(n, k), n, partition(n, k) % n)
  {
    forall k
      ensures IsRest(partition(n, k), n, partition(n, k) % n)
    {
      var p := partition(n, k);
      assert p == (p / n) * n + p % n;
    }
  }

  /** emit_intermediate takes the partition's number modulo the number of reduce tasks, so any partition that
      sends equal keys to one number will do. */
  function JobOf(partition: (nat, Key) -> nat, reduceTasks: nat, combiner: Option<seq<Val> -> Val>, reduce: Reducer,
                 queuePerTask: bool): (job: Job)
    requires reduceTasks > 0
    requires forall a, b :: KeyCmp(a, b) == 0 ==> partition(reduceTasks, a) == partition(reduceTasks, b)
    ensures ValidJob(job)
    ensures forall k :: IsRest(partition(reduceTasks, k), reduceTasks, TaskOf(job, k))
    ensures job.reduceTasks == reduceTasks && job.combiner == combiner && job.reduce == reduce
    ensures job.queuePerTask == queuePerTask
  {
    RestsAreRests(partition, reduceTasks);
    Job(k => partition(reduceTasks, k) % reduceTasks, reduceTasks, combiner, reduce, queuePerTask)
  }

  /** The pairs that go to reduce task j. */
  function PairsFor(job: Job, pairs: seq<KeyVal>, j: nat): seq<KeyVal> {
    if pairs == [] then []
    else
      var last := pairs[|pairs| - 1];
      PairsFor(job, pairs[..|pairs| - 1], j) + if TaskOf(job, last.key) == j then [last] else []
  }

  /** intermediate_vals[t][j] when thread t has emitted `pairs` for reduce task j, and nothing else. */
  function PlainTable(pairs: seq<KeyVal>): (table: seq<KeyVals>)
    ensures ReadableTable(table)
  {
    TableRefinesMap(pairs);
    InsertAll(pairs)
  }

  /** The same after the combiner, if there is one. */
  function CombinedTable(combiner: Option<seq<Val> -> Val>, table: seq<KeyVals>): (r: seq<KeyVals>)
    requires ReadableTable(table)
    ensures ReadableTable(r)
  {
    if combiner.None? then table
    else
      CombineKeepsReadable(combiner.value, table);
      CombineTable(combiner.value, table)
  }

  /** What each of several threads emitted for reduce task j. */
  function EmittedFor(job: Job, emitted: seq<seq<KeyVal>>, j: nat): (r: seq<seq<KeyVal>>)
    ensures |r| == |emitted| && forall t :: 0 <= t < |r| ==> r[t] == PairsFor(job, emitted[t], j)
  {
    seq(|emitted|, t requires 0 <= t < |emitted| => PairsFor(job, emitted[t], j))
  }

  function PlainTables(column: seq<seq<KeyVal>>): (tables: Tables)
    ensures ReadableTables(tables)
    ensures |tables| == |column| && forall t :: 0 <= t < |tables| ==> tables[t] == PlainTable(column[t])
  {
    seq(|column|, t requires 0 <= t < |column| => PlainTable(column[t]))
  }

  function CombinedTables(combiner: Option<seq<Val> -> Val>, tables: Tables): (r: Tables)
    requires ReadableTables(tables)
    ensures ReadableTables(r)
    ensures |r| == |tables| && forall t :: 0 <= t < |r| ==> r[t] == CombinedTable(combiner, tables[t])
  {
    seq(|tables|, t requires 0 <= t < |tables| => CombinedTable(combiner, tables[t]))
  }

  /** Everything a reduce task emits, from the pairs each thread emitted for it. */
  function TaskOutput(job: Job, column: seq<seq<KeyVal>>): seq<KeyVal> {
    Outputs(job.reduce, Groups(CombinedTables(job.combiner, PlainTables(column)), Zeros(|column|)))
  }

  /** What each of the reduce tasks emits. */
  function TaskOutputs(job: Job, emitted: seq<seq<KeyVal>>): (r: seq<seq<KeyVal>>)
    ensures |r| == job.reduceTasks && forall j :: 0 <= j < |r| ==> r[j] == TaskOutput(job, EmittedFor(job, emitted, j))
  {
    seq(job.reduceTasks, (j: nat) => TaskOutput(job, EmittedFor(job, emitted, j)))
  }

  // ---------- which thread runs which task ----------

  /** The slot a task's output goes to: its thread's, or its own. */
  function Slot(byTask: bool, d: Delivery): nat {
    if byTask then d.task.id else d.thread
  }

  /** What the delivered tasks put into slot q, in delivery order. */
  function Collected(items: seq<seq<KeyVal>>, deliveries: seq<Delivery>, byTask: bool, q: nat): seq<KeyVal>
    requires forall d :: d in deliveries ==> d.task.id < |items|
  {
    if deliveries == [] then []
    else
      var d := deliveries[|deliveries| - 1];
      Collected(items, deliveries[..|deliveries| - 1], byTask, q)
      + if Slot(byTask, d) == q then items[d.task.id] else []
  }

  function Ids(deliveries: seq<Delivery>): (r: seq<nat>)
    ensures |r| == |deliveries| && forall i :: 0 <= i < |r| ==> r[i] == deliveries[i].task.id
  {
    if deliveries == [] then []
    else Ids(deliveries[..|deliveries| - 1]) + [deliveries[|deliveries| - 1].task.id]
  }

  /** Each of the tasks 0 .. n-1 is handed out exactly once, each to one of `slots` threads. */
  ghost predicate HandsOut(deliveries: seq<Delivery>, n: nat, slots: nat) {
    && multiset(Ids(deliveries)) == multiset(Iota(n))
    && forall i :: 0 <= i < |deliveries| ==> deliveries[i].thread < slots
  }

  /** HandsOut excludes no schedule: any order of the tasks and any choice of threads meets it. */
  lemma {:induction false} AnyScheduleHandsOut(order: seq<nat>, threads: seq<nat>, n: nat, slots: nat)
    requires multiset(order) == multiset(Iota(n))
    requires |threads| == |order| && forall i :: 0 <= i < |threads| ==> threads[i] < slots
    ensures exists deliveries: seq<Delivery> ::
      && HandsOut(deliveries, n, slots)
      && Ids(deliveries) == order
      && |deliveries| == |threads| && forall i :: 0 <= i < |threads| ==> deliveries[i].thread == threads[i]
  {
    var deliveries :=
      seq(|order|, i requires 0 <= i < |order| => Delivery(threads[i], 0, TaskQueue.Task(order[i], 0, 0)));
    assert Ids(deliveries) == order;
    assert HandsOut(deliveries, n, slots);
  }

  lemma {:induction false} HandedOutIds(deliveries: seq<Delivery>, n: nat, slots: nat)
    requires HandsOut(deliveries, n, slots)
    ensures forall d :: d in deliveries ==> d.task.id < n && d.thread < slots
  {
    forall i | 0 <= i < |deliveries|
      ensures deliveries[i].task.id < n
    {
      assert Ids(deliveries)[i] in multiset(Iota(n));
    }
  }

  /** Slots 0 .. n-1. */
  function Slots(items: seq<seq<KeyVal>>, deliveries: seq<Delivery>, byTask: bool, n: nat): (slots: seq<seq<KeyVal>>)
    requires forall d :: d in deliveries ==> d.task.id < |items|
    ensures |slots| == n && forall q :: 0 <= q < n ==> slots[q] == Collected(items, deliveries, byTask, q)
  {
    seq(n, (q: nat) => Collected(items, deliveries, byTask, q))
  }

  lemma {:induction false} SlotsGather(items: seq<seq<KeyVal>>, deliveries: seq<Delivery>, byTask: bool, n: nat)
    requires forall d :: d in deliveries ==> d.task.id < |items| && Slot(byTask, d) < n
    ensures Together(Slots(items, deliveries, byTask, n), n) == Gather(items, Ids(deliveries))
  {
    if deliveries == [] {
      NothingTogether(Slots(items, deliveries, byTask, n), n);
    } else {
      var init, d := deliveries[..|deliveries| - 1], deliveries[|deliveries| - 1];
      SlotsGather(items, init, byTask, n);
      TogetherGrows(Slots(items, init, byTask, n), Slots(items, deliveries, byTask, n), Slot(byTask, d),
        items[d.task.id], n);
      assert Ids(deliveries)[..|deliveries| - 1] == Ids(init);
    }
  }

  /** Whoever runs the tasks, and in whatever order, the slots together hold every task's items. */
  lemma {:induction false} SlotsHoldEverything(items: seq<seq<KeyVal>>, deliveries: seq<Delivery>, byTask: bool,
                                               slots: nat, tasks: nat, n: nat)
    requires HandsOut(deliveries, tasks, slots) && tasks <= |items|
    requires n == (if byTask then |items| else slots)
    ensures forall d :: d in deliveries ==> d.task.id < |items|
    ensures Together(Slots(items, deliveries, byTask, n), n) == Together(items, tasks)
  {
    HandedOutIds(deliveries, tasks, slots);
    SlotsGather(items, deliveries, byTask, n);
    GatherPermutation(items, Ids(deliveries), Iota(tasks));
    GatherIota(items, tasks);
  }
}
