/** The output queues after the reduce phase: sorted, and together everything the reduce tasks emitted. */
module JobOutput {
  import opened Sequences
  import opened KeyOrder
  import opened IntermediateTable
  import opened ValueIterator
  import opened OutputQueue
  import opened GroupReduce
  import opened ReduceWorker
  import opened TaskQueueRuns
  import opened KWayMerge
  import opened MapReduceJob
  import opened Permutations
  import opened JobResult

  /** What a queue per reduce task needs of the user's reduce to stay sorted: it emits under the key
      it was called with. */
  ghost predicate EmitsUnderKey(reduce: Reducer) {
    forall k, vals, i :: 0 <= i < |reduce(k, vals)| ==> KeyCmp(reduce(k, vals)[i].key, k) == 0
  }

  /** Ascending reduce calls that emit under the given key emit in order. */
  lemma {:induction false} AscendingCallsEmitSorted(reduce: Reducer, groups: seq<Group>)
    requires EmitsUnderKey(reduce) && AscendingGroups(groups)
    ensures Sorted(Outputs(reduce, groups))
    ensures forall i :: 0 <= i < |Outputs(reduce, groups)| ==>
              groups != [] && KeyCmp(Outputs(reduce, groups)[i].key, groups[|groups| - 1].key) <= 0
  {
    if groups != [] {
      var init, last := groups[..|groups| - 1], groups[|groups| - 1];
      AscendingCallsEmitSorted(reduce, init);
      assert init != [] ==> KeyCmp(init[|init| - 1].key, last.key) < 0;
      SortedConcat(Outputs(reduce, init), reduce(last.key, DrainAll(last.entries)), last.key);
    }
  }

  lemma {:induction false} SortedConcat(a: seq<KeyVal>, b: seq<KeyVal>, k: Key)
    requires Sorted(a) && forall i :: 0 <= i < |a| ==> KeyCmp(a[i].key, k) <= 0
    requires forall i :: 0 <= i < |b| ==> KeyCmp(b[i].key, k) == 0
    ensures Sorted(a + b) && forall i :: 0 <= i < |a + b| ==> KeyCmp((a + b)[i].key, k) <= 0
  {
  }

  lemma {:induction false} TaskOutputSorted(job: Job, column: seq<seq<KeyVal>>)
    requires EmitsUnderKey(job.reduce)
    ensures Sorted(TaskOutput(job, column))
  {
    var tables, pos := CombinedTables(job.combiner, PlainTables(column)), Zeros(|column|);
    GroupsIsGrouping(tables, pos);
    AscendingCallsEmitSorted(job.reduce, Groups(tables, pos));
  }

  /** A queue of its own holds the output of one task, which was handed out at most once. */
  lemma {:induction false} CollectedOnce(items: seq<seq<KeyVal>>, runs: seq<Delivery>, q: nat)
    requires multiset(Ids(runs))[q] <= 1 && q < |items|
    requires forall d :: d in runs ==> d.task.id < |items|
    ensures Collected(items, runs, true, q) == if multiset(Ids(runs))[q] == 1 then items[q] else []
  {
    if runs != [] {
      var init, d := runs[..|runs| - 1], runs[|runs| - 1];
      var before := Collected(items, init, true, q);
      assert Ids(runs) == Ids(init) + [d.task.id];
      CountSnoc(Ids(init), d.task.id, q);
      CollectedOnce(items, init, q);
      CollectedLast(items, runs, q);
      if d.task.id == q {
        assert before == [] && before + items[q] == items[q];
      }
    }
  }

  lemma {:induction false} CollectedLast(items: seq<seq<KeyVal>>, runs: seq<Delivery>, q: nat)
    requires runs != [] && forall d :: d in runs ==> d.task.id < |items|
    ensures var init, id := runs[..|runs| - 1], runs[|runs| - 1].task.id;
            Collected(items, runs, true, q)
            == if id == q then Collected(items, init, true, q) + items[id] else Collected(items, init, true, q)
  {
  }

  lemma {:induction false} CountSnoc(s: seq<nat>, last: nat, x: nat)
    ensures multiset(s + [last])[x] == multiset(s)[x] + if x == last then 1 else 0
  {
  }

  lemma {:induction false} IotaOnce(n: nat, id: nat)
    ensures multiset(Iota(n))[id] == if id < n then 1 else 0
  {
    DistinctOnce(Iota(n), id);
    assert id < n ==> Iota(n)[id] == id;
  }

  /** Every queue is sorted: a shared one because insert_keyval sorts, one per task because one
      task's reduce calls ascend. */
  lemma {:induction false} QueueSorted(job: Job, emitted: seq<seq<KeyVal>>, runs: seq<Delivery>, queued: nat,
                                       threads: nat, q: nat)
    requires HandsOut(runs, queued, threads) && queued <= job.reduceTasks
    requires job.queuePerTask ==> q < job.reduceTasks && EmitsUnderKey(job.reduce)
    ensures forall d :: d in runs ==> d.task.id < job.reduceTasks
    ensures Sorted(EmitAll(job.queuePerTask, [], Collected(TaskOutputs(job, emitted), runs, job.queuePerTask, q)))
  {
    HandedOutIds(runs, queued, threads);
    var outputs := TaskOutputs(job, emitted);
    if job.queuePerTask {
      AppendingQueueKeepsOrder([], Collected(outputs, runs, true, q));
      IotaOnce(queued, q);
      CollectedOnce(outputs, runs, q);
      TaskOutputSorted(job, EmittedFor(job, emitted, q));
      assert [] + Collected(outputs, runs, true, q) == Collected(outputs, runs, true, q);
    } else {
      SortingQueueIsSorted([], Collected(outputs, runs, false, q));
    }
  }

  /** Rows that hold what was collected in every slot hold, together, every delivered task's items. */
  lemma {:induction false} RowsHoldEverything(rows: seq<seq<KeyVal>>, items: seq<seq<KeyVal>>, runs: seq<Delivery>,
                                              byTask: bool, slots: nat, tasks: nat)
    requires HandsOut(runs, tasks, slots) && tasks <= |items| && |rows| == (if byTask then |items| else slots)
    requires forall d :: d in runs ==> d.task.id < |items|
    requires forall q :: 0 <= q < |rows| ==> multiset(rows[q]) == multiset(Collected(items, runs, byTask, q))
    ensures multiset(Flatten(rows)) == Together(items, tasks)
  {
    TogetherSame(rows, Slots(items, runs, byTask, |rows|), |rows|);
    SlotsHoldEverything(items, runs, byTask, slots, tasks, |rows|);
    FlattenTogether(rows, |rows|);
    assert rows[..|rows|] == rows;
  }

  /** All map threads together emit what all map tasks together emit. */
  lemma {:induction false} ThreadsEmitEverything(mapped: seq<seq<KeyVal>>, runs: seq<Delivery>, threads: nat,
                                                 emitted: seq<seq<KeyVal>>)
    requires HandsOut(runs, |mapped|, threads) && |emitted| == threads
    requires forall d :: d in runs ==> d.task.id < |mapped|
    requires forall t :: 0 <= t < threads ==> emitted[t] == Collected(mapped, runs, false, t)
    ensures multiset(Flatten(emitted)) == multiset(Flatten(mapped))
  {
    RowsHoldEverything(emitted, mapped, runs, false, threads, |mapped|);
    FlattenTogether(mapped, |mapped|);
    assert mapped[..|mapped|] == mapped;
  }
}
