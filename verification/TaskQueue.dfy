/** taskQ.c: per-locality work queues with a free queue each. Dequeuing scans the queues in a circle;
    a task taken is kept on the free queue. First one caller at a time, then any interleaving. */
module TaskQueue {

  datatype Task = Task(id: nat, len: nat, data: int)

  type Queues = seq<seq<Task>>

  /** Number d on the scan that starts at queue `index`. */
  function Probed(index: nat, d: nat, n: nat): (q: nat)
    requires index < n && d <= n
    ensures q < n
  {
    if index + d < n then index + d else index + d - n
  }

  lemma {:induction false} Successor(q: nat, n: nat)
    requires q < n
    ensures (q + 1) % n == if q + 1 == n then 0 else q + 1
  {
  }

  /** The scan meets every queue, and comes back to its start after exactly n steps. */
  lemma {:induction false} ScanMeetsAll(index: nat, n: nat, q: nat) returns (d: nat)
    requires index < n && q < n
    ensures d < n && Probed(index, d, n) == q
  {
    d := if q >= index then q - index else q + n - index;
  }

  lemma {:induction false} NextProbe(index: nat, d: nat, n: nat)
    requires index < n && d < n
    ensures (Probed(index, d, n) + 1) % n == Probed(index, d + 1, n)
    ensures Probed(index, d + 1, n) == index <==> d + 1 == n
  {
    Successor(Probed(index, d, n), n);
  }

  class TaskQ {
    const numQueues: nat
    var queues: Queues
    var freeQueues: Queues
    /** Everything ever enqueued, queue by queue. */
    ghost var history: Queues

    ghost predicate Valid()
      reads this
    {
      && numQueues > 0
      && |queues| == |freeQueues| == |history| == numQueues
      && forall q :: 0 <= q < numQueues ==> freeQueues[q] + queues[q] == history[q]
    }

    /** tq_init: one queue per locality group, at least one. */
    constructor (numThreads: nat, lgrpSize: nat)
      requires lgrpSize > 0
      ensures Valid() && numQueues == if numThreads / lgrpSize == 0 then 1 else numThreads / lgrpSize
      ensures forall q :: 0 <= q < numQueues ==> history[q] == []
    {
      var n := if numThreads / lgrpSize == 0 then 1 else numThreads / lgrpSize;
      numQueues := n;
      queues := seq(n, _ => []);
      freeQueues := seq(n, _ => []);
      history := seq(n, _ => []);
    }

    /** tq_enqueue_seq; `random` stands for rand(), used when no locality group is given. */
    method EnqueueSeq(task: Task, lgrp: int, random: nat) returns (ghost index: nat)
      requires Valid()
      modifies this
      ensures Valid() && index == (if lgrp < 0 then random else lgrp) % numQueues
      ensures history == old(history)[index := old(history)[index] + [task]]
      ensures queues == old(queues)[index := old(queues)[index] + [task]]
      ensures freeQueues == old(freeQueues)
    {
      var i: nat := if lgrp < 0 then random % numQueues else lgrp % numQueues;
      queues := queues[i := queues[i] + [task]];
      history := history[i := history[i] + [task]];
      index := i;
    }

    /** tq_elem_into_free_seq */
    method ElemIntoFreeSeq(idx: nat) returns (ret: bool, task: Task)
      requires Valid() && idx < numQueues
      modifies this`queues, this`freeQueues
      ensures Valid()
      ensures ret == (old(queues)[idx] != [])
      ensures ret ==> task == old(queues)[idx][0]
      ensures ret ==> queues == old(queues)[idx := old(queues)[idx][1..]]
      ensures ret ==> freeQueues == old(freeQueues)[idx := old(freeQueues)[idx] + [task]]
      ensures !ret ==> queues == old(queues) && freeQueues == old(freeQueues)
    {
      task := Task(0, 0, 0);
      ret := queues[idx] != [];
      if ret {
        task := queues[idx][0];
        assert queues[idx] == [task] + queues[idx][1..];
        queues := queues[idx := queues[idx][1..]];
        freeQueues := freeQueues[idx := freeQueues[idx] + [task]];
      }
    }

    /** index = (index + 1) % num_queues */
    method NextQueue(i: nat) returns (next: nat)
      requires i < numQueues
      ensures next == if i + 1 == numQueues then 0 else i + 1
    {
      next := (i + 1) % numQueues;
      Successor(i, numQueues);
    }

    /** Queue q was asked: its head has moved to its free queue, or it was empty and nothing has changed. */
    ghost predicate Asked(before: Queues, free: Queues, q: nat, ret: bool, task: Task)
      requires |before| == |free| && q < |before|
      reads this
    {
      && ret == (before[q] != [])
      && if ret then
           task == before[q][0] && queues == before[q := before[q][1..]] && freeQueues == free[q := free[q] + [task]]
         else queues == before && freeQueues == free
    }

    /** tq_dequeue_normal_internal: take the head of the first non-empty queue on the scan, or report
        that there is no work, which is so exactly when every queue is empty. */
    method DequeueSeq(lgrp: int, random: nat) returns (ret: bool, task: Task, ghost probes: nat, ghost index: nat)
      requires Valid()
      modifies this`queues, this`freeQueues
      ensures Valid() && index == (if lgrp < 0 then random else lgrp) % numQueues && probes < numQueues
      ensures forall d :: 0 <= d < probes ==> old(queues)[Probed(index, d, numQueues)] == []
      ensures Asked(old(queues), old(freeQueues), Probed(index, probes, numQueues), ret, task)
      ensures !ret <==> forall q :: 0 <= q < numQueues ==> old(queues)[q] == []
    {
      var start: nat := if lgrp < 0 then random % numQueues else lgrp % numQueues;
      assert start < numQueues;
      index, probes := start, 0;
      ret, task := ElemIntoFreeSeq(start);
      var i := NextQueue(start);
      while !ret && i != start
        invariant Valid() && probes < numQueues && index == start < numQueues
        invariant i == Probed(index, probes + 1, numQueues)
        invariant i == start <==> probes + 1 == numQueues
        invariant forall d :: 0 <= d < probes ==> old(queues)[Probed(index, d, numQueues)] == []
        invariant Asked(old(queues), old(freeQueues), Probed(index, probes, numQueues), ret, task)
        decreases numQueues - probes
      {
        ret, task := ElemIntoFreeSeq(i);
        probes := probes + 1;
        i := NextQueue(i);
      }
      if !ret {
        forall q | 0 <= q < numQueues
          ensures old(queues)[q] == []
        {
          var d := ScanMeetsAll(index, numQueues, q);
        }
      }
    }
  }
}
