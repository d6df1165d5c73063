/** From work queues to phases: a run of the queues that hands everything out hands each task
    out exactly once, which is what the phases need. */
module Dispatch {
  import opened TaskQueue
  import opened TaskQueueRuns
  import opened TaskGeneration
  import opened MapReduceJob
  import opened Permutations

  ghost predicate InRange(deliveries: seq<Delivery>, numQueues: nat, numThreads: nat) {
    forall i :: 0 <= i < |deliveries| ==> deliveries[i].queue < numQueues && deliveries[i].thread < numThreads
  }

  lemma {:induction false} StepKeepsRange(s: State, a: Action)
    requires Inv(s) && InRange(s.deliveries, |s.queues|, |s.threads|)
    ensures var r := Step(s, a); |r.queues| == |s.queues| && |r.threads| == |s.threads|
                                 && InRange(r.deliveries, |r.queues|, |r.threads|)
  {
  }

  lemma {:induction false} RunsStayInRange(numQueues: nat, numThreads: nat, actions: seq<Action>)
    requires numQueues > 0
    ensures var s := Run(Initial(numQueues, numThreads), actions);
            Inv(s) && |s.queues| == numQueues && |s.threads| == numThreads
              && InRange(s.deliveries, numQueues, numThreads)
  {
    RunsDeliverInOrder(numQueues, numThreads, actions);
    if actions != [] {
      RunsStayInRange(numQueues, numThreads, actions[..|actions| - 1]);
      StepKeepsRange(Run(Initial(numQueues, numThreads), actions[..|actions| - 1]), actions[|actions| - 1]);
    }
  }

  function Delivered(deliveries: seq<Delivery>): (r: seq<Task>)
    ensures |r| == |deliveries| && forall i :: 0 <= i < |r| ==> r[i] == deliveries[i].task
  {
    if deliveries == [] then []
    else Delivered(deliveries[..|deliveries| - 1]) + [deliveries[|deliveries| - 1].task]
  }

  /** What was handed out of each of the first n queues. */
  function FromQueues(deliveries: seq<Delivery>, n: nat): (r: Queues)
    ensures |r| == n && forall q :: 0 <= q < n ==> r[q] == TasksFrom(deliveries, q)
  {
    seq(n, (q: nat) => TasksFrom(deliveries, q))
  }

  lemma {:induction false} DeliveredIsFromQueues(deliveries: seq<Delivery>, n: nat)
    requires forall i :: 0 <= i < |deliveries| ==> deliveries[i].queue < n
    ensures multiset(Delivered(deliveries)) == Together(FromQueues(deliveries, n), n)
  {
    if deliveries == [] {
      NothingTogether(FromQueues(deliveries, n), n);
    } else {
      var init, d := deliveries[..|deliveries| - 1], deliveries[|deliveries| - 1];
      DeliveredIsFromQueues(init, n);
      TogetherGrows(FromQueues(init, n), FromQueues(deliveries, n), d.queue, [d.task], n);
      assert multiset(Delivered(init) + [d.task]) == multiset(Delivered(init)) + multiset([d.task]);
    }
  }

  /** When a run has emptied the queues, over all threads each enqueue has been answered by one dequeue. */
  lemma {:induction false} EmptyQueuesMeanAllDelivered(numQueues: nat, numThreads: nat, actions: seq<Action>)
    requires numQueues > 0
    requires var s := Run(Initial(numQueues, numThreads), actions);
             forall q :: 0 <= q < |s.queues| ==> s.queues[q] == []
    ensures var s := Run(Initial(numQueues, numThreads), actions);
            multiset(Delivered(s.deliveries)) == AllTasks(s.history)
  {
    var s := Run(Initial(numQueues, numThreads), actions);
    RunsDeliverInOrder(numQueues, numThreads, actions);
    RunsStayInRange(numQueues, numThreads, actions);
    forall q | 0 <= q < numQueues
      ensures FromQueues(s.deliveries, numQueues)[q] == s.history[q]
    {
      assert TasksFrom(s.deliveries, q) + s.queues[q] == s.history[q];
    }
    DeliveredIsFromQueues(s.deliveries, numQueues);
    TogetherSame(FromQueues(s.deliveries, numQueues), s.history, numQueues);
  }

  function IdsOf(tasks: seq<Task>): (r: seq<nat>)
    ensures |r| == |tasks| && forall i :: 0 <= i < |r| ==> r[i] == tasks[i].id
  {
    seq(|tasks|, i requires 0 <= i < |tasks| => tasks[i].id)
  }

  lemma {:induction false} IdsOfTakeOut(tasks: seq<Task>, i: nat)
    requires i < |tasks|
    ensures multiset(IdsOf(tasks)) == multiset(IdsOf(tasks[..i] + tasks[i + 1..])) + multiset{tasks[i].id}
  {
    TakeOut(IdsOf(tasks), i);
    assert IdsOf(tasks[..i] + tasks[i + 1..]) == IdsOf(tasks)[..i] + IdsOf(tasks)[i + 1..];
  }

  lemma {:induction false} IdsOfPermutation(a: seq<Task>, b: seq<Task>)
    requires multiset(a) == multiset(b)
    ensures multiset(IdsOf(a)) == multiset(IdsOf(b))
    decreases |a|
  {
    if a == [] {
      assert |multiset(b)| == |b|;
    } else {
      var n := |a| - 1;
      var i := MatchLast(a, b);
      IdsOfPermutation(a[..n], b[..i] + b[i + 1..]);
      IdsOfTakeOut(a, n);
      IdsOfTakeOut(b, i);
      assert a[..n] + a[n + 1..] == a[..n];
    }
  }

  /** A run of the queues that starts with n tasks of different ids 0 .. n-1 and ends with every queue
      empty is a dispatch the map or reduce phase can rely on. */
  lemma {:induction false} RunIsDispatch(numQueues: nat, numThreads: nat, actions: seq<Action>, tasks: seq<Task>)
    requires numQueues > 0 && forall i :: 0 <= i < |tasks| ==> tasks[i].id == i
    requires var s := Run(Initial(numQueues, numThreads), actions);
             (forall q :: 0 <= q < |s.queues| ==> s.queues[q] == []) && AllTasks(s.history) == multiset(tasks)
    ensures HandsOut(Run(Initial(numQueues, numThreads), actions).deliveries, |tasks|, numThreads)
  {
    var s := Run(Initial(numQueues, numThreads), actions);
    RunsStayInRange(numQueues, numThreads, actions);
    EmptyQueuesMeanAllDelivered(numQueues, numThreads, actions);
    IdsOfPermutation(Delivered(s.deliveries), tasks);
    assert IdsOf(tasks) == Iota(|tasks|);
    assert IdsOf(Delivered(s.deliveries)) == Ids(s.deliveries);
  }
}
