/** tq_enqueue and tq_dequeue by any number of threads at once. Each locked section (one queue operated
    on under its lock) is one step; a run is any schedule of steps. */
module TaskQueueRuns {
  import opened TaskQueue

  /** Where a thread is in tq_dequeue. `index` is where its scan began, `i` the queue it probes next,
      `probes` how many it found empty; `quiet` records that nothing was enqueued since it began. */
  datatype Pc =
    | Idle
    | Probing(index: nat, i: nat, probes: nat, quiet: bool)
    | Returned(task: Task)
    | NoWork(quiet: bool)

  /** One task handed out: to which thread, from which queue. */
  datatype Delivery = Delivery(thread: nat, queue: nat, task: Task)

  datatype State = State(queues: Queues, freeQueues: Queues, threads: seq<Pc>,
                         history: Queues, deliveries: seq<Delivery>)

  datatype Action =
    | Enqueue(queue: nat, task: Task)
    | Begin(thread: nat, index: nat)
    | Probe(thread: nat)
    | Leave(thread: nat)

  function Initial(numQueues: nat, numThreads: nat): State {
    State(seq(numQueues, _ => []), seq(numQueues, _ => []), seq(numThreads, _ => Idle), seq(numQueues, _ => []), [])
  }

  function Disturb(threads: seq<Pc>): (r: seq<Pc>)
    ensures |r| == |threads|
    ensures forall t :: 0 <= t < |r| ==>
              r[t] == if threads[t].Probing? then threads[t].(quiet := false) else threads[t]
  {
    if threads == [] then []
    else [if threads[0].Probing? then threads[0].(quiet := false) else threads[0]] + Disturb(threads[1..])
  }

  /** One step; an action whose guard fails changes nothing. */
  function Step(s: State, a: Action): State {
    match a
    case Enqueue(q, task) =>
      if q < |s.queues| && q < |s.history| then
        s.(queues := s.queues[q := s.queues[q] + [task]],
           history := s.history[q := s.history[q] + [task]],
           threads := Disturb(s.threads))
      else s
    case Begin(t, index) =>
      if t < |s.threads| && s.threads[t].Idle? && index < |s.queues| then
        s.(threads := s.threads[t := Probing(index, index, 0, true)])
      else s
    case Probe(t) =>
      if t < |s.threads| && s.threads[t].Probing? && s.threads[t].i < |s.queues| && |s.freeQueues| == |s.queues| then
        var pc := s.threads[t];
        if s.queues[pc.i] != [] then
          var task := s.queues[pc.i][0];
          s.(queues := s.queues[pc.i := s.queues[pc.i][1..]],
             freeQueues := s.freeQueues[pc.i := s.freeQueues[pc.i] + [task]],
             threads := s.threads[t := Returned(task)],
             deliveries := s.deliveries + [Delivery(t, pc.i, task)])
        else
          var next := (pc.i + 1) % |s.queues|;
          s.(threads := s.threads[t := if next == pc.index then NoWork(pc.quiet)
                                       else pc.(i := next, probes := pc.probes + 1)])
      else s
    case Leave(t) =>
      if t < |s.threads| && (s.threads[t].Returned? || s.threads[t].NoWork?) then
        s.(threads := s.threads[t := Idle])
      else s
  }

  function Run(s: State, actions: seq<Action>): State {
    if actions == [] then s else Step(Run(s, actions[..|actions| - 1]), actions[|actions| - 1])
  }

  /** The tasks handed out from queue q, in the order they were handed out. */
  function TasksFrom(deliveries: seq<Delivery>, q: nat): seq<Task> {
    if deliveries == [] then []
    else
      var last := deliveries[|deliveries| - 1];
      TasksFrom(deliveries[..|deliveries| - 1], q) + if last.queue == q then [last.task] else []
  }

  ghost predicate ThreadInv(s: State, pc: Pc)
    requires |s.queues| > 0
  {
    pc.Probing? ==>
      && pc.index < |s.queues| && pc.probes < |s.queues|
      && pc.i == Probed(pc.index, pc.probes, |s.queues|)
      && (pc.quiet ==> forall d :: 0 <= d < pc.probes ==> s.queues[Probed(pc.index, d, |s.queues|)] == [])
  }

  ghost predicate Inv(s: State) {
    && 0 < |s.queues| == |s.freeQueues| == |s.history|
    && (forall q :: 0 <= q < |s.queues| ==> s.freeQueues[q] + s.queues[q] == s.history[q])
    && (forall q :: 0 <= q < |s.queues| ==> s.freeQueues[q] == TasksFrom(s.deliveries, q))
    && (forall t :: 0 <= t < |s.threads| ==> ThreadInv(s, s.threads[t]))
  }

  lemma {:induction false} TasksFromSnoc(deliveries: seq<Delivery>, d: Delivery, q: nat)
    ensures TasksFrom(deliveries + [d], q) == TasksFrom(deliveries, q) + if d.queue == q then [d.task] else []
  {
    assert (deliveries + [d])[..|deliveries|] == deliveries;
  }

  lemma {:induction false} TakeKeepsInv(s: State, t: nat)
    requires Inv(s) && t < |s.threads| && s.threads[t].Probing? && s.queues[s.threads[t].i] != []
    ensures Inv(Step(s, Probe(t)))
  {
    var r, i := Step(s, Probe(t)), s.threads[t].i;
    var task := s.queues[i][0];
    assert s.queues[i] == [task] + s.queues[i][1..];
    forall q | 0 <= q < |r.queues|
      ensures r.freeQueues[q] + r.queues[q] == r.history[q]
      ensures r.freeQueues[q] == TasksFrom(r.deliveries, q)
    {
      TasksFromSnoc(s.deliveries, Delivery(t, i, task), q);
    }
    forall u | 0 <= u < |r.threads|
      ensures ThreadInv(r, r.threads[u])
    {
      assert ThreadInv(s, s.threads[u]);
    }
  }

  lemma {:induction false} MissKeepsInv(s: State, t: nat)
    requires Inv(s) && t < |s.threads| && s.threads[t].Probing? && s.queues[s.threads[t].i] == []
    ensures Inv(Step(s, Probe(t)))
    ensures Step(s, Probe(t)).threads[t].NoWork? && s.threads[t].quiet ==>
              forall q :: 0 <= q < |s.queues| ==> s.queues[q] == []
  {
    var r, pc := Step(s, Probe(t)), s.threads[t];
    assert ThreadInv(s, pc);
    NextProbe(pc.index, pc.probes, |s.queues|);
    forall u | 0 <= u < |r.threads|
      ensures ThreadInv(r, r.threads[u])
    {
      assert ThreadInv(s, s.threads[u]);
    }
    if r.threads[t].NoWork? && pc.quiet {
      forall q | 0 <= q < |s.queues|
        ensures s.queues[q] == []
      {
        var d := ScanMeetsAll(pc.index, |s.queues|, q);
      }
    }
  }

  lemma {:induction false} StepKeepsInv(s: State, a: Action)
    requires Inv(s)
    ensures Inv(Step(s, a))
  {
    var r := Step(s, a);
    if a.Probe? && a.thread < |s.threads| && s.threads[a.thread].Probing? {
      assert ThreadInv(s, s.threads[a.thread]);
      if s.queues[s.threads[a.thread].i] != [] {
        TakeKeepsInv(s, a.thread);
      } else {
        MissKeepsInv(s, a.thread);
      }
    } else {
      forall u | 0 <= u < |r.threads|
        ensures ThreadInv(r, r.threads[u])
      {
        assert ThreadInv(s, s.threads[u]);
      }
    }
  }

  /** Every state of every run: what was handed out of a queue, in order, followed by what it still
      holds, is what was enqueued there. So each task is handed out at most once, to one thread, and
      first in, first out. */
  lemma {:induction false} RunsDeliverInOrder(numQueues: nat, numThreads: nat, actions: seq<Action>)
    requires numQueues > 0
    ensures var s := Run(Initial(numQueues, numThreads), actions);
            && Inv(s)
            && |s.queues| == numQueues
            && forall q :: 0 <= q < numQueues ==> TasksFrom(s.deliveries, q) + s.queues[q] == s.history[q]
  {
    if actions != [] {
      RunsDeliverInOrder(numQueues, numThreads, actions[..|actions| - 1]);
      StepKeepsInv(Run(Initial(numQueues, numThreads), actions[..|actions| - 1]), actions[|actions| - 1]);
    }
  }

  /** A dequeue that reports no work, with nothing enqueued since it began, is right: at that moment
      every queue is empty and every task ever enqueued has been handed out. */
  lemma {:induction false} NoWorkMeansNoWork(numQueues: nat, numThreads: nat, actions: seq<Action>, t: nat)
    requires numQueues > 0 && t < numThreads
    requires var s := Run(Initial(numQueues, numThreads), actions);
             && |s.threads| == numThreads && s.threads[t].Probing?
             && Step(s, Probe(t)).threads[t] == NoWork(true)
    ensures var r := Run(Initial(numQueues, numThreads), actions + [Probe(t)]);
            && |r.queues| == |r.history| == numQueues
            && forall q :: 0 <= q < numQueues ==> r.queues[q] == [] && TasksFrom(r.deliveries, q) == r.history[q]
  {
    var s := Run(Initial(numQueues, numThreads), actions);
    var all := actions + [Probe(t)];
    assert all[..|all| - 1] == actions;
    RunsDeliverInOrder(numQueues, numThreads, actions);
    RunsDeliverInOrder(numQueues, numThreads, all);
    assert ThreadInv(s, s.threads[t]);
    MissKeepsInv(s, t);
  }

  function ProbesBy(actions: seq<Action>, t: nat): nat {
    if actions == [] then 0
    else ProbesBy(actions[..|actions| - 1], t) + if actions[|actions| - 1] == Probe(t) then 1 else 0
  }

  /** Only a step of its own makes a dequeue's probes more, and it does so by one. */
  lemma {:induction false} OneProbeMore(s: State, a: Action, t: nat)
    requires Inv(s) && t < |s.threads| && !s.threads[t].Idle? && a != Leave(t)
    ensures var r := Step(s, a);
            && Inv(r) && |r.queues| == |s.queues| && |r.threads| == |s.threads| && !r.threads[t].Idle?
            && (r.threads[t].Probing? ==>
                  s.threads[t].Probing? && r.threads[t].probes == s.threads[t].probes + if a == Probe(t) then 1 else 0)
  {
    StepKeepsInv(s, a);
    assert ThreadInv(s, s.threads[t]);
  }

  /** A dequeue ends: whatever the others do, it probes each queue at most once. */
  lemma {:induction false} DequeueEnds(s: State, actions: seq<Action>, t: nat)
    requires Inv(s) && t < |s.threads| && s.threads[t].Probing?
    requires forall k :: 0 <= k < |actions| ==> actions[k] != Leave(t)
    ensures var r := Run(s, actions);
            && Inv(r) && |r.queues| == |s.queues| && |r.threads| == |s.threads|
            && (r.threads[t].Probing? ==> r.threads[t].probes == s.threads[t].probes + ProbesBy(actions, t))
            && !r.threads[t].Idle?
    ensures s.threads[t].probes + ProbesBy(actions, t) >= |s.queues| ==> !Run(s, actions).threads[t].Probing?
  {
    if actions != [] {
      var init, last := actions[..|actions| - 1], actions[|actions| - 1];
      DequeueEnds(s, init, t);
      OneProbeMore(Run(s, init), last, t);
    }
    var r := Run(s, actions);
    assert ThreadInv(r, r.threads[t]);
  }
}
