# The Phoenix 2.0 runtime, modelled and proved in Dafny

This project models the shared-memory MapReduce runtime under `experiments/phoenix/phoenix-2.0` and
several of its applications, and proves what they compute. `dafny verify dfyconfig.toml` checks all of
it.

## What is modelled

**A whole job.** Map threads keep strictly sorted tables of keys, each with a chain of value chunks
that double in size (`IntermediateTable`); a combiner may cut every entry down to one value
(`ValueIterator`, `Combiner`); a reduce task walks the tables of all map threads in step, one group per
key (`GroupReduce` is the simple form, `ReduceWorker` the loops with the look-ahead minimum); its output
goes to a sorting or an appending queue (`OutputQueue`); a tree of k-way merges turns the queues into one
array (`KWayMerge`, `MergeTree`). `TaskGeneration` cuts the input into tasks and queues them, `TaskQueue`
and `TaskQueueRuns` hand them out, and `Dispatch` shows that a run of the queues hands each task out
exactly once. `MapReduceJob`, `JobResult` and `JobOutput` say what a job means; `MapReduce` runs the
phases and proves the main theorem: the result is sorted, and holds what one reduce call per distinct
key, on exactly the values emitted for that key, emits. `JobConsequences` draws the conclusions for the
identity reduce and for folds with or without a combiner, where thread counts, schedules and the
combiner cannot be told from the result.

**Synchronisation.** `McsLock` is the MCS queue lock, `ThreadPool` and `ThreadPoolRaces` the pool's
rounds of work, `TaskQueueRuns` the work-stealing queues. Each is a machine whose step is one shared
memory access (or one locked section), run under any schedule of any number of threads. `LinkedQueue`
is the intrusive circular list under the queues, pointer by pointer, refined to a sequence.

**Applications.** `WordCount` cuts a text at white space and finds its words in place, in any order of
the pieces; `WordCountJob` and `WordCountProgram` put that together with the runtime: the result lists
every word of the text with the number of its occurrences, and its pointers denote these words in the
buffer as it is left. `WordTables` is the pthread version's sorted tables and their
tournament, shown equal to the sequential program's table. `BlockedMultiply` compares the blocked and
the row-by-row matrix product, `Triangle` is the resumable enumeration in PCA.

## How to read it

- A method carries the loops and updates of the C function and is tied to a recursive function of its
  inputs; lemmas about that function say what the C function is for.
- A key is the pointer the user passed together with the place of what it points at in the user's
  order. `KeyOrder.EveryKeyCmpHasPlaces` shows that any comparison that meets the contract in
  `map_reduce.h` has such places, and `WordCountJob.WordPlacesExist` does it for strcmp. Different
  pointers may share a place.
- A user's reduce is the sequence of pairs it emits for a key and the values it reads; a map task is the
  sequence of pairs it emits; a combiner and a partition are functions.
- Concurrency inside a phase: the order in which tasks are handed out and to which thread is arbitrary;
  one task's own steps are not split up. Tasks of one phase touch different tables (map tasks those of
  their thread, reduce tasks their column) and different queues, which `MapReduce` proves with its
  `modifies` clauses.
- In `ThreadPool` a round's function is named by the number of the round and its arguments by round and
  thread, so that a function or an argument of another round or thread can be told apart.
- In `McsLock`, `ThreadPool` and `TaskQueueRuns` the fields `queue`, `arrivals`, `entries`, `counted`,
  `finisher`, `posts`, `calls`, `history` and `deliveries` only record the run; no step reads them.

## Where the code does less than it says

- **Reduce tasks can be left unqueued.** `gen_reduce_tasks` takes the share of a task per reduce thread
  but computes the leftover with the number of map threads. `TaskGeneration.AllQueuedIff` gives the
  exact condition under which all tasks are queued, `LastTaskLost` an input where one is not, and
  `JobConsequences.IdentityJobSorts` what is then missing from the result: the keys of the unqueued tasks.
  The main theorem is stated for whatever number of tasks is queued. The number of map threads that counts
  is the one capped by the number of map tasks.
- **The pool's barrier needs rounds that never run fewer threads.** A pool thread increments
  `num_workers_done` and reads `num_workers` in two steps; if it is delayed between them into a round with
  fewer threads, its old count can equal the new number and end that round at once. `SafeIffNeverFewer`
  proves that this is exactly when a promise can be broken. The rounds the runtime itself runs for a job meet
  the condition for few thread counts only, because the merge rounds shrink: with one queue per reduce thread
  up to three reduce threads, with one queue per reduce task whenever the user asks for one merge thread and
  no more map than reduce threads (`JobRoundsNeverFewerIff` has all cases).
- **Some thread counts abort.** The pool is created with the number of map threads, so `tpool_set` fails its
  assert when a later phase runs over one thread more. `JobRoundsFitIff` says when; `MapReduce.RunJob` takes
  the phases as completed and so speaks of the other counts.
- The comment above `tq_elem_into_free_seq` says that a nonzero result means the queue was empty; the code
  returns nonzero when an element was moved. The model follows the code.
- The comment above `wordcount_splitter` speaks of a space; the code also stops at a tab, a carriage
  return and a newline. The model follows the code.
- `insert_keyval` puts a pair before the last of its equals when a greater key follows, and behind all of
  them otherwise. Which of several equal keys comes first in the output is therefore stated only as the
  code has it (`OutputQueue.IsPlace`).

## Model

| member | source | states |
|---|---|---|
| MapReduce.MapReduce | experiments/phoenix/phoenix-2.0/src/map_reduce.c:246-350 | for any emitted pairs, any thread counts with two merge inputs per merge thread, and any way of handing out the map and reduce tasks, the result array is sorted and is, as a multiset, what one reduce call per distinct emitted key with a queued reduce task emits, called with the first pointer emitted for the key and reading exactly what each map thread emitted for it, or that combined thread by thread; and all map threads together emit what all map tasks emit |
| MapReduce.RunJob | experiments/phoenix/phoenix-2.0/src/map_reduce.c:246-350 | the same from env_init on, for whatever thread counts the user asks for, each phase taken as a completed barrier: that tpool_set aborts on some of these counts is the subject of ThreadPoolRaces.JobRoundsFitIff; with no more map tasks than reduce threads, on all reduce tasks; and the merge takes 1 + floor(log2 of the merge threads) rounds, or none |
| MapReduce.MapThreads | experiments/phoenix/phoenix-2.0/src/map_reduce.c:1829-1833 | the map threads that run are at most those asked for and at most the map tasks, and as many as one of the two |
| MapReduce.FewMapTasksLoseNothing | experiments/phoenix/phoenix-2.0/src/map_reduce.c:1285-1290 | with no more map tasks than reduce threads, in particular with one, every reduce task is queued, however many map threads are asked for |
| MapReduce.FewMapTasksKeepEveryKey | experiments/phoenix/phoenix-2.0/src/map_reduce.c:1822-1867 | then the keys in the result are exactly the emitted ones, if reduce emits anything for the values it reads |
| MapReduce.EmitIntermediate | experiments/phoenix/phoenix-2.0/src/map_reduce.c:1376-1415 | an emitted pair goes to the one table of its thread that its partition number names, and no other table changes |
| MapReduce.MapPhase | experiments/phoenix/phoenix-2.0/src/map_reduce.c:1822-1844 | when the map phase ends, table (t, j) is the table of the pairs of reduce task j that the tasks handed to thread t emitted, combined if there is a combiner |
| MapReduce.CombineRow | experiments/phoenix/phoenix-2.0/src/map_reduce.c:750-821 | the end of map_worker: every table of the thread is combined, each once |
| MapReduce.ReduceNext | experiments/phoenix/phoenix-2.0/src/map_reduce.c:949-1011 | a reduce task adds its own output, and nothing else, to the queue of its thread, or to its own queue, and leaves the tables of all other tasks unread |
| MapReduce.ReducePhase | experiments/phoenix/phoenix-2.0/src/map_reduce.c:1849-1867 | when the reduce phase ends, each output queue holds what exactly the tasks handed to it emitted, in order of delivery |
| MapReduce.MergePhase | experiments/phoenix/phoenix-2.0/src/map_reduce.c:1872-1922 | the merged result is sorted and holds exactly what the queued reduce tasks emitted |
| JobResult.OutputsMakeResult | experiments/phoenix/phoenix-2.0/src/map_reduce.c:834-947 | any sorted arrangement of what the queued reduce tasks emit is one reduce call per distinct key, across tasks as well as within one, with no emitted key left out |
| JobResult.GroupIsReduction | experiments/phoenix/phoenix-2.0/src/map_reduce.c:862-935 | a reduce call is for a key of its reduce task, is passed the first pointer emitted for it by the first thread that emitted one, and gets one part for each map thread that emitted anything for the key, holding exactly what that thread emitted |
| JobResult.FirstKeyIsFirst | experiments/phoenix/phoenix-2.0/src/map_reduce.c:1463-1580 | that pointer is the key of an emitted pair before which no pair with an equal key was emitted |
| JobResult.TableKeepsFirst | experiments/phoenix/phoenix-2.0/src/map_reduce.c:1497-1527 | a table keeps for each key the first pointer inserted for it |
| JobResult.PartsHoldEverything | experiments/phoenix/phoenix-2.0/src/map_reduce.c:862-935 | the parts of a call together are exactly the multiset of values all map threads emitted for its key |
| JobResult.TaskHasGroup | experiments/phoenix/phoenix-2.0/src/map_reduce.c:862-935 | every emitted key has a reduce call at its reduce task |
| JobResult.EmittedForTask | experiments/phoenix/phoenix-2.0/include/map_reduce.h:104-109 | with a partition that sends equal keys to one task, that task gets all pairs of a key and every other task none |
| JobResult.TaskOutputIsReduced | experiments/phoenix/phoenix-2.0/src/map_reduce.c:1322-1370 | with or without a combiner, a reduce task emits what its calls dictate on the values, or on one combined value per map thread |
| JobOutput.QueueSorted | experiments/phoenix/phoenix-2.0/src/map_reduce.c:1582-1646 | every output queue is sorted: a shared one whatever is emitted, one per task if reduce emits under the key it was given |
| JobOutput.AscendingCallsEmitSorted | experiments/phoenix/phoenix-2.0/src/map_reduce.c:1420-1440 | ascending reduce calls that emit under the given key emit in order, so appending keeps a queue sorted |
| MapReduceJob.AnyScheduleHandsOut | experiments/phoenix/phoenix-2.0/src/map_reduce.c:700-741 | the condition under which the phases are proved leaves out no schedule: every order of the tasks with every choice of threads meets it |
| JobOutput.ThreadsEmitEverything | experiments/phoenix/phoenix-2.0/src/map_reduce.c:700-741 | whoever runs the map tasks, all threads together emit exactly what all tasks together emit |
| MapReduceJob.JobOf | experiments/phoenix/phoenix-2.0/src/map_reduce.c:1399-1400 | any partition that sends equal keys to one number gives a job the runtime can run: a key's reduce task is what is left of its number when the number of reduce tasks is taken away as often as possible |
| JobConsequences.ResultOfKey | experiments/phoenix/phoenix-2.0/src/map_reduce.c:862-935 | the values found under a key in the result are those of its one reduce call; a key never emitted, or whose reduce task is not queued, is not in the result |
| JobConsequences.QueuedKeysAreFound | experiments/phoenix/phoenix-2.0/src/map_reduce.c:862-935 | if reduce emits something for values it reads, the keys in the result are exactly the emitted ones whose reduce task is queued |
| JobConsequences.ResultKeysWereEmitted | experiments/phoenix/phoenix-2.0/src/map_reduce.c:896-905 | if reduce emits the key it was given, every pointer in the result was emitted, and is the first one emitted for its key |
| JobConsequences.IdentityJobSorts | experiments/phoenix/phoenix-2.0/src/map_reduce.c:1791-1802 | with identity_reduce the result is a sorted rearrangement of the emitted pairs up to key_cmp-equality, holding only emitted pointers, except that keys of unqueued reduce tasks are missing |
| JobConsequences.FoldJobFolds | experiments/phoenix/phoenix-2.0/src/map_reduce.c:1322-1370 | when reduce is a commutative fold and the combiner, if any, the same fold, each key ends with one value, the fold of all values emitted for it: thread counts, schedules and the combiner do not show |
| Combiner.CombinerIsTransparent | experiments/phoenix/phoenix-2.0/src/map_reduce.c:1322-1370 | if combiner and reduce see their values through one associative fold, combining every table changes nothing the reduce side emits, call by call and in order |
| Combiner.GroupsCombine | experiments/phoenix/phoenix-2.0/src/map_reduce.c:1340-1366 | combining changes neither the groups nor their keys, only cuts each entry to one value |
| Combiner.DrainAllCombined | experiments/phoenix/phoenix-2.0/src/map_reduce.c:1340-1366 | after run_combiner a reduce call reads one value per map thread that emitted the key, the combination of what that thread emitted |
| KeyOrder.EveryKeyCmpHasPlaces | experiments/phoenix/phoenix-2.0/include/map_reduce.h:111-116 | every comparison that meets the key_cmp contract on a set of pointers is the comparison of integer places for them, so giving keys a place loses nothing |
| KeyOrder.StableSortIsUnique | experiments/phoenix/phoenix-2.0/src/map_reduce.c:1648-1705 | an array has only one stable sort, so two ways of merging it agree element for element |
| KeyOrder.StableSortIsPermutation | experiments/phoenix/phoenix-2.0/src/map_reduce.c:1648-1705 | a stable sort keeps every element exactly as often as its input holds it |
| IntermediateTable.KeyValsArr.InsertKeyValMerged | experiments/phoenix/phoenix-2.0/src/map_reduce.c:1463-1580 | binary search, shift and append have the effect of walking to the place of the key; the array grows by doubling exactly when it is full |
| IntermediateTable.KeyValsArr.Locate | experiments/phoenix/phoenix-2.0/src/map_reduce.c:1472-1495 | the search ends at the first key that is not smaller, and says whether it is equal |
| IntermediateTable.AppendValue | experiments/phoenix/phoenix-2.0/src/map_reduce.c:1528-1579 | the value goes behind all others of the newest chunk, or into a new first chunk of 10 slots, or a new chunk of twice the size when the newest is full; older chunks stay |
| IntermediateTable.TableRefinesMap | experiments/phoenix/phoenix-2.0/src/map_reduce.c:1463-1580 | after any sequence of emits keys are strictly sorted, the table holds for every key exactly the multiset of values emitted for it, and every chain is in its closed form |
| IntermediateTable.TableKeepsOrder | experiments/phoenix/phoenix-2.0/src/map_reduce.c:1528-1579 | for every key a table has stored, from the oldest chunk to the newest, exactly the values emitted for it in the order they were emitted |
| IntermediateTable.PushStoresLast | experiments/phoenix/phoenix-2.0/src/map_reduce.c:1528-1579 | a value appended is the last of the chain |
| IntermediateTable.EmittedCounts | experiments/phoenix/phoenix-2.0/src/map_reduce.c:1463-1580 | the multiset emitted for a key counts, for each value, the pairs with that value and an equal key |
| IntermediateTable.OpenChainLength | experiments/phoenix/phoenix-2.0/src/map_reduce.c:1528-1579 | a chain of n chunks holds 10 * (2^(n-1) - 1) values plus the fill of the newest chunk |
| IntermediateTable.InsertKeepsTable | experiments/phoenix/phoenix-2.0/src/map_reduce.c:1463-1580 | inserting keeps keys strictly sorted, all but the newest chunk full, and lengths truthful |
| IntermediateTable.InsertAtPosition | experiments/phoenix/phoenix-2.0/src/map_reduce.c:1472-1524 | the walk of the simple insertion and the position found by binary search give the same table |
| ValueIterator.Iterator.Add | experiments/phoenix/phoenix-2.0/src/iterator.c:88-109 | at any moment, adds an entry behind the others, to be read last, or refuses it and changes nothing exactly when all slots are taken |
| ValueIterator.Iterator.Next | experiments/phoenix/phoenix-2.0/src/iterator.c:113-154 | yields the first remaining value and nothing else, or fails and changes nothing exactly when none remains |
| ValueIterator.Iterator.NextList | experiments/phoenix/phoenix-2.0/src/iterator.c:156-168 | yields the added entries one by one, wherever the value cursor stands |
| ValueIterator.Iterator.Reset | experiments/phoenix/phoenix-2.0/src/iterator.c:60-69 | empties the iterator |
| ValueIterator.Iterator.Rewind | experiments/phoenix/phoenix-2.0/src/iterator.c:71-78 | back to the first entry and its first chunk |
| ValueIterator.Iterator.DrainRest | experiments/phoenix/phoenix-2.0/src/iterator.c:111-154 | calling iter_next until it fails yields every stored value exactly once, in order, with exactly iter_size successes |
| ValueIterator.Iterator.RewindAndCollect | experiments/phoenix/phoenix-2.0/src/map_reduce.c:910-921 | after iter_rewind, iter_next_list meets every added entry once, drained or not |
| ValueIterator.RunCombiner | experiments/phoenix/phoenix-2.0/src/map_reduce.c:1322-1370 | each entry becomes its newest chunk, of its size, with the one value combined from all its values, and length 1 |
| ValueIterator.CombineKeepsReadable | experiments/phoenix/phoenix-2.0/src/map_reduce.c:1350-1363 | combining keeps everything the reduce side relies on: order, no empty chunk, truthful lengths |
| GroupReduce.GroupsIsGrouping | experiments/phoenix/phoenix-2.0/src/map_reduce.c:862-935 | one group per distinct unread key over all map threads, in strictly ascending order, each with exactly the entries of its key; no key is skipped, the last included |
| GroupReduce.LeastHeadIsLeast | experiments/phoenix/phoenix-2.0/src/map_reduce.c:888-893 | the minimum chosen is a least unread key, it is one of the entries taken, and it is missing exactly when every array is read |
| ReduceWorker.ReduceTask | experiments/phoenix/phoenix-2.0/src/map_reduce.c:834-947 | the do-while loop with its look-ahead minimum emits what the simple group-by dictates, group by group, and reads every array to its end |
| ReduceWorker.Visit | experiments/phoenix/phoenix-2.0/src/map_reduce.c:863-894 | at one array: its entry is taken if it equals the minimum and then the same array is looked at again, else offered as the next minimum; the iterator always has a slot |
| ReduceWorker.Scan | experiments/phoenix/phoenix-2.0/src/map_reduce.c:862-894 | one pass takes the entries of the minimum from all arrays and finds the next minimum |
| ReduceWorker.Turn | experiments/phoenix/phoenix-2.0/src/map_reduce.c:862-935 | one turn of the do-while loop, and that it stops exactly when every array is read |
| ReduceWorker.ReduceGroup | experiments/phoenix/phoenix-2.0/src/map_reduce.c:896-924 | the reduce call reads every value of the group once, and the iterator is empty again afterwards |
| ReduceWorker.RunIdentityReduce | experiments/phoenix/phoenix-2.0/src/map_reduce.c:1791-1802 | identity_reduce emits every value of the group once under its key |
| OutputQueue.KeyValArr.InsertKeyVal | experiments/phoenix/phoenix-2.0/src/map_reduce.c:1582-1646 | appended in append mode; else put behind keys not greater and before keys not smaller: last if no key is greater, and before exactly one equal key if there are an equal and a greater one; the array stays sorted and grows by doubling from 10 exactly when it is full |
| OutputQueue.KeyValArr.Locate | experiments/phoenix/phoenix-2.0/src/map_reduce.c:1608-1628 | the binary search ends at that place |
| OutputQueue.InsertPosIsPlace | experiments/phoenix/phoenix-2.0/src/map_reduce.c:1605-1633 | the position the queue model uses is that place |
| OutputQueue.PlaceIsUnique | experiments/phoenix/phoenix-2.0/src/map_reduce.c:1605-1633 | a sorted array has only one such place for a key |
| OutputQueue.SortingQueueIsSorted | experiments/phoenix/phoenix-2.0/src/map_reduce.c:1582-1646 | a sorting queue is sorted whatever is emitted, in whatever order |
| OutputQueue.EmitAllKeepsEverything | experiments/phoenix/phoenix-2.0/src/map_reduce.c:1582-1646 | in either mode a queue holds exactly what was emitted into it |
| OutputQueue.AppendingQueueKeepsOrder | experiments/phoenix/phoenix-2.0/src/map_reduce.c:1582-1646 | in append mode a queue is the sequence of emits |
| KWayMerge.MergeResults | experiments/phoenix/phoenix-2.0/src/map_reduce.c:1648-1705 | the output is the stable sort of the inputs laid end to end; the early break is never taken |
| KWayMerge.FindLeast | experiments/phoenix/phoenix-2.0/src/map_reduce.c:1674-1695 | finds the first row with a least head, if any row has elements left |
| KWayMerge.ReadLeast | experiments/phoenix/phoenix-2.0/src/map_reduce.c:1674-1699 | reading the first least head takes it off the front of what is unread of its key and leaves other keys alone: where stability comes from |
| MergeTree.EnvInitCounts | experiments/phoenix/phoenix-2.0/src/map_reduce.c:412-464 | the counts env_init settles on, as numbers: 32768 or 256 reduce tasks; half the reduce threads as merge threads with one queue per reduce thread, between 1 and 16384, else those asked for up to 128; and so at least two merge inputs per merge thread when there is anything to merge |
| MergeTree.SlicesCover | experiments/phoenix/phoenix-2.0/src/map_reduce.c:1045-1062 | with two inputs per thread the fallback is not taken and the slices follow one another, hold at least two inputs each and end exactly at merge_len |
| MergeTree.SlicesAreEven | experiments/phoenix/phoenix-2.0/src/map_reduce.c:1045-1065 | an earlier slice holds as many inputs as a later one, or one more |
| MergeTree.MergeWorker | experiments/phoenix/phoenix-2.0/src/map_reduce.c:1017-1086 | thread t merges exactly its slice |
| MergeTree.MergeRound | experiments/phoenix/phoenix-2.0/src/map_reduce.c:1892-1902 | a round writes every slot of merge_vals and loses or reorders nothing within a key |
| MergeTree.Merge | experiments/phoenix/phoenix-2.0/src/map_reduce.c:1872-1922 | the result is the stable sort of all output queues, whatever the number of merge threads, after 1 + floor(log2(threads)) rounds |
| TaskGeneration.ArraySplitter.Split | experiments/phoenix/phoenix-2.0/src/map_reduce.c:1759-1789 | the next piece starts where the last ended and has the nominal length unless the data ends before; false exactly at the end |
| TaskGeneration.GenMapTasksSplit | experiments/phoenix/phoenix-2.0/src/map_reduce.c:1095-1130 | with any splitter: one task for each answer before its first failure, in order, with ids 0, 1, 2, ... and that length and data |
| TaskGeneration.GenArrayTasks | experiments/phoenix/phoenix-2.0/src/map_reduce.c:1095-1130 | with array_splitter: the tasks cut all data units into consecutive pieces; no data gives 0 |
| TaskGeneration.DistributeLgrp | experiments/phoenix/phoenix-2.0/src/map_reduce.c:1137-1188 | every task is enqueued once, in order, group by group in even shares with the remainder on the first groups, and the temporary queue ends empty |
| TaskGeneration.GenReduceTasks | experiments/phoenix/phoenix-2.0/src/map_reduce.c:1278-1320 | the ids 0, 1, 2, ... are enqueued once each; all of them unless there are more map than reduce threads and at least as many tasks; then as many are missing as the division leaves over, or as one share for each map thread too many, whichever is less |
| TaskGeneration.TasksLost | experiments/phoenix/phoenix-2.0/src/map_reduce.c:1285-1290 | that number of missing tasks |
| TaskGeneration.AllQueuedIff | experiments/phoenix/phoenix-2.0/src/map_reduce.c:1285-1290 | all reduce tasks are queued exactly when there are no more map threads than reduce threads, or the tasks divide evenly, or there are fewer tasks than reduce threads |
| TaskGeneration.LastTaskLost | experiments/phoenix/phoenix-2.0/src/map_reduce.c:1285-1290 | with 256 tasks, 3 reduce threads and 5 map threads one task is never queued |
| TaskQueue.TaskQ.EnqueueSeq | experiments/phoenix/phoenix-2.0/src/taskQ.c:331-349 | the task goes to the end of one queue, the one named or a random one, and nothing else changes |
| TaskQueue.TaskQ.ElemIntoFreeSeq | experiments/phoenix/phoenix-2.0/src/taskQ.c:359-372 | the head moves to the end of the free queue, or nothing changes when the queue is empty |
| TaskQueue.TaskQ.DequeueSeq | experiments/phoenix/phoenix-2.0/src/taskQ.c:408-443 | takes the head of the first non-empty queue on the cyclic scan; fails exactly when every queue is empty |
| TaskQueueRuns.RunsDeliverInOrder | experiments/phoenix/phoenix-2.0/src/taskQ.c:302-443 | in every state of every interleaving, what was handed out of a queue followed by what it holds is its enqueue history: no task twice, none lost, first in first out |
| TaskQueueRuns.NoWorkMeansNoWork | experiments/phoenix/phoenix-2.0/src/taskQ.c:408-434 | a dequeue that finds no work while nothing is enqueued returns at a moment when all queues are empty and every task has been handed out |
| TaskQueueRuns.DequeueEnds | experiments/phoenix/phoenix-2.0/src/taskQ.c:414-428 | whatever the other threads do, a dequeue ends after at most one probe per queue |
| Dispatch.RunIsDispatch | experiments/phoenix/phoenix-2.0/src/taskQ.c:302-448 | a run that ends with empty queues hands each task to exactly one thread, which is what the map and reduce phases assume |
| Dispatch.EmptyQueuesMeanAllDelivered | experiments/phoenix/phoenix-2.0/src/taskQ.c:302-448 | over all threads, the tasks handed out are as a multiset the tasks enqueued |
| LinkedQueue.List.InsertAfter | experiments/phoenix/phoenix-2.0/src/list.h:102-108 | relinks the ring so that the new entry stands behind the given one |
| LinkedQueue.List.AddTail | experiments/phoenix/phoenix-2.0/src/list.h:93-100 | appends to the sequence |
| LinkedQueue.List.Remove | experiments/phoenix/phoenix-2.0/src/list.h:118-124 | removes the entry, joins its neighbours and clears its links |
| LinkedQueue.List.RemoveHead | experiments/phoenix/phoenix-2.0/src/list.h:126-135 | takes the first entry, or null from an empty list |
| LinkedQueue.List.RemoveTail | experiments/phoenix/phoenix-2.0/src/list.h:137-146 | takes the last entry, or null from an empty list |
| LinkedQueue.List.PeekHead | experiments/phoenix/phoenix-2.0/src/list.h:63-69 | the first entry or null |
| LinkedQueue.List.PeekTail | experiments/phoenix/phoenix-2.0/src/list.h:71-77 | the last entry or null |
| LinkedQueue.List.IsEmpty | experiments/phoenix/phoenix-2.0/src/list.h:79-82 | whether the sequence is empty |
| LinkedQueue.ElemIntoFreeSeq | experiments/phoenix/phoenix-2.0/src/taskQ.c:359-372 | on the linked lists themselves: free queue followed by queue is unchanged as a sequence, and the two rings stay apart |
| McsLock.StepKeepsInv | experiments/phoenix/phoenix-2.0/src/mcs.c:77-128 | every shared access of acquire and release, by any thread, keeps the queue invariant |
| McsLock.RunsAreSafe | experiments/phoenix/phoenix-2.0/src/mcs.c:77-128 | in every state of every run of any number of threads at most one is between acquire and release, threads enter in the order of their exchange, the assert on entry holds and no null pointer is followed |
| McsLock.SomeoneMoves | experiments/phoenix/phoenix-2.0/src/mcs.c:97-127 | no hand-off is lost: up to any queued thread that has not entered there is one with a step that does not spin |
| McsLock.WaitIsBounded | experiments/phoenix/phoenix-2.0/src/mcs.c:97-127 | under any schedule a waiting thread at place k enters after at most 10 (k + 1) non-spinning steps of itself and those ahead |
| McsLock.HandOffIsBounded | experiments/phoenix/phoenix-2.0/src/mcs.c:105-128 | from a release its successor enters within 15 non-spinning steps of the two |
| McsLock.OrderMatters | experiments/phoenix/phoenix-2.0/src/mcs.c:97-100 | with the two writes of acquire exchanged there is a run after which, whatever happens next, a thread spins for ever |
| McsLock.AcquireFree | experiments/phoenix/phoenix-2.0/src/mcs.c:77-103 | on a free lock a thread gets in by clearing its next and exchanging the head, and writes no lock flag |
| McsLock.AcquireBehind | experiments/phoenix/phoenix-2.0/src/mcs.c:77-103 | behind another thread it clears its next, exchanges the head, marks itself locked, links itself and then spins |
| McsLock.ReleaseAlone | experiments/phoenix/phoenix-2.0/src/mcs.c:105-128 | with nobody behind it the test of next and one compare-and-swap free the lock |
| McsLock.ReleaseToSuccessor | experiments/phoenix/phoenix-2.0/src/mcs.c:105-128 | with a successor linked, its flag is cleared and the head is left alone |
| McsLock.ReleaseWaitsForLink | experiments/phoenix/phoenix-2.0/src/mcs.c:105-128 | when somebody has exchanged but not linked, the compare-and-swap fails and the thread waits, changing nothing |
| ThreadPool.StepKeepsInv | experiments/phoenix/phoenix-2.0/src/tpool.c:136-281 | every shared access of the owner and of the pool threads keeps the round invariant, if no round runs fewer threads than an earlier one |
| ThreadPool.NeverFewerIsSafe | experiments/phoenix/phoenix-2.0/src/tpool.c:136-281 | in every state of every run each completed round was posted once, or never if empty, and during it each of its threads made exactly one call, of the round's function on the argument given for that round and thread, and no other thread any; in tpool_destroy nothing runs |
| ThreadPool.WaitIsServed | experiments/phoenix/phoenix-2.0/src/tpool.c:177-191 | while the owner waits, in a round or in tpool_destroy, some pool thread has a step to take |
| ThreadPool.DestroyStopsAll | experiments/phoenix/phoenix-2.0/src/tpool.c:209-281 | when tpool_destroy returns every pool thread has left its loop |
| ThreadPoolRaces.FewerIsUnsafe | experiments/phoenix/phoenix-2.0/src/tpool.c:264-269 | if a round runs fewer threads than an earlier one, there is a schedule in which tpool_wait returns from a round with threads before any of them has called anything in it |
| ThreadPoolRaces.SafeIffNeverFewer | experiments/phoenix/phoenix-2.0/src/tpool.c:136-281 | every run keeps the promise of every round, each thread one call on its own argument, exactly when no round runs fewer threads than an earlier one, empty rounds aside |
| ThreadPoolRaces.MergeRoundsHalve | experiments/phoenix/phoenix-2.0/src/map_reduce.c:1894-1916 | the merge rounds of a job are as many as merge() takes, each with half the threads of the one before, less the owner |
| ThreadPoolRaces.JobRoundsNeverFewerIff | experiments/phoenix/phoenix-2.0/src/map_reduce.c:576-689 | for which thread counts the rounds of a job meet that condition: with one queue per reduce thread up to three reduce threads and no more map than reduce threads, or one reduce thread; with one queue per reduce task, no more map than reduce threads, or one reduce thread, and either one merge thread, or two or three that neither other phase exceeds |
| ThreadPoolRaces.JobRoundsFitIff | experiments/phoenix/phoenix-2.0/src/tpool.c:136-155 | the assert of tpool_set holds in all rounds of a job exactly when there is at most one reduce thread more than pool threads and, with one queue per reduce task, at most one merge thread more |
| ThreadPoolRaces.JobIsSafeIff | experiments/phoenix/phoenix-2.0/src/map_reduce.c:576-689 | for thread counts that fit the pool, every run of the pool through all phases of a job keeps the promise of every phase exactly under that condition |
| WordCount.Splitter.Split | experiments/phoenix/phoenix-2.0/tests/word_count/word_count.c:102-134 | the piece starts at fpos and ends at the first white space at or after its nominal end, or at the end of the file |
| WordCount.Splitter.SplitAll | experiments/phoenix/phoenix-2.0/tests/word_count/word_count.c:102-134 | the pieces follow one another, end at white space and cover the file, and are those the nominal length dictates |
| WordCount.TokensAreWords | experiments/phoenix/phoenix-2.0/tests/word_count/word_count.c:149-195 | the two-state scan finds exactly the maximal runs of letters and apostrophes from their first letter on, in order and without overlap |
| WordCount.WordsAreLetterRuns | experiments/phoenix/phoenix-2.0/tests/word_count/word_count.c:161-186 | the same byte by byte: 65 to 90 and 97 to 122 are letters, 39 is the apostrophe, and before its first letter a run has apostrophes only |
| WordCount.UpperIsToUpper | experiments/phoenix/phoenix-2.0/tests/word_count/word_count.c:164-164 | upper-casing maps each of the 26 small letters to its capital and every other byte to itself |
| WordCount.ByteClasses | experiments/phoenix/phoenix-2.0/tests/word_count/word_count.c:125-186 | which bytes are letters, which may be in a word, and which the splitter stops at: 32, 9, 13 and 10 |
| WordCount.PiecesHaveAllWords | experiments/phoenix/phoenix-2.0/tests/word_count/word_count.c:102-195 | however the text is cut at white space, the pieces together have the words of one pass, in the same order |
| WordCount.AnyOrderHasAllWords | experiments/phoenix/phoenix-2.0/tests/word_count/word_count.c:149-195 | the words emitted over all pieces, run in any order, are as a multiset the words of one pass |
| WordCount.WordcountMap | experiments/phoenix/phoenix-2.0/tests/word_count/word_count.c:149-195 | in place: emits exactly the words of its piece and changes the buffer only to upper-case and NUL-terminate them |
| WordCount.MapByte | experiments/phoenix/phoenix-2.0/tests/word_count/word_count.c:161-186 | the loop body: the state machine of the scan and the bytes it overwrites |
| WordCount.MapPieces | experiments/phoenix/phoenix-2.0/tests/word_count/word_count.c:149-195 | pieces run in any order on the shared buffer, with the NUL written into the next piece, emit the words of the untouched text, each piece its own, and their marks add up |
| WordCount.PointersDenoteWords | experiments/phoenix/phoenix-2.0/tests/word_count/word_count.c:149-195 | at the end every emitted pointer denotes its own NUL-terminated upper-case word |
| WordCountJob.WordPlacesExist | experiments/phoenix/phoenix-2.0/tests/word_count/word_count.c:67-70 | strcmp on the words of a text meets the key_cmp contract |
| WordCountJob.StrCmpIsLexicographic | experiments/phoenix/phoenix-2.0/tests/word_count/word_count.c:67-70 | a string is less exactly if at the end of a common beginning it ends or has the smaller byte |
| WordCountJob.OccurrencesCount | experiments/phoenix/phoenix-2.0/tests/word_count/word_count.c:149-195 | the number of occurrences is how often the string is among the words of the text |
| WordCountJob.SumValues | experiments/phoenix/phoenix-2.0/tests/word_count/word_count.c:200-230 | the loop of reduce and combiner adds up all values of the iterator |
| WordCountJob.WordcountReduce | experiments/phoenix/phoenix-2.0/tests/word_count/word_count.c:200-215 | reduce emits the sum under its key |
| WordCountJob.KeyIsWord | experiments/phoenix/phoenix-2.0/tests/word_count/word_count.c:200-215 | every pointer in the result is the start of a word of the text that some map task emitted |
| WordCountJob.ResultCountsWords | experiments/phoenix/phoenix-2.0/tests/word_count/word_count.c:102-230 | from the pieces to the result: sorted by strcmp, every word of the text whose reduce task is queued once, with the number of its occurrences in one pass over the text, and nothing but pairs of a pointer to a word of the text and that word's number |
| WordCountProgram.CountWords | experiments/phoenix/phoenix-2.0/tests/word_count/word_count.c:280-320 | the whole program, from the buffer to the result: the splitter, the map tasks in place in the order they are handed out, and the runtime; the result is as ResultCountsWords says, and every pointer in it denotes its upper-case word in the buffer as it is left |
| WordCountProgram.MapInPlace | experiments/phoenix/phoenix-2.0/tests/word_count/word_count.c:149-195 | all map tasks in place, in any order, emit the pairs of the words of their pieces, and mark exactly the words of the text |
| WordTables.ThreadTable.WordcountReduce | experiments/phoenix/phoenix-2.0/tests/word_count/word_count-pthread.c:286-342 | binary search, shift and count have the effect of walking to the place of the word; a free slot always remains |
| WordTables.ThreadTable.Dobsearch | experiments/phoenix/phoenix-2.0/tests/word_count/word_count-seq.c:165-183 | finds the word or its place |
| WordTables.ThreadTable.WordcountAddword | experiments/phoenix/phoenix-2.0/tests/word_count/word_count-seq.c:188-226 | the sequential insertion computes the same table |
| WordTables.TableCountsWords | experiments/phoenix/phoenix-2.0/tests/word_count/word_count-pthread.c:286-342 | a table is strictly sorted and counts every word exactly as often as it was added |
| WordTables.TableIsUnique | experiments/phoenix/phoenix-2.0/tests/word_count/word_count-pthread.c:286-342 | a table is determined by its counts |
| WordTables.MergeSections | experiments/phoenix/phoenix-2.0/tests/word_count/word_count-pthread.c:348-393 | the loop that adds counts into data1 in place and the two copies give the merge, in the room allocated |
| WordTables.MergedCounts | experiments/phoenix/phoenix-2.0/tests/word_count/word_count-pthread.c:348-393 | counts of equal words are added and no word is lost |
| WordTables.MergedKeepsTable | experiments/phoenix/phoenix-2.0/tests/word_count/word_count-pthread.c:348-393 | the merge is strictly sorted and no longer than both inputs together |
| WordTables.Pass | experiments/phoenix/phoenix-2.0/tests/word_count/word_count-pthread.c:186-220 | one pass merges tables 2i and 2i + 1 and carries an odd last one over; the total count of each word stays |
| WordTables.Tournament | experiments/phoenix/phoenix-2.0/tests/word_count/word_count-pthread.c:178-221 | ends with one table that holds for each word the sum over all threads |
| WordTables.TournamentIsSequential | experiments/phoenix/phoenix-2.0/tests/word_count/word_count-seq.c:110-226 | that table is, entry for entry, the one the sequential program builds from all the words |
| BlockedMultiply.MatrixMult | experiments/phoenix/phoenix-2.0/tests/matrix_multiply/matrix_multiply-seq.c:75-88 | for every size the six loops turn a zero matrix into the product of the inputs |
| BlockedMultiply.FillBlock | experiments/phoenix/phoenix-2.0/tests/matrix_multiply/matrix_multiply-seq.c:77-88 | the loop over k adds to one block of the output its whole product and changes nothing else |
| BlockedMultiply.MatrixmultMap | experiments/phoenix/phoenix-2.0/tests/matrix_multiply/matrix_multiply.c:143-186 | the map task computes the same products for its rows and changes no others |
| BlockedMultiply.MultiplyByRows | experiments/phoenix/phoenix-2.0/tests/matrix_multiply/matrix_multiply.c:86-126 | the row sets of the splitter cover the matrix, so the map tasks compute what the blocked loops compute |
| BlockedMultiply.RowSplitter.Split | experiments/phoenix/phoenix-2.0/tests/matrix_multiply/matrix_multiply.c:86-126 | the next rows, as many as asked for or as are left; false exactly at the end |
| BlockedMultiply.UnitTimes | experiments/phoenix/phoenix-2.0/tests/matrix_multiply/matrix_multiply-seq.c:83-87 | what both programs compute is the matrix product: a unit matrix on the left moves one row of the other matrix |
| BlockedMultiply.TimesUnit | experiments/phoenix/phoenix-2.0/tests/matrix_multiply/matrix_multiply-seq.c:83-87 | and on the right one column |
| BlockedMultiply.UnitTimesUnit | experiments/phoenix/phoenix-2.0/tests/matrix_multiply/matrix_multiply-seq.c:83-87 | e_pq times e_rs is e_ps if q = r, and zero otherwise |
| BlockedMultiply.IdentityTimes | experiments/phoenix/phoenix-2.0/tests/matrix_multiply/matrix_multiply-seq.c:83-87 | the identity on the left gives the other matrix |
| BlockedMultiply.TimesIdentity | experiments/phoenix/phoenix-2.0/tests/matrix_multiply/matrix_multiply-seq.c:83-87 | and on the right |
| BlockedMultiply.LinearInFirst | experiments/phoenix/phoenix-2.0/tests/matrix_multiply/matrix_multiply-seq.c:83-87 | the product is linear in its first matrix |
| BlockedMultiply.LinearInSecond | experiments/phoenix/phoenix-2.0/tests/matrix_multiply/matrix_multiply-seq.c:83-87 | and in its second |
| BlockedMultiply.ProductIsAssociative | experiments/phoenix/phoenix-2.0/tests/matrix_multiply/matrix_multiply-seq.c:83-87 | (A B) C = A (B C) |
| Triangle.TriangleIsComplete | experiments/phoenix/phoenix-2.0/tests/pca/pca.c:280-296 | the cursors meet every pair (i, j) with i <= j < n exactly once, in row-major order, n (n + 1) / 2 of them |
| Triangle.CovSplitter.Split | experiments/phoenix/phoenix-2.0/tests/pca/pca.c:253-310 | one call takes the next req_units locations, or all that are left, and fails exactly when none is left |
| Triangle.CovSplitter.SplitAll | experiments/phoenix/phoenix-2.0/tests/pca/pca.c:253-310 | for any req_units the pieces of successive calls laid end to end are that enumeration |

## Left out

- MapReduce.MapReduce: takes each phase as a completed barrier and the tasks of a phase one at a time, in any order and on any thread; interleavings inside two tasks are not modelled, because the tasks touch disjoint tables and queues.
- McsLock.RunsAreSafe: every access is one sequentially consistent step; the assembly in `atomic.h`, memory barriers and weaker memory orders are not modelled.
- ThreadPool.NeverFewerIsSafe: semaphores are counters with atomic wait and post; the pool's memory being freed at the end of `tpool_destroy`, results read with `tpool_get_results` and failures of thread creation are not modelled.
- TaskQueueRuns.RunsDeliverInOrder: a section under a queue's lock is one step; that the lock excludes others is what `McsLock` proves.
- IntermediateTable.KeyValsArr.InsertKeyValMerged: a chain of chunks is a sequence, newest first, so aliasing between chains and the freeing of chunks are not modelled; neither is the disabled incremental combiner.
- ValueIterator.RunCombiner: the chunks shed are dropped from the sequence, not freed.
- OutputQueue.KeyValArr.InsertKeyVal: the overflow of lengths and allocation sizes, and failing allocations, are not modelled here or anywhere else.
- TaskGeneration.DistributeLgrp: the other distribution, one task at a time to the queue its locator names, would only add an easy member.
- TaskGeneration.ArraySplitter.Split: a partial unit at the end of the data is ignored, as the source ignores it.
- WordCountJob.ResultCountsWords: counts are unbounded integers; the default partition is any function that sends equal keys to one reduce task, its hash of the key's bytes is not modelled.
- WordCount.MapPieces: the pieces are worked on one after the other, in any order; two pieces share only the byte between them, which both orders of access leave alike.
- WordTables.Tournament: the merges of one pass run one after the other; the loop of the pthread program that cuts the file while its threads already overwrite it is not modelled, the tables of the threads are given.
- BlockedMultiply.MatrixMult: matrices are two-dimensional arrays, so the row-major address arithmetic is not modelled; products and sums do not wrap around.
- Triangle.CovSplitter.Split: the memory for the locations and the covariance itself are not modelled.
- Mode with one output queue per map task, timing, printing, CPU binding, processor counting, locality groups beyond their size, `pt_mutex.c`, `synch.c`, `scheduler.c`, `memory.c`: operating system calls, stubs or dispatch.
- Reading and mapping files, sorting and showing the most frequent words: no part of the algorithms above.
- Histogram, k-means, linear regression, string match and the pthread sort: easy, or outside exact arithmetic.
- The QEMU and SimBricks scripts, images and logs in the rest of the repository: configuration and data.
