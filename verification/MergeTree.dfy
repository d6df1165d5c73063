/** env_init's thread counts, merge_worker's slices and the rounds of merge(): a tree of k-way merges
    that computes one stable sort, however many threads share the work. */
module MergeTree {
  import opened Sequences
  import opened KeyOrder
  import opened IntermediateTable
  import opened OutputQueue
  import opened KWayMerge

  const DEFAULT_NUM_REDUCE_TASKS: nat := 256
  const EXTENDED_NUM_REDUCE_TASKS: nat := DEFAULT_NUM_REDUCE_TASKS * 128

  function Log2(n: nat): nat {
    if n <= 1 then 0 else 1 + Log2(n / 2)
  }

  /** Log2 is the floor of the logarithm. */
  lemma {:induction false} Log2IsFloor(n: nat)
    requires n >= 1
    ensures Pow2(Log2(n)) <= n < Pow2(Log2(n) + 1)
  {
    if n > 1 {
      Log2IsFloor(n / 2);
    }
  }

  /** num_merge_threads: with one queue per reduce task what the user gave, else half the reduce threads;
      at least one, and at most half the reduce tasks. */
  function MergeThreads(queuePerTask: bool, argMerge: int, numReduce: nat): (g: nat)
    requires numReduce > 0
    ensures g >= 1
    ensures MergeLen(queuePerTask, numReduce) > 1 ==> 2 * g <= MergeLen(queuePerTask, numReduce)
    ensures queuePerTask && 0 < argMerge <= 128 ==> g == argMerge
    ensures queuePerTask ==> g <= 128
    ensures !queuePerTask && 2 <= numReduce < 32768 ==> 2 * g <= numReduce <= 2 * g + 1
  {
    var wanted := if !queuePerTask then numReduce / 2 else if argMerge > 0 then argMerge else numReduce;
    var most := ReduceTasks(queuePerTask) / 2;
    if wanted < 1 then 1 else if wanted < most then wanted else most
  }

  function ReduceTasks(queuePerTask: bool): nat {
    if queuePerTask then DEFAULT_NUM_REDUCE_TASKS else EXTENDED_NUM_REDUCE_TASKS
  }

  /** How many output queues merge() starts from. */
  function MergeLen(queuePerTask: bool, numReduce: nat): nat {
    if queuePerTask then DEFAULT_NUM_REDUCE_TASKS else numReduce
  }

  /** The counts env_init settles on. Non-positive arguments mean "not given". */
  method EnvInitCounts(numProcs: int, oneQueuePerTask: bool, argMap: int, argReduce: int, argMerge: int)
    returns (numMap: int, numReduce: int, numMerge: int, numReduceTasks: int, mergeLen: int)
    requires numProcs > 0
    ensures numMap == (if argMap > 0 then argMap else numProcs)
    ensures numReduce == (if argReduce > 0 then argReduce else numProcs)
    ensures numReduceTasks == ReduceTasks(oneQueuePerTask) == if oneQueuePerTask then 256 else 32768
    ensures mergeLen == MergeLen(oneQueuePerTask, numReduce) == if oneQueuePerTask then 256 else numReduce
    ensures numMerge == MergeThreads(oneQueuePerTask, argMerge, numReduce)
    ensures !oneQueuePerTask && numReduce == 1 ==> numMerge == 1
    ensures !oneQueuePerTask && 2 <= numReduce < 32768 ==> 2 * numMerge <= numReduce <= 2 * numMerge + 1
    ensures !oneQueuePerTask && numReduce >= 32768 ==> numMerge == 16384
    ensures oneQueuePerTask ==>
              var wanted := if argMerge > 0 then argMerge else numReduce;
              numMerge <= wanted && numMerge <= 128 && (numMerge == wanted || numMerge == 128)
    ensures mergeLen > 1 ==> 2 * numMerge <= mergeLen
  {
    numMap := if argMap > 0 then argMap else numProcs;
    numReduce := if argReduce > 0 then argReduce else numProcs;
    numMerge := if argMerge > 0 then argMerge else numReduce;
    if !oneQueuePerTask {
      numMerge := numReduce / 2;
    }
    numMerge := if numMerge > 1 then numMerge else 1;
    numReduceTasks := if !oneQueuePerTask then EXTENDED_NUM_REDUCE_TASKS else DEFAULT_NUM_REDUCE_TASKS;
    numMerge := if numMerge < numReduceTasks / 2 then numMerge else numReduceTasks / 2;
    mergeLen := if oneQueuePerTask then numReduceTasks else numReduce;
  }

  // ---------- merge_worker's slices ----------

  /** length and modlen of merge_worker, with the fallback for short inputs. */
  function SliceUnit(mergeLen: nat, threads: nat): (nat, nat)
    requires threads > 0
  {
    if mergeLen / threads <= 1 then (2, mergeLen % 2) else (mergeLen / threads, mergeLen % threads)
  }

  function SliceStart(mergeLen: nat, threads: nat, t: nat): nat
    requires threads > 0
  {
    var (length, modlen) := SliceUnit(mergeLen, threads);
    t * length + if t < modlen then t else modlen
  }

  function SliceLen(mergeLen: nat, threads: nat, t: nat): nat
    requires threads > 0
  {
    var (length, modlen) := SliceUnit(mergeLen, threads);
    length + if t < modlen then 1 else 0
  }

  lemma {:induction false} NextSlice(mergeLen: nat, threads: nat, t: nat)
    requires threads > 0
    ensures SliceStart(mergeLen, threads, t + 1) == SliceStart(mergeLen, threads, t) + SliceLen(mergeLen, threads, t)
    ensures SliceLen(mergeLen, threads, t) >= 2
  {
    var (length, modlen) := SliceUnit(mergeLen, threads);
    assert (t + 1) * length == t * length + length;
  }

  lemma {:induction false} SliceStartGrows(mergeLen: nat, threads: nat, t: nat, u: nat)
    requires threads > 0 && t <= u
    ensures SliceStart(mergeLen, threads, t) <= SliceStart(mergeLen, threads, u)
    decreases u - t
  {
    if t < u {
      NextSlice(mergeLen, threads, u - 1);
      SliceStartGrows(mergeLen, threads, t, u - 1);
    }
  }

  /** With at least two inputs per thread the fallback is not taken, the slices start at 0, follow
      one another, hold at least two inputs each, and end exactly at mergeLen. */
  lemma {:induction false} SlicesCover(mergeLen: nat, threads: nat, t: nat)
    requires threads > 0 && 2 * threads <= mergeLen && t < threads
    ensures SliceUnit(mergeLen, threads) == (mergeLen / threads, mergeLen % threads)
    ensures SliceStart(mergeLen, threads, 0) == 0 && SliceStart(mergeLen, threads, threads) == mergeLen
    ensures SliceStart(mergeLen, threads, t + 1) == SliceStart(mergeLen, threads, t) + SliceLen(mergeLen, threads, t)
    ensures SliceLen(mergeLen, threads, t) >= 2
    ensures SliceStart(mergeLen, threads, t + 1) <= mergeLen
  {
    var q, r := mergeLen / threads, mergeLen % threads;
    assert mergeLen == threads * q + r;
    assert q <= 1 ==> threads * q <= threads;
    NextSlice(mergeLen, threads, t);
    SliceStartGrows(mergeLen, threads, t + 1, threads);
  }

  /** The slices are even: an earlier one holds as many inputs as a later one, or one more. */
  lemma {:induction false} SlicesAreEven(mergeLen: nat, threads: nat, t: nat, u: nat)
    requires threads > 0 && 2 * threads <= mergeLen && t <= u < threads
    ensures SliceStart(mergeLen, threads, u + 1) - SliceStart(mergeLen, threads, u)
         <= SliceStart(mergeLen, threads, t + 1) - SliceStart(mergeLen, threads, t)
         <= SliceStart(mergeLen, threads, u + 1) - SliceStart(mergeLen, threads, u) + 1
  {
    SlicesCover(mergeLen, threads, t);
    SlicesCover(mergeLen, threads, u);
  }

  // ---------- one round ----------

  ghost predicate AtStart(vals: seq<KeyValArr>, rows: Rows, from: nat)
    reads vals
  {
    && |vals| == |rows|
    && forall i :: from <= i < |vals| ==> vals[i].arr == rows[i] && vals[i].pos == 0
  }

  /** b rearranges a without mixing up equal keys. */
  ghost predicate SameOfKey(a: seq<KeyVal>, b: seq<KeyVal>) {
    forall k :: OfKey(a, k) == OfKey(b, k)
  }

  lemma {:induction false} SameOfKeyConcat(a: seq<KeyVal>, b: seq<KeyVal>, c: seq<KeyVal>, d: seq<KeyVal>)
    requires SameOfKey(a, b) && SameOfKey(c, d)
    ensures SameOfKey(a + c, b + d)
  {
    forall k
      ensures OfKey(a + c, k) == OfKey(b + d, k)
    {
      OfKeyConcat(a, c, k);
      OfKeyConcat(b, d, k);
    }
  }

  /** The arithmetic of merge_worker. */
  method Slice(mergeLen: nat, threads: nat, t: nat) returns (pos: nat, n: nat)
    requires threads > 0 && 2 * threads <= mergeLen && t < threads
    ensures pos == SliceStart(mergeLen, threads, t) && pos + n == SliceStart(mergeLen, threads, t + 1) <= mergeLen
            && n >= 2
  {
    SlicesCover(mergeLen, threads, t);
    var length, modlen := mergeLen / threads, mergeLen % threads;
    if length <= 1 {
      length, modlen := 2, mergeLen % 2;
    }
    pos := t * length + if t < modlen then t else modlen;
    n := length + if t < modlen then 1 else 0;
  }

  /** merge_worker for thread t. */
  method MergeWorker(t: nat, input: seq<KeyValArr>, threads: nat, ghost rows: Rows) returns (out: KeyValArr)
    requires threads > 0 && 2 * threads <= |input| && t < threads
    requires Numbered(input) && SortedRows(rows) && AtStart(input, rows, SliceStart(|input|, threads, t))
    modifies (set i | SliceStart(|input|, threads, t) <= i < SliceStart(|input|, threads, t + 1)
                      && i < |input| :: input[i])`pos
    ensures fresh(out) && out.Valid() && out.pos == 0 && out.index == t
    ensures SliceStart(|input|, threads, t) <= SliceStart(|input|, threads, t + 1) <= |input|
    ensures IsStableSort(Flatten(rows[SliceStart(|input|, threads, t)..SliceStart(|input|, threads, t + 1)]), out.arr)
  {
    var pos, n := Slice(|input|, threads, t);
    out := MergeResults(input[pos..pos + n], t, rows[pos..pos + n]);
  }

  lemma {:induction false} RowsSplit(rows: Rows, a: nat, b: nat)
    requires a <= b <= |rows|
    ensures Flatten(rows[..b]) == Flatten(rows[..a]) + Flatten(rows[a..b])
  {
    assert rows[..b] == rows[..a] + rows[a..b];
    FlattenConcat(rows[..a], rows[a..b]);
  }

  /** A merged slice behind what is already merged. */
  lemma {:induction false} SliceMerged(rows: Rows, outRows: Rows, a: nat, b: nat, merged: seq<KeyVal>)
    requires a <= b <= |rows| && SameOfKey(Flatten(outRows), Flatten(rows[..a]))
    requires IsStableSort(Flatten(rows[a..b]), merged)
    ensures SameOfKey(Flatten(outRows + [merged]), Flatten(rows[..b]))
  {
    RowsSplit(rows, a, b);
    FlattenSnoc(outRows, merged);
    SameOfKeyConcat(Flatten(outRows), Flatten(rows[..a]), merged, Flatten(rows[a..b]));
  }

  /** In the middle of a round: the first t threads have merged their slices. */
  ghost predicate RoundSoFar(input: seq<KeyValArr>, threads: nat, rows: Rows, outs: seq<KeyValArr>, outRows: Rows,
                             t: nat)
    requires threads > 0
    reads input, outs
  {
    && |outs| == t && (forall i :: 0 <= i < t ==> outs[i].index == i)
    && SliceStart(|input|, threads, t) <= |input| == |rows|
    && AtStart(input, rows, SliceStart(|input|, threads, t))
    && SortedRows(outRows) && AtStart(outs, outRows, 0)
    && SameOfKey(Flatten(outRows), Flatten(rows[..SliceStart(|input|, threads, t)]))
  }

  /** The work of one merge thread in a round. */
  method MergeNext(input: seq<KeyValArr>, threads: nat, t: nat, outs: seq<KeyValArr>, ghost rows: Rows,
                   ghost outRows: Rows)
    returns (out: KeyValArr)
    requires threads > 0 && 2 * threads <= |input| && t < threads
    requires Numbered(input) && SortedRows(rows) && RoundSoFar(input, threads, rows, outs, outRows, t)
    requires forall o :: o in outs ==> o !in input
    modifies (set v | v in input)`pos
    ensures fresh(out) && RoundSoFar(input, threads, rows, outs + [out], outRows + [out.arr], t + 1)
  {
    SlicesCover(|input|, threads, t);
    ghost var a, b := SliceStart(|input|, threads, t), SliceStart(|input|, threads, t + 1);
    out := MergeWorker(t, input, threads, rows);
    SliceMerged(rows, outRows, a, b, out.arr);
  }

  /** One round: every slot of merge_vals is written, and nothing is lost or reordered within a key. */
  method MergeRound(input: seq<KeyValArr>, threads: nat, ghost rows: Rows)
    returns (outs: seq<KeyValArr>, ghost outRows: Rows)
    requires threads > 0 && 2 * threads <= |input|
    requires Numbered(input) && SortedRows(rows) && AtStart(input, rows, 0)
    modifies (set v | v in input)`pos
    ensures |outs| == threads && fresh(set v | v in outs)
    ensures Numbered(outs) && SortedRows(outRows) && AtStart(outs, outRows, 0)
    ensures SameOfKey(Flatten(outRows), Flatten(rows))
  {
    outs, outRows := [], [];
    SlicesCover(|input|, threads, 0);
    for t := 0 to threads
      invariant fresh(set v | v in outs) && RoundSoFar(input, threads, rows, outs, outRows, t)
    {
      var out := MergeNext(input, threads, t, outs, rows, outRows);
      outs, outRows := outs + [out], outRows + [out.arr];
    }
    SlicesCover(|input|, threads, 0);
    assert rows[..|input|] == rows;
  }

  // ---------- all rounds ----------

  lemma {:induction false} FlattenSingle<T>(s: seq<T>)
    ensures Flatten([s]) == s
  {
    FlattenSnoc([], s);
    assert [] + [s] == [s];
  }

  /** merge(): the result is the one stable sort of all output queues laid end to end, so it does not
      depend on the number of merge threads; the loop ends after 1 + floor(log2(threads)) rounds. */
  method Merge(finals: seq<KeyValArr>, numMergeThreads: nat, ghost rows: Rows)
    returns (result: seq<KeyVal>, rounds: nat)
    requires |finals| >= 1 && numMergeThreads >= 1 && (|finals| > 1 ==> 2 * numMergeThreads <= |finals|)
    requires Numbered(finals) && SortedRows(rows) && AtStart(finals, rows, 0)
    modifies (set v | v in finals)`pos
    ensures IsStableSort(Flatten(rows), result)
    ensures rounds == if |finals| <= 1 then 0 else 1 + Log2(numMergeThreads)
  {
    rounds := 0;
    var mergeLen, input, threads := |finals|, finals, numMergeThreads;
    ghost var cur := rows;
    while mergeLen > 1
      invariant 1 <= mergeLen == |input| && threads >= 1
      invariant mergeLen > 1 ==> 2 * threads <= mergeLen
      invariant forall v :: v in input ==> v in finals || fresh(v)
      invariant Numbered(input) && SortedRows(cur) && AtStart(input, cur, 0)
      invariant SameOfKey(Flatten(cur), Flatten(rows))
      invariant rounds + (if mergeLen > 1 then 1 + Log2(threads) else 0)
             == if |finals| <= 1 then 0 else 1 + Log2(numMergeThreads)
      decreases mergeLen
    {
      rounds := rounds + 1;
      ghost var next;
      input, next := MergeRound(input, threads, cur);
      cur := next;
      mergeLen := threads;
      threads := threads / 2;
      if threads == 0 {
        threads := 1;
      }
    }
    result := input[0].arr;
    assert cur == [result];
    FlattenSingle(result);
  }
}
