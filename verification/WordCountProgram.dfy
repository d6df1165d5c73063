/** word_count as a whole, from the file in memory to the result: the splitter, the map tasks in place on
    the one buffer, and the runtime. */
module WordCountProgram {
  import opened Options
  import opened KeyOrder
  import opened IntermediateTable
  import opened ReduceWorker
  import opened TaskQueueRuns
  import opened MapReduceJob
  import opened Permutations
  import opened JobResult
  import opened JobOutput
  import opened MapReduce
  import opened WordCount
  import opened WordCountJob
  import KWayMerge
  import MergeTree

  /** Each of 0 .. n-1 is in the list exactly once. */
  ghost predicate EachOnce(order: seq<nat>, n: nat) {
    && multiset(order) == multiset(Iota(n))
    && (forall i :: 0 <= i < |order| ==> order[i] < n)
    && (forall i, j :: 0 <= i < j < |order| ==> order[i] != order[j])
    && (forall c: nat :: c < n ==> c in order)
  }

  lemma {:induction false} DispatchIsEachOnce(runs: seq<Delivery>, n: nat, threads: nat)
    requires HandsOut(runs, n, threads)
    ensures EachOnce(Ids(runs), n)
  {
    HandedOutIds(runs, n, threads);
    forall i, j | 0 <= i < j < |Ids(runs)|
      ensures Ids(runs)[i] != Ids(runs)[j]
    {
      HandedOutOnce(runs, n, threads, j);
      assert Ids(runs[..j])[i] == runs[i].task.id;
    }
    forall c: nat | c < n
      ensures c in Ids(runs)
    {
      assert Iota(n)[c] == c;
      assert c in multiset(Iota(n));
    }
  }

  /** The emits of the map tasks. */
  method EmitWords(place: map<nat, int>, byPiece: seq<seq<Word>>, ghost text: seq<Byte>, ghost pieces: seq<Piece>)
    returns (mapped: seq<seq<KeyVal>>)
    requires |byPiece| == |pieces| && forall c :: 0 <= c < |pieces| ==> byPiece[c] == PieceTokens(text, pieces[c])
    ensures mapped == MappedPairs(text, place, pieces) && |mapped| == |pieces|
  {
    mapped := [];
    assert pieces[..0] == [];
    for c := 0 to |byPiece|
      invariant mapped == MappedPairs(text, place, pieces[..c]) && |mapped| == c
    {
      assert pieces[..c + 1][..c] == pieces[..c];
      mapped := mapped + [Pairs(place, byPiece[c])];
    }
    assert pieces[..|pieces|] == pieces;
  }

  /** The pair counts a word of the text, and its pointer denotes that word in the buffer. */
  ghost predicate ListsWord(text: seq<Byte>, buf: seq<Byte>, words: seq<Word>, place: map<nat, int>, kv: KeyVal,
                            w: Word)
    requires forall v :: v in words ==> v.start <= v.end <= |text|
  {
    CountsWord(text, words, place, kv, w) && kv.key.address == w.start && Denotes(buf, kv.key.address, Spell(text, w))
  }

  /** The result holds nothing else. */
  ghost predicate ListsOnlyWords(text: seq<Byte>, buf: seq<Byte>, words: seq<Word>, place: map<nat, int>,
                                 result: seq<KeyVal>)
    requires forall v :: v in words ==> v.start <= v.end <= |text|
  {
    forall kv :: kv in result ==> exists w :: ListsWord(text, buf, words, place, kv, w)
  }

  lemma {:induction false} PairsListWords(text: seq<Byte>, buf: seq<Byte>, flen: nat, words: seq<Word>,
                                          place: map<nat, int>, result: seq<KeyVal>)
    requires flen < |text| && InText(text, Tokens(text, 0, flen)) && multiset(words) == multiset(Tokens(text, 0, flen))
    requires forall kv :: kv in result ==> exists w :: CountsWord(text, Tokens(text, 0, flen), place, kv, w)
    requires buf == AsMarked(text, words)
    ensures ListsOnlyWords(text, buf, Tokens(text, 0, flen), place, result)
  {
    var all := Tokens(text, 0, flen);
    assert forall v :: v in words <==> v in multiset(words);
    assert forall v :: v in all <==> v in multiset(all);
    forall kv | kv in result
      ensures exists w :: ListsWord(text, buf, all, place, kv, w)
    {
      var w :| CountsWord(text, all, place, kv, w);
      PointersDenoteWords(text, words, flen, w);
      assert ListsWord(text, buf, all, place, kv, w);
    }
  }

  /** How many map tasks the splitter makes of the text. */
  function MapTasks(text: seq<Byte>, flen: nat, size: nat): nat
    requires flen <= |text| && size > 0
  {
    |Pieces(text, flen, 0, size)|
  }

  /** All map tasks in place, in some order, and what each of them emits. */
  method MapInPlace(data: array<Byte>, pieces: seq<Piece>, flen: nat, place: map<nat, int>, order: seq<nat>)
    returns (mapped: seq<seq<KeyVal>>, ghost words: seq<Word>)
    requires flen < data.Length && Cuts(data[..], pieces, flen, flen) && EachOnce(order, |pieces|)
    modifies data
    ensures mapped == MappedPairs(old(data[..]), place, pieces) && |mapped| == |pieces|
    ensures multiset(words) == multiset(Tokens(old(data[..]), 0, flen)) && data[..] == AsMarked(old(data[..]), words)
  {
    ghost var text := data[..];
    var found, byPiece := MapPieces(data, pieces, order, flen);
    words := found;
    AnyOrderHasAllWords(text, pieces, flen, order);
    forall c | 0 <= c < |pieces|
      ensures byPiece[c] == PieceTokens(text, pieces[c])
    {
      assert c in order;
      var i :| 0 <= i < |order| && order[i] == c;
    }
    mapped := EmitWords(place, byPiece, text, pieces);
  }

  /** The splitter and the map tasks. */
  method MapText(data: array<Byte>, flen: nat, unitSize: nat, reqUnits: nat, place: map<nat, int>, order: seq<nat>,
                 ghost size: nat)
    returns (mapped: seq<seq<KeyVal>>, ghost pieces: seq<Piece>, ghost words: seq<Word>)
    requires flen < data.Length && unitSize > 0 && reqUnits > 0 && size == reqUnits * unitSize > 0
    requires EachOnce(order, MapTasks(data[..], flen, size))
    modifies data
    ensures Cuts(old(data[..]), pieces, flen, flen) && |pieces| == MapTasks(old(data[..]), flen, size)
    ensures mapped == MappedPairs(old(data[..]), place, pieces) && |mapped| == |pieces|
    ensures multiset(words) == multiset(Tokens(old(data[..]), 0, flen)) && data[..] == AsMarked(old(data[..]), words)
  {
    var splitter := new Splitter(data, flen, unitSize);
    var cut := splitter.SplitAll(reqUnits);
    pieces := cut;
    mapped, words := MapInPlace(data, cut, flen, place, order);
  }

  /** Every word whose reduce task is queued has one pair, with the number of its occurrences. */
  ghost predicate ListsEveryWord(text: seq<Byte>, words: seq<Word>, place: map<nat, int>, job: Job, queued: nat,
                                 result: seq<KeyVal>)
    requires forall v :: v in words ==> v.start <= v.end <= |text|
  {
    forall w :: w in words ==>
      Emitted(result, KeyOf(place, w))
      == if TaskOf(job, KeyOf(place, w)) < queued then multiset{Occurrences(text, words, Spell(text, w))}
        else multiset{}
  }

  /** Equal keys get the same partition number. */
  ghost predicate RespectsEquality(partition: (nat, Key) -> nat, reduceTasks: nat) {
    forall a, b :: KeyCmp(a, b) == 0 ==> partition(reduceTasks, a) == partition(reduceTasks, b)
  }

  /** The job main() hands to the runtime. */
  function WordCountOf(partition: (nat, Key) -> nat, queuePerTask: bool): (job: Job)
    requires RespectsEquality(partition, MergeTree.ReduceTasks(queuePerTask))
    ensures IsWordCount(job) && job.reduceTasks == MergeTree.ReduceTasks(queuePerTask)
            && job.queuePerTask == queuePerTask
  {
    JobOf(partition, MergeTree.ReduceTasks(queuePerTask), Some((vals: seq<Val>) => Sum(vals)),
          (k: Key, vals: seq<Val>) => SumReduce(k, vals), queuePerTask)
  }

  lemma {:induction false} ReducesUnderKey(job: Job)
    requires IsWordCount(job)
    ensures EmitsUnderKey(job.reduce)
  {
    forall k, vals, i | 0 <= i < |job.reduce(k, vals)|
      ensures KeyCmp(job.reduce(k, vals)[i].key, k) == 0
    {
      assert job.reduce(k, vals) == SumReduce(k, vals);
    }
  }

  /** The runtime, on what the map tasks emit. */
  method CountMapped(ghost text: seq<Byte>, ghost flen: nat, ghost pieces: seq<Piece>, ghost place: map<nat, int>,
                     mapped: seq<seq<KeyVal>>, job: Job, numProcs: nat, argMap: int, argReduce: int, argMerge: int,
                     mapRuns: seq<Delivery>, reduceRuns: seq<Delivery>, ghost queued: nat)
    returns (result: seq<KeyVal>)
    requires flen <= |text| && Cuts(text, pieces, flen, flen) && mapped == MappedPairs(text, place, pieces)
             && mapped != []
    requires InText(text, Tokens(text, 0, flen)) && AreWordPlaces(text, Tokens(text, 0, flen), place)
    requires IsWordCount(job) && job.reduceTasks == MergeTree.ReduceTasks(job.queuePerTask) && numProcs > 0
    requires HandsOut(mapRuns, |mapped|, MapThreadsOf(numProcs, argMap, |mapped|))
    requires queued == QueuedOf(job, numProcs, argMap, argReduce, |mapped|)
    requires HandsOut(reduceRuns, queued, Given(argReduce, numProcs))
    ensures Sorted(result) && ListsEveryWord(text, Tokens(text, 0, flen), place, job, queued, result)
    ensures forall kv :: kv in result ==> exists w :: CountsWord(text, Tokens(text, 0, flen), place, kv, w)
  {
    ReducesUnderKey(job);
    var rounds;
    result, rounds := RunJob(job, mapped, numProcs, argMap, argReduce, argMerge, mapRuns, reduceRuns);
    ghost var emitted := EmittedByThreads(mapped, mapRuns, MapThreadsOf(numProcs, argMap, |mapped|));
    ResultCountsWords(text, flen, pieces, place, job, emitted, queued, result);
  }

  /** main() of word_count up to the result, with the partition and the order of strcmp as parameters: for
      any text, thread counts and schedule, the result is sorted by strcmp, has for every word whose reduce
      task is queued one pair with the number of its occurrences in the text as it was, and nothing but such
      pairs; and every pointer in it denotes its word, in upper case, in the buffer as it is left. */
  method CountWords(data: array<Byte>, flen: nat, unitSize: nat, reqUnits: nat, place: map<nat, int>,
                    partition: (nat, Key) -> nat, queuePerTask: bool,
                    numProcs: nat, argMap: int, argReduce: int, argMerge: int,
                    mapRuns: seq<Delivery>, reduceRuns: seq<Delivery>, ghost size: nat)
    returns (result: seq<KeyVal>)
    requires 0 < flen < data.Length && unitSize > 0 && reqUnits > 0 && size == reqUnits * unitSize > 0 && numProcs > 0
    requires RespectsEquality(partition, MergeTree.ReduceTasks(queuePerTask))
    requires InText(data[..], Tokens(data[..], 0, flen)) && AreWordPlaces(data[..], Tokens(data[..], 0, flen), place)
    requires var n, job := MapTasks(data[..], flen, size), WordCountOf(partition, queuePerTask);
             && HandsOut(mapRuns, n, MapThreadsOf(numProcs, argMap, n))
             && HandsOut(reduceRuns, QueuedOf(job, numProcs, argMap, argReduce, n), Given(argReduce, numProcs))
    modifies data
    ensures Sorted(result)
    ensures var job := WordCountOf(partition, queuePerTask);
            var queued := QueuedOf(job, numProcs, argMap, argReduce, MapTasks(old(data[..]), flen, size));
            ListsEveryWord(old(data[..]), Tokens(old(data[..]), 0, flen), place, job, queued, result)
    ensures ListsOnlyWords(old(data[..]), data[..], Tokens(old(data[..]), 0, flen), place, result)
  {
    ghost var text, n := data[..], MapTasks(data[..], flen, size);
    var job := WordCountOf(partition, queuePerTask);
    ghost var queued := QueuedOf(job, numProcs, argMap, argReduce, n);
    var mapped;
    ghost var pieces, words;
    DispatchIsEachOnce(mapRuns, n, MapThreadsOf(numProcs, argMap, n));
    mapped, pieces, words := MapText(data, flen, unitSize, reqUnits, place, Ids(mapRuns), size);
    result := CountMapped(text, flen, pieces, place, mapped, job, numProcs, argMap, argReduce, argMerge, mapRuns,
                          reduceRuns,
                          queued);
    PairsListWords(text, data[..], flen, words, place, result);
  }
}
