/** The meaning of a whole job: one reduce call per distinct key, on exactly the values emitted for it,
    sorted; and the proof that the tasks' outputs add up to it. */
module JobResult {
  import opened Sequences
  import opened Options
  import opened KeyOrder
  import opened IntermediateTable
  import opened ValueIterator
  import opened GroupReduce
  import opened ReduceWorker
  import opened TaskQueueRuns
  import opened KWayMerge
  import opened MapReduceJob
  import opened Permutations
  import opened Combiner

  /** One reduce call: a key and the values emitted for it, one part per map thread that emitted any. */
  datatype Reduction = Reduction(key: Key, parts: seq<seq<Val>>)

  /** What the call's iterator yields: the values themselves, or one combined value per part. */
  function Read(job: Job, parts: seq<seq<Val>>): seq<Val> {
    match job.combiner
    case None => Flatten(parts)
    case Some(combine) => CombineParts(combine, parts)
  }

  /** Everything the reduce calls emit. */
  function ReduceAll(job: Job, rs: seq<Reduction>): multiset<KeyVal> {
    if rs == [] then multiset{}
    else
      var last := rs[|rs| - 1];
      ReduceAll(job, rs[..|rs| - 1]) + multiset(job.reduce(last.key, Read(job, last.parts)))
  }

  /** The key of the first pair emitted for a key equal to k. */
  function FirstKey(pairs: seq<KeyVal>, k: Key): (r: Option<Key>)
    ensures r.Some? ==> KeyCmp(r.value, k) == 0
  {
    if pairs == [] then None
    else
      var first, last := FirstKey(pairs[..|pairs| - 1], k), pairs[|pairs| - 1].key;
      if first.None? && KeyCmp(last, k) == 0 then Some(last) else first
  }

  /** One part for each of the first n threads that emitted anything for k: exactly what it emitted. */
  ghost predicate PartsOfThreads(parts: seq<seq<Val>>, emitted: seq<seq<KeyVal>>, n: nat, k: Key)
    requires n <= |emitted|
  {
    if n == 0 then parts == []
    else if Emitted(emitted[n - 1], k) == multiset{} then PartsOfThreads(parts, emitted, n - 1, k)
    else
      && parts != [] && multiset(parts[|parts| - 1]) == Emitted(emitted[n - 1], k)
      && PartsOfThreads(parts[..|parts| - 1], emitted, n - 1, k)
  }

  /** The call is for a key of a queued task, under the first pointer emitted for it by the first thread
      that emitted one, on what each thread emitted for the key. */
  ghost predicate ReadsEmitted(job: Job, emitted: seq<seq<KeyVal>>, queued: nat, r: Reduction) {
    && TaskOf(job, r.key) < queued
    && FirstKey(Flatten(emitted), r.key) == Some(r.key)
    && PartsOfThreads(r.parts, emitted, |emitted|, r.key)
  }

  ghost predicate HasReduction(rs: seq<Reduction>, k: Key) {
    exists r :: 0 <= r < |rs| && KeyCmp(rs[r].key, k) == 0
  }

  /** Some thread emitted a value for the key. */
  predicate IsEmitted(emitted: seq<seq<KeyVal>>, k: Key) {
    FirstKey(Flatten(emitted), k).Some?
  }

  /** Exactly one reduction for each emitted key whose reduce task is one of the `queued` first. */
  ghost predicate AreReductions(job: Job, emitted: seq<seq<KeyVal>>, queued: nat, rs: seq<Reduction>)
  {
    && (forall a, b :: 0 <= a < b < |rs| ==> KeyCmp(rs[a].key, rs[b].key) != 0)
    && (forall r :: 0 <= r < |rs| ==> ReadsEmitted(job, emitted, queued, rs[r]))
    && (forall k {:trigger HasReduction(rs, k)} :: TaskOf(job, k) < queued && IsEmitted(emitted, k) ==>
       HasReduction(rs, k))
  }

  /** The result of a job whose map thread t emitted the pairs emitted[t], for each t. */
  ghost predicate IsResult(job: Job, emitted: seq<seq<KeyVal>>, queued: nat, result: seq<KeyVal>)
  {
    Sorted(result) && exists rs :: AreReductions(job, emitted, queued, rs) && multiset(result) == ReduceAll(job, rs)
  }

  // ---------- the values emitted for a key ----------

  function Matching(kv: KeyVal, k: Key): multiset<Val> {
    if KeyCmp(kv.key, k) == 0 then multiset{kv.val} else multiset{}
  }

  lemma {:induction false} EmittedSnoc(pairs: seq<KeyVal>, kv: KeyVal, k: Key)
    ensures Emitted(pairs + [kv], k) == Emitted(pairs, k) + Matching(kv, k)
  {
    assert (pairs + [kv])[..|pairs|] == pairs;
  }

  lemma {:induction false} EmittedTakeOut(pairs: seq<KeyVal>, i: nat, k: Key)
    requires i < |pairs|
    ensures Emitted(pairs, k) == Emitted(pairs[..i] + pairs[i + 1..], k) + Matching(pairs[i], k)
  {
    var last := |pairs| - 1;
    if i == last {
      assert pairs[..i] + pairs[i + 1..] == pairs[..last];
    } else {
      var init := pairs[..last];
      var rest := init[..i] + init[i + 1..];
      EmittedTakeOut(init, i, k);
      TakeOutBeforeLast(pairs, i);
      EmittedSnoc(rest, pairs[last], k);
      AddSwap(Emitted(rest, k), Matching(pairs[i], k), Matching(pairs[last], k));
    }
  }

  lemma {:induction false} EmittedPermutation(a: seq<KeyVal>, b: seq<KeyVal>, k: Key)
    requires multiset(a) == multiset(b)
    ensures Emitted(a, k) == Emitted(b, k)
    decreases |a|
  {
    if a == [] {
      assert |multiset(b)| == |b|;
    } else {
      var i := MatchLast(a, b);
      EmittedTakeOut(b, i, k);
      EmittedPermutation(a[..|a| - 1], b[..i] + b[i + 1..], k);
    }
  }

  lemma {:induction false} EmittedConcat(a: seq<KeyVal>, b: seq<KeyVal>, k: Key)
    ensures Emitted(a + b, k) == Emitted(a, k) + Emitted(b, k)
  {
    if b == [] {
      assert a + b == a;
    } else {
      var init, last := b[..|b| - 1], b[|b| - 1];
      EmittedConcat(a, init, k);
      assert b == init + [last] && a + b == (a + init) + [last];
      EmittedSnoc(a + init, last, k);
      EmittedSnoc(init, last, k);
      AddAgain(Emitted(a, k), Emitted(init, k), Matching(last, k));
    }
  }

  /** Reduce task j of the key gets all of its pairs, any other task none. */
  lemma {:induction false} EmittedForTask(job: Job, pairs: seq<KeyVal>, j: nat, k: Key)
    requires ValidJob(job)
    ensures Emitted(PairsFor(job, pairs, j), k) == if TaskOf(job, k) == j then Emitted(pairs, k) else multiset{}
  {
    if pairs != [] {
      var init, last := pairs[..|pairs| - 1], pairs[|pairs| - 1];
      EmittedForTask(job, init, j, k);
      var kept := PairsFor(job, init, j);
      assert Emitted(pairs, k) == Emitted(init, k) + Matching(last, k);
      if KeyCmp(last.key, k) == 0 {
        assert TaskOf(job, last.key) == TaskOf(job, k);
      }
      if TaskOf(job, last.key) == j {
        assert (kept + [last])[..|kept|] == kept;
        assert Emitted(kept + [last], k) == Emitted(kept, k) + Matching(last, k);
      } else {
        assert PairsFor(job, pairs, j) == kept;
      }
    }
  }

  // ---------- the first pointer emitted for a key ----------

  lemma {:induction false} FirstKeySnoc(pairs: seq<KeyVal>, kv: KeyVal, k: Key)
    ensures FirstKey(pairs + [kv], k)
         == if FirstKey(pairs, k).None? && KeyCmp(kv.key, k) == 0 then Some(kv.key) else FirstKey(pairs, k)
  {
    assert (pairs + [kv])[..|pairs|] == pairs;
  }

  /** A key has a first pointer exactly when a value was emitted for it. */
  lemma {:induction false} FirstKeyMeansEmitted(pairs: seq<KeyVal>, k: Key)
    ensures FirstKey(pairs, k).None? <==> Emitted(pairs, k) == multiset{}
  {
    if pairs != [] {
      FirstKeyMeansEmitted(pairs[..|pairs| - 1], k);
    }
  }

  /** What FirstKey finds is the key of one of the pairs, and no earlier pair has an equal key. */
  lemma {:induction false} FirstKeyIsFirst(pairs: seq<KeyVal>, k: Key) returns (i: nat)
    requires FirstKey(pairs, k).Some?
    ensures i < |pairs| && pairs[i].key == FirstKey(pairs, k).value
    ensures forall j :: 0 <= j < i ==> KeyCmp(pairs[j].key, k) != 0
  {
    var n := |pairs| - 1;
    if FirstKey(pairs[..n], k).Some? {
      i := FirstKeyIsFirst(pairs[..n], k);
    } else {
      i := n;
      forall j | 0 <= j < n
        ensures KeyCmp(pairs[j].key, k) != 0
      {
        NoneIsFirst(pairs[..n], k, j);
      }
    }
  }

  lemma {:induction false} NoneIsFirst(pairs: seq<KeyVal>, k: Key, j: nat)
    requires FirstKey(pairs, k).None? && j < |pairs|
    ensures KeyCmp(pairs[j].key, k) != 0
  {
    if j < |pairs| - 1 {
      NoneIsFirst(pairs[..|pairs| - 1], k, j);
    }
  }

  lemma {:induction false} FirstKeyConcat(a: seq<KeyVal>, b: seq<KeyVal>, k: Key)
    ensures FirstKey(a + b, k) == if FirstKey(a, k).Some? then FirstKey(a, k) else FirstKey(b, k)
  {
    if b == [] {
      assert a + b == a;
    } else {
      var init, last := b[..|b| - 1], b[|b| - 1];
      FirstKeyConcat(a, init, k);
      assert b == init + [last] && a + b == (a + init) + [last];
      FirstKeySnoc(a + init, last, k);
      FirstKeySnoc(init, last, k);
    }
  }

  /** The reduce task of a key gets it first from the same pair. */
  lemma {:induction false} FirstKeyForTask(job: Job, pairs: seq<KeyVal>, j: nat, k: Key)
    requires ValidJob(job) && TaskOf(job, k) == j
    ensures FirstKey(PairsFor(job, pairs, j), k) == FirstKey(pairs, k)
  {
    if pairs != [] {
      var init, last := pairs[..|pairs| - 1], pairs[|pairs| - 1];
      FirstKeyForTask(job, init, j, k);
      if TaskOf(job, last.key) == j {
        FirstKeySnoc(PairsFor(job, init, j), last, k);
      } else {
        assert PairsFor(job, pairs, j) == PairsFor(job, init, j);
        assert KeyCmp(last.key, k) != 0;
      }
    }
  }

  function FirstOf(entries: seq<KeyVals>): Option<Key> {
    if entries == [] then None else Some(entries[0].key)
  }

  /** insert_keyval_merged keeps the pointer of the entry it finds. */
  lemma {:induction false} InsertKeepsFirst(table: seq<KeyVals>, key: Key, v: Val, k: Key)
    requires StrictlySorted(table)
    ensures FirstOf(KeyEntries(Insert(table, key, v), 0, k))
         == if FirstOf(KeyEntries(table, 0, k)).None? && KeyCmp(key, k) == 0 then Some(key)
            else FirstOf(KeyEntries(table, 0, k))
  {
    var after := Insert(table, key, v);
    KeyEntriesCons(after, k);
    if table != [] {
      KeyEntriesCons(table, k);
      if KeyCmp(table[0].key, key) < 0 {
        assert after[1..] == Insert(table[1..], key, v);
        InsertKeepsFirst(table[1..], key, v, k);
      } else if KeyCmp(table[0].key, key) == 0 {
        assert after[1..] == table[1..];
      } else {
        assert after[1..] == table;
        if KeyCmp(key, k) == 0 {
          NoKeyEntries(table, 0, k);
        }
      }
    } else {
      assert after[1..] == table;
    }
  }

  lemma {:induction false} KeyEntriesCons(table: seq<KeyVals>, k: Key)
    requires table != []
    ensures KeyEntries(table, 0, k)
            == (if KeyCmp(table[0].key, k) == 0 then [table[0]] else []) + KeyEntries(table[1..], 0, k)
  {
    KeyEntriesTail(table, 1, k);
  }

  lemma {:induction false} KeyEntriesTail(table: seq<KeyVals>, p: nat, k: Key)
    requires 0 < p <= |table|
    ensures KeyEntries(table, p, k) == KeyEntries(table[1..], p - 1, k)
    decreases |table| - p
  {
    if p < |table| {
      KeyEntriesTail(table, p + 1, k);
    }
  }

  lemma {:induction false} TableKeepsFirst(pairs: seq<KeyVal>, k: Key)
    ensures FirstOf(KeyEntries(PlainTable(pairs), 0, k)) == FirstKey(pairs, k)
  {
    if pairs != [] {
      var init, last := pairs[..|pairs| - 1], pairs[|pairs| - 1];
      TableKeepsFirst(init, k);
      TableRefinesMap(init);
      InsertKeepsFirst(InsertAll(init), last.key, last.val, k);
    }
  }

  // ---------- one reduce task ----------

  lemma {:induction false} DrainKeyEntries(table: seq<KeyVals>, p: nat, k: Key)
    requires p <= |table|
    ensures multiset(DrainAll(KeyEntries(table, p, k))) == Held(table[p..], k)
    decreases |table| - p
  {
    if p < |table| {
      DrainKeyEntries(table, p + 1, k);
      assert table[p..][1..] == table[p + 1..];
      var own := if KeyCmp(table[p].key, k) == 0 then [table[p]] else [];
      DrainAllConcat(own, KeyEntries(table, p + 1, k));
      DrainAllSnoc([], table[p]);
      assert [] + [table[p]] == [table[p]];
    }
  }

  /** A strictly sorted table has at most one entry for a key. */
  lemma {:induction false} OneKeyEntry(table: seq<KeyVals>, p: nat, k: Key)
    requires StrictlySorted(table) && p <= |table|
    ensures |KeyEntries(table, p, k)| <= 1
    decreases |table| - p
  {
    if p < |table| {
      OneKeyEntry(table, p + 1, k);
      if KeyCmp(table[p].key, k) == 0 {
        NoKeyEntries(table, p + 1, k);
      }
    }
  }

  /** What one thread holds for a key: nothing, or one entry with the first pointer it emitted and all the
      values. */
  ghost predicate OwnEntry(entries: seq<KeyVals>, pairs: seq<KeyVal>, k: Key) {
    && FirstOf(entries) == FirstKey(pairs, k)
    && if Emitted(pairs, k) == multiset{} then entries == []
       else |entries| == 1 && multiset(Drain(entries[0].vals)) == Emitted(pairs, k)
  }

  lemma {:induction false} TableHoldsEmitted(pairs: seq<KeyVal>, k: Key)
    ensures OwnEntry(KeyEntries(PlainTable(pairs), 0, k), pairs, k)
  {
    var table := PlainTable(pairs);
    var entries := KeyEntries(table, 0, k);
    DrainKeyEntries(table, 0, k);
    assert table[0..] == table;
    TableRefinesMap(pairs);
    OneKeyEntry(table, 0, k);
    TableKeepsFirst(pairs, k);
    FirstKeyMeansEmitted(pairs, k);
    if entries != [] {
      assert entries == [] + [entries[0]];
      DrainAllSnoc([], entries[0]);
    }
  }

  /** The entries of a key in the first n tables: as its parts what each thread emitted, and first of all
      the first pointer any of them emitted. */
  ghost predicate OwnEntries(entries: seq<KeyVals>, column: seq<seq<KeyVal>>, n: nat, k: Key)
    requires n <= |column|
  {
    PartsOfThreads(Parts(entries), column, n, k) && FirstOf(entries) == FirstKey(Flatten(column[..n]), k)
  }

  lemma {:induction false} PartsSnoc(parts: seq<seq<Val>>, part: seq<Val>, emitted: seq<seq<KeyVal>>, n: nat, k: Key)
    requires n < |emitted| && PartsOfThreads(parts, emitted, n, k)
    requires multiset(part) == Emitted(emitted[n], k) != multiset{}
    ensures PartsOfThreads(parts + [part], emitted, n + 1, k)
  {
    assert (parts + [part])[..|parts|] == parts;
  }

  lemma {:induction false} DrainParts(before: seq<KeyVals>, e: KeyVals)
    ensures Parts(before + [e]) == Parts(before) + [Drain(e.vals)]
  {
  }

  lemma {:induction false} PartsOfOneMore(before: seq<KeyVals>, own: seq<KeyVals>, column: seq<seq<KeyVal>>, n: nat,
                                          k: Key)
    requires n < |column| && PartsOfThreads(Parts(before), column, n, k) && OwnEntry(own, column[n], k)
    ensures PartsOfThreads(Parts(before + own), column, n + 1, k)
  {
    if own == [] {
      assert before + own == before;
    } else {
      assert own == [own[0]];
      PartsSnoc(Parts(before), Drain(own[0].vals), column, n, k);
      DrainParts(before, own[0]);
    }
  }

  lemma {:induction false} FlattenNext(rows: seq<seq<KeyVal>>, n: nat)
    requires n < |rows|
    ensures Flatten(rows[..n + 1]) == Flatten(rows[..n]) + rows[n]
  {
    assert rows[..n + 1] == rows[..n] + [rows[n]];
    FlattenSnoc(rows[..n], rows[n]);
  }

  lemma {:induction false} OneThreadMore(before: seq<KeyVals>, own: seq<KeyVals>, column: seq<seq<KeyVal>>, n: nat,
                                         k: Key)
    requires n < |column| && OwnEntries(before, column, n, k) && OwnEntry(own, column[n], k)
    ensures OwnEntries(before + own, column, n + 1, k)
  {
    PartsOfOneMore(before, own, column, n, k);
    FlattenNext(column, n);
    FirstKeyConcat(Flatten(column[..n]), column[n], k);
    assert FirstOf(before + own) == if FirstOf(before).Some? then FirstOf(before) else FirstOf(own);
  }

  lemma {:induction false} EntriesOfNext(tables: Tables, pos: seq<nat>, n: nat, k: Key)
    requires Positions(tables, pos) && n < |tables|
    ensures EntriesOf(tables, pos, n + 1, k) == EntriesOf(tables, pos, n, k) + KeyEntries(tables[n], pos[n], k)
  {
  }

  ghost predicate AllOwn(tables: Tables, pos: seq<nat>, column: seq<seq<KeyVal>>, n: nat, k: Key)
    requires Positions(tables, pos) && n <= |column| && n <= |tables|
  {
    n == 0
    || (AllOwn(tables, pos, column, n - 1, k) && OwnEntry(KeyEntries(tables[n - 1], pos[n - 1], k), column[n - 1], k))
  }

  lemma {:induction false} TablesAreOwn(tables: Tables, pos: seq<nat>, column: seq<seq<KeyVal>>, n: nat, k: Key)
    requires Positions(tables, pos) && n <= |column| == |tables|
    requires forall t :: 0 <= t < |column| ==> tables[t] == PlainTable(column[t]) && pos[t] == 0
    ensures AllOwn(tables, pos, column, n, k)
  {
    if n > 0 {
      TablesAreOwn(tables, pos, column, n - 1, k);
      TableHoldsEmitted(column[n - 1], k);
    }
  }

  lemma {:induction false} EntriesAreOwn(tables: Tables, pos: seq<nat>, column: seq<seq<KeyVal>>, n: nat, k: Key)
    requires Positions(tables, pos) && n <= |column| == |tables| && AllOwn(tables, pos, column, n, k)
    ensures OwnEntries(EntriesOf(tables, pos, n, k), column, n, k)
  {
    if n == 0 {
      assert column[..0] == [];
    } else {
      EntriesAreOwn(tables, pos, column, n - 1, k);
      EntriesOfNext(tables, pos, n - 1, k);
      OneThreadMore(EntriesOf(tables, pos, n - 1, k), KeyEntries(tables[n - 1], pos[n - 1], k), column, n - 1, k);
    }
  }

  lemma {:induction false} SameParts(parts: seq<seq<Val>>, a: seq<seq<KeyVal>>, b: seq<seq<KeyVal>>, n: nat, k: Key)
    requires n <= |a| == |b| && forall t :: 0 <= t < n ==> Emitted(a[t], k) == Emitted(b[t], k)
    requires PartsOfThreads(parts, a, n, k)
    ensures PartsOfThreads(parts, b, n, k)
  {
    if n > 0 {
      SameParts(if Emitted(a[n - 1], k) == multiset{} then parts else parts[..|parts| - 1], a, b, n - 1, k);
    }
  }

  /** A reduce task gets all of what each thread emitted for its keys. */
  lemma {:induction false} PartsForTask(job: Job, parts: seq<seq<Val>>, emitted: seq<seq<KeyVal>>, j: nat, k: Key)
    requires ValidJob(job) && TaskOf(job, k) == j
    requires PartsOfThreads(parts, EmittedFor(job, emitted, j), |emitted|, k)
    ensures PartsOfThreads(parts, emitted, |emitted|, k)
  {
    var column := EmittedFor(job, emitted, j);
    forall t | 0 <= t < |emitted|
      ensures Emitted(column[t], k) == Emitted(emitted[t], k)
    {
      EmittedForTask(job, emitted[t], j, k);
    }
    SameParts(parts, column, emitted, |emitted|, k);
  }

  lemma {:induction false} FirstForTask(job: Job, emitted: seq<seq<KeyVal>>, j: nat, n: nat, k: Key)
    requires ValidJob(job) && n <= |emitted|
    ensures FirstKey(Flatten(EmittedFor(job, emitted, j)[..n]), k)
         == if TaskOf(job, k) == j then FirstKey(Flatten(emitted[..n]), k) else None
  {
    var column := EmittedFor(job, emitted, j);
    if n == 0 {
      assert column[..0] == [] && emitted[..0] == [];
    } else {
      FirstForTask(job, emitted, j, n - 1, k);
      FlattenNext(emitted, n - 1);
      FlattenNext(column, n - 1);
      FirstKeyConcat(Flatten(emitted[..n - 1]), emitted[n - 1], k);
      FirstKeyConcat(Flatten(column[..n - 1]), column[n - 1], k);
      if TaskOf(job, k) == j {
        FirstKeyForTask(job, emitted[n - 1], j, k);
      } else {
        EmittedForTask(job, emitted[n - 1], j, k);
        FirstKeyMeansEmitted(column[n - 1], k);
      }
    }
  }

  lemma {:induction false} EmittedNext(emitted: seq<seq<KeyVal>>, n: nat, k: Key)
    requires n < |emitted|
    ensures Emitted(Flatten(emitted[..n + 1]), k) == Emitted(Flatten(emitted[..n]), k) + Emitted(emitted[n], k)
  {
    FlattenNext(emitted, n);
    EmittedConcat(Flatten(emitted[..n]), emitted[n], k);
  }

  lemma {:induction false} FlattenLast(parts: seq<seq<Val>>)
    requires parts != []
    ensures multiset(Flatten(parts)) == multiset(Flatten(parts[..|parts| - 1])) + multiset(parts[|parts| - 1])
  {
    var init, last := parts[..|parts| - 1], parts[|parts| - 1];
    assert parts == init + [last];
    FlattenSnoc(init, last);
  }

  lemma {:induction false} NoPartIsEmpty(parts: seq<seq<Val>>, emitted: seq<seq<KeyVal>>, n: nat, k: Key)
    requires n <= |emitted| && PartsOfThreads(parts, emitted, n, k)
    ensures forall p :: 0 <= p < |parts| ==> parts[p] != []
  {
    if n > 0 {
      var before := if Emitted(emitted[n - 1], k) == multiset{} then parts else parts[..|parts| - 1];
      NoPartIsEmpty(before, emitted, n - 1, k);
    }
  }

  /** Together the parts are all the values emitted for the key. */
  lemma {:induction false} PartsHoldEverything(parts: seq<seq<Val>>, emitted: seq<seq<KeyVal>>, n: nat, k: Key)
    requires n <= |emitted| && PartsOfThreads(parts, emitted, n, k)
    ensures multiset(Flatten(parts)) == Emitted(Flatten(emitted[..n]), k)
  {
    if n == 0 {
      assert emitted[..0] == [];
    } else {
      EmittedNext(emitted, n - 1, k);
      var before, own := Emitted(Flatten(emitted[..n - 1]), k), Emitted(emitted[n - 1], k);
      assert Emitted(Flatten(emitted[..n]), k) == before + own;
      if own == multiset{} {
        PartsHoldEverything(parts, emitted, n - 1, k);
      } else {
        var init := parts[..|parts| - 1];
        PartsHoldEverything(init, emitted, n - 1, k);
        FlattenLast(parts);
        assert multiset(Flatten(init)) == before && multiset(parts[|parts| - 1]) == own;
      }
    }
  }

  function PlainGroups(column: seq<seq<KeyVal>>): seq<Group> {
    Groups(PlainTables(column), Zeros(|column|))
  }

  function ReductionsOf(groups: seq<Group>): (rs: seq<Reduction>)
    ensures |rs| == |groups|
    ensures forall r :: 0 <= r < |rs| ==> rs[r] == Reduction(groups[r].key, Parts(groups[r].entries))
  {
    if groups == [] then []
    else
      var last := groups[|groups| - 1];
      ReductionsOf(groups[..|groups| - 1]) + [Reduction(last.key, Parts(last.entries))]
  }

  /** The groups of reduce task j are exactly its reductions. */
  lemma {:induction false} GroupIsReduction(job: Job, emitted: seq<seq<KeyVal>>, j: nat, g: Group)
    requires ValidJob(job) && g in PlainGroups(EmittedFor(job, emitted, j))
    ensures TaskOf(job, g.key) == j
    ensures ReadsEmitted(job, emitted, j + 1, Reduction(g.key, Parts(g.entries)))
  {
    var column := EmittedFor(job, emitted, j);
    var tables, pos := PlainTables(column), Zeros(|column|);
    GroupsIsGrouping(tables, pos);
    assert HasFirstKey(g);
    TablesAreOwn(tables, pos, column, |column|, g.key);
    EntriesAreOwn(tables, pos, column, |column|, g.key);
    FirstForTask(job, emitted, j, |emitted|, g.key);
    assert column[..|column|] == column && emitted[..|emitted|] == emitted;
    PartsForTask(job, Parts(g.entries), emitted, j, g.key);
  }

  lemma {:induction false} TaskHasEntries(job: Job, emitted: seq<seq<KeyVal>>, j: nat, k: Key)
    requires ValidJob(job) && TaskOf(job, k) == j && IsEmitted(emitted, k)
    ensures var column := EmittedFor(job, emitted, j);
            EntriesOf(PlainTables(column), Zeros(|column|), |column|, k) != []
  {
    var column := EmittedFor(job, emitted, j);
    var tables, pos := PlainTables(column), Zeros(|column|);
    TablesAreOwn(tables, pos, column, |column|, k);
    EntriesAreOwn(tables, pos, column, |column|, k);
    FirstForTask(job, emitted, j, |emitted|, k);
    assert column[..|column|] == column && emitted[..|emitted|] == emitted;
  }

  /** Every emitted key has a group at its reduce task. */
  lemma {:induction false} TaskHasGroup(job: Job, emitted: seq<seq<KeyVal>>, k: Key)
    requires ValidJob(job) && IsEmitted(emitted, k)
    ensures HasGroup(PlainGroups(EmittedFor(job, emitted, TaskOf(job, k))), k)
  {
    var column := EmittedFor(job, emitted, TaskOf(job, k));
    var tables, pos := PlainTables(column), Zeros(|column|);
    TaskHasEntries(job, emitted, TaskOf(job, k), k);
    GroupsIsGrouping(tables, pos);
    var t, i := EntryWitness(tables, pos, |tables|, k);
    HasGroupEqual(PlainGroups(column), tables[t][i].key, k);
  }

  lemma {:induction false} HasGroupEqual(groups: seq<Group>, a: Key, b: Key)
    requires HasGroup(groups, a) && KeyCmp(a, b) == 0
    ensures HasGroup(groups, b)
  {
    var g :| 0 <= g < |groups| && KeyCmp(groups[g].key, a) == 0;
    assert KeyCmp(groups[g].key, b) == 0;
  }

  // ---------- all reduce tasks ----------

  /** The reductions of one reduce task. */
  ghost predicate TaskReductions(job: Job, emitted: seq<seq<KeyVal>>, j: nat, rs: seq<Reduction>) {
    && (forall a, b :: 0 <= a < b < |rs| ==> KeyCmp(rs[a].key, rs[b].key) != 0)
    && (forall r :: 0 <= r < |rs| ==> TaskOf(job, rs[r].key) == j && ReadsEmitted(job, emitted, j + 1, rs[r]))
    && (forall k {:trigger HasReduction(rs, k)} :: TaskOf(job, k) == j && IsEmitted(emitted, k) ==> HasReduction(rs, k))
  }

  lemma {:induction false} GroupsAreReductions(job: Job, emitted: seq<seq<KeyVal>>, j: nat)
    requires ValidJob(job)
    ensures TaskReductions(job, emitted, j, ReductionsOf(PlainGroups(EmittedFor(job, emitted, j))))
  {
    var column := EmittedFor(job, emitted, j);
    var groups := PlainGroups(column);
    var rs := ReductionsOf(groups);
    GroupsIsGrouping(PlainTables(column), Zeros(|column|));
    forall r | 0 <= r < |rs|
      ensures TaskOf(job, rs[r].key) == j && ReadsEmitted(job, emitted, j + 1, rs[r])
    {
      GroupIsReduction(job, emitted, j, groups[r]);
    }
    forall k | TaskOf(job, k) == j && IsEmitted(emitted, k)
      ensures HasReduction(rs, k)
    {
      TaskHasGroup(job, emitted, k);
      var g :| 0 <= g < |groups| && KeyCmp(groups[g].key, k) == 0;
      assert rs[g].key == groups[g].key;
    }
  }

  /** The reductions of the first n reduce tasks, task by task. */
  function AllReductions(tasks: seq<seq<Reduction>>, n: nat): seq<Reduction>
    requires n <= |tasks|
  {
    if n == 0 then [] else AllReductions(tasks, n - 1) + tasks[n - 1]
  }

  lemma {:induction false} HasReductionConcat(a: seq<Reduction>, b: seq<Reduction>, k: Key)
    requires HasReduction(a, k) || HasReduction(b, k)
    ensures HasReduction(a + b, k)
  {
    if HasReduction(a, k) {
      var r :| 0 <= r < |a| && KeyCmp(a[r].key, k) == 0;
      assert (a + b)[r] == a[r];
    } else {
      var r :| 0 <= r < |b| && KeyCmp(b[r].key, k) == 0;
      assert (a + b)[|a| + r] == b[r];
    }
  }

  /** One more task: its keys are new, because equal keys go to one task. */
  lemma {:induction false} OneMoreTask(job: Job, emitted: seq<seq<KeyVal>>, j: nat, a: seq<Reduction>,
                                       b: seq<Reduction>)
    requires AreReductions(job, emitted, j, a) && TaskReductions(job, emitted, j, b) && ValidJob(job)
    ensures AreReductions(job, emitted, j + 1, a + b)
  {
    var rs := a + b;
    forall r | 0 <= r < |rs|
      ensures ReadsEmitted(job, emitted, j + 1, rs[r])
      ensures TaskOf(job, rs[r].key) == j <==> r >= |a|
    {
      if r < |a| {
        assert ReadsEmitted(job, emitted, j, a[r]);
      } else {
        assert rs[r] == b[r - |a|];
      }
    }
    forall x, y | 0 <= x < y < |rs|
      ensures KeyCmp(rs[x].key, rs[y].key) != 0
    {
      if x < |a| <= y {
        assert TaskOf(job, rs[x].key) != TaskOf(job, rs[y].key);
      } else if x >= |a| {
        assert rs[x] == b[x - |a|] && rs[y] == b[y - |a|];
      }
    }
    forall k | TaskOf(job, k) < j + 1 && IsEmitted(emitted, k)
      ensures HasReduction(rs, k)
    {
      HasReductionConcat(a, b, k);
    }
  }

  ghost predicate EachReduces(job: Job, emitted: seq<seq<KeyVal>>, tasks: seq<seq<Reduction>>, n: nat)
    requires n <= |tasks|
  {
    n == 0 || (EachReduces(job, emitted, tasks, n - 1) && TaskReductions(job, emitted, n - 1, tasks[n - 1]))
  }

  lemma {:induction false} EachOf(job: Job, emitted: seq<seq<KeyVal>>, tasks: seq<seq<Reduction>>, n: nat)
    requires n <= |tasks| && forall j :: 0 <= j < n ==> TaskReductions(job, emitted, j, tasks[j])
    ensures EachReduces(job, emitted, tasks, n)
  {
    if n > 0 {
      EachOf(job, emitted, tasks, n - 1);
    }
  }

  lemma {:induction false} AllTasksReduce(job: Job, emitted: seq<seq<KeyVal>>, tasks: seq<seq<Reduction>>, n: nat)
    requires ValidJob(job) && n <= |tasks|
    requires EachReduces(job, emitted, tasks, n)
    ensures AreReductions(job, emitted, n, AllReductions(tasks, n))
  {
    if n > 0 {
      AllTasksReduce(job, emitted, tasks, n - 1);
      OneMoreTask(job, emitted, n - 1, AllReductions(tasks, n - 1), tasks[n - 1]);
    }
  }

  // ---------- what the tasks emit ----------

  lemma {:induction false} TablesCombine(combiner: Option<seq<Val> -> Val>, plain: Tables)
    requires ReadableTables(plain)
    ensures if combiner.None? then CombinedTables(combiner, plain) == plain
            else AreCombined(combiner.value, plain, CombinedTables(combiner, plain))
  {
    var tables := CombinedTables(combiner, plain);
    if combiner.Some? {
      forall t | 0 <= t < |tables|
        ensures IsCombined(combiner.value, plain[t], tables[t])
      {
        assert ReadableTable(plain[t]);
        assert forall i :: 0 <= i < |plain[t]| ==> Readable(plain[t][i]);
      }
    }
  }

  lemma {:induction false} ReduceAllSnoc(job: Job, rs: seq<Reduction>, r: Reduction)
    ensures ReduceAll(job, rs + [r]) == ReduceAll(job, rs) + multiset(job.reduce(r.key, Read(job, r.parts)))
  {
    assert (rs + [r])[..|rs|] == rs;
  }

  lemma {:induction false} ReduceAllConcat(job: Job, a: seq<Reduction>, b: seq<Reduction>)
    ensures ReduceAll(job, a + b) == ReduceAll(job, a) + ReduceAll(job, b)
  {
    if b == [] {
      assert a + b == a;
    } else {
      var init, last := b[..|b| - 1], b[|b| - 1];
      ReduceAllConcat(job, a, init);
      assert b == init + [last] && a + b == (a + init) + [last];
      ReduceAllSnoc(job, a + init, last);
      ReduceAllSnoc(job, init, last);
      AddAgain(ReduceAll(job, a), ReduceAll(job, init), multiset(job.reduce(last.key, Read(job, last.parts))));
    }
  }

  ghost predicate ReadAs(job: Job, groups: seq<Group>, plain: seq<Group>) {
    && |groups| == |plain|
    && forall g :: 0 <= g < |groups| ==>
         groups[g].key == plain[g].key && DrainAll(groups[g].entries) == Read(job, Parts(plain[g].entries))
  }

  lemma {:induction false} OutputsAreReduced(job: Job, groups: seq<Group>, plain: seq<Group>)
    requires ReadAs(job, groups, plain)
    ensures multiset(Outputs(job.reduce, groups)) == ReduceAll(job, ReductionsOf(plain))
  {
    if groups != [] {
      var n := |groups| - 1;
      OutputsAreReduced(job, groups[..n], plain[..n]);
      assert ReductionsOf(plain)[..n] == ReductionsOf(plain[..n]);
    }
  }

  /** With or without the combiner, a reduce task emits what its reductions dictate. */
  lemma {:induction false} TaskOutputIsReduced(job: Job, column: seq<seq<KeyVal>>)
    ensures multiset(TaskOutput(job, column)) == ReduceAll(job, ReductionsOf(PlainGroups(column)))
  {
    var plain, pos := PlainTables(column), Zeros(|column|);
    TablesCombine(job.combiner, plain);
    var groups, plainGroups := Groups(CombinedTables(job.combiner, plain), pos), Groups(plain, pos);
    if job.combiner.Some? {
      GroupsCombine(job.combiner.value, plain, CombinedTables(job.combiner, plain), pos);
    }
    forall g | 0 <= g < |groups|
      ensures DrainAll(groups[g].entries) == Read(job, Parts(plainGroups[g].entries))
    {
      if job.combiner.Some? {
        DrainAllCombined(job.combiner.value, plainGroups[g].entries, groups[g].entries);
      } else {
        DrainAllParts(groups[g].entries);
      }
    }
    OutputsAreReduced(job, groups, plainGroups);
  }

  lemma {:induction false} OutputsTogether(job: Job, outputs: seq<seq<KeyVal>>, tasks: seq<seq<Reduction>>, n: nat)
    requires n <= |outputs| && n <= |tasks|
    requires forall j :: 0 <= j < n ==> multiset(outputs[j]) == ReduceAll(job, tasks[j])
    ensures Together(outputs, n) == ReduceAll(job, AllReductions(tasks, n))
  {
    if n > 0 {
      OutputsTogether(job, outputs, tasks, n - 1);
      ReduceAllConcat(job, AllReductions(tasks, n - 1), tasks[n - 1]);
    }
  }

  lemma {:induction false} ReductionsMakeResult(job: Job, emitted: seq<seq<KeyVal>>, outputs: seq<seq<KeyVal>>,
                                                tasks: seq<seq<Reduction>>, queued: nat, result: seq<KeyVal>)
    requires ValidJob(job) && queued <= |outputs| == |tasks| && Sorted(result)
    requires multiset(result) == Together(outputs, queued)
    requires forall j :: 0 <= j < |tasks| ==> TaskReductions(job, emitted, j, tasks[j])
    requires forall j :: 0 <= j < |tasks| ==> multiset(outputs[j]) == ReduceAll(job, tasks[j])
    ensures IsResult(job, emitted, queued, result)
  {
    EachOf(job, emitted, tasks, queued);
    AllTasksReduce(job, emitted, tasks, queued);
    OutputsTogether(job, outputs, tasks, queued);
  }

  /** Any sorted arrangement of everything the first `queued` reduce tasks emit is the job's result. */
  lemma {:induction false} OutputsMakeResult(job: Job, emitted: seq<seq<KeyVal>>, queued: nat, result: seq<KeyVal>)
    requires ValidJob(job) && queued <= job.reduceTasks && Sorted(result)
    requires multiset(result) == Together(TaskOutputs(job, emitted), queued)
    ensures IsResult(job, emitted, queued, result)
  {
    var outputs := TaskOutputs(job, emitted);
    var tasks := seq(job.reduceTasks, (j: nat) => ReductionsOf(PlainGroups(EmittedFor(job, emitted, j))));
    forall j | 0 <= j < |tasks|
      ensures TaskReductions(job, emitted, j, tasks[j])
      ensures multiset(outputs[j]) == ReduceAll(job, tasks[j])
    {
      GroupsAreReductions(job, emitted, j);
      TaskOutputIsReduced(job, EmittedFor(job, emitted, j));
    }
    ReductionsMakeResult(job, emitted, outputs, tasks, queued, result);
  }
}
