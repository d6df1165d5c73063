/** What the result of a job means for its user, key by key. */
module JobConsequences {
  import opened Sequences
  import opened Options
  import opened KeyOrder
  import opened IntermediateTable
  import opened GroupReduce
  import opened ReduceWorker
  import opened MapReduceJob
  import opened Permutations
  import opened JobResult
  import opened JobOutput
  import opened Combiner

  function Called(job: Job, r: Reduction): seq<KeyVal> {
    job.reduce(r.key, Read(job, r.parts))
  }

  /** What the reduce calls emit, one call after the other. */
  function CalledAll(job: Job, rs: seq<Reduction>): seq<KeyVal> {
    if rs == [] then [] else CalledAll(job, rs[..|rs| - 1]) + Called(job, rs[|rs| - 1])
  }

  lemma {:induction false} CalledAllIsReduceAll(job: Job, rs: seq<Reduction>)
    ensures multiset(CalledAll(job, rs)) == ReduceAll(job, rs)
  {
    if rs != [] {
      CalledAllIsReduceAll(job, rs[..|rs| - 1]);
    }
  }

  lemma {:induction false} EmittedNone(s: seq<KeyVal>, k: Key)
    requires forall i :: 0 <= i < |s| ==> KeyCmp(s[i].key, k) != 0
    ensures Emitted(s, k) == multiset{}
  {
    if s != [] {
      EmittedNone(s[..|s| - 1], k);
    }
  }

  lemma {:induction false} CallOfOtherKey(job: Job, r: Reduction, k: Key)
    requires EmitsUnderKey(job.reduce) && KeyCmp(r.key, k) != 0
    ensures Emitted(Called(job, r), k) == multiset{}
  {
    EmittedNone(Called(job, r), k);
  }

  lemma {:induction false} CallsOfOtherKeys(job: Job, rs: seq<Reduction>, k: Key)
    requires EmitsUnderKey(job.reduce) && !HasReduction(rs, k)
    ensures Emitted(CalledAll(job, rs), k) == multiset{}
  {
    if rs != [] {
      var n := |rs| - 1;
      forall r | 0 <= r < n
        ensures KeyCmp(rs[..n][r].key, k) != 0
      {
        assert KeyCmp(rs[r].key, k) != 0;
      }
      CallsOfOtherKeys(job, rs[..n], k);
      CallOfOtherKey(job, rs[n], k);
      EmittedConcat(CalledAll(job, rs[..n]), Called(job, rs[n]), k);
    }
  }

  lemma {:induction false} CallOfKey(job: Job, rs: seq<Reduction>, i: nat, k: Key)
    requires EmitsUnderKey(job.reduce) && i < |rs| && KeyCmp(rs[i].key, k) == 0
    requires forall a, b :: 0 <= a < b < |rs| ==> KeyCmp(rs[a].key, rs[b].key) != 0
    ensures Emitted(CalledAll(job, rs), k) == Emitted(Called(job, rs[i]), k)
  {
    var n := |rs| - 1;
    EmittedConcat(CalledAll(job, rs[..n]), Called(job, rs[n]), k);
    if i == n {
      forall r | 0 <= r < n
        ensures KeyCmp(rs[..n][r].key, k) != 0
      {
        assert KeyCmp(rs[r].key, rs[n].key) != 0;
      }
      CallsOfOtherKeys(job, rs[..n], k);
    } else {
      CallOfKey(job, rs[..n], i, k);
      assert KeyCmp(rs[i].key, rs[n].key) != 0;
      CallOfOtherKey(job, rs[n], k);
    }
  }

  /** The values found under a key are those of its one reduce call; a key that was never emitted, or
      whose reduce task is not queued, is not found at all. */
  lemma {:induction false} ResultOfKey(job: Job, emitted: seq<seq<KeyVal>>, queued: nat, result: seq<KeyVal>, k: Key)
    returns (r: Option<Reduction>)
    requires IsResult(job, emitted, queued, result) && EmitsUnderKey(job.reduce) && ValidJob(job)
    ensures r.Some? <==> TaskOf(job, k) < queued && IsEmitted(emitted, k)
    ensures r.None? ==> Emitted(result, k) == multiset{}
    ensures r.Some? ==>
              && KeyCmp(r.value.key, k) == 0 && ReadsEmitted(job, emitted, queued, r.value)
              && Emitted(result, k) == Emitted(Called(job, r.value), k)
  {
    var rs: seq<Reduction> :| AreReductions(job, emitted, queued, rs) && multiset(result) == ReduceAll(job, rs);
    CalledAllIsReduceAll(job, rs);
    EmittedPermutation(result, CalledAll(job, rs), k);
    if HasReduction(rs, k) {
      var i :| 0 <= i < |rs| && KeyCmp(rs[i].key, k) == 0;
      CallOfKey(job, rs, i, k);
      r := Some(rs[i]);
      assert ReadsEmitted(job, emitted, queued, rs[i]);
      FirstKeyOfEqual(Flatten(emitted), rs[i].key, k);
    } else {
      r := None;
      CallsOfOtherKeys(job, rs, k);
    }
  }

  lemma {:induction false} FirstKeyOfEqual(pairs: seq<KeyVal>, a: Key, b: Key)
    requires KeyCmp(a, b) == 0
    ensures FirstKey(pairs, a) == FirstKey(pairs, b)
  {
    if pairs != [] {
      FirstKeyOfEqual(pairs[..|pairs| - 1], a, b);
    }
  }

  /** What the call for a key reads is, over all threads, what was emitted for the key. */
  lemma {:induction false} ReadsAll(job: Job, emitted: seq<seq<KeyVal>>, queued: nat, r: Reduction, k: Key)
    requires ReadsEmitted(job, emitted, queued, r) && KeyCmp(r.key, k) == 0
    ensures multiset(Flatten(r.parts)) == Emitted(Flatten(emitted), k) != multiset{}
  {
    PartsHoldEverything(r.parts, emitted, |emitted|, r.key);
    assert emitted[..|emitted|] == emitted;
    EmittedOfEqual(Flatten(emitted), r.key, k);
    FirstKeyMeansEmitted(Flatten(emitted), r.key);
  }

  lemma {:induction false} EmittedSome(pairs: seq<KeyVal>, k: Key)
    ensures Emitted(pairs, k) != multiset{} <==> exists i :: 0 <= i < |pairs| && KeyCmp(pairs[i].key, k) == 0
  {
    FirstKeyMeansEmitted(pairs, k);
    if FirstKey(pairs, k).Some? {
      var i := FirstKeyIsFirst(pairs, k);
    } else {
      forall j | 0 <= j < |pairs|
        ensures KeyCmp(pairs[j].key, k) != 0
      {
        NoneIsFirst(pairs, k, j);
      }
    }
  }

  /** What a call reads is never empty. */
  lemma {:induction false} ReadIsNotEmpty(job: Job, emitted: seq<seq<KeyVal>>, queued: nat, r: Reduction)
    requires ReadsEmitted(job, emitted, queued, r)
    ensures Read(job, r.parts) != []
  {
    ReadsAll(job, emitted, queued, r, r.key);
    assert Flatten(r.parts) != [];
    assert r.parts != [];
  }

  /** When reduce emits something for values it reads, the keys found in the result are exactly the emitted
      ones whose reduce task is queued. */
  lemma {:induction false} QueuedKeysAreFound(job: Job, emitted: seq<seq<KeyVal>>, queued: nat, result: seq<KeyVal>,
                                              k: Key)
    requires IsResult(job, emitted, queued, result) && EmitsUnderKey(job.reduce) && ValidJob(job)
    requires forall key, vals :: vals != [] ==> job.reduce(key, vals) != []
    ensures (exists i :: 0 <= i < |result| && KeyCmp(result[i].key, k) == 0)
            <==> IsEmitted(emitted, k) && TaskOf(job, k) < queued
  {
    EmittedSome(result, k);
    var r := ResultOfKey(job, emitted, queued, result, k);
    if r.Some? {
      ReadIsNotEmpty(job, emitted, queued, r.value);
      var called := Called(job, r.value);
      EmittedSome(called, k);
      assert KeyCmp(called[0].key, r.value.key) == 0;
    }
  }

  // ---------- which pointers are in the result ----------

  /** The reduce function emits its key as it was given, not just an equal one. */
  ghost predicate EmitsOwnKey(reduce: Reducer) {
    forall k, vals, i :: 0 <= i < |reduce(k, vals)| ==> reduce(k, vals)[i].key == k
  }

  lemma {:induction false} CallOfPair(job: Job, rs: seq<Reduction>, kv: KeyVal) returns (r: nat)
    requires kv in CalledAll(job, rs)
    ensures r < |rs| && kv in Called(job, rs[r])
  {
    var n := |rs| - 1;
    if kv in Called(job, rs[n]) {
      r := n;
    } else {
      r := CallOfPair(job, rs[..n], kv);
    }
  }

  /** Every pointer in the result was emitted: it is the first one emitted for its key. */
  lemma {:induction false} ResultKeysWereEmitted(job: Job, emitted: seq<seq<KeyVal>>, queued: nat,
                                                 result: seq<KeyVal>, kv: KeyVal)
    requires IsResult(job, emitted, queued, result) && EmitsOwnKey(job.reduce) && kv in result
    ensures FirstKey(Flatten(emitted), kv.key) == Some(kv.key) && TaskOf(job, kv.key) < queued
  {
    var rs: seq<Reduction> :| AreReductions(job, emitted, queued, rs) && multiset(result) == ReduceAll(job, rs);
    CalledAllIsReduceAll(job, rs);
    assert kv in multiset(result);
    assert kv in CalledAll(job, rs);
    var r := CallOfPair(job, rs, kv);
    assert ReadsEmitted(job, emitted, queued, rs[r]);
  }

  lemma {:induction false} EmittedOfEqual(pairs: seq<KeyVal>, a: Key, b: Key)
    requires KeyCmp(a, b) == 0
    ensures Emitted(pairs, a) == Emitted(pairs, b)
  {
    if pairs != [] {
      EmittedOfEqual(pairs[..|pairs| - 1], a, b);
    }
  }

  // ---------- identity_reduce ----------

  lemma {:induction false} ValsSnoc(vals: seq<Val>)
    requires vals != []
    ensures multiset(vals) == multiset(vals[..|vals| - 1]) + multiset{vals[|vals| - 1]}
  {
    assert vals == vals[..|vals| - 1] + [vals[|vals| - 1]];
  }

  lemma {:induction false} EmittedByIdentity(key: Key, vals: seq<Val>, k: Key)
    requires KeyCmp(key, k) == 0
    ensures Emitted(IdentityReduce(key, vals), k) == multiset(vals)
  {
    if vals != [] {
      var init, pair := vals[..|vals| - 1], KeyVal(key, vals[|vals| - 1]);
      EmittedByIdentity(key, init, k);
      assert IdentityReduce(key, vals) == IdentityReduce(key, init) + [pair];
      EmittedSnoc(IdentityReduce(key, init), pair, k);
      ValsSnoc(vals);
    }
  }

  /** Without a reduce function and a combiner the result is a sorted rearrangement of the emitted pairs,
      up to key_cmp-equality of keys: under every key exactly the values emitted for it, and no pointer that
      was not emitted. Keys whose reduce task is not queued are missing. */
  lemma {:induction false} IdentityJobSorts(job: Job, emitted: seq<seq<KeyVal>>, pairs: seq<KeyVal>, queued: nat,
                                            result: seq<KeyVal>, k: Key)
    requires IsResult(job, emitted, queued, result) && ValidJob(job) && multiset(pairs) == multiset(Flatten(emitted))
    requires job.combiner.None? && forall key, vals :: job.reduce(key, vals) == IdentityReduce(key, vals)
    ensures Sorted(result)
    ensures Emitted(result, k) == if TaskOf(job, k) < queued then Emitted(pairs, k) else multiset{}
    ensures forall kv :: kv in result ==> exists i :: 0 <= i < |pairs| && pairs[i].key == kv.key
  {
    EmittedPermutation(pairs, Flatten(emitted), k);
    FirstKeyMeansEmitted(Flatten(emitted), k);
    var r := ResultOfKey(job, emitted, queued, result, k);
    if r.Some? {
      EmittedByIdentity(r.value.key, Flatten(r.value.parts), k);
      ReadsAll(job, emitted, queued, r.value, k);
    }
    forall kv | kv in result
      ensures exists i :: 0 <= i < |pairs| && pairs[i].key == kv.key
    {
      ResultKeysWereEmitted(job, emitted, queued, result, kv);
      var j := FirstKeyIsFirst(Flatten(emitted), kv.key);
      KeyOfPermutation(Flatten(emitted), pairs, j);
    }
  }

  lemma {:induction false} KeyOfPermutation(a: seq<KeyVal>, b: seq<KeyVal>, j: nat)
    requires multiset(a) == multiset(b) && j < |a|
    ensures exists i :: 0 <= i < |b| && b[i].key == a[j].key
  {
    assert a[j] in multiset(b);
    var i :| 0 <= i < |b| && b[i] == a[j];
  }

  // ---------- reduce by a fold, with or without the combiner ----------

  /** The reduce function emits one pair, the fold of its values. */
  ghost predicate ReducesByFold(reduce: Reducer, f: (Val, Val) -> Val, unit: Val) {
    forall k, vals :: reduce(k, vals) == [KeyVal(k, Fold(f, unit, vals))]
  }

  /** Reduce by a commutative fold: under every key exactly one value, the fold of all values emitted
      for it in any order. The number of threads, who ran which task, and whether the combiner ran
      cannot be told from the result. */
  lemma {:induction false} FoldJobFolds(job: Job, f: (Val, Val) -> Val, unit: Val, emitted: seq<seq<KeyVal>>,
                                        queued: nat, result: seq<KeyVal>, k: Key, vals: seq<Val>)
    requires IsResult(job, emitted, queued, result) && ValidJob(job)
    requires Monoid(f, unit) && (forall x, y {:trigger f(x, y)} :: f(x, y) == f(y, x))
    requires ReducesByFold(job.reduce, f, unit)
    requires job.combiner.Some? ==> forall vs :: job.combiner.value(vs) == Fold(f, unit, vs)
    requires multiset(vals) == Emitted(Flatten(emitted), k)
    ensures Emitted(result, k)
         == if vals != [] && TaskOf(job, k) < queued then multiset{Fold(f, unit, vals)} else multiset{}
  {
    assert vals == [] <==> multiset(vals) == multiset{};
    FirstKeyMeansEmitted(Flatten(emitted), k);
    var r := ResultOfKey(job, emitted, queued, result, k);
    if r.Some? {
      var read := Read(job, r.value.parts);
      if job.combiner.Some? {
        FoldOfFolds(f, unit, job.combiner.value, r.value.parts);
      }
      ReadsAll(job, emitted, queued, r.value, k);
      FoldPermutation(f, unit, Flatten(r.value.parts), vals);
      var pair := KeyVal(r.value.key, Fold(f, unit, read));
      assert Called(job, r.value) == [pair];
      assert Emitted([pair], k) == Emitted([pair][..0], k) + multiset{pair.val};
    }
  }
}
