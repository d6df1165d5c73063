/** Word count as a job: what the map tasks emit, the reduce and combiner functions, and the theorem
    that the result lists every word of the text with the number of its occurrences. */
module WordCountJob {
  import opened Sequences
  import opened KeyOrder
  import opened IntermediateTable
  import opened ValueIterator
  import opened OutputQueue
  import opened ReduceWorker
  import opened MapReduceJob
  import opened JobResult
  import opened JobConsequences
  import opened Combiner
  import opened WordCount
  import opened Permutations

  // ---------- strcmp ----------

  /** strcmp on strings without NULs. */
  function StrCmp(a: seq<Byte>, b: seq<Byte>): int {
    if a == [] then (if b == [] then 0 else -1)
    else if b == [] then 1
    else if a[0] != b[0] then (if a[0] < b[0] then -1 else 1)
    else StrCmp(a[1..], b[1..])
  }

  lemma {:induction false} StrCmpFlip(a: seq<Byte>, b: seq<Byte>)
    ensures StrCmp(a, b) == -StrCmp(b, a)
    ensures StrCmp(a, b) == 0 <==> a == b
  {
    if a != [] && b != [] && a[0] == b[0] {
      StrCmpFlip(a[1..], b[1..]);
      assert a == [a[0]] + a[1..] && b == [b[0]] + b[1..];
    }
  }

  /** The common beginning of two strings has length i, and there the first is less: it ends, or its byte
      is smaller. */
  predicate LessAt(a: seq<Byte>, b: seq<Byte>, i: nat) {
    && i <= |a| && i < |b| && a[..i] == b[..i]
    && (i == |a| || a[i] < b[i])
  }

  /** strcmp is the lexicographic order of bytes. */
  lemma {:induction false} StrCmpIsLexicographic(a: seq<Byte>, b: seq<Byte>)
    ensures StrCmp(a, b) < 0 <==> exists i: nat :: LessAt(a, b, i)
  {
    if a == [] {
      assert b != [] ==> LessAt(a, b, 0);
    } else if b != [] {
      if a[0] != b[0] {
        assert a[0] < b[0] ==> LessAt(a, b, 0);
        assert forall i: nat :: LessAt(a, b, i) ==> i == 0 || a[..i][0] == b[..i][0];
      } else {
        StrCmpIsLexicographic(a[1..], b[1..]);
        if i: nat :| LessAt(a[1..], b[1..], i) {
          assert a[..i + 1] == [a[0]] + a[1..][..i] && b[..i + 1] == [b[0]] + b[1..][..i];
          assert LessAt(a, b, i + 1);
        }
        if i: nat :| LessAt(a, b, i) {
          assert i > 0 && a[1..][..i - 1] == a[..i][1..] && b[1..][..i - 1] == b[..i][1..];
          assert LessAt(a[1..], b[1..], i - 1);
        }
      }
    }
  }

  lemma {:induction false} StrCmpTransitive(a: seq<Byte>, b: seq<Byte>, c: seq<Byte>)
    requires StrCmp(a, b) <= 0 && StrCmp(b, c) <= 0
    ensures StrCmp(a, c) <= 0
    ensures StrCmp(a, b) < 0 || StrCmp(b, c) < 0 ==> StrCmp(a, c) < 0
  {
    if a != [] && b != [] && c != [] && a[0] == b[0] == c[0] {
      StrCmpTransitive(a[1..], b[1..], c[1..]);
    }
  }

  /** The words of the text that start at the pointers emitted. */
  function Starts(words: seq<Word>): set<nat> {
    set j | 0 <= j < |words| :: words[j].start
  }

  /** A word by its pointer. */
  function WordAt(words: seq<Word>, start: nat): (w: Word)
    ensures start in Starts(words) ==> w in words && w.start == start
  {
    if words == [] then Word(0, 0)
    else if words[|words| - 1].start == start then words[|words| - 1] else WordAt(words[..|words| - 1], start)
  }

  /** Places for the words of a text that agree with strcmp. */
  ghost predicate AreWordPlaces(text: seq<Byte>, words: seq<Word>, place: map<nat, int>)
    requires forall j :: 0 <= j < |words| ==> words[j].start <= words[j].end <= |text|
  {
    && (forall w :: w in words ==> w.start in place)
    && forall v, w :: v in words && w in words ==>
         var c := StrCmp(Spell(text, v), Spell(text, w));
         && (place[v.start] < place[w.start] <==> c < 0)
         && (place[v.start] == place[w.start] <==> Spell(text, v) == Spell(text, w))
  }

  lemma {:induction false} OneWordPerStart(words: seq<Word>, w: Word)
    requires Apart(words) && w in words && forall v :: v in words ==> v.start < v.end
    ensures w.start in Starts(words) && WordAt(words, w.start) == w
  {
    var a :| 0 <= a < |words| && words[a] == w;
    var v := WordAt(words, w.start);
    var b :| 0 <= b < |words| && words[b] == v;
  }

  /** mystrcmp on the pointers emitted. */
  function PointerCmp(text: seq<Byte>, words: seq<Word>, a: nat, b: nat): int {
    var v, w := WordAt(words, a), WordAt(words, b);
    if v.start <= v.end <= |text| && w.start <= w.end <= |text| then StrCmp(Spell(text, v), Spell(text, w)) else 0
  }

  ghost predicate InText(text: seq<Byte>, words: seq<Word>) {
    Apart(words) && forall w :: w in words ==> w.start < w.end <= |text|
  }

  lemma {:induction false} PointerCmpIsStrCmp(text: seq<Byte>, words: seq<Word>, v: Word, w: Word)
    requires InText(text, words) && v in words && w in words
    ensures PointerCmp(text, words, v.start, w.start) == StrCmp(Spell(text, v), Spell(text, w))
  {
    OneWordPerStart(words, v);
    OneWordPerStart(words, w);
  }

  lemma {:induction false} PointerCmpIsPreorder(text: seq<Byte>, words: seq<Word>, cmp: (nat, nat) -> int)
    requires InText(text, words) && forall a, b :: cmp(a, b) == PointerCmp(text, words, a, b)
    ensures TotalPreorder(cmp, Starts(words))
  {
    var pointers := Starts(words);
    forall a, b | a in pointers && b in pointers
      ensures cmp(a, b) < 0 <==> cmp(b, a) > 0
    {
      StrCmpFlip(Spell(text, WordAt(words, a)), Spell(text, WordAt(words, b)));
    }
    forall a, b, c | a in pointers && b in pointers && c in pointers && cmp(a, b) <= 0 && cmp(b, c) <= 0
      ensures cmp(a, c) <= 0
    {
      StrCmpTransitive(Spell(text, WordAt(words, a)), Spell(text, WordAt(words, b)), Spell(text, WordAt(words, c)));
    }
  }

  /** strcmp on the words of any text has such places: it is a key_cmp as the runtime needs it. */
  lemma {:induction false} WordPlacesExist(text: seq<Byte>, flen: nat) returns (place: map<nat, int>)
    requires flen <= |text|
    ensures InText(text, Tokens(text, 0, flen)) && AreWordPlaces(text, Tokens(text, 0, flen), place)
  {
    var words := Tokens(text, 0, flen);
    TokensAreWords(text, 0, flen);
    assert forall w :: w in words ==> IsWord(text, 0, flen, w);
    var cmp := (a: nat, b: nat) => PointerCmp(text, words, a, b);
    PointerCmpIsPreorder(text, words, cmp);
    place := EveryKeyCmpHasPlaces(cmp, Starts(words));
    forall v, w | v in words && w in words
      ensures v.start in place && w.start in place
      ensures var c := StrCmp(Spell(text, v), Spell(text, w));
              && (place[v.start] < place[w.start] <==> c < 0)
              && (place[v.start] == place[w.start] <==> Spell(text, v) == Spell(text, w))
    {
      OneWordPerStart(words, v);
      OneWordPerStart(words, w);
      PointerCmpIsStrCmp(text, words, v, w);
      StrCmpFlip(Spell(text, v), Spell(text, w));
      var k := KeyCmp(Key(place[v.start], v.start), Key(place[w.start], w.start));
      assert (cmp(v.start, w.start) < 0 <==> k < 0) && (cmp(v.start, w.start) == 0 <==> k == 0);
    }
  }

  // ---------- what the map tasks emit ----------

  function KeyOf(place: map<nat, int>, w: Word): Key {
    Key(if w.start in place then place[w.start] else 0, w.start)
  }

  /** emit_intermediate(curr_start, 1, ...) for each word. */
  function Pairs(place: map<nat, int>, words: seq<Word>): seq<KeyVal> {
    if words == [] then [] else Pairs(place, words[..|words| - 1]) + [KeyVal(KeyOf(place, words[|words| - 1]), 1)]
  }

  lemma {:induction false} PairsConcat(place: map<nat, int>, a: seq<Word>, b: seq<Word>)
    ensures Pairs(place, a + b) == Pairs(place, a) + Pairs(place, b)
  {
    if b == [] {
      assert a + b == a;
    } else {
      PairsConcat(place, a, b[..|b| - 1]);
      ConcatInit(a, b);
    }
  }

  /** The pairs each map task emits. */
  function MappedPairs(text: seq<Byte>, place: map<nat, int>, pieces: seq<Piece>): seq<seq<KeyVal>> {
    if pieces == [] then []
    else
      var n := |pieces| - 1;
      MappedPairs(text, place, pieces[..n]) + [Pairs(place, PieceTokens(text, pieces[n]))]
  }

  lemma {:induction false} AllPairs(text: seq<Byte>, place: map<nat, int>, pieces: seq<Piece>)
    ensures Flatten(MappedPairs(text, place, pieces)) == Pairs(place, AllTokens(text, pieces))
  {
    if pieces != [] {
      var n := |pieces| - 1;
      AllPairs(text, place, pieces[..n]);
      FlattenSnoc(MappedPairs(text, place, pieces[..n]), Pairs(place, PieceTokens(text, pieces[n])));
      PairsConcat(place, AllTokens(text, pieces[..n]), PieceTokens(text, pieces[n]));
    }
  }

  /** How often a spelling occurs among the words. */
  function Occurrences(text: seq<Byte>, words: seq<Word>, s: seq<Byte>): nat
    requires forall w :: w in words ==> w.start <= w.end <= |text|
  {
    if words == [] then 0
    else Occurrences(text, words[..|words| - 1], s) + if Spell(text, words[|words| - 1]) == s then 1 else 0
  }

  /** The words as strings. */
  function Spellings(text: seq<Byte>, words: seq<Word>): (r: seq<seq<Byte>>)
    requires forall w :: w in words ==> w.start <= w.end <= |text|
    ensures |r| == |words| && forall j :: 0 <= j < |words| ==> words[j] in words && r[j] == Spell(text, words[j])
  {
    if words == [] then []
    else
      assert words[|words| - 1] in words;
      Spellings(text, words[..|words| - 1]) + [Spell(text, words[|words| - 1])]
  }

  /** Occurrences is how often a string is among them. */
  lemma {:induction false} OccurrencesCount(text: seq<Byte>, words: seq<Word>, s: seq<Byte>)
    requires forall w :: w in words ==> w.start <= w.end <= |text|
    ensures Occurrences(text, words, s) == multiset(Spellings(text, words))[s]
  {
    if words != [] {
      var n := |words| - 1;
      OccurrencesCount(text, words[..n], s);
      var all := Spellings(text, words);
      assert all[..n] == Spellings(text, words[..n]);
      CountLast(all, s);
    }
  }

  function Ones(n: nat): (r: seq<Val>)
    ensures |r| == n
  {
    if n == 0 then [] else Ones(n - 1) + [1]
  }

  /** Words have equal keys exactly when they are spelled alike. */
  ghost predicate KeysSpell(text: seq<Byte>, place: map<nat, int>, words: seq<Word>, k: Key, s: seq<Byte>) {
    forall v :: v in words ==>
      v.start <= v.end <= |text| && (KeyCmp(KeyOf(place, v), k) == 0 <==> Spell(text, v) == s)
  }

  lemma {:induction false} OnesSnoc(n: nat)
    ensures multiset(Ones(n + 1)) == multiset(Ones(n)) + multiset{1}
  {
  }

  lemma {:induction false} OnesGrow(all: multiset<Val>, n: nat, m: nat, one: bool)
    requires all == multiset(Ones(n)) + (if one then multiset{1} else multiset{}) && m == n + if one then 1 else 0
    ensures all == multiset(Ones(m))
  {
    if one {
      OnesSnoc(n);
    }
  }

  lemma {:induction false} PairsNext(place: map<nat, int>, words: seq<Word>, k: Key)
    requires words != []
    ensures var init, key := words[..|words| - 1], KeyOf(place, words[|words| - 1]);
            Emitted(Pairs(place, words), k)
            == Emitted(Pairs(place, init), k) + if KeyCmp(key, k) == 0 then multiset{1} else multiset{}
  {
    var init, pair := words[..|words| - 1], KeyVal(KeyOf(place, words[|words| - 1]), 1);
    assert Pairs(place, words) == Pairs(place, init) + [pair];
    EmittedSnoc(Pairs(place, init), pair, k);
  }

  lemma {:induction false} KeysSpellLast(text: seq<Byte>, place: map<nat, int>, words: seq<Word>, k: Key, s: seq<Byte>)
    requires words != [] && KeysSpell(text, place, words, k, s)
    ensures var init, last := words[..|words| - 1], words[|words| - 1];
            && KeysSpell(text, place, init, k, s)
            && Occurrences(text, words, s) == Occurrences(text, init, s) + if KeyCmp(KeyOf(place, last), k)
               == 0 then 1 else 0
  {
    assert words[|words| - 1] in words;
  }

  lemma {:induction false} PairsOfWord(text: seq<Byte>, place: map<nat, int>, words: seq<Word>, k: Key, s: seq<Byte>)
    requires KeysSpell(text, place, words, k, s)
    ensures Emitted(Pairs(place, words), k) == multiset(Ones(Occurrences(text, words, s)))
  {
    if words != [] {
      var init, n := words[..|words| - 1], Occurrences(text, words[..|words| - 1], s);
      KeysSpellLast(text, place, words, k, s);
      PairsOfWord(text, place, init, k, s);
      PairsNext(place, words, k);
      var one := KeyCmp(KeyOf(place, words[|words| - 1]), k) == 0;
      OnesGrow(Emitted(Pairs(place, words), k), n, Occurrences(text, words, s), one);
    }
  }

  // ---------- wordcount_reduce and wordcount_combiner ----------

  function Plus(a: Val, b: Val): Val {
    a + b
  }

  function Sum(vals: seq<Val>): int {
    Fold(Plus, 0, vals)
  }

  lemma {:induction false} SumSnoc(vals: seq<Val>, v: Val)
    ensures Sum(vals + [v]) == Sum(vals) + v
  {
    assert (vals + [v])[..|vals|] == vals;
  }

  /** One turn of the loop of wordcount_combiner and wordcount_reduce. */
  method AddNext(itr: Iterator, sum: int, ghost read: seq<Val>) returns (more: bool, next: int, ghost now: seq<Val>)
    requires itr.Reading() && sum == Sum(read)
    modifies itr`currentList, itr`currentIndex, itr`chunk
    ensures itr.Reading() && next == Sum(now)
    ensures read + old(itr.Remaining()) == now + itr.Remaining()
    ensures if more then |now| == |read| + 1 else itr.Remaining() == []
  {
    var val;
    more, val := itr.Next();
    next, now := sum, read;
    if more {
      ghost var v := val[0];
      assert val == [v];
      assert read + ([v] + itr.Remaining()) == (read + [v]) + itr.Remaining();
      SumSnoc(read, v);
      next, now := sum + val[0], read + [v];
    }
  }

  /** wordcount_combiner, and the loop of wordcount_reduce. */
  method SumValues(itr: Iterator) returns (sum: int)
    requires itr.Loaded() && itr.lists != []
    modifies itr`currentList, itr`currentIndex, itr`chunk
    ensures sum == Sum(DrainAll(itr.lists))
  {
    itr.LoadedYieldsAll();
    sum := 0;
    ghost var all, read, rest := DrainAll(itr.lists), [], itr.Remaining();
    var more := true;
    while more
      invariant itr.Reading() && rest == itr.Remaining() && all == read + rest
      invariant !more ==> rest == []
      invariant sum == Sum(read)
      decreases more, |rest|
    {
      more, sum, read := AddNext(itr, sum, read);
      rest := itr.Remaining();
    }
    assert read == all;
  }

  /** wordcount_reduce */
  method WordcountReduce(key: Key, itr: Iterator, append: bool, out: KeyValArr)
    requires itr.Loaded() && itr.lists != []
    requires out.Valid() && (append || Sorted(out.arr))
    modifies itr`currentList, itr`currentIndex, itr`chunk, out`allocLen, out`arr
    ensures out.Valid() && (append || Sorted(out.arr))
    ensures out.arr == EmitAll(append, old(out.arr), SumReduce(key, DrainAll(itr.lists)))
  {
    var sum := SumValues(itr);
    out.InsertKeyVal(append, key, sum);
    var r := [KeyVal(key, sum)];
    assert r[..0] == [];
    assert EmitAll(append, old(out.arr), r) == Emit(append, EmitAll(append, old(out.arr), r[..0]), r[0]);
  }

  function SumReduce(key: Key, vals: seq<Val>): seq<KeyVal> {
    [KeyVal(key, Sum(vals))]
  }

  lemma {:induction false} SumOfOnes(n: nat)
    ensures Sum(Ones(n)) == n
  {
    if n > 0 {
      SumOfOnes(n - 1);
      assert Ones(n)[..n - 1] == Ones(n - 1);
    }
  }

  // ---------- the whole program ----------

  /** The job word count hands to the runtime. */
  ghost predicate IsWordCount(job: Job) {
    && ValidJob(job)
    && (forall k, vals :: job.reduce(k, vals) == SumReduce(k, vals))
    && job.combiner.Some? && forall vals :: job.combiner.value(vals) == Sum(vals)
  }

  /** The job's result adds up, for each key whose reduce task is queued, the values emitted for it. */
  lemma {:induction false} SumJobSums(job: Job, emitted: seq<seq<KeyVal>>, queued: nat, result: seq<KeyVal>, k: Key,
                                      vals: seq<Val>)
    requires IsWordCount(job) && IsResult(job, emitted, queued, result)
             && multiset(vals) == Emitted(Flatten(emitted), k)
    ensures Emitted(result, k) == if vals != [] && TaskOf(job, k) < queued then multiset{Sum(vals)} else multiset{}
  {
    assert Monoid(Plus, 0);
    FoldJobFolds(job, Plus, 0, emitted, queued, result, k, vals);
  }

  /** The values under a word's key: the number of its occurrences, once. */
  lemma {:induction false} WordIsCounted(text: seq<Byte>, words: seq<Word>, place: map<nat, int>, job: Job,
                                         emitted: seq<seq<KeyVal>>, queued: nat, result: seq<KeyVal>, w: Word)
    requires InText(text, words) && AreWordPlaces(text, words, place) && w in words
    requires multiset(Flatten(emitted)) == multiset(Pairs(place, words))
    requires IsWordCount(job) && IsResult(job, emitted, queued, result)
    ensures Emitted(result, KeyOf(place, w))
         == if TaskOf(job, KeyOf(place, w)) < queued then multiset{Occurrences(text, words, Spell(text, w))}
           else multiset{}
  {
    var n := Occurrences(text, words, Spell(text, w));
    PairsOfWord(text, place, words, KeyOf(place, w), Spell(text, w));
    EmittedPermutation(Flatten(emitted), Pairs(place, words), KeyOf(place, w));
    SumOfOnes(n);
    OccursAtLeastOnce(text, words, w);
    SumJobSums(job, emitted, queued, result, KeyOf(place, w), Ones(n));
  }

  lemma {:induction false} PairOfWord(place: map<nat, int>, words: seq<Word>, kv: KeyVal) returns (w: Word)
    requires kv in Pairs(place, words)
    ensures w in words && kv.key == KeyOf(place, w)
  {
    var n := |words| - 1;
    if kv in Pairs(place, words[..n]) {
      w := PairOfWord(place, words[..n], kv);
    } else {
      w := words[n];
    }
  }

  lemma {:induction false} ValueIsEmitted(pairs: seq<KeyVal>, kv: KeyVal)
    requires kv in pairs
    ensures kv.val in Emitted(pairs, kv.key)
  {
    var n := |pairs| - 1;
    if kv != pairs[n] {
      ValueIsEmitted(pairs[..n], kv);
    }
  }

  /** The pair is the pointer to a word with the number of occurrences of what it spells. */
  ghost predicate CountsWord(text: seq<Byte>, words: seq<Word>, place: map<nat, int>, kv: KeyVal, w: Word)
    requires forall v :: v in words ==> v.start <= v.end <= |text|
  {
    w in words && kv == KeyVal(KeyOf(place, w), Occurrences(text, words, Spell(text, w)))
  }

  lemma {:induction false} KeyIsWord(words: seq<Word>, place: map<nat, int>, job: Job, emitted: seq<seq<KeyVal>>,
                                     queued: nat, result: seq<KeyVal>, kv: KeyVal) returns (w: Word)
    requires multiset(Flatten(emitted)) == multiset(Pairs(place, words)) && kv in result
    requires IsWordCount(job) && IsResult(job, emitted, queued, result)
    ensures w in words && kv.key == KeyOf(place, w) && TaskOf(job, kv.key) < queued
  {
    ReducesOwnKey(job);
    ResultKeysWereEmitted(job, emitted, queued, result, kv);
    var i := FirstKeyIsFirst(Flatten(emitted), kv.key);
    assert Flatten(emitted)[i] in multiset(Pairs(place, words));
    w := PairOfWord(place, words, Flatten(emitted)[i]);
  }

  lemma {:induction false} ReducesOwnKey(job: Job)
    requires IsWordCount(job)
    ensures EmitsOwnKey(job.reduce)
  {
    forall k, vals, i | 0 <= i < |job.reduce(k, vals)|
      ensures job.reduce(k, vals)[i].key == k
    {
      assert job.reduce(k, vals) == SumReduce(k, vals);
    }
  }

  lemma {:induction false} EntryCountsWord(text: seq<Byte>, words: seq<Word>, place: map<nat, int>, job: Job,
                                           emitted: seq<seq<KeyVal>>, queued: nat, result: seq<KeyVal>,
                                           kv: KeyVal) returns (w: Word)
    requires InText(text, words) && AreWordPlaces(text, words, place) && kv in result
    requires multiset(Flatten(emitted)) == multiset(Pairs(place, words))
    requires IsWordCount(job) && IsResult(job, emitted, queued, result)
    ensures CountsWord(text, words, place, kv, w) && TaskOf(job, kv.key) < queued
  {
    w := KeyIsWord(words, place, job, emitted, queued, result, kv);
    WordIsCounted(text, words, place, job, emitted, queued, result, w);
    ValueIsEmitted(result, kv);
  }

  /** Word count from the pieces to the result: for any text, any cutting at white space, any thread counts
      and any schedule, the result is sorted by strcmp and lists, for every word of the text whose reduce
      task is queued, the number of its occurrences in one pass over the text, once; and nothing else: every
      pair is a pointer to a word of the text with that word's count. */
  lemma {:induction false} ResultCountsWords(text: seq<Byte>, flen: nat, pieces: seq<Piece>, place: map<nat, int>,
                                             job: Job, emitted: seq<seq<KeyVal>>, queued: nat, result: seq<KeyVal>)
    requires flen <= |text| && Cuts(text, pieces, flen, flen)
    requires InText(text, Tokens(text, 0, flen)) && AreWordPlaces(text, Tokens(text, 0, flen), place)
    requires multiset(Flatten(emitted)) == multiset(Flatten(MappedPairs(text, place, pieces)))
    requires IsWordCount(job) && IsResult(job, emitted, queued, result)
    ensures Sorted(result)
    ensures forall w :: w in Tokens(text, 0, flen) ==>
              Emitted(result, KeyOf(place, w))
              == if TaskOf(job, KeyOf(place, w)) < queued then
                multiset{Occurrences(text, Tokens(text, 0, flen), Spell(text, w))}
                 else multiset{}
    ensures forall kv :: kv in result ==> exists w :: CountsWord(text, Tokens(text, 0, flen), place, kv, w)
  {
    var words := Tokens(text, 0, flen);
    PiecesHaveAllWords(text, pieces, flen, flen);
    AllPairs(text, place, pieces);
    forall w | w in words
      ensures Emitted(result, KeyOf(place, w))
           == if TaskOf(job, KeyOf(place, w)) < queued then multiset{Occurrences(text, words, Spell(text, w))}
             else multiset{}
    {
      WordIsCounted(text, words, place, job, emitted, queued, result, w);
    }
    forall kv | kv in result
      ensures exists w :: CountsWord(text, words, place, kv, w)
    {
      var w := EntryCountsWord(text, words, place, job, emitted, queued, result, kv);
    }
  }

  lemma {:induction false} OccursAtLeastOnce(text: seq<Byte>, words: seq<Word>, w: Word)
    requires w in words && forall v :: v in words ==> v.start <= v.end <= |text|
    ensures Occurrences(text, words, Spell(text, w)) > 0
  {
    var n := |words| - 1;
    if words[n] != w {
      assert words == words[..n] + [words[n]];
      OccursAtLeastOnce(text, words[..n], w);
    }
  }
}
