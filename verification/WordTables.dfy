/** word_count-pthread.c and word_count-seq.c: sorted tables of counted words, one per thread, and the
    tournament that merges them. A word stands for its place in the order of strcmp. */
module WordTables {
  import opened Sequences

  const START_ARRAY_SIZE: nat := 2000

  /** wc_count_t */
  datatype Entry = Entry(word: int, count: nat)

  type Table = seq<Entry>

  ghost predicate IsTable(table: Table) {
    && (forall i, j :: 0 <= i < j < |table| ==> table[i].word < table[j].word)
    && (forall i :: 0 <= i < |table| ==> table[i].count > 0)
  }

  /** The count a table holds for a word, 0 if it does not hold the word. */
  function CountOf(table: Table, w: int): nat {
    if table == [] then 0 else (if table[0].word == w then table[0].count else 0) + CountOf(table[1..], w)
  }

  lemma {:induction false} NotInTable(table: Table, w: int)
    requires forall i :: 0 <= i < |table| ==> table[i].word != w
    ensures CountOf(table, w) == 0
  {
    if table != [] {
      NotInTable(table[1..], w);
    }
  }

  /** A table holds its first word, and no word below that. */
  lemma {:induction false} HeadCount(table: Table, w: int)
    requires IsTable(table) && table != []
    ensures w < table[0].word ==> CountOf(table, w) == 0
    ensures w == table[0].word ==> CountOf(table, w) == table[0].count > 0
  {
    if w <= table[0].word {
      NotInTable(table[1..], w);
    }
  }

  ghost predicate SameCounts(a: Table, b: Table) {
    forall w :: CountOf(a, w) == CountOf(b, w)
  }

  lemma {:induction false} SameEmpty(a: Table, b: Table)
    requires IsTable(b) && SameCounts(a, b)
    ensures a == [] ==> b == []
  {
    if b != [] {
      HeadCount(b, b[0].word);
      assert CountOf(a, b[0].word) == CountOf(b, b[0].word);
    }
  }

  lemma {:induction false} SameHead(a: Table, b: Table)
    requires IsTable(a) && IsTable(b) && a != [] && b != [] && SameCounts(a, b)
    ensures a[0] == b[0]
  {
    HeadCount(a, a[0].word);
    HeadCount(b, a[0].word);
    HeadCount(a, b[0].word);
    HeadCount(b, b[0].word);
    assert CountOf(a, a[0].word) == CountOf(b, a[0].word) && CountOf(a, b[0].word) == CountOf(b, b[0].word);
  }

  /** A table is determined by its counts. */
  lemma {:induction false} TableIsUnique(a: Table, b: Table)
    requires IsTable(a) && IsTable(b) && SameCounts(a, b)
    ensures a == b
  {
    SameEmpty(a, b);
    SameEmpty(b, a);
    if a != [] {
      SameHead(a, b);
      forall w
        ensures CountOf(a[1..], w) == CountOf(b[1..], w)
      {
        assert CountOf(a, w) == CountOf(b, w);
      }
      TableIsUnique(a[1..], b[1..]);
      assert a == [a[0]] + a[1..] && b == [b[0]] + b[1..];
    }
  }

  // ---------- adding a word ----------

  /** The simple form: walk to the word's place. */
  function Add(table: Table, w: int): Table {
    if table == [] then [Entry(w, 1)]
    else if table[0].word < w then [table[0]] + Add(table[1..], w)
    else if table[0].word == w then [Entry(w, table[0].count + 1)] + table[1..]
    else [Entry(w, 1)] + table
  }

  lemma {:induction false} AddCounts(table: Table, w: int, v: int)
    ensures CountOf(Add(table, w), v) == CountOf(table, v) + if v == w then 1 else 0
  {
    var r := Add(table, w);
    if table == [] {
      assert r[1..] == [];
    } else if table[0].word < w {
      AddCounts(table[1..], w, v);
      assert r[1..] == Add(table[1..], w);
    } else if table[0].word == w {
      assert r[1..] == table[1..];
    } else {
      assert r[1..] == table;
    }
  }

  lemma {:induction false} AddAbove(table: Table, w: int, bound: int)
    requires bound < w && forall i :: 0 <= i < |table| ==> bound < table[i].word
    ensures forall i :: 0 <= i < |Add(table, w)| ==> bound < Add(table, w)[i].word
  {
    if table != [] && table[0].word < w {
      AddAbove(table[1..], w, bound);
    }
  }

  lemma {:induction false} TableCons(first: Entry, rest: Table)
    requires IsTable(rest) && first.count > 0 && forall i :: 0 <= i < |rest| ==> first.word < rest[i].word
    ensures IsTable([first] + rest)
  {
    var t := [first] + rest;
    assert forall i :: 1 <= i < |t| ==> t[i] == rest[i - 1];
  }

  lemma {:induction false} AddKeepsTable(table: Table, w: int)
    requires IsTable(table)
    ensures IsTable(Add(table, w))
  {
    if table != [] && table[0].word < w {
      AddKeepsTable(table[1..], w);
      AddAbove(table[1..], w, table[0].word);
      TableCons(table[0], Add(table[1..], w));
    } else if table != [] && table[0].word == w {
      TableCons(Entry(w, table[0].count + 1), table[1..]);
    } else {
      TableCons(Entry(w, 1), table);
    }
  }

  /** Where the walk of Add stops, by position. */
  lemma {:induction false} AddAtPosition(table: Table, w: int, pos: nat)
    requires pos <= |table| && (forall i :: 0 <= i < pos ==> table[i].word < w)
    requires pos < |table| ==> table[pos].word >= w
    ensures Add(table, w) == if pos < |table| && table[pos].word == w then table[pos := Entry(w, table[pos].count + 1)]
                             else table[..pos] + [Entry(w, 1)] + table[pos..]
  {
    if pos > 0 {
      var rest := table[1..];
      AddAtPosition(rest, w, pos - 1);
      if pos < |table| && table[pos].word == w {
        SetInTail(table, pos, Entry(w, table[pos].count + 1));
      } else {
        InsertInTail(table, pos, Entry(w, 1));
      }
    }
  }

  /** The table of a list of words: what one thread, or the sequential program, builds. */
  function TableOf(words: seq<int>): Table {
    if words == [] then [] else Add(TableOf(words[..|words| - 1]), words[|words| - 1])
  }

  function Occurs(words: seq<int>, w: int): nat {
    if words == [] then 0 else Occurs(words[..|words| - 1], w) + if words[|words| - 1] == w then 1 else 0
  }

  /** A table counts every word exactly as often as it was added. */
  lemma {:induction false} TableCountsWords(words: seq<int>)
    ensures IsTable(TableOf(words)) && forall w :: CountOf(TableOf(words), w) == Occurs(words, w)
  {
    if words != [] {
      var init, last := words[..|words| - 1], words[|words| - 1];
      TableCountsWords(init);
      AddKeepsTable(TableOf(init), last);
      forall w
        ensures CountOf(TableOf(words), w) == Occurs(words, w)
      {
        AddCounts(TableOf(init), last, w);
      }
    }
  }

  /** words[t], use_len[t] and length[t]: `words` holds the use_len entries in use. */
  class ThreadTable {
    var words: Table
    var length: nat

    /** There is always a free slot. */
    ghost predicate Valid()
      reads this
    {
      IsTable(words) && |words| < length
    }

    constructor ()
      ensures Valid() && words == [] && length == 2000
    {
      words, length := [], START_ARRAY_SIZE;
    }

    /** wordcount_reduce: the search stops at the word, or at its place. */
    method WordcountReduce(word: int)
      requires Valid()
      modifies this
      ensures Valid() && words == Add(old(words), word)
      ensures length == if |words| == old(length) then 2 * old(length) else old(length)
    {
      AddKeepsTable(words, word);
      var cmp, high, low := -1, |words|, -1;
      while high - low > 1
        invariant -1 <= low < high <= |words| && cmp != 0
        invariant forall i :: 0 <= i <= low ==> words[i].word < word
        invariant forall i :: high <= i < |words| ==> words[i].word > word
      {
        var next := (high + low) / 2;
        cmp := word - words[next].word;
        if cmp == 0 {
          high := next;
          break;
        } else if cmp < 0 {
          high := next;
        } else {
          low := next;
        }
      }
      var pos := high;
      AddAtPosition(words, word, pos);
      if pos >= |words| {
        words := words + [Entry(word, 1)];
        assert words == old(words)[..pos] + [Entry(word, 1)] + old(words)[pos..];
      } else if pos < 0 {
        assert false;
      } else if cmp == 0 {
        words := words[pos := Entry(words[pos].word, words[pos].count + 1)];
      } else {
        words := words[..pos] + [Entry(word, 1)] + words[pos..];
      }
      if |words| == length {
        length := length * 2;
      }
    }

    /** dobsearch */
    method Dobsearch(word: int) returns (pos: nat)
      requires Valid()
      ensures pos <= |words| && (forall i :: 0 <= i < pos ==> words[i].word < word)
      ensures pos < |words| ==> words[pos].word >= word
    {
      var high, low := |words|, -1;
      while high - low > 1
        invariant -1 <= low < high <= |words|
        invariant forall i :: 0 <= i <= low ==> words[i].word < word
        invariant forall i :: high <= i < |words| ==> words[i].word > word
      {
        var next := (high + low) / 2;
        var cmp := word - words[next].word;
        if cmp == 0 {
          return next;
        } else if cmp < 0 {
          high := next;
        } else {
          low := next;
        }
      }
      return high;
    }

    /** wordcount_addword of the sequential program: another search, the same table. */
    method WordcountAddword(word: int)
      requires Valid()
      modifies this
      ensures Valid() && words == Add(old(words), word)
      ensures length == if |words| == old(length) then 2 * old(length) else old(length)
    {
      AddKeepsTable(words, word);
      var pos := Dobsearch(word);
      AddAtPosition(words, word, pos);
      if pos >= |words| {
        words := words + [Entry(word, 1)];
        assert words == old(words)[..pos] + [Entry(word, 1)] + old(words)[pos..];
      } else if word == words[pos].word {
        words := words[pos := Entry(words[pos].word, words[pos].count + 1)];
      } else {
        words := words[..pos] + [Entry(word, 1)] + words[pos..];
      }
      if |words| == length {
        length := length * 2;
      }
    }
  }

  // ---------- merge_sections ----------

  /** The simple form of the merge; equal words are added up on the left. */
  function Merged(a: Table, b: Table): Table
    decreases |a| + |b|
  {
    if a == [] then b
    else if b == [] then a
    else if a[0].word == b[0].word then Merged([Entry(a[0].word, a[0].count + b[0].count)] + a[1..], b[1..])
    else if a[0].word < b[0].word then [a[0]] + Merged(a[1..], b)
    else [b[0]] + Merged(a, b[1..])
  }

  /** Counts of equal words are added, no word is lost. */
  lemma {:induction false} MergedCounts(a: Table, b: Table, w: int)
    ensures CountOf(Merged(a, b), w) == CountOf(a, w) + CountOf(b, w)
    decreases |a| + |b|
  {
    var r := Merged(a, b);
    if a == [] || b == [] {
    } else if a[0].word == b[0].word {
      var c := [Entry(a[0].word, a[0].count + b[0].count)] + a[1..];
      MergedCounts(c, b[1..], w);
      assert c[1..] == a[1..];
    } else if a[0].word < b[0].word {
      MergedCounts(a[1..], b, w);
      assert r[1..] == Merged(a[1..], b);
    } else {
      MergedCounts(a, b[1..], w);
      assert r[1..] == Merged(a, b[1..]);
    }
  }

  lemma {:induction false} MergedAbove(a: Table, b: Table, bound: int)
    requires forall i :: 0 <= i < |a| ==> bound < a[i].word
    requires forall i :: 0 <= i < |b| ==> bound < b[i].word
    ensures forall i :: 0 <= i < |Merged(a, b)| ==> bound < Merged(a, b)[i].word
    ensures |Merged(a, b)| <= |a| + |b|
    decreases |a| + |b|
  {
    if a == [] || b == [] {
    } else if a[0].word == b[0].word {
      MergedAbove([Entry(a[0].word, a[0].count + b[0].count)] + a[1..], b[1..], bound);
    } else if a[0].word < b[0].word {
      MergedAbove(a[1..], b, bound);
    } else {
      MergedAbove(a, b[1..], bound);
    }
  }

  lemma {:induction false} MergedKeepsTable(a: Table, b: Table)
    requires IsTable(a) && IsTable(b)
    ensures IsTable(Merged(a, b)) && |Merged(a, b)| <= |a| + |b|
    decreases |a| + |b|
  {
    if a == [] || b == [] {
    } else if a[0].word == b[0].word {
      var first := Entry(a[0].word, a[0].count + b[0].count);
      TableCons(first, a[1..]);
      MergedKeepsTable([first] + a[1..], b[1..]);
    } else if a[0].word < b[0].word {
      MergedKeepsTable(a[1..], b);
      MergedAbove(a[1..], b, a[0].word);
      TableCons(a[0], Merged(a[1..], b));
    } else {
      MergedKeepsTable(a, b[1..]);
      MergedAbove(a, b[1..], b[0].word);
      TableCons(b[0], Merged(a, b[1..]));
    }
  }

  /** One turn of the loop of merge_sections: an equal word is added in place, the lesser word is written. */
  lemma {:induction false} MergedStep(out: Table, a: Table, b: Table)
    requires a != [] && b != []
    ensures a[0].word == b[0].word ==>
            Merged(a, b) == Merged([Entry(a[0].word, a[0].count + b[0].count)] + a[1..], b[1..])
    ensures a[0].word < b[0].word ==> out + Merged(a, b) == (out + [a[0]]) + Merged(a[1..], b)
    ensures a[0].word > b[0].word ==> out + Merged(a, b) == (out + [b[0]]) + Merged(a, b[1..])
  {
    ConcatAssoc(out, [a[0]], Merged(a[1..], b));
    ConcatAssoc(out, [b[0]], Merged(a, b[1..]));
  }

  lemma {:induction false} TailOf(data: array<Entry>, i: nat)
    requires i < data.Length
    ensures data[i..] != [] && data[i..][0] == data[i] && data[i..][1..] == data[i + 1..]
  {
  }

  /** merge_sections: the loop that adds into data1 in place, then the two remainders. The output fits
      the room its caller allocated. */
  method MergeSections(data1: array<Entry>, data2: array<Entry>) returns (out: Table)
    requires data1 != data2 && IsTable(data1[..]) && IsTable(data2[..])
    modifies data1
    ensures out == Merged(old(data1[..]), data2[..])
    ensures |out| <= data1.Length + data2.Length
  {
    MergedKeepsTable(data1[..], data2[..]);
    out := [];
    var curr1, curr2 := 0, 0;
    assert data1[0..] == data1[..] && data2[0..] == data2[..];
    while curr1 < data1.Length && curr2 < data2.Length
      invariant 0 <= curr1 <= data1.Length && 0 <= curr2 <= data2.Length
      invariant out + Merged(data1[curr1..], data2[curr2..]) == Merged(old(data1[..]), data2[..])
      decreases data1.Length - curr1 + data2.Length - curr2
    {
      ghost var a, b := data1[curr1..], data2[curr2..];
      TailOf(data1, curr1);
      TailOf(data2, curr2);
      MergedStep(out, a, b);
      var cmpRet := data1[curr1].word - data2[curr2].word;
      if cmpRet == 0 {
        data1[curr1] := Entry(data1[curr1].word, data1[curr1].count + data2[curr2].count);
        curr2 := curr2 + 1;
        assert data1[curr1..] == [Entry(a[0].word, a[0].count + b[0].count)] + a[1..];
      } else if cmpRet < 0 {
        out := out + [data1[curr1]];
        curr1 := curr1 + 1;
      } else {
        out := out + [data2[curr2]];
        curr2 := curr2 + 1;
      }
    }
    out := out + data1[curr1..] + data2[curr2..];
  }

  // ---------- the tournament ----------

  /** The count of a word in the first n tables together. */
  function CountIn(tables: seq<Table>, n: nat, w: int): nat
    requires n <= |tables|
  {
    if n == 0 then 0 else CountIn(tables, n - 1, w) + CountOf(tables[n - 1], w)
  }

  lemma {:induction false} CountInSame(a: seq<Table>, b: seq<Table>, n: nat, w: int)
    requires n <= |a| && n <= |b| && forall i :: 0 <= i < n ==> a[i] == b[i]
    ensures CountIn(a, n, w) == CountIn(b, n, w)
  {
    if n > 0 {
      CountInSame(a, b, n - 1, w);
    }
  }

  /** The i-th merge of a pass takes tables 2i and 2i + 1. */
  ghost predicate PairMerged(words: seq<Table>, out: Table, i: nat)
    requires 2 * i + 1 < |words|
  {
    IsTable(out) && forall w :: CountOf(out, w) == CountOf(words[2 * i], w) + CountOf(words[2 * i + 1], w)
  }

  lemma {:induction false} PairsCount(words: seq<Table>, mwords: seq<Table>, n: nat, w: int)
    requires 2 * n <= |words| && n <= |mwords| && forall i :: 0 <= i < n ==> PairMerged(words, mwords[i], i)
    ensures CountIn(mwords, n, w) == CountIn(words, 2 * n, w)
  {
    if n > 0 {
      PairsCount(words, mwords, n - 1, w);
      assert PairMerged(words, mwords[n - 1], n - 1);
      assert CountIn(words, 2 * n, w) == CountIn(words, 2 * n - 1, w) + CountOf(words[2 * n - 1], w);
    }
  }

  method MergeTables(a: Table, b: Table) returns (out: Table)
    requires IsTable(a) && IsTable(b)
    ensures IsTable(out) && |out| <= |a| + |b| && forall w :: CountOf(out, w) == CountOf(a, w) + CountOf(b, w)
  {
    var data1 := new Entry[|a|](i requires 0 <= i < |a| => a[i]);
    var data2 := new Entry[|b|](i requires 0 <= i < |b| => b[i]);
    assert data1[..] == a && data2[..] == b;
    out := MergeSections(data1, data2);
    MergedKeepsTable(a, b);
    forall w
      ensures CountOf(out, w) == CountOf(a, w) + CountOf(b, w)
    {
      MergedCounts(a, b, w);
    }
  }

  lemma {:induction false} PassCounts(words: seq<Table>, merged: seq<Table>, next: seq<Table>, n: nat, rem: nat, w: int)
    requires rem <= 1 && |words| == 2 * n + rem && |merged| == n
    requires forall i :: 0 <= i < n ==> PairMerged(words, merged[i], i)
    requires next == merged + if rem == 1 then [words[2 * n]] else []
    ensures CountIn(next, |next|, w) == CountIn(words, |words|, w)
  {
    PairsCount(words, merged, n, w);
    CountInSame(merged, next, n, w);
  }

  /** One pass: the tables are merged in pairs, and an odd one is carried over. */
  method Pass(words: seq<Table>, numThreads: nat, rem: nat) returns (next: seq<Table>)
    requires rem <= 1 && 2 * numThreads + rem == |words| && numThreads > 0
    requires forall i :: 0 <= i < |words| ==> IsTable(words[i])
    ensures |next| == numThreads + rem && forall i :: 0 <= i < |next| ==> IsTable(next[i])
    ensures forall i :: 0 <= i < numThreads ==> PairMerged(words, next[i], i)
    ensures rem == 1 ==> next[numThreads] == words[2 * numThreads]
    ensures forall w :: CountIn(next, |next|, w) == CountIn(words, |words|, w)
  {
    next := [];
    for i := 0 to numThreads
      invariant |next| == i && forall k :: 0 <= k < i ==> PairMerged(words, next[k], k)
    {
      var out := MergeTables(words[i * 2], words[i * 2 + 1]);
      assert PairMerged(words, out, i);
      next := next + [out];
    }
    forall k | 0 <= k < numThreads
      ensures IsTable(next[k])
    {
      assert PairMerged(words, next[k], k);
    }
    ghost var merged := next;
    if rem == 1 {
      next := next + [words[numThreads * 2]];
    }
    forall w
      ensures CountIn(next, |next|, w) == CountIn(words, |words|, w)
    {
      PassCounts(words, merged, next, numThreads, rem, w);
    }
  }

  /** The tournament of wordcount_splitter: it ends with one table, which for every word holds the sum of
      the counts of all threads. */
  method Tournament(tables: seq<Table>) returns (final: Table)
    requires tables != [] && forall i :: 0 <= i < |tables| ==> IsTable(tables[i])
    ensures IsTable(final) && forall w :: CountOf(final, w) == CountIn(tables, |tables|, w)
  {
    var words := tables;
    var numThreads, rem := |tables| / 2, |tables| % 2;
    while numThreads > 0
      invariant 0 <= rem <= 1 && 2 * numThreads + rem == |words| > 0
      invariant forall i :: 0 <= i < |words| ==> IsTable(words[i])
      invariant forall w :: CountIn(words, |words|, w) == CountIn(tables, |tables|, w)
      decreases |words|
    {
      words := Pass(words, numThreads, rem);
      var oldNum := numThreads;
      numThreads := (numThreads + rem) / 2;
      rem := (oldNum + rem) % 2;
    }
    final := words[0];
    assert |words| == 1;
    forall w
      ensures CountOf(final, w) == CountIn(tables, |tables|, w)
    {
      assert CountIn(words, 1, w) == CountIn(words, 0, w) + CountOf(words[0], w);
    }
  }

  // ---------- the parallel and the sequential program agree ----------

  function TablesOf(wordLists: seq<seq<int>>): (r: seq<Table>)
    ensures |r| == |wordLists| && forall t :: 0 <= t < |r| ==> r[t] == TableOf(wordLists[t])
  {
    seq(|wordLists|, t requires 0 <= t < |wordLists| => TableOf(wordLists[t]))
  }

  /** All words, thread by thread. */
  function AllWords(wordLists: seq<seq<int>>, n: nat): seq<int>
    requires n <= |wordLists|
  {
    if n == 0 then [] else AllWords(wordLists, n - 1) + wordLists[n - 1]
  }

  lemma {:induction false} OccursConcat(a: seq<int>, b: seq<int>, w: int)
    ensures Occurs(a + b, w) == Occurs(a, w) + Occurs(b, w)
  {
    if b == [] {
      assert a + b == a;
    } else {
      OccursConcat(a, b[..|b| - 1], w);
      ConcatInit(a, b);
    }
  }

  lemma {:induction false} TablesCountWords(wordLists: seq<seq<int>>, n: nat, w: int)
    requires n <= |wordLists|
    ensures CountIn(TablesOf(wordLists), n, w) == Occurs(AllWords(wordLists, n), w)
  {
    if n > 0 {
      TablesCountWords(wordLists, n - 1, w);
      TableCountsWords(wordLists[n - 1]);
      OccursConcat(AllWords(wordLists, n - 1), wordLists[n - 1], w);
    }
  }

  /** What the tournament leaves is, entry for entry, the table the sequential program builds from all
      the words, however they were dealt out to the threads. */
  lemma {:induction false} TournamentIsSequential(wordLists: seq<seq<int>>, words: seq<int>, final: Table)
    requires IsTable(final) && forall w :: CountOf(final, w) == CountIn(TablesOf(wordLists), |wordLists|, w)
    requires multiset(words) == multiset(AllWords(wordLists, |wordLists|))
    ensures final == TableOf(words)
  {
    TableCountsWords(words);
    forall w
      ensures CountOf(final, w) == CountOf(TableOf(words), w)
    {
      TablesCountWords(wordLists, |wordLists|, w);
      OccursIsMultiplicity(words, w);
      OccursIsMultiplicity(AllWords(wordLists, |wordLists|), w);
    }
    TableIsUnique(final, TableOf(words));
  }

  lemma {:induction false} OccursIsMultiplicity(words: seq<int>, w: int)
    ensures Occurs(words, w) == multiset(words)[w]
  {
    if words != [] {
      OccursIsMultiplicity(words[..|words| - 1], w);
      assert words == words[..|words| - 1] + [words[|words| - 1]];
    }
  }
}
