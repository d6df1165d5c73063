/** The intermediate table of one map thread and one reduce task (keyvals_arr_t): an array of
    keys kept strictly sorted, each owning a chain of value chunks whose sizes double. */
module IntermediateTable {
  import opened Sequences
  import opened KeyOrder

  const DEFAULT_VALS_ARR_LEN: nat := 10

  /** val_t: a block of `size` slots, of which the first |filled| (next_insert_pos) are in use. */
  datatype Chunk = Chunk(size: nat, filled: seq<Val>)

  /** keyvals_t: a key and its chunks, the one being filled first. */
  datatype KeyVals = KeyVals(len: nat, key: Key, vals: seq<Chunk>)

  function Pow2(n: nat): (p: nat)
    ensures p >= 1
  {
    if n == 0 then 1 else 2 * Pow2(n - 1)
  }

  /** All values of a chain, in the order a reader following next_val meets them. */
  function Drain(chunks: seq<Chunk>): seq<Val> {
    if chunks == [] then [] else chunks[0].filled + Drain(chunks[1..])
  }

  /** All values of a chain from the oldest chunk to the newest. */
  function Stored(chunks: seq<Chunk>): seq<Val> {
    if chunks == [] then [] else Stored(chunks[1..]) + chunks[0].filled
  }

  /** A closed chain: every chunk full, sizes doubling from the oldest chunk on. */
  ghost predicate FullChain(chunks: seq<Chunk>) {
    chunks == [] ||
    (|chunks[0].filled| == chunks[0].size == DEFAULT_VALS_ARR_LEN * Pow2(|chunks| - 1) && FullChain(chunks[1..]))
  }

  /** A chain under insertion: a non-empty head chunk with room or just full, over a closed chain. */
  ghost predicate OpenChain(chunks: seq<Chunk>) {
    && chunks != []
    && 0 < |chunks[0].filled| <= chunks[0].size == DEFAULT_VALS_ARR_LEN * Pow2(|chunks| - 1)
    && FullChain(chunks[1..])
  }

  /** What the reading side needs of an entry: no empty chunk, and a truthful length. */
  ghost predicate Readable(kv: KeyVals) {
    && kv.vals != []
    && (forall i :: 0 <= i < |kv.vals| ==> kv.vals[i].filled != [])
    && kv.len == |Drain(kv.vals)|
  }

  ghost predicate StrictlySorted(table: seq<KeyVals>) {
    forall i, j :: 0 <= i < j < |table| ==> KeyCmp(table[i].key, table[j].key) < 0
  }

  ghost predicate AllReadable(entries: seq<KeyVals>) {
    forall i :: 0 <= i < |entries| ==> Readable(entries[i])
  }

  /** A table the reduce side may read. */
  ghost predicate ReadableTable(table: seq<KeyVals>) {
    StrictlySorted(table) && AllReadable(table)
  }

  /** A table the map side may still insert into. */
  ghost predicate OpenTable(table: seq<KeyVals>) {
    ReadableTable(table) && forall i :: 0 <= i < |table| ==> OpenChain(table[i].vals)
  }

  function Push(chunks: seq<Chunk>, v: Val): seq<Chunk> {
    if chunks == [] then [Chunk(DEFAULT_VALS_ARR_LEN, [v])]
    else if |chunks[0].filled| >= chunks[0].size then [Chunk(chunks[0].size * 2, [v])] + chunks
    else [chunks[0].(filled := chunks[0].filled + [v])] + chunks[1..]
  }

  /** The simple form of the insertion: walk the table to the key's place. */
  function Insert(table: seq<KeyVals>, key: Key, v: Val): seq<KeyVals> {
    if table == [] then [KeyVals(1, key, Push([], v))]
    else if KeyCmp(table[0].key, key) < 0 then [table[0]] + Insert(table[1..], key, v)
    else if KeyCmp(table[0].key, key) == 0 then
      [table[0].(len := table[0].len + 1, vals := Push(table[0].vals, v))] + table[1..]
    else [KeyVals(1, key, Push([], v))] + table
  }

  /** The table a map thread has built after emitting `pairs` in order. */
  function InsertAll(pairs: seq<KeyVal>): seq<KeyVals> {
    if pairs == [] then []
    else
      var last := pairs[|pairs| - 1];
      Insert(InsertAll(pairs[..|pairs| - 1]), last.key, last.val)
  }

  /** The values emitted for keys equal to k. */
  function Emitted(pairs: seq<KeyVal>, k: Key): multiset<Val> {
    if pairs == [] then multiset{}
    else
      var last := pairs[|pairs| - 1];
      Emitted(pairs[..|pairs| - 1], k) + if KeyCmp(last.key, k) == 0 then multiset{last.val} else multiset{}
  }

  /** The values a table holds for keys equal to k. */
  function Held(table: seq<KeyVals>, k: Key): multiset<Val> {
    if table == [] then multiset{}
    else
      (if KeyCmp(table[0].key, k) == 0 then multiset(Drain(table[0].vals)) else multiset{}) + Held(table[1..], k)
  }

  /** The values emitted for keys equal to k, in the order they were emitted. */
  function EmittedInOrder(pairs: seq<KeyVal>, k: Key): seq<Val> {
    if pairs == [] then []
    else
      var last := pairs[|pairs| - 1];
      EmittedInOrder(pairs[..|pairs| - 1], k) + if KeyCmp(last.key, k) == 0 then [last.val] else []
  }

  /** The values a table has stored for keys equal to k, oldest first. */
  function HeldInOrder(table: seq<KeyVals>, k: Key): seq<Val> {
    if table == [] then []
    else (if KeyCmp(table[0].key, k) == 0 then Stored(table[0].vals) else []) + HeldInOrder(table[1..], k)
  }

  /** Emitted counts, for each value, the pairs with that value and an equal key. */
  lemma {:induction false} EmittedCounts(pairs: seq<KeyVal>, k: Key, v: Val)
    ensures Emitted(pairs, k)[v] == |set i | 0 <= i < |pairs| && KeyCmp(pairs[i].key, k) == 0 && pairs[i].val == v|
  {
    var all := set i | 0 <= i < |pairs| && KeyCmp(pairs[i].key, k) == 0 && pairs[i].val == v;
    if pairs == [] {
      assert all == {};
    } else {
      var n := |pairs| - 1;
      var init := pairs[..n];
      var before := set i | 0 <= i < |init| && KeyCmp(init[i].key, k) == 0 && init[i].val == v;
      EmittedCounts(init, k, v);
      if KeyCmp(pairs[n].key, k) == 0 && pairs[n].val == v {
        assert all == before + {n};
      } else {
        assert all == before;
      }
    }
  }

  lemma {:induction false} EmittedIsInOrder(pairs: seq<KeyVal>, k: Key)
    ensures multiset(EmittedInOrder(pairs, k)) == Emitted(pairs, k)
  {
    if pairs != [] {
      EmittedIsInOrder(pairs[..|pairs| - 1], k);
    }
  }

  // ---------- chunk chains ----------

  /** Closed form of a chain's length: with n chunks it is 10 * (2^(n-1) - 1) plus the head's fill. */
  lemma {:induction false} FullChainLength(chunks: seq<Chunk>)
    requires FullChain(chunks)
    ensures |Drain(chunks)| == 10 * (Pow2(|chunks|) - 1)
  {
    if chunks != [] {
      FullChainLength(chunks[1..]);
    }
  }

  lemma {:induction false} OpenChainLength(chunks: seq<Chunk>)
    requires OpenChain(chunks)
    ensures |Drain(chunks)| == 10 * (Pow2(|chunks| - 1) - 1) + |chunks[0].filled|
  {
    FullChainLength(chunks[1..]);
  }

  lemma {:induction false} FullChainChunks(chunks: seq<Chunk>)
    requires FullChain(chunks)
    ensures forall i :: 0 <= i < |chunks| ==> chunks[i].filled != []
  {
    if chunks != [] {
      FullChainChunks(chunks[1..]);
      assert forall i :: 1 <= i < |chunks| ==> chunks[i] == chunks[1..][i - 1];
    }
  }

  lemma {:induction false} PushDrains(chunks: seq<Chunk>, v: Val)
    ensures multiset(Drain(Push(chunks, v))) == multiset(Drain(chunks)) + multiset{v}
    ensures |Drain(Push(chunks, v))| == |Drain(chunks)| + 1
  {
    var p := Push(chunks, v);
    if chunks == [] {
      assert p[1..] == [];
    } else if |chunks[0].filled| >= chunks[0].size {
      assert p[1..] == chunks;
      assert Drain(p) == [v] + Drain(chunks);
    } else {
      assert p[1..] == chunks[1..];
      assert Drain(p) == (chunks[0].filled + [v]) + Drain(chunks[1..]);
    }
  }

  /** A value pushed is the last one stored. */
  lemma {:induction false} PushStoresLast(chunks: seq<Chunk>, v: Val)
    ensures Stored(Push(chunks, v)) == Stored(chunks) + [v]
  {
    var p := Push(chunks, v);
    if chunks == [] {
      assert p[1..] == [];
    } else if |chunks[0].filled| >= chunks[0].size {
      assert p[1..] == chunks;
    } else {
      assert p[1..] == chunks[1..];
      ConcatAssoc(Stored(chunks[1..]), chunks[0].filled, [v]);
    }
  }

  lemma {:induction false} PushStaysOpen(chunks: seq<Chunk>, v: Val)
    requires chunks == [] || OpenChain(chunks)
    ensures OpenChain(Push(chunks, v))
  {
    var p := Push(chunks, v);
    if chunks != [] {
      assert p[1..] == if |chunks[0].filled| >= chunks[0].size then chunks else chunks[1..];
    }
  }

  lemma {:induction false} OpenChainChunks(chunks: seq<Chunk>)
    requires OpenChain(chunks)
    ensures forall i :: 0 <= i < |chunks| ==> chunks[i].filled != []
  {
    FullChainChunks(chunks[1..]);
    assert forall i :: 1 <= i < |chunks| ==> chunks[i] == chunks[1..][i - 1];
  }

  lemma {:induction false} PushKeepsChain(chunks: seq<Chunk>, v: Val)
    requires chunks == [] || OpenChain(chunks)
    ensures OpenChain(Push(chunks, v))
    ensures forall i :: 0 <= i < |Push(chunks, v)| ==> Push(chunks, v)[i].filled != []
    ensures multiset(Drain(Push(chunks, v))) == multiset(Drain(chunks)) + multiset{v}
    ensures |Drain(Push(chunks, v))| == |Drain(chunks)| + 1
  {
    PushStaysOpen(chunks, v);
    OpenChainChunks(Push(chunks, v));
    PushDrains(chunks, v);
  }

  // ---------- tables ----------

  lemma {:induction false} InsertKeys(table: seq<KeyVals>, key: Key, v: Val, bound: Key)
    requires KeyCmp(bound, key) < 0 && forall i :: 0 <= i < |table| ==> KeyCmp(bound, table[i].key) < 0
    ensures forall i :: 0 <= i < |Insert(table, key, v)| ==> KeyCmp(bound, Insert(table, key, v)[i].key) < 0
  {
    if table != [] && KeyCmp(table[0].key, key) < 0 {
      InsertKeys(table[1..], key, v, bound);
    }
  }

  lemma {:induction false} StrictlySortedCons(first: KeyVals, rest: seq<KeyVals>)
    requires StrictlySorted(rest) && forall i :: 0 <= i < |rest| ==> KeyCmp(first.key, rest[i].key) < 0
    ensures StrictlySorted([first] + rest)
  {
    var t := [first] + rest;
    assert forall i :: 1 <= i < |t| ==> t[i] == rest[i - 1];
  }

  lemma {:induction false} InsertKeepsOrder(table: seq<KeyVals>, key: Key, v: Val)
    requires StrictlySorted(table)
    ensures StrictlySorted(Insert(table, key, v))
  {
    var t := Insert(table, key, v);
    if table == [] {
    } else if KeyCmp(table[0].key, key) < 0 {
      InsertKeepsOrder(table[1..], key, v);
      InsertKeys(table[1..], key, v, table[0].key);
      StrictlySortedCons(table[0], Insert(table[1..], key, v));
    } else if KeyCmp(table[0].key, key) == 0 {
      assert forall i :: 0 <= i < |t| ==> t[i].key == table[i].key;
    } else {
      StrictlySortedCons(KeyVals(1, key, Push([], v)), table);
    }
  }

  lemma {:induction false} InsertKeepsChains(table: seq<KeyVals>, key: Key, v: Val)
    requires forall i :: 0 <= i < |table| ==> Readable(table[i]) && OpenChain(table[i].vals)
    ensures var t := Insert(table, key, v);
            forall i :: 0 <= i < |t| ==> Readable(t[i]) && OpenChain(t[i].vals)
  {
    if table != [] && KeyCmp(table[0].key, key) < 0 {
      InsertKeepsChains(table[1..], key, v);
      assert Insert(table, key, v)[1..] == Insert(table[1..], key, v);
    } else if table != [] && KeyCmp(table[0].key, key) == 0 {
      PushKeepsChain(table[0].vals, v);
    } else {
      PushKeepsChain([], v);
    }
  }

  lemma {:induction false} InsertKeepsTable(table: seq<KeyVals>, key: Key, v: Val)
    requires OpenTable(table)
    ensures OpenTable(Insert(table, key, v))
  {
    InsertKeepsOrder(table, key, v);
    InsertKeepsChains(table, key, v);
  }

  lemma {:induction false} InsertAddsOneValue(table: seq<KeyVals>, key: Key, v: Val, k: Key)
    requires OpenTable(table)
    ensures Held(Insert(table, key, v), k)
         == Held(table, k) + if KeyCmp(key, k) == 0 then multiset{v} else multiset{}
  {
    var t := Insert(table, key, v);
    if table == [] {
      PushKeepsChain([], v);
      assert t[1..] == [];
    } else if KeyCmp(table[0].key, key) < 0 {
      InsertAddsOneValue(table[1..], key, v, k);
      assert t[1..] == Insert(table[1..], key, v);
    } else if KeyCmp(table[0].key, key) == 0 {
      PushKeepsChain(table[0].vals, v);
      assert t[1..] == table[1..];
    } else {
      PushKeepsChain([], v);
      assert t[1..] == table;
    }
  }

  /** After any sequence of emits the table is a strictly sorted map from each key to exactly the
      multiset of values emitted for it, with every chunk chain in its closed form. */
  lemma {:induction false} TableRefinesMap(pairs: seq<KeyVal>)
    ensures OpenTable(InsertAll(pairs))
    ensures forall k :: Held(InsertAll(pairs), k) == Emitted(pairs, k)
  {
    if pairs != [] {
      var init, last := pairs[..|pairs| - 1], pairs[|pairs| - 1];
      TableRefinesMap(init);
      InsertKeepsTable(InsertAll(init), last.key, last.val);
      forall k
        ensures Held(InsertAll(pairs), k) == Emitted(pairs, k)
      {
        InsertAddsOneValue(InsertAll(init), last.key, last.val, k);
      }
    }
  }

  lemma {:induction false} NothingHeld(table: seq<KeyVals>, k: Key)
    requires forall i :: 0 <= i < |table| ==> KeyCmp(table[i].key, k) != 0
    ensures HeldInOrder(table, k) == []
  {
    if table != [] {
      NothingHeld(table[1..], k);
    }
  }

  lemma {:induction false} InsertStoresLast(table: seq<KeyVals>, key: Key, v: Val, k: Key)
    requires StrictlySorted(table)
    ensures HeldInOrder(Insert(table, key, v), k)
         == HeldInOrder(table, k) + if KeyCmp(key, k) == 0 then [v] else []
  {
    var after, own := Insert(table, key, v), if KeyCmp(key, k) == 0 then [v] else [];
    if table == [] {
      PushStoresLast([], v);
      assert after[1..] == [];
    } else if KeyCmp(table[0].key, key) < 0 {
      InsertStoresLast(table[1..], key, v, k);
      assert after[1..] == Insert(table[1..], key, v);
      ConcatAssoc(if KeyCmp(table[0].key, k) == 0 then Stored(table[0].vals) else [], HeldInOrder(table[1..], k), own);
    } else {
      var rest := if KeyCmp(table[0].key, key) == 0 then table[1..] else table;
      assert after[1..] == rest;
      PushStoresLast(if KeyCmp(table[0].key, key) == 0 then table[0].vals else [], v);
      if KeyCmp(key, k) == 0 {
        NothingHeld(rest, k);
      }
    }
  }

  /** For every key a table has stored the values emitted for it in the order they were emitted. */
  lemma {:induction false} TableKeepsOrder(pairs: seq<KeyVal>, k: Key)
    ensures HeldInOrder(InsertAll(pairs), k) == EmittedInOrder(pairs, k)
  {
    if pairs != [] {
      var init, last := pairs[..|pairs| - 1], pairs[|pairs| - 1];
      TableKeepsOrder(init, k);
      TableRefinesMap(init);
      InsertStoresLast(InsertAll(init), last.key, last.val, k);
    }
  }

  /** Where the walk of Insert stops, stated by position: how the binary search is compared with it. */
  lemma {:induction false} InsertAtPosition(table: seq<KeyVals>, key: Key, v: Val, low: nat)
    requires low <= |table|
    requires forall i :: 0 <= i < low ==> KeyCmp(table[i].key, key) < 0
    requires low < |table| ==> KeyCmp(table[low].key, key) >= 0
    ensures Insert(table, key, v) ==
            if low < |table| && KeyCmp(table[low].key, key) == 0
            then table[low := table[low].(len := table[low].len + 1, vals := Push(table[low].vals, v))]
            else table[..low] + [KeyVals(1, key, Push([], v))] + table[low..]
  {
    if low > 0 {
      InsertAtPosition(table[1..], key, v, low - 1);
      var rest := Insert(table[1..], key, v);
      assert Insert(table, key, v) == [table[0]] + rest;
      if low < |table| && KeyCmp(table[low].key, key) == 0 {
        assert table[1..][low - 1] == table[low];
        SetInTail(table, low, rest[low - 1]);
      } else {
        InsertInTail(table, low, KeyVals(1, key, Push([], v)));
      }
    }
  }

  /** keyvals_arr_t. `arr` holds the entries in use, allocLen counts the slots allocated. */
  class KeyValsArr {
    /** Its place in env->intermediate_vals: no two arrays share one. */
    const thread: nat
    const task: nat
    var allocLen: nat
    var pos: nat
    var arr: seq<KeyVals>

    ghost predicate Valid()
      reads this
    {
      |arr| <= allocLen
    }

    constructor (thread: nat, task: nat)
      ensures this.thread == thread && this.task == task
      ensures Valid() && arr == [] && pos == 0 && allocLen == 0
    {
      this.thread, this.task := thread, task;
      allocLen, pos, arr := 0, 0, [];
    }

    /** The search of insert_keyval_merged: compare with the last key, else binary search. */
    method Locate(key: Key) returns (low: int, c: int)
      requires StrictlySorted(arr)
      ensures 0 <= low <= |arr|
      ensures forall i :: 0 <= i < low ==> KeyCmp(arr[i].key, key) < 0
      ensures forall i :: low <= i < |arr| ==> KeyCmp(arr[i].key, key) >= 0
      ensures |arr| > 0 ==> (c == 0 <==> low < |arr| && KeyCmp(arr[low].key, key) == 0)
    {
      var high := |arr|;
      low, c := -1, 1;
      if |arr| > 0 {
        c := KeyCmp(arr[|arr| - 1].key, key);
      }
      if c > 0 {
        while high - low > 1
          invariant -1 <= low < high <= |arr|
          invariant low >= 0 ==> KeyCmp(arr[low].key, key) <= 0
          invariant high < |arr| ==> KeyCmp(arr[high].key, key) > 0
          invariant high == |arr| > 0 ==> KeyCmp(arr[high - 1].key, key) > 0
        {
          var next := (high + low) / 2;
          if KeyCmp(arr[next].key, key) > 0 {
            high := next;
          } else {
            low := next;
          }
        }
        if low < 0 {
          low := 0;
        }
        if |arr| > 0 {
          c := KeyCmp(arr[low].key, key);
          if c < 0 {
            low := low + 1;
          }
        }
      } else if c < 0 {
        low := |arr|;
      } else {
        low := |arr| - 1;
      }
    }

    /** insert_keyval_merged: find the key or shift the tail to make room for it, then append the
        value to the key's newest chunk, allocating a chunk of twice the size when that is full. */
    method InsertKeyValMerged(key: Key, val: Val)
      requires Valid() && StrictlySorted(arr)
      modifies this
      ensures Valid()
      ensures arr == Insert(old(arr), key, val)
      ensures pos == old(pos)
      ensures allocLen == if |arr| <= old(allocLen) then old(allocLen)
                          else if old(allocLen) == 0 then 10 else 2 * old(allocLen)
    {
      var low, c := Locate(key);
      ghost var table := arr;
      InsertAtPosition(table, key, val, low);
      var isNew := |arr| == 0 || c != 0;
      if isNew {
        if |arr| == allocLen {
          allocLen := if allocLen == 0 then DEFAULT_KEYVAL_ARR_LEN else allocLen * 2;
        }
        arr := arr[..low] + [KeyVals(0, key, [])] + arr[low..];
        ShiftThenSet(table, low, arr[low], KeyVals(1, key, Push([], val)));
      }
      var slot := arr[low];
      var entry := AppendValue(slot, val);
      arr := arr[low := entry];
      if isNew {
        assert entry == KeyVals(1, key, Push([], val));
        assert arr == table[..low] + [entry] + table[low..];
      } else {
        assert slot == table[low] && KeyCmp(slot.key, key) == 0;
        assert arr == table[low := entry];
      }
    }
  }

  /** The tail of insert_keyval_merged: the first chunk, a chunk of twice the size, or the next slot. */
  method AppendValue(slot: KeyVals, val: Val) returns (entry: KeyVals)
    ensures entry == slot.(len := slot.len + 1, vals := Push(slot.vals, val))
    ensures Stored(entry.vals) == Stored(slot.vals) + [val]
    ensures slot.vals != [] && |slot.vals[0].filled| < slot.vals[0].size ==>
              entry.vals[1..] == slot.vals[1..] && entry.vals[0].size == slot.vals[0].size
    ensures slot.vals != [] && |slot.vals[0].filled| >= slot.vals[0].size ==>
              entry.vals[1..] == slot.vals && entry.vals[0].size == 2 * slot.vals[0].size
    ensures slot.vals == [] ==> entry.vals == [Chunk(10, [val])]
  {
    PushStoresLast(slot.vals, val);
    entry := slot;
    if entry.vals == [] {
      entry := entry.(vals := [Chunk(DEFAULT_VALS_ARR_LEN, [])]);
    } else if |entry.vals[0].filled| >= entry.vals[0].size {
      entry := entry.(vals := [Chunk(entry.vals[0].size * 2, [])] + entry.vals);
    }
    var head := entry.vals[0];
    assert head.filled == [] ==> head.filled + [val] == [val];
    entry := entry.(vals := [head.(filled := head.filled + [val])] + entry.vals[1..]);
    entry := entry.(len := entry.len + 1);
  }
}
