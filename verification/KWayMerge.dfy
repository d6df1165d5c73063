/** merge_results: the k-way merge of sorted result arrays. */
module KWayMerge {
  import opened Sequences
  import opened KeyOrder
  import opened OutputQueue

  type Rows = seq<seq<KeyVal>>

  predicate InRows(rows: Rows, pos: seq<nat>) {
    |pos| == |rows| && forall i :: 0 <= i < |rows| ==> pos[i] <= |rows[i]|
  }

  ghost predicate SortedRows(rows: Rows) {
    forall i :: 0 <= i < |rows| ==> Sorted(rows[i])
  }

  /** The unread elements of the first n rows whose key is equal to k, row by row. */
  function UnreadOfKey(rows: Rows, pos: seq<nat>, n: nat, k: Key): seq<KeyVal>
    requires InRows(rows, pos) && n <= |rows|
  {
    if n == 0 then [] else UnreadOfKey(rows, pos, n - 1, k) + OfKey(rows[n - 1][pos[n - 1]..], k)
  }

  function UnreadCount(rows: Rows, pos: seq<nat>, n: nat): nat
    requires InRows(rows, pos) && n <= |rows|
  {
    if n == 0 then 0 else UnreadCount(rows, pos, n - 1) + |rows[n - 1]| - pos[n - 1]
  }

  function Zeros(n: nat): (z: seq<nat>)
    ensures |z| == n && forall i :: 0 <= i < n ==> z[i] == 0
  {
    if n == 0 then [] else Zeros(n - 1) + [0]
  }

  /** i is the first row whose head is a least head among the first n rows. */
  ghost predicate FirstLeast(rows: Rows, pos: seq<nat>, n: nat, i: nat)
    requires InRows(rows, pos) && n <= |rows|
  {
    && i < n && pos[i] < |rows[i]|
    && (forall j :: 0 <= j < i && pos[j] < |rows[j]| ==> KeyCmp(rows[i][pos[i]].key, rows[j][pos[j]].key) < 0)
    && (forall j :: i < j < n && pos[j] < |rows[j]| ==> KeyCmp(rows[i][pos[i]].key, rows[j][pos[j]].key) <= 0)
  }

  lemma {:induction false} RowWithoutKey(row: seq<KeyVal>, p: nat, k: Key)
    requires p <= |row| && Sorted(row)
    requires p < |row| ==> KeyCmp(k, row[p].key) < 0
    ensures OfKey(row[p..], k) == []
  {
    OfKeyNone(row[p..], k);
  }

  /** Rows before the first least head hold nothing of its key, and reading it does not touch them. */
  lemma {:induction false} RowsBefore(rows: Rows, pos: seq<nat>, i: nat, n: nat, k: Key)
    requires InRows(rows, pos) && SortedRows(rows) && FirstLeast(rows, pos, |rows|, i) && n <= i
    requires InRows(rows, pos[i := pos[i] + 1])
    ensures UnreadOfKey(rows, pos, n, k) == UnreadOfKey(rows, pos[i := pos[i] + 1], n, k)
    ensures KeyCmp(rows[i][pos[i]].key, k) == 0 ==> UnreadOfKey(rows, pos, n, k) == []
  {
    if n > 0 {
      RowsBefore(rows, pos, i, n - 1, k);
      if KeyCmp(rows[i][pos[i]].key, k) == 0 {
        assert Sorted(rows[n - 1]);
        RowWithoutKey(rows[n - 1], pos[n - 1], k);
      }
    }
  }

  /** Reading the first least head takes it off the front of what is unread of its key, and changes
      nothing for other keys: this is where the merge is stable. */
  lemma {:induction false} ReadLeast(rows: Rows, pos: seq<nat>, i: nat, n: nat, k: Key)
    requires InRows(rows, pos) && SortedRows(rows) && FirstLeast(rows, pos, |rows|, i) && i < n <= |rows|
    ensures InRows(rows, pos[i := pos[i] + 1])
    ensures UnreadOfKey(rows, pos, n, k) ==
            (if KeyCmp(rows[i][pos[i]].key, k) == 0 then [rows[i][pos[i]]] else [])
            + UnreadOfKey(rows, pos[i := pos[i] + 1], n, k)
  {
    var x, next := rows[i][pos[i]], pos[i := pos[i] + 1];
    var own := if KeyCmp(x.key, k) == 0 then [x] else [];
    if n - 1 == i {
      RowsBefore(rows, pos, i, i, k);
      HeadOfKey(rows[i], pos[i], k);
      if own == [] {
        assert OfKey(rows[i][pos[i]..], k) == OfKey(rows[i][next[i]..], k);
      }
    } else {
      ReadLeast(rows, pos, i, n - 1, k);
      ConcatAssoc(own, UnreadOfKey(rows, next, n - 1, k), OfKey(rows[n - 1][pos[n - 1]..], k));
    }
  }

  lemma {:induction false} HeadOfKey(row: seq<KeyVal>, p: nat, k: Key)
    requires p < |row|
    ensures OfKey(row[p..], k) == (if KeyCmp(row[p].key, k) == 0 then [row[p]] else []) + OfKey(row[p + 1..], k)
  {
    assert row[p..][1..] == row[p + 1..];
  }

  lemma {:induction false} ReadLeastCount(rows: Rows, pos: seq<nat>, i: nat, n: nat)
    requires InRows(rows, pos) && i < |rows| && pos[i] < |rows[i]| && n <= |rows|
    ensures InRows(rows, pos[i := pos[i] + 1])
    ensures UnreadCount(rows, pos[i := pos[i] + 1], n) == UnreadCount(rows, pos, n) - if n > i then 1 else 0
  {
    if n > 0 {
      ReadLeastCount(rows, pos, i, n - 1);
    }
  }

  lemma {:induction false} UnreadFromZero(rows: Rows, n: nat, k: Key)
    requires n <= |rows|
    ensures UnreadOfKey(rows, Zeros(|rows|), n, k) == OfKey(Flatten(rows[..n]), k)
  {
    if n > 0 {
      UnreadFromZero(rows, n - 1, k);
      assert rows[..n] == rows[..n - 1] + [rows[n - 1]];
      FlattenSnoc(rows[..n - 1], rows[n - 1]);
      OfKeyConcat(Flatten(rows[..n - 1]), rows[n - 1], k);
      assert rows[n - 1][0..] == rows[n - 1];
    }
  }

  lemma {:induction false} NothingUnread(rows: Rows, pos: seq<nat>, n: nat)
    requires InRows(rows, pos) && n <= |rows|
    ensures UnreadCount(rows, pos, n) == 0 <==> forall i :: 0 <= i < n ==> pos[i] == |rows[i]|
    ensures UnreadCount(rows, pos, n) == 0 ==> forall k :: UnreadOfKey(rows, pos, n, k) == []
  {
    if n > 0 {
      NothingUnread(rows, pos, n - 1);
    }
  }

  ghost predicate Holds(vals: seq<KeyValArr>, rows: Rows, pos: seq<nat>)
    reads vals
  {
    && |vals| == |rows| && InRows(rows, pos)
    && forall i :: 0 <= i < |vals| ==> vals[i].arr == rows[i] && vals[i].pos == pos[i]
  }

  /** vals[i] is the i-th array, so they are pairwise different. */
  ghost predicate Numbered(vals: seq<KeyValArr>) {
    forall i, j :: 0 <= i < j < |vals| ==> vals[i].index < vals[j].index
  }

  /** The sum loop of merge_results. */
  method TotalKeys(vals: seq<KeyValArr>, ghost rows: Rows) returns (total: nat)
    requires Holds(vals, rows, Zeros(|rows|))
    ensures total == UnreadCount(rows, Zeros(|rows|), |rows|)
  {
    total := 0;
    for i := 0 to |vals|
      invariant total == UnreadCount(rows, Zeros(|rows|), i)
    {
      total := total + |vals[i].arr|;
    }
  }

  /** The search for the minimum key: the first array with anything left, then any strictly smaller. */
  method FindLeast(vals: seq<KeyValArr>, ghost rows: Rows, ghost pos: seq<nat>) returns (found: bool, least: nat)
    requires Holds(vals, rows, pos)
    ensures found == exists i :: 0 <= i < |rows| && pos[i] < |rows[i]|
    ensures found ==> FirstLeast(rows, pos, |rows|, least)
  {
    var i := 0;
    while i < |vals| && vals[i].pos >= |vals[i].arr|
      invariant 0 <= i <= |vals|
      invariant forall j :: 0 <= j < i ==> pos[j] == |rows[j]|
    {
      i := i + 1;
    }
    if i == |vals| {
      return false, 0;
    }
    found, least := true, i;
    var minKey := vals[i].arr[vals[i].pos].key;
    i := i + 1;
    while i < |vals|
      invariant least < i <= |vals|
      invariant FirstLeast(rows, pos, i, least) && minKey == rows[least][pos[least]].key
    {
      if vals[i].pos < |vals[i].arr| {
        if KeyCmp(minKey, vals[i].arr[vals[i].pos].key) > 0 {
          least := i;
          minKey := vals[i].arr[vals[i].pos].key;
        }
      }
      i := i + 1;
    }
  }

  /** What the merge has written so far: sorted, not above anything unread, and together with what is
      unread the whole input, key by key. */
  ghost predicate Merged(rows: Rows, pos: seq<nat>, merged: seq<KeyVal>)
    requires InRows(rows, pos)
  {
    && Sorted(merged)
    && (forall i :: 0 <= i < |rows| && pos[i] < |rows[i]| && merged != [] ==>
          KeyCmp(merged[|merged| - 1].key, rows[i][pos[i]].key) <= 0)
    && (forall k :: OfKey(merged, k) + UnreadOfKey(rows, pos, |rows|, k) == OfKey(Flatten(rows), k))
  }

  lemma {:induction false} MergedStepOfKey(rows: Rows, pos: seq<nat>, merged: seq<KeyVal>, i: nat, k: Key)
    requires InRows(rows, pos) && SortedRows(rows) && FirstLeast(rows, pos, |rows|, i)
    ensures InRows(rows, pos[i := pos[i] + 1])
    ensures OfKey(merged + [rows[i][pos[i]]], k) + UnreadOfKey(rows, pos[i := pos[i] + 1], |rows|, k)
         == OfKey(merged, k) + UnreadOfKey(rows, pos, |rows|, k)
  {
    var x := rows[i][pos[i]];
    ReadLeast(rows, pos, i, |rows|, k);
    OfKeyConcat(merged, [x], k);
    assert OfKey([x], k) == if KeyCmp(x.key, k) == 0 then [x] else [];
  }

  lemma {:induction false} MergedStep(rows: Rows, pos: seq<nat>, merged: seq<KeyVal>, i: nat)
    requires InRows(rows, pos) && SortedRows(rows) && FirstLeast(rows, pos, |rows|, i) && Merged(rows, pos, merged)
    ensures InRows(rows, pos[i := pos[i] + 1])
    ensures Merged(rows, pos[i := pos[i] + 1], merged + [rows[i][pos[i]]])
  {
    var x, next := rows[i][pos[i]], pos[i := pos[i] + 1];
    assert forall j :: 0 <= j < |merged| ==> KeyCmp(merged[j].key, merged[|merged| - 1].key) <= 0;
    forall j | 0 <= j < |rows| && next[j] < |rows[j]|
      ensures KeyCmp(x.key, rows[j][next[j]].key) <= 0
    {
      assert Sorted(rows[j]);
    }
    forall k
      ensures OfKey(merged + [x], k) + UnreadOfKey(rows, next, |rows|, k) == OfKey(Flatten(rows), k)
    {
      MergedStepOfKey(rows, pos, merged, i, k);
    }
  }

  lemma {:induction false} MergedAtEnd(rows: Rows, pos: seq<nat>, merged: seq<KeyVal>)
    requires InRows(rows, pos) && Merged(rows, pos, merged) && UnreadCount(rows, pos, |rows|) == 0
    ensures IsStableSort(Flatten(rows), merged)
  {
    NothingUnread(rows, pos, |rows|);
    forall k
      ensures OfKey(merged, k) == OfKey(Flatten(rows), k)
    {
      assert OfKey(merged, k) + [] == OfKey(merged, k);
    }
  }

  lemma {:induction false} MergedAtStart(rows: Rows)
    ensures InRows(rows, Zeros(|rows|)) && Merged(rows, Zeros(|rows|), [])
  {
    forall k
      ensures OfKey([], k) + UnreadOfKey(rows, Zeros(|rows|), |rows|, k) == OfKey(Flatten(rows), k)
    {
      UnreadFromZero(rows, |rows|, k);
      assert rows[..|rows|] == rows;
    }
  }

  /** The body of the loop of merge_results: the first least head goes to the output. */
  method MergeNext(vals: seq<KeyValArr>, ghost rows: Rows, ghost pos: seq<nat>, merged: seq<KeyVal>)
    returns (more: bool, next: seq<KeyVal>, ghost after: seq<nat>)
    requires Numbered(vals) && Holds(vals, rows, pos) && SortedRows(rows) && Merged(rows, pos, merged)
    modifies (set v | v in vals)`pos
    ensures Holds(vals, rows, after)
    ensures more == (UnreadCount(rows, pos, |rows|) > 0)
    ensures more ==> |next| == |merged| + 1 && UnreadCount(rows, after, |rows|) == UnreadCount(rows, pos, |rows|) - 1
    ensures more ==> Merged(rows, after, next)
    ensures !more ==> after == pos && next == merged
  {
    NothingUnread(rows, pos, |rows|);
    var least;
    more, least := FindLeast(vals, rows, pos);
    next, after := merged, pos;
    if more {
      MergedStep(rows, pos, merged, least);
      ReadLeastCount(rows, pos, least, |rows|);
      next := merged + [vals[least].arr[vals[least].pos]];
      vals[least].pos := vals[least].pos + 1;
      after := pos[least := pos[least] + 1];
    }
  }

  /** merge_results: the output is the stable sort of the inputs laid end to end. The early break
      of the source is never taken: while slots are left, some input has an element left. */
  method MergeResults(vals: seq<KeyValArr>, index: nat, ghost rows: Rows) returns (out: KeyValArr)
    requires Numbered(vals) && Holds(vals, rows, Zeros(|rows|)) && SortedRows(rows)
    modifies (set v | v in vals)`pos
    ensures fresh(out) && out.Valid() && out.pos == 0 && out.index == index
    ensures IsStableSort(Flatten(rows), out.arr)
  {
    var total := TotalKeys(vals, rows);
    var merged: seq<KeyVal> := [];
    ghost var pos := Zeros(|rows|);
    MergedAtStart(rows);
    for dataIdx := 0 to total
      invariant Holds(vals, rows, pos)
      invariant |merged| == dataIdx && UnreadCount(rows, pos, |rows|) == total - dataIdx
      invariant Merged(rows, pos, merged)
    {
      var more;
      more, merged, pos := MergeNext(vals, rows, pos, merged);
      if !more {
        assert false;
        break;
      }
    }
    MergedAtEnd(rows, pos, merged);
    out := new KeyValArr.Of(index, merged);
  }
}
