/** iterator_t: walks the values of several entries chunk by chunk, and the combiner that uses it. */
module ValueIterator {
  import opened Sequences
  import opened KeyOrder
  import opened IntermediateTable

  /** All values of the entries, in the order the iterator yields them. */
  function DrainAll(lists: seq<KeyVals>): seq<Val> {
    if lists == [] then [] else Drain(lists[0].vals) + DrainAll(lists[1..])
  }

  lemma {:induction false} DrainAllConcat(a: seq<KeyVals>, b: seq<KeyVals>)
    ensures DrainAll(a + b) == DrainAll(a) + DrainAll(b)
  {
    if a == [] {
      assert a + b == b;
    } else {
      DrainAllConcat(a[1..], b);
      ConcatTail(a, b);
      ConcatAssoc(Drain(a[0].vals), DrainAll(a[1..]), DrainAll(b));
    }
  }

  lemma {:induction false} DrainAllSnoc(a: seq<KeyVals>, x: KeyVals)
    ensures DrainAll(a + [x]) == DrainAll(a) + Drain(x.vals)
  {
    DrainAllConcat(a, [x]);
    assert [x][1..] == [];
  }

  /** What is left to read in a chain of which `index` values of the first chunk are done. */
  function Rest(chunk: seq<Chunk>, index: nat): seq<Val>
    requires chunk != [] && index <= |chunk[0].filled|
  {
    chunk[0].filled[index..] + Drain(chunk[1..])
  }

  lemma {:induction false} RestOfChain(chunk: seq<Chunk>, index: nat)
    requires chunk != [] && index <= |chunk[0].filled|
    ensures index == |chunk[0].filled| ==> Rest(chunk, index) == Drain(chunk[1..])
    ensures index == 0 ==> Rest(chunk, index) == Drain(chunk)
  {
  }

  lemma {:induction false} RestStep(chunk: seq<Chunk>, index: nat)
    requires chunk != [] && index < |chunk[0].filled|
    ensures Rest(chunk, index) == [chunk[0].filled[index]] + Rest(chunk, index + 1)
  {
    assert chunk[0].filled[index..] == [chunk[0].filled[index]] + chunk[0].filled[index + 1..];
  }

  lemma {:induction false} DrainAllStep(lists: seq<KeyVals>, l: nat)
    requires l < |lists|
    ensures DrainAll(lists[l..]) == Drain(lists[l].vals) + DrainAll(lists[l + 1..])
  {
    assert lists[l..][1..] == lists[l + 1..];
  }

  /** The entries, the rest of the chain being read, and the total are in order. */
  ghost predicate IsReading(lists: seq<KeyVals>, chunk: seq<Chunk>, index: nat, size: nat) {
    && AllReadable(lists) && size == |DrainAll(lists)|
    && chunk != [] && (forall i :: 0 <= i < |chunk| ==> chunk[i].filled != [])
    && index <= |chunk[0].filled|
  }

  lemma {:induction false} ReadingGrows(lists: seq<KeyVals>, list: KeyVals, chunk: seq<Chunk>, index: nat, size: nat)
    requires IsReading(lists, chunk, index, size) && Readable(list)
    ensures IsReading(lists + [list], chunk, index, size + list.len)
  {
    DrainAllSnoc(lists, list);
  }

  lemma {:induction false} ReadingBegins(list: KeyVals)
    requires Readable(list)
    ensures IsReading([list], list.vals, 0, list.len)
  {
    DrainAllSnoc([], list);
    assert [] + [list] == [list];
  }

  /** What is left to read in the entries from number `current` on, of which the first is being read. */
  function YetToRead(lists: seq<KeyVals>, current: nat, chunk: seq<Chunk>, index: nat): seq<Val>
    requires current < |lists| && chunk != [] && index <= |chunk[0].filled|
  {
    Rest(chunk, index) + DrainAll(lists[current + 1..])
  }

  lemma {:induction false} YetToReadNextChunk(lists: seq<KeyVals>, current: nat, chunk: seq<Chunk>, index: nat)
    requires current < |lists| && |chunk| > 1 && index == |chunk[0].filled|
    ensures YetToRead(lists, current, chunk, index) == YetToRead(lists, current, chunk[1..], 0)
  {
    RestOfChain(chunk, index);
    RestOfChain(chunk[1..], 0);
  }

  lemma {:induction false} YetToReadNextList(lists: seq<KeyVals>, current: nat, chunk: seq<Chunk>, index: nat)
    requires current + 1 < |lists| && |chunk| == 1 && index == |chunk[0].filled| && lists[current + 1].vals != []
    ensures YetToRead(lists, current, chunk, index) == YetToRead(lists, current + 1, lists[current + 1].vals, 0)
  {
    YetToReadEnd(chunk, index);
    DrainAllStep(lists, current + 1);
    RestOfChain(lists[current + 1].vals, 0);
    assert [] + DrainAll(lists[current + 1..]) == DrainAll(lists[current + 1..]);
  }

  lemma {:induction false} YetToReadEnd(chunk: seq<Chunk>, index: nat)
    requires |chunk| == 1 && index == |chunk[0].filled|
    ensures Rest(chunk, index) == []
  {
    assert chunk[1..] == [];
  }

  lemma {:induction false} YetToReadStep(lists: seq<KeyVals>, current: nat, chunk: seq<Chunk>, index: nat)
    requires current < |lists| && chunk != [] && index < |chunk[0].filled|
    ensures YetToRead(lists, current, chunk, index)
            == [chunk[0].filled[index]] + YetToRead(lists, current, chunk, index + 1)
  {
    RestStep(chunk, index);
    ConcatAssoc([chunk[0].filled[index]], Rest(chunk, index + 1), DrainAll(lists[current + 1..]));
  }

  /** One entry more is read last. */
  lemma {:induction false} YetToReadGrows(lists: seq<KeyVals>, list: KeyVals, current: nat, chunk: seq<Chunk>,
                                          index: nat)
    requires current < |lists| && chunk != [] && index <= |chunk[0].filled|
    ensures YetToRead(lists + [list], current, chunk, index)
            == YetToRead(lists, current, chunk, index) + Drain(list.vals)
  {
    var rest := lists[current + 1..];
    assert (lists + [list])[current + 1..] == rest + [list];
    DrainAllSnoc(rest, list);
    ConcatAssoc(Rest(chunk, index), DrainAll(rest), Drain(list.vals));
  }

  /** An entry added: to an iterator being read, or to an empty one. */
  lemma {:induction false} AddedIsReading(lists: seq<KeyVals>, list: KeyVals, current: nat, chunk: seq<Chunk>,
                                          index: nat,
                                          size: nat)
    ensures Readable(list) && IsReading(lists, chunk, index, size) ==>
            IsReading(lists + [list], chunk, index, size + list.len)
    ensures Readable(list) && IsReading(lists, chunk, index, size) && current < |lists| ==>
              YetToRead(lists + [list], current, chunk, index)
                == YetToRead(lists, current, chunk, index) + Drain(list.vals)
    ensures Readable(list) && lists == [] ==> IsReading(lists + [list], list.vals, 0, list.len)
    ensures (lists + [list])[0] == if lists == [] then list else lists[0]
  {
    if Readable(list) && IsReading(lists, chunk, index, size) {
      ReadingGrows(lists, list, chunk, index, size);
      if current < |lists| {
        YetToReadGrows(lists, list, current, chunk, index);
      }
    }
    if Readable(list) && lists == [] {
      ReadingBegins(list);
      assert lists + [list] == [list];
    }
  }

  /** `lists` are the slots of list_array in use; `chunk` is the chain from the chunk `val` points at. */
  class Iterator {
    const maxList: nat
    var lists: seq<KeyVals>
    var currentList: nat
    var currentIndex: nat
    var chunk: seq<Chunk>
    var size: nat

    /** Holds from the first iter_add until iter_reset, as long as iter_next_list is not used. */
    ghost predicate Reading()
      reads this
    {
      currentList < |lists| <= maxList && IsReading(lists, chunk, currentIndex, size)
    }

    /** The values iter_next has still to yield. */
    ghost function Remaining(): seq<Val>
      requires Reading()
      reads this
    {
      YetToRead(lists, currentList, chunk, currentIndex)
    }

    ghost predicate Empty()
      reads this
    {
      lists == [] && currentList == 0 && currentIndex == 0 && chunk == [] && size == 0
    }

    /** Between iter_reset and the first read: entries added, nothing read. */
    ghost predicate Loaded()
      reads this
    {
      if lists == [] then Empty()
      else Reading() && currentList == 0 && currentIndex == 0 && chunk == lists[0].vals
    }

    lemma {:induction false} LoadedYieldsAll()
      requires Loaded() && lists != []
      ensures Reading() && Remaining() == DrainAll(lists)
    {
      RestOfChain(chunk, 0);
    }

    /** iter_init */
    constructor (numLists: nat)
      requires numLists > 0
      ensures Empty() && maxList == numLists
    {
      maxList, lists, currentList, currentIndex, chunk, size := numLists, [], 0, 0, [], 0;
    }

    /** iter_reset */
    method Reset()
      modifies this
      ensures Empty()
    {
      lists, currentList, currentIndex, chunk, size := [], 0, 0, [], 0;
    }

    /** iter_rewind */
    method Rewind()
      requires lists != [] && lists[0].vals != []
      modifies this`currentList, this`currentIndex, this`chunk
      ensures currentList == 0 && currentIndex == 0 && chunk == lists[0].vals
    {
      currentList, currentIndex, chunk := 0, 0, lists[0].vals;
    }

    /** iter_add, at any moment: refuses the entry, changing nothing, exactly when every slot is taken. An
        iterator already being read goes on where it was, and yields the new entry's values last. */
    method Add(list: KeyVals) returns (ok: bool)
      requires list.len != 0
      modifies this
      ensures ok == (|old(lists)| < maxList)
      ensures lists == if ok then old(lists) + [list] else old(lists)
      ensures currentList == old(currentList) && currentIndex == old(currentIndex)
      ensures chunk == if ok && old(lists) == [] then list.vals else old(chunk)
      ensures size == old(size) + if ok then list.len else 0
      ensures Readable(list) && old(Loaded()) ==> Loaded()
      ensures Readable(list) && old(Reading()) ==> Reading()
      ensures Readable(list) && old(Reading()) ==> Remaining() == old(Remaining()) + if ok then Drain(list.vals) else []
    {
      if |lists| >= maxList {
        return false;
      }
      AddedIsReading(lists, list, currentList, chunk, currentIndex, size);
      if |lists| == 0 {
        chunk := list.vals;
      }
      lists := lists + [list];
      size := size + list.len;
      ok := true;
    }

    /** The jump inside iter_next: to the next chunk, else to the next list, else report the end. */
    method Hop() returns (ok: bool)
      requires Reading() && currentIndex == |chunk[0].filled|
      modifies this`currentList, this`currentIndex, this`chunk
      ensures Reading()
      ensures Remaining() == old(Remaining())
      ensures if ok then currentIndex < |chunk[0].filled| else Remaining() == []
      ensures !ok ==> currentList == old(currentList) && currentIndex == old(currentIndex) && chunk == old(chunk)
    {
      if |chunk| > 1 {
        YetToReadNextChunk(lists, currentList, chunk, currentIndex);
        chunk := chunk[1..];
        currentIndex := 0;
      } else if currentList + 1 < |lists| {
        assert Readable(lists[currentList + 1]);
        YetToReadNextList(lists, currentList, chunk, currentIndex);
        currentList := currentList + 1;
        chunk := lists[currentList].vals;
        currentIndex := 0;
      } else {
        YetToReadEnd(chunk, currentIndex);
        return false;
      }
      ok := true;
    }

    /** iter_next: yields the first remaining value, or reports the end and changes nothing. */
    method Next() returns (ok: bool, v: seq<Val>)
      requires Reading()
      modifies this`currentList, this`currentIndex, this`chunk
      ensures Reading()
      ensures ok == (old(Remaining()) != [])
      ensures ok ==> old(Remaining()) == v + Remaining() && |v| == 1
      ensures old(currentIndex < |chunk[0].filled|) ==>
                ok && v == old([chunk[0].filled[currentIndex]]) && currentIndex == old(currentIndex) + 1
      ensures !ok ==> v == [] && currentList == old(currentList) && currentIndex == old(currentIndex)
      ensures !ok ==> chunk == old(chunk)
    {
      if currentIndex >= |chunk[0].filled| {
        ok := Hop();
        if !ok {
          return false, [];
        }
      }
      YetToReadStep(lists, currentList, chunk, currentIndex);
      v := [chunk[0].filled[currentIndex]];
      currentIndex := currentIndex + 1;
      ok := true;
    }

    /** iter_next_list: yields the added entries one by one, wherever `chunk` stands. */
    method NextList() returns (ok: bool, list: seq<KeyVals>)
      modifies this`currentList
      ensures ok == (old(currentList) < |lists|)
      ensures ok ==> list == [lists[old(currentList)]] && currentList == old(currentList) + 1
      ensures !ok ==> list == [] && currentList == old(currentList)
    {
      if currentList >= |lists| {
        return false, [];
      }
      list := [lists[currentList]];
      currentList := currentList + 1;
      ok := true;
    }

    /** A reader that calls iter_next until it fails gets every stored value exactly once, in order,
        and makes exactly iter_size successful calls. */
    method DrainRest() returns (vals: seq<Val>)
      requires Reading()
      modifies this`currentList, this`currentIndex, this`chunk
      ensures Reading() && Remaining() == []
      ensures vals == old(Remaining())
      ensures old(Remaining()) == DrainAll(lists) ==> |vals| == size
    {
      vals := [];
      var more := true;
      ghost var all, rest := Remaining(), Remaining();
      while more
        invariant Reading() && rest == Remaining()
        invariant vals + rest == all
        invariant !more ==> rest == []
        decreases more, |rest|
      {
        var v;
        more, v := Next();
        ConcatAssoc(vals, v, Remaining());
        vals, rest := vals + v, Remaining();
      }
    }

    /** The release loop after a reduce call: every added entry is met once, drained or not. */
    method RewindAndCollect() returns (met: seq<KeyVals>)
      requires lists != [] && lists[0].vals != []
      modifies this`currentList, this`currentIndex, this`chunk
      ensures met == lists
    {
      Rewind();
      met := [];
      var more, list := NextList();
      while more
        invariant currentList <= |lists|
        invariant met == lists[..if more then currentList - 1 else currentList]
        invariant more ==> currentList > 0 && list == [lists[currentList - 1]]
        invariant !more ==> currentList == |lists|
        decreases |lists| - currentList + if more then 1 else 0
      {
        met := met + list;
        more, list := NextList();
      }
    }
  }

  // ---------- the combiner ----------

  /** The entry run_combiner leaves: the newest chunk, cut down to the one combined value. */
  function CombineEntry(combine: seq<Val> -> Val, kv: KeyVals): KeyVals
    requires kv.vals != []
  {
    KeyVals(1, kv.key, [Chunk(kv.vals[0].size, [combine(Drain(kv.vals))])])
  }

  function CombineTable(combine: seq<Val> -> Val, table: seq<KeyVals>): (r: seq<KeyVals>)
    requires forall i :: 0 <= i < |table| ==> table[i].vals != []
    ensures |r| == |table| && forall i :: 0 <= i < |r| ==> r[i] == CombineEntry(combine, table[i])
  {
    if table == [] then [] else [CombineEntry(combine, table[0])] + CombineTable(combine, table[1..])
  }

  lemma {:induction false} EntryHasValues(kv: KeyVals)
    requires Readable(kv)
    ensures kv.len > 0
  {
    assert kv.vals[0].filled != [];
  }

  /** Combining keeps everything the reduce side relies on: order, no empty chunk, truthful lengths. */
  lemma {:induction false} CombineKeepsReadable(combine: seq<Val> -> Val, table: seq<KeyVals>)
    requires ReadableTable(table)
    ensures ReadableTable(CombineTable(combine, table))
  {
    var r := CombineTable(combine, table);
    forall i | 0 <= i < |r|
      ensures Readable(r[i])
    {
      assert r[i] == CombineEntry(combine, table[i]);
      assert r[i].vals[1..] == [];
      assert Drain(r[i].vals) == [combine(Drain(table[i].vals))];
    }
  }

  /** run_combiner, for one reduce task of one map thread. */
  method RunCombiner(combine: seq<Val> -> Val, output: KeyValsArr)
    requires AllReadable(output.arr)
    modifies output`arr
    ensures output.arr == CombineTable(combine, old(output.arr))
    ensures |output.arr| == |old(output.arr)|
    ensures forall i :: 0 <= i < |output.arr| ==>
              var was, now := old(output.arr)[i], output.arr[i];
              && now.len == 1 && now.key == was.key
              && was.vals != [] && now.vals == [was.vals[0].(filled := [combine(Drain(was.vals))])]
  {
    ghost var table := output.arr;
    var itr := new Iterator(1);
    for j := 0 to |output.arr|
      invariant itr.Empty() && itr.maxList == 1 && fresh(itr)
      invariant |output.arr| == |table|
      invariant forall i :: 0 <= i < j ==> output.arr[i] == CombineEntry(combine, table[i])
      invariant forall i :: j <= i < |table| ==> output.arr[i] == table[i]
    {
      var entry := output.arr[j];
      assert Readable(entry);
      if entry.len != 0 {
        var added := itr.Add(entry);
        assert added && itr.lists == [entry];
        itr.LoadedYieldsAll();
        assert DrainAll(itr.lists) == Drain(entry.vals) by {
          assert itr.lists[1..] == [];
        }
        var vals := itr.DrainRest();
        var reduced := combine(vals);
        var val := entry.vals[0];
        output.arr := output.arr[j := KeyVals(1, entry.key, [Chunk(val.size, [reduced])])];
        itr.Reset();
      } else {
        EntryHasValues(entry);
        assert false;
      }
    }
  }
}
