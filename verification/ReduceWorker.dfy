/** The body of reduce_worker_do_next_task: the scan over all map threads' arrays with its
    look-ahead minimum, and the loop that calls reduce once per key. */
module ReduceWorker {
  import opened Options
  import opened KeyOrder
  import opened IntermediateTable
  import opened ValueIterator
  import opened OutputQueue
  import opened GroupReduce

  /** The user's reduce, as the pairs it emits for a key and the values it reads. */
  type Reducer = (Key, seq<Val>) -> seq<KeyVal>

  /** What the reduce calls of a task emit, in order. */
  function Outputs(reduce: Reducer, groups: seq<Group>): seq<KeyVal> {
    if groups == [] then []
    else
      var last := groups[|groups| - 1];
      Outputs(reduce, groups[..|groups| - 1]) + reduce(last.key, DrainAll(last.entries))
  }

  /** The tables and positions a seq of arrays holds. */
  ghost predicate Holds(arrays: seq<KeyValsArr>, tables: Tables, pos: seq<nat>)
    reads arrays
  {
    && |arrays| == |tables| && Positions(tables, pos)
    && forall t :: 0 <= t < |arrays| ==> arrays[t].arr == tables[t] && arrays[t].pos == pos[t]
  }

  /** arrays[t] is the array of map thread t, so they are pairwise different. */
  ghost predicate Column(arrays: seq<KeyValsArr>) {
    forall t :: 0 <= t < |arrays| ==> arrays[t].thread == t
  }

  /** The positions after a pass that consumed the key `min`. */
  ghost function After(tables: Tables, pos: seq<nat>, min: Option<KeyVals>)
    : (r: seq<nat>)
    requires Positions(tables, pos)
    ensures Positions(tables, r)
  {
    if min.None? then pos else Advance(tables, pos, min.value.key)
  }

  ghost function Taken(tables: Tables, pos: seq<nat>, n: nat, min: Option<KeyVals>)
    : (r: seq<KeyVals>)
    requires Positions(tables, pos) && n <= |tables|
    ensures |r| <= n
  {
    if min.None? then [] else Heads(tables, pos, n, min.value.key)
  }

  /** What a pass does with table c: take its head or leave it, then offer the new head as minimum. */
  lemma {:induction false} PassStep(tables: Tables, pos: seq<nat>, min: Option<KeyVals>, c: nat)
    requires Positions(tables, pos) && c < |tables| && StrictlySorted(tables[c])
    ensures var after := After(tables, pos, min);
            var take := min.Some? && Matches(tables[c], pos[c], min.value.key);
            && after[c] == (if take then pos[c] + 1 else pos[c])
            && Taken(tables, pos, c + 1, min)
               == Taken(tables, pos, c, min) + (if take then [tables[c][pos[c]]] else [])
            && (take ==> !Matches(tables[c], pos[c] + 1, min.value.key))
            && LeastHead(tables, after, c + 1) ==
               var best := LeastHead(tables, after, c);
               if after[c] < |tables[c]| && (best.None? || KeyCmp(tables[c][after[c]].key, best.value.key) < 0)
               then Some(tables[c][after[c]]) else best
  {
  }

  /** The for loop at one array: take its entry if it equals min_key_val and step back to look at the
      same array again (--curr_thread), else offer its entry as the next minimum and go on. No array
      gives more than one entry, so iter_add always finds a slot. */
  method Visit(a: KeyValsArr, itr: Iterator, min: Option<KeyVals>, best: Option<KeyVals>)
    returns (nextMin: Option<KeyVals>)
    requires ReadableTable(a.arr) && itr.Loaded() && |itr.lists| < itr.maxList
    modifies a`pos, itr
    ensures itr.Loaded()
    ensures var take := min.Some? && Matches(a.arr, old(a.pos), min.value.key);
            && a.pos == (if take then old(a.pos) + 1 else old(a.pos))
            && itr.lists == old(itr.lists) + (if take then [a.arr[old(a.pos)]] else [])
    ensures nextMin == if a.pos < |a.arr| && (best.None? || KeyCmp(a.arr[a.pos].key, best.value.key) < 0)
                       then Some(a.arr[a.pos]) else best
  {
    nextMin := best;
    ghost var start, matched := a.pos, min.Some? && Matches(a.arr, a.pos, min.value.key);
    var again := true;
    while again
      invariant itr.Loaded() && start <= a.pos <= start + 1
      invariant a.pos == start + 1 || !again ==> (a.pos == start + 1) == matched
      invariant itr.lists == old(itr.lists) + if a.pos == start then [] else [a.arr[start]]
      invariant nextMin == if !again && a.pos < |a.arr| && (best.None? || KeyCmp(a.arr[a.pos].key, best.value.key) < 0)
                           then Some(a.arr[a.pos]) else best
      decreases again, |a.arr| - a.pos
    {
      again := false;
      if a.pos < |a.arr| {
        var entry := a.arr[a.pos];
        if min.Some? && KeyCmp(entry.key, min.value.key) == 0 {
          var ok := itr.Add(entry);
          assert ok;
          a.pos := a.pos + 1;
          again := true;
        } else if nextMin.None? || KeyCmp(entry.key, nextMin.value.key) < 0 {
          nextMin := Some(entry);
        }
      }
    }
  }

  /** In the middle of a pass: the first n arrays have been visited. */
  ghost predicate Passing(arrays: seq<KeyValsArr>, itr: Iterator, tables: Tables, pos: seq<nat>, min: Option<KeyVals>,
                          nextMin: Option<KeyVals>, n: nat)
    reads arrays, itr
  {
    && |arrays| == |tables| && Positions(tables, pos) && n <= |arrays|
    && (forall t :: 0 <= t < |arrays| ==> arrays[t].arr == tables[t])
    && (forall t :: 0 <= t < |arrays| ==> arrays[t].pos == if t < n then After(tables, pos, min)[t] else pos[t])
    && nextMin == LeastHead(tables, After(tables, pos, min), n)
    && itr.lists == Taken(tables, pos, n, min) && itr.Loaded()
  }

  /** The for loop at array number n. */
  method ScanNext(arrays: seq<KeyValsArr>, itr: Iterator, min: Option<KeyVals>, best: Option<KeyVals>, n: nat,
                  ghost tables: Tables, ghost pos: seq<nat>)
    returns (nextMin: Option<KeyVals>)
    requires Column(arrays) && ReadableTables(tables) && n < |arrays| <= itr.maxList
    requires Passing(arrays, itr, tables, pos, min, best, n)
    modifies (set a | a in arrays)`pos, itr
    ensures Passing(arrays, itr, tables, pos, min, nextMin, n + 1)
  {
    assert ReadableTable(tables[n]) && arrays[n].arr == tables[n] && arrays[n].pos == pos[n];
    PassStep(tables, pos, min, n);
    nextMin := Visit(arrays[n], itr, min, best);
  }

  /** One pass of the for loop: collect the entries equal to min_key_val from every array and find
      the next minimum on the way. */
  method Scan(arrays: seq<KeyValsArr>, itr: Iterator,
              min: Option<KeyVals>, ghost tables: Tables, ghost pos: seq<nat>)
    returns (nextMin: Option<KeyVals>)
    requires Column(arrays) && ReadableTables(tables)
    requires Holds(arrays, tables, pos)
    requires itr.Empty() && itr.maxList >= |arrays|
    modifies (set a | a in arrays)`pos, itr
    ensures Holds(arrays, tables, After(tables, pos, min))
    ensures nextMin == LeastHead(tables, After(tables, pos, min), |tables|)
    ensures itr.lists == Taken(tables, pos, |tables|, min)
    ensures itr.Loaded()
  {
    nextMin := None;
    for curr := 0 to |arrays|
      invariant Passing(arrays, itr, tables, pos, min, nextMin, curr)
    {
      nextMin := ScanNext(arrays, itr, min, nextMin, curr, tables, pos);
    }
  }

  /** One group: env->reduce reads every value with iter_next and emits pairs, then the release loop
      meets every entry once and the iterator is reset. */
  method ReduceGroup(itr: Iterator, key: Key, reduce: Reducer, append: bool, out: KeyValArr)
    requires itr.Loaded() && itr.lists != []
    requires out.Valid() && (append || Sorted(out.arr))
    modifies itr, out`allocLen, out`arr
    ensures itr.Empty()
    ensures out.Valid() && (append || Sorted(out.arr))
    ensures out.arr == EmitAll(append, old(out.arr), reduce(key, DrainAll(old(itr.lists))))
  {
    itr.LoadedYieldsAll();
    var vals := itr.DrainRest();
    out.EmitEach(append, reduce(key, vals));
    assert Readable(itr.lists[0]);
    var released := itr.RewindAndCollect();
    itr.Reset();
  }

  /** The closing for loop: stops at the first array not read to its end. */
  method AllRead(arrays: seq<KeyValsArr>) returns (all: bool)
    ensures all == forall t :: 0 <= t < |arrays| ==> arrays[t].pos >= |arrays[t].arr|
  {
    var curr := 0;
    while curr < |arrays| && arrays[curr].pos >= |arrays[curr].arr|
      invariant 0 <= curr <= |arrays|
      invariant forall t :: 0 <= t < curr ==> arrays[t].pos >= |arrays[t].arr|
    {
      curr := curr + 1;
    }
    all := curr == |arrays|;
  }

  lemma {:induction false} OutputsSnoc(reduce: Reducer, groups: seq<Group>, g: Group)
    ensures Outputs(reduce, groups + [g]) == Outputs(reduce, groups) + reduce(g.key, DrainAll(g.entries))
  {
    assert (groups + [g])[..|groups|] == groups;
  }

  lemma {:induction false} EmitGroup(reduce: Reducer, append: bool, arr: seq<KeyVal>, done: seq<Group>, g: Group)
    ensures EmitAll(append, EmitAll(append, arr, Outputs(reduce, done)), reduce(g.key, DrainAll(g.entries)))
         == EmitAll(append, arr, Outputs(reduce, done + [g]))
  {
    EmitAllConcat(append, arr, Outputs(reduce, done), reduce(g.key, DrainAll(g.entries)));
    OutputsSnoc(reduce, done, g);
  }

  /** What one turn of the do-while loop does with the least unread key. */
  lemma {:induction false} GroupStep(tables: Tables, p: seq<nat>, min: Option<KeyVals>, done: seq<Group>)
    requires Positions(tables, p) && min.Some? && LeastHead(tables, p, |tables|) == min
    ensures Taken(tables, p, |tables|, min) != []
    ensures Unread(tables, After(tables, p, min), |tables|) < Unread(tables, p, |tables|)
    ensures done + Groups(tables, p) ==
            (done + [Group(min.value.key, Taken(tables, p, |tables|, min))]) + Groups(tables, After(tables, p, min))
  {
    LeastHeadIsLeast(tables, p, |tables|);
    AdvanceReads(tables, p, |tables|, min.value.key);
    var g := Group(min.value.key, Taken(tables, p, |tables|, min));
    assert Groups(tables, p) == [g] + Groups(tables, After(tables, p, min));
  }

  lemma {:induction false} Finished(tables: Tables, p: seq<nat>)
    requires Positions(tables, p)
    ensures LeastHead(tables, p, |tables|).None? <==> forall t :: 0 <= t < |tables| ==> p[t] >= |tables[t]|
    ensures LeastHead(tables, p, |tables|).None? ==> Groups(tables, p) == []
  {
    LeastHeadIsLeast(tables, p, |tables|);
  }

  /** The body of the do-while loop: scan for the current minimum and the next one, reduce the
      current one's entries, and see whether anything is left. */
  method Turn(arrays: seq<KeyValsArr>, itr: Iterator, reduce: Reducer, append: bool, out: KeyValArr,
              min: Option<KeyVals>, ghost tables: Tables, ghost p: seq<nat>)
    returns (nextMin: Option<KeyVals>, more: bool)
    requires Column(arrays) && ReadableTables(tables) && Holds(arrays, tables, p)
    requires itr.Empty() && itr.maxList >= |arrays|
    requires out.Valid() && (append || Sorted(out.arr))
    requires min.Some? ==> min == LeastHead(tables, p, |tables|)
    modifies (set a | a in arrays)`pos, itr, out`allocLen, out`arr
    ensures Holds(arrays, tables, After(tables, p, min)) && itr.Empty()
    ensures out.Valid() && (append || Sorted(out.arr))
    ensures nextMin == LeastHead(tables, After(tables, p, min), |tables|)
    ensures more == nextMin.Some?
    ensures out.arr == if min.None? then old(out.arr) else
              EmitAll(append, old(out.arr), reduce(min.value.key, DrainAll(Taken(tables, p, |tables|, min))))
  {
    nextMin := Scan(arrays, itr, min, tables, p);
    if min.Some? {
      LeastHeadIsLeast(tables, p, |tables|);
      ReduceGroup(itr, min.value.key, reduce, append, out);
    }
    var all := AllRead(arrays);
    more := !all;
    Finished(tables, After(tables, p, min));
  }

  /** reduce_worker_do_next_task after the dequeue: the do-while loop. Its output is what the simple
      group-by dictates, group by group, and every array ends up read to its end. */
  method ReduceTask(arrays: seq<KeyValsArr>, itr: Iterator, reduce: Reducer, append: bool, out: KeyValArr,
                    ghost tables: Tables, ghost pos: seq<nat>)
    requires Column(arrays) && ReadableTables(tables) && Holds(arrays, tables, pos)
    requires itr.Empty() && itr.maxList >= |arrays|
    requires out.Valid() && (append || Sorted(out.arr))
    modifies (set a | a in arrays)`pos, itr, out`allocLen, out`arr
    ensures forall t :: 0 <= t < |arrays| ==> arrays[t].pos == |tables[t]|
    ensures itr.Empty()
    ensures out.Valid() && (append || Sorted(out.arr))
    ensures out.arr == EmitAll(append, old(out.arr), Outputs(reduce, Groups(tables, pos)))
  {
    ghost var p, done := pos, [];
    var min, more := Turn(arrays, itr, reduce, append, out, None, tables, p);
    while more
      invariant Holds(arrays, tables, p) && itr.Empty()
      invariant out.Valid() && (append || Sorted(out.arr))
      invariant out.arr == EmitAll(append, old(out.arr), Outputs(reduce, done))
      invariant Groups(tables, pos) == done + Groups(tables, p)
      invariant min == LeastHead(tables, p, |tables|) && more == min.Some?
      decreases Unread(tables, p, |tables|)
    {
      ghost var g := Group(min.value.key, Taken(tables, p, |tables|, min));
      GroupStep(tables, p, min, done);
      EmitGroup(reduce, append, old(out.arr), done, g);
      ghost var after := After(tables, p, min);
      min, more := Turn(arrays, itr, reduce, append, out, min, tables, p);
      p, done := after, done + [g];
    }
    Finished(tables, p);
    assert done + [] == done;
  }

  /** identity_reduce as the reducer it stands for: one pair per value, under the given key. */
  function IdentityReduce(key: Key, vals: seq<Val>): (r: seq<KeyVal>)
    ensures |r| == |vals| && forall i :: 0 <= i < |r| ==> r[i] == KeyVal(key, vals[i])
  {
    if vals == [] then [] else IdentityReduce(key, vals[..|vals| - 1]) + [KeyVal(key, vals[|vals| - 1])]
  }

  lemma {:induction false} IdentityStep(append: bool, arr: seq<KeyVal>, key: Key, read: seq<Val>, v: Val)
    ensures Emit(append, EmitAll(append, arr, IdentityReduce(key, read)), KeyVal(key, v))
         == EmitAll(append, arr, IdentityReduce(key, read + [v]))
  {
    var r := IdentityReduce(key, read);
    assert IdentityReduce(key, read + [v]) == r + [KeyVal(key, v)];
    assert (r + [KeyVal(key, v)])[..|r|] == r;
  }

  /** One turn of identity_reduce's loop. */
  method EmitNext(itr: Iterator, key: Key, append: bool, out: KeyValArr, ghost base: seq<KeyVal>, ghost read: seq<Val>)
    returns (more: bool, ghost now: seq<Val>)
    requires itr.Reading()
    requires out.Valid() && (append || Sorted(out.arr))
    requires out.arr == EmitAll(append, base, IdentityReduce(key, read))
    modifies itr`currentList, itr`currentIndex, itr`chunk, out`allocLen, out`arr
    ensures itr.Reading()
    ensures out.Valid() && (append || Sorted(out.arr))
    ensures out.arr == EmitAll(append, base, IdentityReduce(key, now))
    ensures read + old(itr.Remaining()) == now + itr.Remaining()
    ensures if more then |now| == |read| + 1 else itr.Remaining() == []
  {
    ghost var before := itr.Remaining();
    var val;
    more, val := itr.Next();
    now := read;
    if more {
      ghost var v := val[0];
      assert val == [v];
      assert read + ([v] + itr.Remaining()) == (read + [v]) + itr.Remaining();
      IdentityStep(append, base, key, read, v);
      out.InsertKeyVal(append, key, val[0]);
      now := read + [v];
    }
  }

  /** identity_reduce itself: emit each value as the iterator yields it. */
  method RunIdentityReduce(itr: Iterator, key: Key, append: bool, out: KeyValArr)
    requires itr.Loaded() && itr.lists != []
    requires out.Valid() && (append || Sorted(out.arr))
    modifies itr`currentList, itr`currentIndex, itr`chunk, out`allocLen, out`arr
    ensures out.Valid() && (append || Sorted(out.arr))
    ensures out.arr == EmitAll(append, old(out.arr), IdentityReduce(key, DrainAll(itr.lists)))
  {
    itr.LoadedYieldsAll();
    ghost var base, all, read, rest := out.arr, DrainAll(itr.lists), [], itr.Remaining();
    assert EmitAll(append, base, IdentityReduce(key, [])) == base;
    assert all == [] + rest;
    var more := true;
    while more
      invariant itr.Reading() && rest == itr.Remaining() && all == read + rest
      invariant !more ==> rest == []
      invariant out.Valid() && (append || Sorted(out.arr))
      invariant out.arr == EmitAll(append, base, IdentityReduce(key, read))
      decreases more, |rest|
    {
      more, read := EmitNext(itr, key, append, out, base, read);
      rest := itr.Remaining();
    }
    assert read == all;
  }
}
