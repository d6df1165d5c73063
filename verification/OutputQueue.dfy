/** The output queue of one reduce thread or reduce task (keyval_arr_t), filled by insert_keyval. */
module OutputQueue {
  import opened KeyOrder

  /** The first position whose key is greater than `key`. */
  function UpperBound(arr: seq<KeyVal>, key: Key): (u: nat)
    ensures u <= |arr|
    ensures forall i :: 0 <= i < u ==> KeyCmp(arr[i].key, key) <= 0
    ensures u < |arr| ==> KeyCmp(arr[u].key, key) > 0
  {
    if arr == [] || KeyCmp(arr[0].key, key) > 0 then 0 else 1 + UpperBound(arr[1..], key)
  }

  /** A new pair goes behind all keys not greater than its own, except that inside the array it
      goes before the last of its equals. */
  function InsertPos(arr: seq<KeyVal>, key: Key): (p: nat)
    ensures p <= |arr|
  {
    var u := UpperBound(arr, key);
    if 0 < u < |arr| && KeyCmp(arr[u - 1].key, key) == 0 then u - 1 else u
  }

  /** Where insert_keyval puts a pair: behind keys not greater and before keys not smaller; last, if no
      greater key is there; and if there are a greater and an equal key, before exactly one equal. */
  ghost predicate IsPlace(arr: seq<KeyVal>, key: Key, p: int) {
    && 0 <= p <= |arr|
    && (forall i :: 0 <= i < p ==> KeyCmp(arr[i].key, key) <= 0)
    && (forall i :: p <= i < |arr| ==> KeyCmp(arr[i].key, key) >= 0)
    && ((forall i :: 0 <= i < |arr| ==> KeyCmp(arr[i].key, key) <= 0) ==> p == |arr|)
    && ((exists i :: 0 <= i < |arr| && KeyCmp(arr[i].key, key) == 0)
        && (exists i :: 0 <= i < |arr| && KeyCmp(arr[i].key, key) > 0) ==>
          p + 1 < |arr| && KeyCmp(arr[p].key, key) == 0 && KeyCmp(arr[p + 1].key, key) > 0)
  }

  lemma {:induction false} InsertPosIsPlace(arr: seq<KeyVal>, key: Key)
    requires Sorted(arr)
    ensures IsPlace(arr, key, InsertPos(arr, key))
  {
    var u, p := UpperBound(arr, key), InsertPos(arr, key);
    forall i | u <= i < |arr|
      ensures KeyCmp(arr[i].key, key) > 0
    {
      assert i > u ==> KeyCmp(arr[u].key, arr[i].key) <= 0;
    }
    if i :| 0 <= i < |arr| && KeyCmp(arr[i].key, key) == 0 {
      assert i < u && (i < u - 1 ==> KeyCmp(arr[i].key, arr[u - 1].key) <= 0);
    }
  }

  /** There is only one such place. */
  lemma {:induction false} PlaceIsUnique(arr: seq<KeyVal>, key: Key, p: int, q: int)
    requires Sorted(arr) && IsPlace(arr, key, p) && IsPlace(arr, key, q)
    ensures p == q
  {
  }

  /** insert_keyval: in append mode (one queue per reduce task) nothing is searched. */
  function Emit(append: bool, arr: seq<KeyVal>, kv: KeyVal): seq<KeyVal> {
    var p := if append then |arr| else InsertPos(arr, kv.key);
    arr[..p] + [kv] + arr[p..]
  }

  function EmitAll(append: bool, arr: seq<KeyVal>, kvs: seq<KeyVal>)
    : seq<KeyVal>
  {
    if kvs == [] then arr
    else Emit(append, EmitAll(append, arr, kvs[..|kvs| - 1]), kvs[|kvs| - 1])
  }

  lemma {:induction false} EmitAllConcat(append: bool, arr: seq<KeyVal>, a: seq<KeyVal>, b: seq<KeyVal>)
    ensures EmitAll(append, arr, a + b) == EmitAll(append, EmitAll(append, arr, a), b)
  {
    if b == [] {
      assert a + b == a;
    } else {
      var init, last := b[..|b| - 1], b[|b| - 1];
      EmitAllConcat(append, arr, a, init);
      assert (a + b)[..|a + b| - 1] == a + init && (a + b)[|a + b| - 1] == last;
      assert EmitAll(append, arr, a + b) == Emit(append, EmitAll(append, arr, a + init), last);
    }
  }

  lemma {:induction false} EmitAddsOne(append: bool, arr: seq<KeyVal>, kv: KeyVal)
    ensures multiset(Emit(append, arr, kv)) == multiset(arr) + multiset{kv}
  {
    var p := if append then |arr| else InsertPos(arr, kv.key);
    assert arr == arr[..p] + arr[p..];
    assert multiset(arr) == multiset(arr[..p]) + multiset(arr[p..]);
  }

  /** Whatever the mode, a queue holds exactly what was emitted into it. */
  lemma {:induction false} EmitAllKeepsEverything(append: bool, arr: seq<KeyVal>, kvs: seq<KeyVal>)
    ensures multiset(EmitAll(append, arr, kvs)) == multiset(arr) + multiset(kvs)
  {
    if kvs != [] {
      var init, last := kvs[..|kvs| - 1], kvs[|kvs| - 1];
      EmitAllKeepsEverything(append, arr, init);
      assert kvs == init + [last];
      EmitAddsOne(append, EmitAll(append, arr, init), last);
    }
  }

  lemma {:induction false} InsertedAt(arr: seq<KeyVal>, p: nat, kv: KeyVal)
    requires p <= |arr|
    ensures var r := arr[..p] + [kv] + arr[p..];
            |r| == |arr| + 1 && forall i {:trigger r[i]} :: 0 <= i < |r| ==>
              r[i] == if i < p then arr[i] else if i == p then kv else arr[i - 1]
  {
  }

  /** Between keys not greater and keys not smaller an element may stand. */
  lemma {:induction false} SortedAround(arr: seq<KeyVal>, p: nat, kv: KeyVal, r: seq<KeyVal>)
    requires p <= |arr| && Sorted(arr)
    requires forall i :: 0 <= i < p ==> KeyCmp(arr[i].key, kv.key) <= 0
    requires forall i :: p <= i < |arr| ==> KeyCmp(kv.key, arr[i].key) <= 0
    requires |r| == |arr| + 1 && forall i {:trigger r[i]} :: 0 <= i < |r| ==>
             r[i] == if i < p then arr[i] else if i == p then kv else arr[i - 1]
    ensures Sorted(r)
  {
    forall i, j | 0 <= i < j < |r|
      ensures KeyCmp(r[i].key, r[j].key) <= 0
    {
      if i == p {
        assert r[j] == arr[j - 1];
      } else if j == p {
        assert r[i] == arr[i];
      } else {
        assert r[i] == arr[if i < p then i else i - 1] && r[j] == arr[if j < p then j else j - 1];
      }
    }
  }

  lemma {:induction false} InsertKeepsSorted(arr: seq<KeyVal>, kv: KeyVal)
    requires Sorted(arr)
    ensures Sorted(Emit(false, arr, kv))
  {
    var p, u := InsertPos(arr, kv.key), UpperBound(arr, kv.key);
    forall i | p <= i < |arr|
      ensures KeyCmp(kv.key, arr[i].key) <= 0
    {
      assert u < |arr| && i >= u ==> KeyCmp(arr[u].key, arr[i].key) <= 0 || i == u;
    }
    InsertedAt(arr, p, kv);
    SortedAround(arr, p, kv, Emit(false, arr, kv));
  }

  /** A sorting queue is sorted whatever is emitted, in whatever order. */
  lemma {:induction false} SortingQueueIsSorted(arr: seq<KeyVal>, kvs: seq<KeyVal>)
    requires Sorted(arr)
    ensures Sorted(EmitAll(false, arr, kvs))
  {
    if kvs != [] {
      SortingQueueIsSorted(arr, kvs[..|kvs| - 1]);
      InsertKeepsSorted(EmitAll(false, arr, kvs[..|kvs| - 1]), kvs[|kvs| - 1]);
    }
  }

  /** An appending queue is just the emitted pairs, so it is sorted exactly when they are. */
  lemma {:induction false} AppendingQueueKeepsOrder(arr: seq<KeyVal>, kvs: seq<KeyVal>)
    ensures EmitAll(true, arr, kvs) == arr + kvs
  {
    if kvs != [] {
      AppendingQueueKeepsOrder(arr, kvs[..|kvs| - 1]);
    }
  }

  /** keyval_arr_t */
  class KeyValArr {
    /** Its place in env->final_vals or env->merge_vals. */
    const index: nat
    var allocLen: nat
    var pos: nat
    var arr: seq<KeyVal>

    ghost predicate Valid()
      reads this
    {
      |arr| <= allocLen
    }

    constructor (index: nat)
      ensures this.index == index
      ensures Valid() && arr == [] && pos == 0
    {
      this.index := index;
      allocLen, pos, arr := 0, 0, [];
    }

    /** The array a merge allocates: exactly as long as its inputs together. */
    constructor Of(index: nat, a: seq<KeyVal>)
      ensures this.index == index
      ensures Valid() && arr == a && pos == 0 && allocLen == |a|
    {
      this.index := index;
      allocLen, pos, arr := |a|, 0, a;
    }

    /** The search of insert_keyval: compare with the last key, else binary search. */
    method Locate(key: Key) returns (low: int)
      requires Sorted(arr)
      ensures low == InsertPos(arr, key) && IsPlace(arr, key, low)
    {
      var high, c := |arr|, 1;
      low := -1;
      if |arr| > 0 {
        c := KeyCmp(arr[|arr| - 1].key, key);
      }
      ghost var u := UpperBound(arr, key);
      InsertPosIsPlace(arr, key);
      assert forall i :: u <= i < |arr| ==> KeyCmp(arr[i].key, key) > 0;
      if c > 0 {
        while high - low > 1
          invariant -1 <= low < high <= |arr|
          invariant low < u <= high
          invariant u < |arr| || |arr| == 0
        {
          var next := (high + low) / 2;
          if KeyCmp(arr[next].key, key) > 0 {
            high := next;
          } else {
            low := next;
          }
        }
        if low < 0 {
          low := 0;
        }
        if |arr| > 0 && KeyCmp(arr[low].key, key) < 0 {
          low := low + 1;
        }
      } else {
        low := |arr|;
      }
    }

    /** insert_keyval: grow the array when it is full, then shift the tail and store the pair. */
    method InsertKeyVal(append: bool, key: Key, val: Val)
      requires Valid()
      requires append || Sorted(arr)
      modifies this`allocLen, this`arr
      ensures Valid() && (append || Sorted(arr))
      ensures arr == Emit(append, old(arr), KeyVal(key, val))
      ensures append ==> arr == old(arr) + [KeyVal(key, val)]
      ensures !append ==>
                exists p :: IsPlace(old(arr), key, p) && arr == old(arr)[..p] + [KeyVal(key, val)] + old(arr)[p..]
      ensures allocLen == if |old(arr)| < old(allocLen) then old(allocLen)
                          else if old(allocLen) == 0 then 10 else 2 * old(allocLen)
    {
      if !append {
        InsertKeepsSorted(arr, KeyVal(key, val));
      }
      if |arr| == allocLen {
        allocLen := if allocLen == 0 then DEFAULT_KEYVAL_ARR_LEN else allocLen * 2;
      }
      if !append {
        var low := Locate(key);
        arr := arr[..low] + [KeyVal(key, val)] + arr[low..];
      } else {
        arr := arr + [KeyVal(key, val)];
        assert arr == old(arr)[..|old(arr)|] + [KeyVal(key, val)] + old(arr)[|old(arr)|..];
      }
    }

    /** The emit calls of one reduce call. */
    method EmitEach(append: bool, kvs: seq<KeyVal>)
      requires Valid()
      requires append || Sorted(arr)
      modifies this`allocLen, this`arr
      ensures Valid()
      ensures arr == EmitAll(append, old(arr), kvs)
      ensures append || Sorted(arr)
    {
      for i := 0 to |kvs|
        invariant Valid()
        invariant arr == EmitAll(append, old(arr), kvs[..i])
        invariant append || Sorted(arr)
      {
        assert kvs[..i + 1][..i] == kvs[..i];
        InsertKeyVal(append, kvs[i].key, kvs[i].val);
      }
      assert kvs[..|kvs|] == kvs;
    }
  }
}
