/** The key order every phase of the runtime shares, sorted key/value arrays, and what it means for
    one array to be a stable sort of another. */
module KeyOrder {
  import opened Sequences

  /** A key is the pointer the user passed and the place of what it points at in the user's order;
      different pointers may share a place, as different copies of one word do. */
  datatype Key = Key(place: int, address: nat)

  /** A value is one machine word (void *). */
  type Val = int

  /** The slots a key array is first allocated with. */
  const DEFAULT_KEYVAL_ARR_LEN: nat := 10

  /** keyval_t: one element of a result array. */
  datatype KeyVal = KeyVal(key: Key, val: Val)

  /** key_cmp: negative, zero or positive. */
  function KeyCmp(a: Key, b: Key): int {
    a.place - b.place
  }

  /** The contract of a user's comparison on a set of pointers: its sign is antisymmetric and
      "not greater" is transitive. */
  ghost predicate TotalPreorder(cmp: (nat, nat) -> int, pointers: set<nat>) {
    && (forall a, b :: a in pointers && b in pointers ==> (cmp(a, b) < 0 <==> cmp(b, a) > 0))
    && (forall a, b, c :: a in pointers && b in pointers && c in pointers && cmp(a, b) <= 0 && cmp(b, c) <= 0 ==>
          cmp(a, c) <= 0)
  }

  function Below(cmp: (nat, nat) -> int, pointers: set<nat>, a: nat): set<nat> {
    set x | x in pointers && cmp(x, a) < 0
  }

  /** Nothing is lost by giving keys a place: every comparison that meets the contract on the
      program's pointers is the comparison of some places for them. */
  lemma {:induction false} EveryKeyCmpHasPlaces(cmp: (nat, nat) -> int, pointers: set<nat>)
    returns (place: map<nat, int>)
    requires TotalPreorder(cmp, pointers)
    ensures place.Keys == pointers
    ensures forall a, b :: a in pointers && b in pointers ==>
              var c := KeyCmp(Key(place[a], a), Key(place[b], b));
              (cmp(a, b) < 0 <==> c < 0) && (cmp(a, b) == 0 <==> c == 0)
  {
    place := map a | a in pointers :: |Below(cmp, pointers, a)|;
    forall a, b | a in pointers && b in pointers
      ensures cmp(a, b) <= 0 ==> place[a] <= place[b]
      ensures cmp(a, b) < 0 ==> place[a] < place[b]
    {
      var below, above := Below(cmp, pointers, a), Below(cmp, pointers, b);
      if cmp(a, b) <= 0 {
        assert below <= above;
        Smaller(below, above);
        if cmp(a, b) < 0 {
          assert a in above && a !in below;
          Smaller(below, above - {a});
        }
      }
    }
  }

  lemma {:induction false} Smaller<T>(a: set<T>, b: set<T>)
    requires a <= b
    ensures |a| <= |b|
  {
    assert b == a + (b - a);
  }

  ghost predicate Sorted(s: seq<KeyVal>) {
    forall i, j :: 0 <= i < j < |s| ==> KeyCmp(s[i].key, s[j].key) <= 0
  }

  /** The elements of s whose key is equal to k under key_cmp, in order. */
  function OfKey(s: seq<KeyVal>, k: Key): seq<KeyVal> {
    if s == [] then []
    else (if KeyCmp(s[0].key, k) == 0 then [s[0]] else []) + OfKey(s[1..], k)
  }

  /** r is s sorted by key with equal keys left in their order: the meaning of every merge. */
  ghost predicate IsStableSort(s: seq<KeyVal>, r: seq<KeyVal>) {
    Sorted(r) && forall k :: OfKey(r, k) == OfKey(s, k)
  }

  lemma {:induction false} OfKeyConcat(a: seq<KeyVal>, b: seq<KeyVal>, k: Key)
    ensures OfKey(a + b, k) == OfKey(a, k) + OfKey(b, k)
  {
    if a == [] {
      assert a + b == b;
    } else {
      OfKeyConcat(a[1..], b, k);
      ConcatTail(a, b);
      ConcatAssoc(if KeyCmp(a[0].key, k) == 0 then [a[0]] else [], OfKey(a[1..], k), OfKey(b, k));
    }
  }

  lemma {:induction false} OfKeyMembers(s: seq<KeyVal>, k: Key, x: KeyVal)
    ensures x in OfKey(s, k) <==> x in s && KeyCmp(x.key, k) == 0
    ensures multiset(OfKey(s, k))[x] == if KeyCmp(x.key, k) == 0 then multiset(s)[x] else 0
  {
    if s != [] {
      OfKeyMembers(s[1..], k, x);
      assert s == [s[0]] + s[1..];
    }
  }

  lemma {:induction false} OfKeyNone(s: seq<KeyVal>, k: Key)
    requires forall i :: 0 <= i < |s| ==> KeyCmp(s[i].key, k) != 0
    ensures OfKey(s, k) == []
  {
    if s != [] {
      OfKeyNone(s[1..], k);
    }
  }

  /** A stable sort keeps every element exactly as often as its input holds it. */
  lemma {:induction false} StableSortIsPermutation(s: seq<KeyVal>, r: seq<KeyVal>)
    requires IsStableSort(s, r)
    ensures multiset(r) == multiset(s)
  {
    forall x: KeyVal
      ensures multiset(r)[x] == multiset(s)[x]
    {
      OfKeyMembers(s, x.key, x);
      OfKeyMembers(r, x.key, x);
      assert OfKey(r, x.key) == OfKey(s, x.key);
    }
  }

  lemma {:induction false} OfKeyHead(s: seq<KeyVal>, k: Key)
    requires s != []
    ensures OfKey(s, k) == (if KeyCmp(s[0].key, k) == 0 then [s[0]] else []) + OfKey(s[1..], k)
  {
  }

  lemma {:induction false} SortedTail(s: seq<KeyVal>)
    requires Sorted(s) && s != []
    ensures Sorted(s[1..])
  {
  }

  lemma {:induction false} HeadIsLeast(s: seq<KeyVal>, x: KeyVal)
    requires Sorted(s) && x in s
    ensures KeyCmp(s[0].key, x.key) <= 0
  {
  }

  /** Two stable sorts of one array start with the same element. */
  lemma {:induction false} StableSortHeads(s: seq<KeyVal>, r1: seq<KeyVal>, r2: seq<KeyVal>)
    requires IsStableSort(s, r1) && IsStableSort(s, r2)
    requires r1 != [] && r2 != []
    ensures r1[0] == r2[0]
  {
    StableSortIsPermutation(s, r1);
    StableSortIsPermutation(s, r2);
    var k := r1[0].key;
    assert r1[0] in multiset(r2) && r2[0] in multiset(r1);
    HeadIsLeast(r1, r2[0]);
    HeadIsLeast(r2, r1[0]);
    OfKeyHead(r1, k);
    OfKeyHead(r2, k);
    assert OfKey(r1, k) == OfKey(r2, k);
    assert OfKey(r1, k)[0] == r1[0] && OfKey(r2, k)[0] == r2[0];
  }

  /** An array has only one stable sort, so two ways of computing it must agree exactly. */
  lemma {:induction false} StableSortIsUnique(s: seq<KeyVal>, r1: seq<KeyVal>, r2: seq<KeyVal>)
    requires IsStableSort(s, r1) && IsStableSort(s, r2)
    ensures r1 == r2
    decreases |r1|
  {
    StableSortIsPermutation(s, r1);
    StableSortIsPermutation(s, r2);
    assert |r1| == |multiset(r1)| == |multiset(r2)| == |r2|;
    if r1 != [] {
      StableSortHeads(s, r1, r2);
      SortedTail(r1);
      SortedTail(r2);
      forall q
        ensures OfKey(r1[1..], q) == OfKey(r2[1..], q)
      {
        OfKeyHead(r1, q);
        OfKeyHead(r2, q);
        var p := if KeyCmp(r1[0].key, q) == 0 then [r1[0]] else [];
        assert OfKey(r1, q) == OfKey(s, q) == OfKey(r2, q);
        assert OfKey(r1[1..], q) == (p + OfKey(r1[1..], q))[|p|..];
        assert OfKey(r2[1..], q) == (p + OfKey(r2[1..], q))[|p|..];
      }
      StableSortIsUnique(r2[1..], r1[1..], r2[1..]);
      assert r1 == [r1[0]] + r1[1..] && r2 == [r2[0]] + r2[1..];
    }
  }
}
