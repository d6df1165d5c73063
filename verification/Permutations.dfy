/** Items taken in any order: what is gathered does not depend on it. */
module Permutations {
  import opened Sequences

  function Iota(n: nat): (r: seq<nat>)
    ensures |r| == n && forall i :: 0 <= i < n ==> r[i] == i
  {
    if n == 0 then [] else Iota(n - 1) + [n - 1]
  }

  /** Everything in the items with the given ids. */
  function Gather<T>(items: seq<seq<T>>, ids: seq<nat>): multiset<T>
    requires forall i :: 0 <= i < |ids| ==> ids[i] < |items|
  {
    if ids == [] then multiset{} else Gather(items, ids[..|ids| - 1]) + multiset(items[ids[|ids| - 1]])
  }

  /** Everything in the first n items. */
  function Together<T>(items: seq<seq<T>>, n: nat): multiset<T>
    requires n <= |items|
  {
    if n == 0 then multiset{} else Together(items, n - 1) + multiset(items[n - 1])
  }

  lemma {:induction false} TogetherSame<T>(a: seq<seq<T>>, b: seq<seq<T>>, n: nat)
    requires n <= |a| && n <= |b| && forall i :: 0 <= i < n ==> multiset(a[i]) == multiset(b[i])
    ensures Together(a, n) == Together(b, n)
  {
    if n > 0 {
      TogetherSame(a, b, n - 1);
    }
  }

  lemma {:induction false} NothingTogether<T>(items: seq<seq<T>>, n: nat)
    requires n <= |items| && forall i :: 0 <= i < n ==> items[i] == []
    ensures Together(items, n) == multiset{}
  {
    if n > 0 {
      NothingTogether(items, n - 1);
    }
  }

  lemma {:induction false} TogetherNext<T>(items: seq<seq<T>>, n: nat)
    requires 0 < n <= |items|
    ensures Together(items, n) == Together(items, n - 1) + multiset(items[n - 1])
  {
  }

  /** Item q has grown by `more`. */
  lemma {:induction false} TogetherGrows<T>(was: seq<seq<T>>, now: seq<seq<T>>, q: nat, more: seq<T>, n: nat)
    requires q < n <= |was| == |now| && now[q] == was[q] + more
    requires forall i :: 0 <= i < n && i != q ==> now[i] == was[i]
    ensures Together(now, n) == Together(was, n) + multiset(more)
  {
    TogetherNext(now, n);
    TogetherNext(was, n);
    if q == n - 1 {
      TogetherSame(was, now, n - 1);
      AddAgain(Together(was, n - 1), multiset(was[q]), multiset(more));
    } else {
      TogetherGrows(was, now, q, more, n - 1);
      AddSwap(Together(was, n - 1), multiset(more), multiset(was[n - 1]));
    }
  }

  lemma {:induction false} FlattenTogether<T>(rows: seq<seq<T>>, n: nat)
    requires n <= |rows|
    ensures multiset(Flatten(rows[..n])) == Together(rows, n)
  {
    if n > 0 {
      FlattenTogether(rows, n - 1);
      PrefixStep(rows, n - 1);
      FlattenSnoc(rows[..n - 1], rows[n - 1]);
    }
  }

  lemma {:induction false} TakeOut<T>(s: seq<T>, i: nat)
    requires i < |s|
    ensures multiset(s) == multiset(s[..i] + s[i + 1..]) + multiset{s[i]}
  {
    assert s == s[..i] + [s[i]] + s[i + 1..];
    assert multiset(s[..i] + [s[i]] + s[i + 1..]) == multiset(s[..i]) + multiset{s[i]} + multiset(s[i + 1..]);
  }

  lemma {:induction false} CountLast<T>(s: seq<T>, x: T)
    requires s != []
    ensures var init, last := s[..|s| - 1], s[|s| - 1];
            multiset(s)[x] == multiset(init)[x] + (if x == last then 1 else 0) && (x in s <==> x in init || x == last)
  {
    assert s == s[..|s| - 1] + [s[|s| - 1]];
  }

  /** In a list without repetitions everything occurs once or not at all. */
  lemma {:induction false} DistinctOnce<T>(s: seq<T>, x: T)
    requires forall i, j :: 0 <= i < j < |s| ==> s[i] != s[j]
    ensures multiset(s)[x] == if x in s then 1 else 0
  {
    if s != [] {
      DistinctOnce(s[..|s| - 1], x);
      CountLast(s, x);
    }
  }

  lemma {:induction false} TwoPlaces<T>(s: seq<T>, k: nat, i: nat)
    requires k < i < |s| && s[k] == s[i]
    ensures multiset(s)[s[i]] >= 2
  {
    assert s == s[..i] + s[i..];
    assert s[i] in multiset(s[..i]) by {
      assert s[..i][k] == s[i];
    }
    assert s[i] in multiset(s[i..]) by {
      assert s[i..][0] == s[i];
    }
  }

  lemma {:induction false} TakeOutBeforeLast<T>(s: seq<T>, i: nat)
    requires i + 1 < |s|
    ensures var init := s[..|s| - 1];
            init[i] == s[i] && s[..i] + s[i + 1..] == (init[..i] + init[i + 1..]) + [s[|s| - 1]]
  {
  }

  /** Of two arrangements, the second also holds the last element of the first, and what is left of both
      is again two arrangements of the same elements. */
  lemma {:induction false} MatchLast<T>(a: seq<T>, b: seq<T>) returns (i: nat)
    requires multiset(a) == multiset(b) && a != []
    ensures i < |b| && b[i] == a[|a| - 1]
    ensures multiset(a[..|a| - 1]) == multiset(b[..i] + b[i + 1..])
  {
    var last := |a| - 1;
    assert a == a[..last] + [a[last]];
    assert a[last] in multiset(b);
    i :| 0 <= i < |b| && b[i] == a[last];
    TakeOut(b, i);
    assert multiset(a[..last]) == multiset(a) - multiset{a[last]};
    assert multiset(b[..i] + b[i + 1..]) == multiset(b) - multiset{b[i]};
  }

  lemma {:induction false} GatherTakeOut<T>(items: seq<seq<T>>, ids: seq<nat>, i: nat)
    requires i < |ids| && forall k :: 0 <= k < |ids| ==> ids[k] < |items|
    ensures Gather(items, ids) == Gather(items, ids[..i] + ids[i + 1..]) + multiset(items[ids[i]])
  {
    var last := |ids| - 1;
    if i == last {
      assert ids[..i] + ids[i + 1..] == ids[..last];
    } else {
      var init := ids[..last];
      var rest := init[..i] + init[i + 1..];
      GatherTakeOut(items, init, i);
      TakeOutBeforeLast(ids, i);
      assert (rest + [ids[last]])[..|rest|] == rest;
      AddSwap(Gather(items, rest), multiset(items[ids[i]]), multiset(items[ids[last]]));
    }
  }

  lemma {:induction false} GatherPermutation<T>(items: seq<seq<T>>, a: seq<nat>, b: seq<nat>)
    requires multiset(a) == multiset(b)
    requires forall i :: 0 <= i < |a| ==> a[i] < |items|
    requires forall i :: 0 <= i < |b| ==> b[i] < |items|
    ensures Gather(items, a) == Gather(items, b)
    decreases |a|
  {
    if a == [] {
      assert |multiset(b)| == |b|;
    } else {
      var i := MatchLast(a, b);
      GatherTakeOut(items, b, i);
      GatherPermutation(items, a[..|a| - 1], b[..i] + b[i + 1..]);
    }
  }

  lemma {:induction false} GatherIota<T>(items: seq<seq<T>>, n: nat)
    requires n <= |items|
    ensures Gather(items, Iota(n)) == Together(items, n)
  {
    if n > 0 {
      GatherIota(items, n - 1);
      assert Iota(n)[..n - 1] == Iota(n - 1);
    }
  }

  lemma {:induction false} AddSwap<T>(a: multiset<T>, b: multiset<T>, c: multiset<T>)
    ensures (a + b) + c == (a + c) + b
  {
  }

  lemma {:induction false} AddAgain<T>(a: multiset<T>, b: multiset<T>, c: multiset<T>)
    ensures (a + b) + c == a + (b + c)
  {
  }
}
