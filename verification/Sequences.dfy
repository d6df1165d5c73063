/** Both ends of a concatenation, an update or insertion seen from the tail, and sequences laid end to end. */
module Sequences {

  lemma {:induction false} ConcatTail<T>(a: seq<T>, b: seq<T>)
    requires a != []
    ensures (a + b)[0] == a[0] && (a + b)[1..] == a[1..] + b
  {
  }

  lemma {:induction false} ConcatInit<T>(a: seq<T>, b: seq<T>)
    requires b != []
    ensures (a + b)[|a + b| - 1] == b[|b| - 1] && (a + b)[..|a + b| - 1] == a + b[..|b| - 1]
  {
  }

  lemma {:induction false} ConcatAssoc<T>(a: seq<T>, b: seq<T>, c: seq<T>)
    ensures a + (b + c) == (a + b) + c
  {
  }

  /** A prefix grows by one element. */
  lemma {:induction false} PrefixStep<T>(s: seq<T>, n: nat)
    requires n < |s|
    ensures s[..n + 1] == s[..n] + [s[n]] && s[..n + 1][..n] == s[..n] && s[..n + 1][n] == s[n]
  {
  }

  function Flatten<T>(ss: seq<seq<T>>): seq<T> {
    if ss == [] then [] else ss[0] + Flatten(ss[1..])
  }

  lemma {:induction false} FlattenConcat<T>(a: seq<seq<T>>, b: seq<seq<T>>)
    ensures Flatten(a + b) == Flatten(a) + Flatten(b)
  {
    if a == [] {
      assert a + b == b;
    } else {
      FlattenConcat(a[1..], b);
      ConcatTail(a, b);
      ConcatAssoc(a[0], Flatten(a[1..]), Flatten(b));
    }
  }

  lemma {:induction false} FlattenSnoc<T>(a: seq<seq<T>>, x: seq<T>)
    ensures Flatten(a + [x]) == Flatten(a) + x
  {
    FlattenConcat(a, [x]);
    assert [x][1..] == [];
  }

  lemma {:induction false} SetInTail<T>(s: seq<T>, i: nat, x: T)
    requires 0 < i < |s|
    ensures [s[0]] + s[1..][i - 1 := x] == s[i := x]
  {
  }

  lemma {:induction false} InsertInTail<T>(s: seq<T>, i: nat, x: T)
    requires 0 < i <= |s|
    ensures [s[0]] + (s[1..][..i - 1] + [x] + s[1..][i - 1..]) == s[..i] + [x] + s[i..]
  {
    assert s[..i] == [s[0]] + s[1..][..i - 1];
    assert s[1..][i - 1..] == s[i..];
  }

  lemma {:induction false} ShiftThenSet<T>(s: seq<T>, low: nat, x: T, y: T)
    requires low <= |s|
    ensures (s[..low] + [x] + s[low..])[low] == x
    ensures (s[..low] + [x] + s[low..])[low := y] == s[..low] + [y] + s[low..]
  {
  }
}
