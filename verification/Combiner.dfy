/** What run_combiner changes for the reduce side: the same groups under the same keys, each entry cut
    down to one value; so a reduce and a combiner that are one fold give the same output. */
module Combiner {
  import opened Sequences
  import opened Options
  import opened KeyOrder
  import opened IntermediateTable
  import opened ValueIterator
  import opened GroupReduce
  import opened ReduceWorker
  import opened Permutations

  ghost predicate IsCombined(combine: seq<Val> -> Val, entries: seq<KeyVals>, combined: seq<KeyVals>) {
    && |entries| == |combined|
    && forall i :: 0 <= i < |entries| ==>
         entries[i].vals != [] && combined[i] == CombineEntry(combine, entries[i])
  }

  ghost predicate AreCombined(combine: seq<Val> -> Val, tables: Tables, combined: Tables) {
    && |tables| == |combined|
    && forall t :: 0 <= t < |tables| ==> IsCombined(combine, tables[t], combined[t])
  }

  ghost predicate CombinedGroups(combine: seq<Val> -> Val, groups: seq<Group>, combined: seq<Group>) {
    && |groups| == |combined|
    && forall g :: 0 <= g < |groups| ==>
         groups[g].key == combined[g].key && IsCombined(combine, groups[g].entries, combined[g].entries)
  }

  /** Combining changes no key, so it changes neither the least head nor who matches it. */
  lemma {:induction false} HeadsCombine(combine: seq<Val> -> Val, tables: Tables, combined: Tables, pos: seq<nat>,
                                        n: nat, k: Key)
    requires AreCombined(combine, tables, combined) && Positions(tables, pos) && n <= |tables|
    ensures Positions(combined, pos)
    ensures IsCombined(combine, Heads(tables, pos, n, k), Heads(combined, pos, n, k))
    ensures var a, b := LeastHead(tables, pos, n), LeastHead(combined, pos, n);
            if a.None? then b.None? else b.Some? && a.value.key == b.value.key
  {
    if n > 0 {
      HeadsCombine(combine, tables, combined, pos, n - 1, k);
      assert IsCombined(combine, tables[n - 1], combined[n - 1]);
    }
  }

  lemma {:induction false} AdvanceCombines(combine: seq<Val> -> Val, tables: Tables, combined: Tables, pos: seq<nat>,
                                           k: Key)
    requires AreCombined(combine, tables, combined) && Positions(tables, pos)
    ensures Positions(combined, pos) && Advance(combined, pos, k) == Advance(tables, pos, k)
  {
    forall t | 0 <= t < |tables|
      ensures |tables[t]| == |combined[t]| && Matches(tables[t], pos[t], k) == Matches(combined[t], pos[t], k)
    {
      assert IsCombined(combine, tables[t], combined[t]);
    }
  }

  lemma {:induction false} CombinedCons(combine: seq<Val> -> Val, g: Group, h: Group, gs: seq<Group>, hs: seq<Group>)
    requires g.key == h.key && IsCombined(combine, g.entries, h.entries) && CombinedGroups(combine, gs, hs)
    ensures CombinedGroups(combine, [g] + gs, [h] + hs)
  {
  }

  lemma {:induction false} GroupsCombine(combine: seq<Val> -> Val, tables: Tables, combined: Tables, pos: seq<nat>)
    requires AreCombined(combine, tables, combined) && Positions(tables, pos)
    ensures Positions(combined, pos)
    ensures CombinedGroups(combine, Groups(tables, pos), Groups(combined, pos))
    decreases Unread(tables, pos, |tables|)
  {
    var min := LeastHead(tables, pos, |tables|);
    HeadsCombine(combine, tables, combined, pos, |tables|, if min.Some? then min.value.key else Key(0, 0));
    LeastHeadIsLeast(tables, pos, |tables|);
    if min.Some? {
      var k := min.value.key;
      var next := Advance(tables, pos, k);
      AdvanceReads(tables, pos, |tables|, k);
      AdvanceCombines(combine, tables, combined, pos, k);
      GroupsCombine(combine, tables, combined, next);
      CombinedCons(combine, Group(k, Heads(tables, pos, |tables|, k)), Group(k, Heads(combined, pos, |tables|, k)),
                   Groups(tables, next), Groups(combined, next));
    }
  }

  /** The values of each entry by itself: what one map thread emitted for the key. */
  function Parts(entries: seq<KeyVals>): (r: seq<seq<Val>>)
    ensures |r| == |entries| && forall i :: 0 <= i < |r| ==> r[i] == Drain(entries[i].vals)
  {
    if entries == [] then [] else [Drain(entries[0].vals)] + Parts(entries[1..])
  }

  function CombineParts(combine: seq<Val> -> Val, parts: seq<seq<Val>>): seq<Val> {
    if parts == [] then [] else [combine(parts[0])] + CombineParts(combine, parts[1..])
  }

  lemma {:induction false} DrainAllParts(entries: seq<KeyVals>)
    ensures DrainAll(entries) == Flatten(Parts(entries))
  {
    if entries != [] {
      DrainAllParts(entries[1..]);
      assert Parts(entries)[1..] == Parts(entries[1..]);
    }
  }

  /** After run_combiner a reduce call reads one value per map thread that emitted the key. */
  lemma {:induction false} DrainAllCombined(combine: seq<Val> -> Val, entries: seq<KeyVals>, combined: seq<KeyVals>)
    requires IsCombined(combine, entries, combined)
    ensures DrainAll(combined) == CombineParts(combine, Parts(entries))
  {
    if entries != [] {
      DrainAllCombined(combine, entries[1..], combined[1..]);
      assert Parts(entries)[1..] == Parts(entries[1..]);
      assert combined[0].vals[1..] == [];
      assert Drain(combined[0].vals) == [combine(Drain(entries[0].vals))];
    }
  }

  // ---------- folds ----------

  function Fold(f: (Val, Val) -> Val, unit: Val, vals: seq<Val>): Val {
    if vals == [] then unit else f(Fold(f, unit, vals[..|vals| - 1]), vals[|vals| - 1])
  }

  ghost predicate Monoid(f: (Val, Val) -> Val, unit: Val) {
    && (forall a, b, c {:trigger f(f(a, b), c)} {:trigger f(a, f(b, c))} :: f(f(a, b), c) == f(a, f(b, c)))
    && (forall a {:trigger f(a, unit)} {:trigger f(unit, a)} :: f(a, unit) == a == f(unit, a))
  }

  lemma {:induction false} FoldConcat(f: (Val, Val) -> Val, unit: Val, a: seq<Val>, b: seq<Val>)
    requires Monoid(f, unit)
    ensures Fold(f, unit, a + b) == f(Fold(f, unit, a), Fold(f, unit, b))
  {
    if b == [] {
      assert a + b == a;
    } else {
      var init, last := b[..|b| - 1], b[|b| - 1];
      FoldConcat(f, unit, a, init);
      assert (a + b)[..|a + b| - 1] == a + init;
      assert f(f(Fold(f, unit, a), Fold(f, unit, init)), last) == f(Fold(f, unit, a), f(Fold(f, unit, init), last));
    }
  }

  lemma {:induction false} FoldOne(f: (Val, Val) -> Val, unit: Val, v: Val)
    requires Monoid(f, unit)
    ensures Fold(f, unit, [v]) == v
  {
    assert Fold(f, unit, [v]) == f(Fold(f, unit, [v][..0]), v);
    assert [v][..0] == [];
    assert f(unit, v) == v;
  }

  lemma {:induction false} FoldOfFolds(f: (Val, Val) -> Val, unit: Val, combine: seq<Val> -> Val, parts: seq<seq<Val>>)
    requires Monoid(f, unit) && forall vals :: combine(vals) == Fold(f, unit, vals)
    ensures Fold(f, unit, CombineParts(combine, parts)) == Fold(f, unit, Flatten(parts))
  {
    if parts != [] {
      var first := combine(parts[0]);
      FoldOfFolds(f, unit, combine, parts[1..]);
      FoldConcat(f, unit, [first], CombineParts(combine, parts[1..]));
      FoldConcat(f, unit, parts[0], Flatten(parts[1..]));
      FoldOne(f, unit, first);
    }
  }

  /** A fold of a commutative operation does not see the order of its values. */
  lemma {:induction false} FoldPermutation(f: (Val, Val) -> Val, unit: Val, a: seq<Val>, b: seq<Val>)
    requires Monoid(f, unit) && (forall x, y {:trigger f(x, y)} :: f(x, y) == f(y, x)) && multiset(a) == multiset(b)
    ensures Fold(f, unit, a) == Fold(f, unit, b)
    decreases |a|
  {
    if a == [] {
      assert |multiset(b)| == |b|;
    } else {
      var i := MatchLast(a, b);
      var l, r := b[..i], b[i + 1..];
      assert b == l + [b[i]] + r;
      FoldPermutation(f, unit, a[..|a| - 1], l + r);
      FoldTakeOut(f, unit, l, b[i], r);
    }
  }

  lemma {:induction false} FoldTakeOut(f: (Val, Val) -> Val, unit: Val, l: seq<Val>, v: Val, r: seq<Val>)
    requires Monoid(f, unit) && (forall x, y {:trigger f(x, y)} :: f(x, y) == f(y, x))
    ensures Fold(f, unit, l + [v] + r) == f(Fold(f, unit, l + r), v)
  {
    var x, y := Fold(f, unit, l), Fold(f, unit, r);
    FoldConcat(f, unit, l + [v], r);
    FoldConcat(f, unit, l, [v]);
    FoldOne(f, unit, v);
    FoldConcat(f, unit, l, r);
    assert f(f(x, v), y) == f(x, f(v, y));
    assert f(v, y) == f(y, v);
    assert f(x, f(y, v)) == f(f(x, y), v);
  }

  lemma {:induction false} OutputsLast(reduce: Reducer, groups: seq<Group>)
    requires groups != []
    ensures var last := groups[|groups| - 1];
            Outputs(reduce, groups)
              == Outputs(reduce, groups[..|groups| - 1]) + reduce(last.key, DrainAll(last.entries))
  {
  }

  lemma {:induction false} SameCall(f: (Val, Val) -> Val, unit: Val, reduce: Reducer, k: Key, a: seq<Val>, b: seq<Val>)
    requires forall k, a, b :: Fold(f, unit, a) == Fold(f, unit, b) ==> reduce(k, a) == reduce(k, b)
    requires Fold(f, unit, a) == Fold(f, unit, b)
    ensures reduce(k, a) == reduce(k, b)
  {
  }

  lemma {:induction false} OutputsCombine(combine: seq<Val> -> Val, f: (Val, Val) -> Val, unit: Val, reduce: Reducer,
                                          groups: seq<Group>, combined: seq<Group>)
    requires Monoid(f, unit) && forall vals :: combine(vals) == Fold(f, unit, vals)
    requires forall k, a, b :: Fold(f, unit, a) == Fold(f, unit, b) ==> reduce(k, a) == reduce(k, b)
    requires CombinedGroups(combine, groups, combined)
    ensures Outputs(reduce, combined) == Outputs(reduce, groups)
  {
    if groups != [] {
      var n := |groups| - 1;
      OutputsCombine(combine, f, unit, reduce, groups[..n], combined[..n]);
      DrainAllParts(groups[n].entries);
      DrainAllCombined(combine, groups[n].entries, combined[n].entries);
      FoldOfFolds(f, unit, combine, Parts(groups[n].entries));
      OutputsLast(reduce, groups);
      OutputsLast(reduce, combined);
      SameCall(f, unit, reduce, groups[n].key, DrainAll(groups[n].entries), DrainAll(combined[n].entries));
    }
  }

  /** Combiner transparency: when combiner and reduce see their values only through one fold of an
      associative operation with a unit, combining every table changes nothing the reduce side emits. */
  lemma {:induction false} CombinerIsTransparent(combine: seq<Val> -> Val, f: (Val, Val) -> Val, unit: Val,
                                                 reduce: Reducer, tables: Tables, combined: Tables, pos: seq<nat>)
    requires Monoid(f, unit) && forall vals :: combine(vals) == Fold(f, unit, vals)
    requires forall k, a, b :: Fold(f, unit, a) == Fold(f, unit, b) ==> reduce(k, a) == reduce(k, b)
    requires AreCombined(combine, tables, combined) && Positions(tables, pos)
    ensures Positions(combined, pos)
    ensures Outputs(reduce, Groups(combined, pos)) == Outputs(reduce, Groups(tables, pos))
  {
    GroupsCombine(combine, tables, combined, pos);
    OutputsCombine(combine, f, unit, reduce, Groups(tables, pos), Groups(combined, pos));
  }
}
