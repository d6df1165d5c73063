/** reduce_worker_do_next_task: the k-way group-by over the tables all map threads built for one
    reduce task, as a simple recursion, and the proof that it yields one group per key. */
module GroupReduce {
  import opened Options
  import opened KeyOrder
  import opened IntermediateTable

  /** One reduce call: the key passed and the entries in its iterator. */
  datatype Group = Group(key: Key, entries: seq<KeyVals>)

  /** One table per map thread. */
  type Tables = seq<seq<KeyVals>>

  ghost predicate ReadableTables(tables: Tables) {
    forall t :: 0 <= t < |tables| ==> ReadableTable(tables[t])
  }

  /** One read position per table. */
  predicate Positions(tables: Tables, pos: seq<nat>) {
    |pos| == |tables| && forall t :: 0 <= t < |pos| ==> pos[t] <= |tables[t]|
  }

  // ---------- what a grouping is ----------

  /** The entries of a table from position p on whose key is equal to k. */
  function KeyEntries(table: seq<KeyVals>, p: nat, k: Key): seq<KeyVals>
    requires p <= |table|
    decreases |table| - p
  {
    if p == |table| then []
    else (if KeyCmp(table[p].key, k) == 0 then [table[p]] else []) + KeyEntries(table, p + 1, k)
  }

  /** Every unread entry for a key equal to k in the first n tables, in thread order. */
  function EntriesOf(tables: Tables, pos: seq<nat>, n: nat, k: Key): seq<KeyVals>
    requires Positions(tables, pos) && n <= |tables|
  {
    if n == 0 then [] else EntriesOf(tables, pos, n - 1, k) + KeyEntries(tables[n - 1], pos[n - 1], k)
  }

  ghost predicate AscendingGroups(groups: seq<Group>) {
    forall i, j :: 0 <= i < j < |groups| ==> KeyCmp(groups[i].key, groups[j].key) < 0
  }

  ghost predicate HasGroup(groups: seq<Group>, k: Key) {
    exists g :: 0 <= g < |groups| && KeyCmp(groups[g].key, k) == 0
  }

  /** The key passed is that of the first entry. */
  predicate HasFirstKey(g: Group) {
    g.entries != [] && g.entries[0].key == g.key
  }

  /** One group per distinct unread key, in strictly ascending order, holding exactly its entries. */
  ghost predicate IsGrouping(tables: Tables, pos: seq<nat>, groups: seq<Group>)
    requires Positions(tables, pos)
  {
    && AscendingGroups(groups)
    && (forall g :: 0 <= g < |groups| ==> HasFirstKey(groups[g]))
    && (forall g :: 0 <= g < |groups| ==>
          groups[g].entries == EntriesOf(tables, pos, |tables|, groups[g].key))
    && (forall t, i :: 0 <= t < |tables| && pos[t] <= i < |tables[t]| ==> HasGroup(groups, tables[t][i].key))
  }

  // ---------- the simple form: take the least head, its equals, and go on ----------

  /** The first least unread head among the first n tables. */
  function LeastHead(tables: Tables, pos: seq<nat>, n: nat): Option<KeyVals>
    requires Positions(tables, pos) && n <= |tables|
  {
    if n == 0 then None
    else
      var best := LeastHead(tables, pos, n - 1);
      if pos[n - 1] < |tables[n - 1]|
         && (best.None? || KeyCmp(tables[n - 1][pos[n - 1]].key, best.value.key) < 0)
      then Some(tables[n - 1][pos[n - 1]]) else best
  }

  /** Whether the entry at position p exists and has a key equal to k. */
  predicate Matches(table: seq<KeyVals>, p: nat, k: Key) {
    p < |table| && KeyCmp(table[p].key, k) == 0
  }

  /** The unread heads equal to k among the first n tables: one per table at most. */
  function Heads(tables: Tables, pos: seq<nat>, n: nat, k: Key): (h: seq<KeyVals>)
    requires Positions(tables, pos) && n <= |tables|
    ensures |h| <= n
  {
    if n == 0 then []
    else if Matches(tables[n - 1], pos[n - 1], k) then Heads(tables, pos, n - 1, k) + [tables[n - 1][pos[n - 1]]]
    else Heads(tables, pos, n - 1, k)
  }

  /** The positions after reading the heads equal to k. */
  function Advance(tables: Tables, pos: seq<nat>, k: Key): (r: seq<nat>)
    requires Positions(tables, pos)
    ensures Positions(tables, r)
    ensures forall t :: 0 <= t < |r| ==> r[t] == pos[t] + if Matches(tables[t], pos[t], k) then 1 else 0
  {
    AdvanceFirst(tables, pos, |tables|, k)
  }

  function AdvanceFirst(tables: Tables, pos: seq<nat>, n: nat, k: Key): (r: seq<nat>)
    requires Positions(tables, pos) && n <= |tables|
    ensures |r| == n
    ensures forall t :: 0 <= t < n ==> r[t] == pos[t] + if Matches(tables[t], pos[t], k) then 1 else 0
  {
    if n == 0 then []
    else AdvanceFirst(tables, pos, n - 1, k) + [pos[n - 1] + if Matches(tables[n - 1], pos[n - 1], k) then 1 else 0]
  }

  function Unread(tables: Tables, pos: seq<nat>, n: nat): nat
    requires Positions(tables, pos) && n <= |tables|
  {
    if n == 0 then 0 else Unread(tables, pos, n - 1) + |tables[n - 1]| - pos[n - 1]
  }

  lemma {:induction false} AdvanceReads(tables: Tables, pos: seq<nat>, n: nat, k: Key)
    requires Positions(tables, pos) && n <= |tables|
    ensures Unread(tables, Advance(tables, pos, k), n) == Unread(tables, pos, n) - |Heads(tables, pos, n, k)|
  {
    if n > 0 {
      AdvanceReads(tables, pos, n - 1, k);
    }
  }

  lemma {:induction false} NoHeads(tables: Tables, pos: seq<nat>, n: nat, k: Key)
    requires Positions(tables, pos) && n <= |tables|
    requires forall t :: 0 <= t < n && pos[t] < |tables[t]| ==> KeyCmp(tables[t][pos[t]].key, k) != 0
    ensures Heads(tables, pos, n, k) == []
  {
    if n > 0 {
      NoHeads(tables, pos, n - 1, k);
    }
  }

  lemma {:induction false} LeastHeadIsLeast(tables: Tables, pos: seq<nat>, n: nat)
    requires Positions(tables, pos) && n <= |tables|
    ensures LeastHead(tables, pos, n).None? <==> forall t :: 0 <= t < n ==> pos[t] == |tables[t]|
    ensures LeastHead(tables, pos, n).Some? ==>
              var m := LeastHead(tables, pos, n).value;
              && (forall t :: 0 <= t < n && pos[t] < |tables[t]| ==> KeyCmp(m.key, tables[t][pos[t]].key) <= 0)
              && Heads(tables, pos, n, m.key) != [] && Heads(tables, pos, n, m.key)[0] == m
  {
    if n > 0 {
      LeastHeadIsLeast(tables, pos, n - 1);
      var best := LeastHead(tables, pos, n - 1);
      if pos[n - 1] < |tables[n - 1]| {
        var last := tables[n - 1][pos[n - 1]];
        if best.None? {
          NoHeads(tables, pos, n - 1, last.key);
        } else if KeyCmp(last.key, best.value.key) < 0 {
          NoHeads(tables, pos, n - 1, last.key);
        }
      }
    }
  }

  /** The simple form of the group-by. */
  function Groups(tables: Tables, pos: seq<nat>): seq<Group>
    requires Positions(tables, pos)
    decreases Unread(tables, pos, |tables|)
  {
    LeastHeadIsLeast(tables, pos, |tables|);
    match LeastHead(tables, pos, |tables|)
    case None => []
    case Some(m) =>
      AdvanceReads(tables, pos, |tables|, m.key);
      [Group(m.key, Heads(tables, pos, |tables|, m.key))] + Groups(tables, Advance(tables, pos, m.key))
  }

  // ---------- the simple form yields the grouping ----------

  /** No unread key lies below k. */
  ghost predicate AllAtLeast(tables: Tables, pos: seq<nat>, k: Key)
    requires Positions(tables, pos)
  {
    forall t, i :: 0 <= t < |tables| && pos[t] <= i < |tables[t]| ==> KeyCmp(k, tables[t][i].key) <= 0
  }

  /** Every unread key lies above k. */
  ghost predicate AllAbove(tables: Tables, pos: seq<nat>, k: Key)
    requires Positions(tables, pos)
  {
    forall t, i :: 0 <= t < |tables| && pos[t] <= i < |tables[t]| ==> KeyCmp(k, tables[t][i].key) < 0
  }

  lemma {:induction false} NoKeyEntries(table: seq<KeyVals>, p: nat, k: Key)
    requires p <= |table|
    requires forall i :: p <= i < |table| ==> KeyCmp(table[i].key, k) != 0
    ensures KeyEntries(table, p, k) == []
    decreases |table| - p
  {
    if p < |table| {
      NoKeyEntries(table, p + 1, k);
    }
  }

  /** In one strictly sorted table with no unread key below m, the entries for m are just its head. */
  lemma {:induction false} TableHead(table: seq<KeyVals>, p: nat, m: Key)
    requires StrictlySorted(table) && p <= |table|
    requires forall i :: p <= i < |table| ==> KeyCmp(m, table[i].key) <= 0
    ensures KeyEntries(table, p, m) == if Matches(table, p, m) then [table[p]] else []
    ensures forall i :: p + (if Matches(table, p, m) then 1 else 0) <= i < |table| ==> KeyCmp(m, table[i].key) < 0
  {
    if p < |table| {
      assert forall i :: p < i < |table| ==> KeyCmp(table[p].key, table[i].key) < 0;
      NoKeyEntries(table, p + 1, m);
    }
  }

  lemma {:induction false} HeadsAreEntries(tables: Tables, pos: seq<nat>, n: nat, m: Key)
    requires ReadableTables(tables) && Positions(tables, pos) && n <= |tables|
    requires AllAtLeast(tables, pos, m)
    ensures Heads(tables, pos, n, m) == EntriesOf(tables, pos, n, m)
  {
    if n > 0 {
      HeadsAreEntries(tables, pos, n - 1, m);
      assert ReadableTable(tables[n - 1]);
      TableHead(tables[n - 1], pos[n - 1], m);
    }
  }

  /** Reading the heads equal to m takes no entry away from any other key. */
  lemma {:induction false} AdvanceKeepsOthers(tables: Tables, pos: seq<nat>, n: nat, m: Key, k: Key)
    requires KeyCmp(m, k) != 0 && Positions(tables, pos) && n <= |tables|
    ensures EntriesOf(tables, Advance(tables, pos, m), n, k) == EntriesOf(tables, pos, n, k)
  {
    if n > 0 {
      AdvanceKeepsOthers(tables, pos, n - 1, m, k);
    }
  }

  lemma {:induction false} LeastHeadBoundsAll(tables: Tables, pos: seq<nat>)
    requires ReadableTables(tables) && Positions(tables, pos)
    requires LeastHead(tables, pos, |tables|).Some?
    ensures AllAtLeast(tables, pos, LeastHead(tables, pos, |tables|).value.key)
  {
    LeastHeadIsLeast(tables, pos, |tables|);
    var m := LeastHead(tables, pos, |tables|).value;
    forall t, i | 0 <= t < |tables| && pos[t] <= i < |tables[t]|
      ensures KeyCmp(m.key, tables[t][i].key) <= 0
    {
      assert ReadableTable(tables[t]);
    }
  }

  lemma {:induction false} AdvanceLeavesGreater(tables: Tables, pos: seq<nat>, m: Key)
    requires ReadableTables(tables) && Positions(tables, pos)
    requires AllAtLeast(tables, pos, m)
    ensures AllAbove(tables, Advance(tables, pos, m), m)
  {
    forall t | 0 <= t < |tables|
      ensures forall i :: Advance(tables, pos, m)[t] <= i < |tables[t]| ==> KeyCmp(m, tables[t][i].key) < 0
    {
      assert ReadableTable(tables[t]);
      TableHead(tables[t], pos[t], m);
    }
  }

  lemma {:induction false} EntryWitness(tables: Tables, pos: seq<nat>, n: nat, k: Key)
    returns (t: nat, i: nat)
    requires Positions(tables, pos) && n <= |tables| && EntriesOf(tables, pos, n, k) != []
    ensures t < n && pos[t] <= i < |tables[t]| && KeyCmp(tables[t][i].key, k) == 0
  {
    var last, p := tables[n - 1], pos[n - 1];
    if KeyEntries(last, p, k) == [] {
      t, i := EntryWitness(tables, pos, n - 1, k);
    } else {
      if forall i :: p <= i < |last| ==> KeyCmp(last[i].key, k) != 0 {
        NoKeyEntries(last, p, k);
        assert false;
      }
      t := n - 1;
      i :| p <= i < |last| && KeyCmp(last[i].key, k) == 0;
    }
  }

  /** The group-by skips no key, the last included, repeats none, and gives each reduce call exactly
      the entries of its key. */
  lemma {:induction false} GroupsIsGrouping(tables: Tables, pos: seq<nat>)
    requires ReadableTables(tables) && Positions(tables, pos)
    ensures IsGrouping(tables, pos, Groups(tables, pos))
    decreases Unread(tables, pos, |tables|)
  {
    LeastHeadIsLeast(tables, pos, |tables|);
    if LeastHead(tables, pos, |tables|).Some? {
      var m := LeastHead(tables, pos, |tables|).value.key;
      AdvanceReads(tables, pos, |tables|, m);
      LeastHeadBoundsAll(tables, pos);
      HeadsAreEntries(tables, pos, |tables|, m);
      AdvanceLeavesGreater(tables, pos, m);
      GroupsIsGrouping(tables, Advance(tables, pos, m));
      GroupingStep(tables, pos, m, Groups(tables, Advance(tables, pos, m)));
    }
  }

  /** The later groups lie strictly above m and own the same entries before and after the step. */
  lemma {:induction false} RestIsAbove(tables: Tables, pos: seq<nat>, m: Key, g: Group)
    requires Positions(tables, pos)
    requires AllAbove(tables, Advance(tables, pos, m), m)
    requires g.entries == EntriesOf(tables, Advance(tables, pos, m), |tables|, g.key) != []
    ensures KeyCmp(m, g.key) < 0
    ensures g.entries == EntriesOf(tables, pos, |tables|, g.key)
  {
    var t, i := EntryWitness(tables, Advance(tables, pos, m), |tables|, g.key);
    AdvanceKeepsOthers(tables, pos, |tables|, m, g.key);
  }

  lemma {:induction false} HasGroupCons(first: Group, rest: seq<Group>, k: Key)
    requires KeyCmp(k, first.key) == 0 || HasGroup(rest, k)
    ensures HasGroup([first] + rest, k)
  {
    var groups := [first] + rest;
    if KeyCmp(k, first.key) == 0 {
      assert KeyCmp(groups[0].key, k) == 0;
    } else {
      var g :| 0 <= g < |rest| && KeyCmp(rest[g].key, k) == 0;
      assert groups[g + 1] == rest[g];
    }
  }

  lemma {:induction false} GroupingStep(tables: Tables, pos: seq<nat>, m: Key, rest: seq<Group>)
    requires Positions(tables, pos)
    requires Heads(tables, pos, |tables|, m) == EntriesOf(tables, pos, |tables|, m) != []
    requires Heads(tables, pos, |tables|, m)[0].key == m
    requires IsGrouping(tables, Advance(tables, pos, m), rest)
    requires AllAbove(tables, Advance(tables, pos, m), m)
    ensures IsGrouping(tables, pos, [Group(m, Heads(tables, pos, |tables|, m))] + rest)
  {
    var first := Group(m, Heads(tables, pos, |tables|, m));
    var groups := [first] + rest;
    forall g | 0 <= g < |groups|
      ensures groups[g].entries == EntriesOf(tables, pos, |tables|, groups[g].key) && HasFirstKey(groups[g])
      ensures g > 0 ==> groups[g] == rest[g - 1] && KeyCmp(m, groups[g].key) < 0
    {
      if g > 0 {
        assert HasFirstKey(rest[g - 1]);
        RestIsAbove(tables, pos, m, rest[g - 1]);
      }
    }
    assert AscendingGroups(groups);
    forall t, i | 0 <= t < |tables| && pos[t] <= i < |tables[t]|
      ensures HasGroup(groups, tables[t][i].key)
    {
      HasGroupCons(first, rest, tables[t][i].key);
    }
  }
}
