/** list.h: the intrusive doubly linked circular list with a sentinel, refined to a sequence, and the
    queue operations task queues are built from. */
module LinkedQueue {

  class ListEnt {
    var next: ListEnt?
    var prev: ListEnt?

    /** list_ent_init */
    constructor ()
      ensures next == null && prev == null
    {
      next, prev := null, null;
    }
  }

  class List {
    /** The sentinel lst_list. */
    const sentinel: ListEnt
    ghost var elems: seq<ListEnt>

    /** The i-th entry of the ring, the sentinel being entry 0 and entry |elems| + 1. */
    ghost function At(i: int): ListEnt
      requires 0 <= i <= |elems| + 1
      reads this
    {
      if i == 0 || i == |elems| + 1 then sentinel else elems[i - 1]
    }

    /** Ring entries i and i + 1 point at each other. */
    ghost predicate Linked(i: int)
      requires 0 <= i <= |elems|
      reads this, sentinel, elems
    {
      At(i).next == At(i + 1) && At(i + 1).prev == At(i)
    }

    ghost predicate Valid()
      reads this, sentinel, elems
    {
      && sentinel !in elems
      && (forall i, j :: 0 <= i < j < |elems| ==> elems[i] != elems[j])
      && (forall i :: 0 <= i <= |elems| ==> Linked(i))
    }

    ghost function Entries(): set<ListEnt>
      reads this
    {
      {sentinel} + (set e | e in elems)
    }

    /** list_init */
    constructor ()
      ensures Valid() && elems == [] && fresh(sentinel)
    {
      sentinel := new ListEnt();
      elems := [];
      new;
      sentinel.next := sentinel;
      sentinel.prev := sentinel;
    }

    /** list_is_empty */
    method IsEmpty() returns (empty: bool)
      requires Valid()
      ensures empty == (elems == [])
    {
      assert Linked(0);
      empty := sentinel == sentinel.next;
    }

    /** list_peek_head */
    method PeekHead() returns (e: ListEnt?)
      requires Valid()
      ensures e == if elems == [] then null else elems[0]
    {
      assert Linked(0);
      e := if sentinel != sentinel.next then sentinel.next else null;
    }

    /** list_peek_tail */
    method PeekTail() returns (e: ListEnt?)
      requires Valid()
      ensures e == if elems == [] then null else elems[|elems| - 1]
    {
      assert Linked(|elems|);
      e := if sentinel != sentinel.prev then sentinel.prev else null;
    }

    /** list_insert_after, at the ring entry number k. list_add_head is the case of the sentinel. */
    method InsertAfter(chain: ListEnt, toAdd: ListEnt, ghost k: nat)
      requires Valid() && k <= |elems| && chain == At(k) && toAdd !in Entries()
      modifies this`elems, Entries(), toAdd
      ensures Valid() && elems == old(elems[..k]) + [toAdd] + old(elems[k..])
    {
      assert Linked(k);
      toAdd.prev := chain;
      toAdd.next := chain.next;
      chain.next.prev := toAdd;
      chain.next := toAdd;
      elems := elems[..k] + [toAdd] + elems[k..];
      forall i | 0 <= i <= |elems|
        ensures Linked(i)
      {
        if i < k {
          assert old(Linked(i)) && At(i) == old(At(i)) && At(i + 1) == old(At(i + 1));
        } else if i > k + 1 {
          assert old(Linked(i - 1)) && At(i) == old(At(i - 1)) && At(i + 1) == old(At(i));
        }
      }
    }

    /** list_add_tail (queue_push_back) */
    method AddTail(toAdd: ListEnt)
      requires Valid() && toAdd !in Entries()
      modifies this`elems, Entries(), toAdd
      ensures Valid() && elems == old(elems) + [toAdd]
    {
      ghost var n := |elems|;
      assert Linked(n);
      toAdd.next := sentinel;
      toAdd.prev := sentinel.prev;
      sentinel.prev.next := toAdd;
      sentinel.prev := toAdd;
      elems := elems + [toAdd];
      forall i | 0 <= i <= |elems|
        ensures Linked(i)
      {
        if i < n {
          assert old(Linked(i)) && At(i) == old(At(i)) && At(i + 1) == old(At(i + 1));
        }
      }
    }

    /** list_remove, of the ring entry number k + 1: its links are cleared, its neighbours joined. */
    method Remove(elem: ListEnt, ghost k: nat)
      requires Valid() && k < |elems| && elem == elems[k]
      modifies this`elems, Entries()
      ensures Valid() && elems == old(elems[..k]) + old(elems[k + 1..])
      ensures elem.next == null && elem.prev == null && elem !in Entries()
    {
      assert Linked(k);
      assert Linked(k + 1);
      elem.next.prev := elem.prev;
      elem.prev.next := elem.next;
      elem.prev := null;
      elem.next := null;
      elems := elems[..k] + elems[k + 1..];
      forall i | 0 <= i <= |elems|
        ensures Linked(i)
      {
        if i < k {
          assert old(Linked(i)) && At(i) == old(At(i)) && At(i + 1) == old(At(i + 1));
        } else if i > k {
          assert old(Linked(i + 1)) && At(i) == old(At(i + 1)) && At(i + 1) == old(At(i + 2));
        }
      }
    }

    /** list_remove_head (queue_pop_front) */
    method RemoveHead() returns (e: ListEnt?)
      requires Valid()
      modifies this`elems, Entries()
      ensures Valid()
      ensures old(elems) == [] ==> e == null && elems == []
      ensures old(elems) != [] ==> e == old(elems)[0] && elems == old(elems)[1..] && e !in Entries()
    {
      assert Linked(0);
      if sentinel.next != sentinel {
        e := sentinel.next;
        Remove(e, 0);
      } else {
        e := null;
      }
    }

    /** list_remove_tail (queue_pop_back) */
    method RemoveTail() returns (e: ListEnt?)
      requires Valid()
      modifies this`elems, Entries()
      ensures Valid()
      ensures old(elems) == [] ==> e == null && elems == []
      ensures old(elems) != [] ==>
                e == old(elems)[|old(elems)| - 1] && elems == old(elems)[..|old(elems)| - 1] && e !in Entries()
    {
      assert Linked(|elems|);
      if sentinel.prev != sentinel {
        e := sentinel.prev;
        Remove(e, |elems| - 1);
      } else {
        e := null;
      }
    }
  }

  /** tq_elem_into_free_seq on the linked lists: the head of the work queue, if any, is relinked behind
      the free queue's last entry, and the two lists stay apart. */
  method ElemIntoFreeSeq(queue: List, free: List) returns (ret: bool, elem: ListEnt?)
    requires queue != free && queue.Valid() && free.Valid() && queue.Entries() !! free.Entries()
    modifies queue`elems, free`elems, queue.Entries(), free.Entries()
    ensures queue.Valid() && free.Valid() && queue.Entries() !! free.Entries()
    ensures ret == (old(queue.elems) != [])
    ensures ret ==> elem == old(queue.elems)[0]
    ensures ret ==> queue.elems == old(queue.elems)[1..] && free.elems == old(free.elems) + [elem]
    ensures !ret ==> elem == null && queue.elems == [] && free.elems == old(free.elems)
    ensures free.elems + queue.elems == old(free.elems + queue.elems)
  {
    elem := queue.RemoveHead();
    ret := elem != null;
    if ret {
      free.AddTail(elem);
      assert free.elems + queue.elems == old(free.elems) + ([elem] + old(queue.elems)[1..]);
    }
  }
}
