/**
 The linked lists of lmserver/thread.c: a connection queue with head and tail, and the free
 list of queue items that is filled a batch at a time.
 */
module ConnQueue {
  import opened Threads

  class CqItem {
    var sfd: Conn
    var next: CqItem?

    constructor () {
      sfd, next := 0, null;
    }
  }

  /** `items` hang together by their next fields. */
  ghost predicate Linked(items: seq<CqItem>)
    reads items
  {
    forall k {:trigger items[k]} :: 0 <= k < |items| - 1 ==> items[k].next == items[k + 1]
  }

  predicate Distinct(items: seq<CqItem>) {
    forall i, j {:trigger items[i], items[j]} :: 0 <= i < j < |items| ==> items[i] != items[j]
  }

  class Queue {
    var head: CqItem?
    var tail: CqItem?
    ghost var items: seq<CqItem>

    ghost predicate Valid()
      reads this, items
    {
      && Distinct(items) && Linked(items)
      && (items == [] ==> head == null && tail == null)
      && (items != [] ==> head == items[0] && tail == items[|items| - 1] && tail.next == null)
    }

    /** cq_init. */
    constructor ()
      ensures Valid() && items == []
    {
      head, tail, items := null, null, [];
    }

    /** cq_push: the item comes last. */
    method Push(item: CqItem)
      requires Valid() && item !in items
      modifies this, item`next, items`next
      ensures Valid() && items == old(items) + [item]
    {
      item.next := null;
      if tail == null {
        head := item;
      } else {
        tail.next := item;
      }
      tail := item;
      items := items + [item];
    }

    /** cq_peek: the first item, or null if there is none. */
    method Peek() returns (item: CqItem?)
      requires Valid()
      modifies this
      ensures Valid()
      ensures old(items) == [] ==> item == null && items == []
      ensures old(items) != [] ==> item == old(items)[0] && items == old(items)[1..] && item !in items
    {
      item := head;
      if item != null {
        head := item.next;
        if head == null {
          tail := null;
        }
        items := items[1..];
      }
    }
  }

  class FreeList {
    var head: CqItem?
    ghost var items: seq<CqItem>

    ghost predicate Valid()
      reads this, items
    {
      && Distinct(items) && Linked(items)
      && (items == [] ==> head == null)
      && (items != [] ==> head == items[0] && items[|items| - 1].next == null)
    }

    constructor ()
      ensures Valid() && items == []
    {
      head, items := null, [];
    }

    /** cqi_free. */
    method Free(item: CqItem)
      requires Valid() && item !in items
      modifies this, item`next
      ensures Valid() && items == [item] + old(items)
    {
      item.next := head;
      head := item;
      items := [item] + items;
    }

    /** cqi_new, first half: the head of the list, or null. */
    method Take() returns (item: CqItem?)
      requires Valid()
      modifies this
      ensures Valid()
      ensures old(items) == [] ==> item == null && items == []
      ensures old(items) != [] ==> item == old(items)[0] && items == old(items)[1..] && item !in items
    {
      item := head;
      if item != null {
        head := item.next;
        items := items[1..];
      }
    }

    /** cqi_new, second half: all of a new batch but its first item goes before what others have freed meanwhile. */
    method Add(batch: seq<CqItem>)
      requires Valid() && |batch| > 1 && Distinct(batch) && Linked(batch[1..])
               && forall i {:trigger batch[i]} :: 0 <= i < |batch| ==> batch[i] !in items
      modifies this, batch`next
      ensures Valid() && items == batch[1..] + old(items) && batch[0] !in items
    {
      batch[|batch| - 1].next := head;
      head := batch[1];
      items := batch[1..] + items;
    }
  }

  /** A fresh batch, linked from its second item on. */
  method Batch() returns (batch: seq<CqItem>)
    ensures |batch| == ITEMS_PER_ALLOC && fresh(batch) && Distinct(batch) && Linked(batch[1..])
  {
    var first := new CqItem();
    batch := [first];
    while |batch| < ITEMS_PER_ALLOC
      invariant 1 <= |batch| <= ITEMS_PER_ALLOC && fresh(batch) && Distinct(batch) && Linked(batch[1..])
    {
      var item := new CqItem();
      if |batch| > 1 {
        batch[|batch| - 1].next := item;
      }
      batch := batch + [item];
    }
  }
}
