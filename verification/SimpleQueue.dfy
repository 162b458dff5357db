/** SimpleQueue of priority_q.h: a doubly linked list kept sorted by time. */
module SimpleQueues {
  import opened Events

  class SimpleQueue {
    var head: Event?
    ghost var items: seq<Event>   // the list, front first

    ghost predicate Linked()
      reads this, items
    {
      && head == (if items == [] then null else items[0])
      && (forall i {:trigger items[i].next} :: 0 <= i < |items| ==>
            items[i].next == (if i + 1 < |items| then items[i + 1] else null))
      && (forall i {:trigger items[i].prev} :: 0 <= i < |items| ==>
            items[i].prev == (if 0 < i then items[i - 1] else null))
      && Distinct(items)
    }

    ghost predicate Valid()
      reads this, items
    {
      Linked() && Sorted(items)
    }

    ghost function Contents(): set<Event>
      reads this
    {
      Elements(items)
    }

    constructor ()
      ensures Valid() && items == []
    {
      head, items := null, [];
    }

    method EnQueue(item: Event)
      requires Valid() && item !in items
      modifies this, items`next, items`prev, item`next, item`prev
      ensures Valid()
      ensures exists k :: (0 <= k <= |old(items)| &&
        old(IsInsertionPoint(items, item, k)) && items == Inserted(old(items), k, item))
      ensures Contents() == old(Contents()) + {item}
    {
      ghost var k := 0;
      if head == null || item.time < head.time {
        LinkFront(item);
      } else {
        var i := head;
        while i.next != null && item.time > i.next.time
          invariant 0 <= k < |items| && i == items[k]
          invariant forall j :: 1 <= j <= k ==> items[j].time < item.time
          decreases |items| - k
        {
          i := i.next;
          k := k + 1;
        }
        LinkAfter(i, item, k);
        k := k + 1;
      }
      assert old(IsInsertionPoint(items, item, k));
      InsertionKeepsSorted(old(items), item, k);
      InsertedElements(old(items), k, item);
    }

    method LinkFront(item: Event)
      requires Linked() && item !in items
      modifies this, items`prev, item`next, item`prev
      ensures Linked() && items == Inserted(old(items), 0, item)
    {
      if head != null {
        assert head == items[0];
        head.prev := item;
      }
      item.next := head;
      head := item;
      item.prev := null;
      items := Inserted(items, 0, item);
    }

    method LinkAfter(i: Event, item: Event, ghost k: int)
      requires Linked() && item !in items && 0 <= k < |items| && i == items[k]
      modifies this`items, items`next, items`prev, item`next, item`prev
      ensures Linked() && items == Inserted(old(items), k + 1, item)
    {
      item.next := i.next;
      if i.next != null {
        assert i.next == items[k + 1];
        i.next.prev := item;
      }
      i.next := item;
      item.prev := i;
      items := Inserted(items, k + 1, item);
    }

    method UnlinkFront()
      requires Linked() && head != null
      modifies this, items`prev
      ensures Linked() && items == Removed(old(items), 0)
    {
      assert head == items[0];
      head := head.next;
      if head != null {
        assert head == items[1];
        head.prev := null;
      }
      items := items[1..];
    }

    method UnlinkInner(item: Event, ghost k: int)
      requires Linked() && 0 < k < |items| && item == items[k]
      modifies this`items, items`next, items`prev
      ensures Linked() && items == Removed(old(items), k)
    {
      RemovedElements(items, k);
      var p, n := item.prev, item.next;
      assert p == items[k - 1];
      p.next := n;
      if n != null {
        assert n == items[k + 1];
        n.prev := p;
      }
      items := Removed(items, k);
    }

    method DeQueue() returns (item: Event?)
      requires Valid()
      modifies this, items`prev
      ensures Valid()
      ensures item == null <==> old(items) == []
      ensures item != null ==> old(items) == [item] + items && old(IsEarliest(item, Contents()))
      ensures Contents() == old(Contents()) - (if item == null then {} else {item})
    {
      if head == null {
        return null;
      }
      item := head;
      RemovedElements(items, 0);
      UnlinkFront();
    }

    /** Delete of a queued event, wherever in the list it is, or of null. */
    method Delete(item: Event?, ghost k: int)
      requires Valid() && (item != null ==> 0 <= k < |items| && item == items[k])
      modifies this, items`next, items`prev
      ensures Valid()
      ensures items == if item == null then old(items) else Removed(old(items), k)
      ensures Contents() == old(Contents()) - (if item == null then {} else {item})
    {
      if item == null {
        return;
      }
      RemovedElements(items, k);
      if item == head {
        UnlinkFront();
      } else {
        UnlinkInner(item, k);
      }
    }
  }
}
