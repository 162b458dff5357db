/** HeapQueue of priority_q.h: an implicit binary heap in a growing array,
    where every queued event knows its own position. */
module HeapQueues {
  import opened Events

  function Parent(j: int): int {
    (j - 1) / 2
  }

  /** Position j is not earlier than its parent. */
  ghost predicate Ordered(ks: seq<real>, j: int) {
    0 < j < |ks| ==> ks[Parent(j)] <= ks[j]
  }

  ghost predicate HeapOrdered(ks: seq<real>) {
    forall j :: Ordered(ks, j)
  }

  /** Ordered everywhere, except that position i may be earlier than its parent. */
  ghost predicate LowAt(ks: seq<real>, i: int) {
    (forall j :: j != i ==> Ordered(ks, j)) && Bridged(ks, i)
  }

  /** Ordered everywhere, except that position i may be later than its
      children, and position node earlier than its parent. */
  ghost predicate HighAt(ks: seq<real>, node: int, i: int) {
    && (forall j :: j != node && Parent(j) != i ==> Ordered(ks, j))
    && (i != node ==> Ordered(ks, node))
    && Bridged(ks, i)
  }

  /** The parent of i is not later than i's children. */
  ghost predicate Bridged(ks: seq<real>, i: int) {
    forall j :: 0 < i < j < |ks| && Parent(j) == i ==> ks[Parent(i)] <= ks[j]
  }

  lemma RootIsLeast(ks: seq<real>, j: int)
    requires HeapOrdered(ks) && 0 <= j < |ks|
    ensures ks[0] <= ks[j]
  {
    if j > 0 {
      assert Ordered(ks, j);
      RootIsLeast(ks, Parent(j));
    }
  }

  ghost function Swapped(ks: seq<real>, i: int, k: int): seq<real>
    requires 0 <= i < |ks| && 0 <= k < |ks|
  {
    ks[i := ks[k]][k := ks[i]]
  }

  /** Position c holds the least key of position i and its two children. */
  ghost predicate LeastOfFamily(ks: seq<real>, i: int, c: int)
    requires 0 <= i < |ks| && 0 <= c < |ks|
  {
    && ks[c] <= ks[i]
    && (2 * i + 1 < |ks| ==> ks[c] <= ks[2 * i + 1])
    && (2 * i + 2 < |ks| ==> ks[c] <= ks[2 * i + 2])
  }

  /** Exchanging i with its least child c moves the disorder down to c. */
  lemma SinkStep(ks: seq<real>, node: int, i: int, c: int)
    requires 0 <= node <= i < c < |ks| && c - 2 * i in {1, 2}
    requires HighAt(ks, node, i)
    requires LeastOfFamily(ks, i, c) && ks[c] < ks[i]
    ensures HighAt(Swapped(ks, i, c), node, c)
  {
    var ks' := Swapped(ks, i, c);
    assert Parent(c) == i;
    forall j | j != node && Parent(j) != c && 0 < j < |ks|
      ensures Ordered(ks', j)
    {
      if j == i {
        assert ks[Parent(i)] <= ks[c];
      } else if Parent(j) == i {
        assert j == 2 * i + 1 || j == 2 * i + 2;
      } else {
        assert Ordered(ks, j);
      }
    }
    forall j | 0 < c < j < |ks| && Parent(j) == c
      ensures ks'[Parent(c)] <= ks'[j]
    {
      assert Parent(j) != i;
      assert Ordered(ks, j);
    }
  }

  lemma SinkDone(ks: seq<real>, node: int, i: int)
    requires 0 <= node <= i && HighAt(ks, node, i)
    requires i < |ks| ==> LeastOfFamily(ks, i, i)
    ensures LowAt(ks, node)
  {
    assert forall j :: 0 < j < |ks| && Parent(j) == i ==> j == 2 * i + 1 || j == 2 * i + 2;
    forall j | j != node
      ensures Ordered(ks, j)
    {
      if Parent(j) != i {
        assert Ordered(ks, j);
      }
    }
    if i != node {
      forall j | 0 < node < j < |ks| && Parent(j) == node
        ensures ks[Parent(node)] <= ks[j]
      {
        assert Ordered(ks, j) && Ordered(ks, node);
      }
    }
  }

  /** Exchanging i with its later parent moves the disorder up to the parent. */
  lemma RiseStep(ks: seq<real>, i: int)
    requires 0 < i < |ks| && LowAt(ks, i) && ks[i] < ks[Parent(i)]
    ensures LowAt(Swapped(ks, i, Parent(i)), Parent(i))
  {
    var p := Parent(i);
    var ks' := Swapped(ks, i, p);
    forall j | j != p && 0 < j < |ks|
      ensures Ordered(ks', j)
    {
      if j != i {
        assert Ordered(ks, j);
      }
    }
    forall j | 0 < p < j < |ks| && Parent(j) == p
      ensures ks'[Parent(p)] <= ks'[j]
    {
      assert Ordered(ks, p);
      assert j != i ==> Ordered(ks, j);
    }
  }

  lemma RiseDone(ks: seq<real>, i: int)
    requires LowAt(ks, i) && Ordered(ks, i)
    ensures HeapOrdered(ks)
  {
    forall j ensures Ordered(ks, j) {
      if j != i {
        assert Ordered(ks, j);
      }
    }
  }

  /** Overwriting position i of a heap by its last key leaves the disorder at i. */
  lemma Overwrite(ks: seq<real>, i: int)
    requires HeapOrdered(ks) && 0 <= i < |ks|
    ensures HighAt(ks[i := ks[|ks| - 1]][..|ks| - 1], i, i)
  {
    var ks' := ks[i := ks[|ks| - 1]][..|ks| - 1];
    forall j | j != i && Parent(j) != i
      ensures Ordered(ks', j)
    {
      assert Ordered(ks, j);
    }
    forall j | 0 < i < j < |ks'| && Parent(j) == i
      ensures ks'[Parent(i)] <= ks'[j]
    {
      assert Ordered(ks, j) && Ordered(ks, i);
    }
  }

  lemma Append(ks: seq<real>, t: real)
    requires HeapOrdered(ks)
    ensures LowAt(ks + [t], |ks|)
  {
    forall j | j != |ks| ensures Ordered(ks + [t], j) {
      assert Ordered(ks, j);
    }
  }

  class HeapQueue {
    var elems: array<Event?>
    var numElems: int
    ghost var contents: set<Event>
    ghost var keys: seq<real>       // the times at the positions in use

    /** The array and the back-pointers describe one bijection between the
        positions below numElems and the queued events. */
    ghost predicate Indexed()
      reads this, elems, contents
    {
      && 0 <= numElems <= elems.Length && 0 < elems.Length
      && |keys| == numElems
      && (forall i :: 0 <= i < numElems ==>
            elems[i] in contents && elems[i].pos == i && elems[i].time == keys[i])
      && (forall e :: e in contents ==> 0 <= e.pos < numElems && elems[e.pos] == e)
    }

    ghost predicate Valid()
      reads this, elems, contents
    {
      Indexed() && HeapOrdered(keys)
    }

    constructor ()
      ensures Valid() && contents == {} && fresh(elems) && elems.Length == 16
    {
      elems := new Event?[16](_ => null);
      numElems := 0;
      contents, keys := {}, [];
    }

    method Swap(i: int, k: int)
      requires Indexed() && 0 <= i < numElems && 0 <= k < numElems && i != k
      modifies this`keys, elems, contents`pos
      ensures Indexed() && keys == Swapped(old(keys), k, i)
      ensures forall j :: numElems <= j < elems.Length ==> elems[j] == old(elems[j])
    {
      var temp := elems[i];
      elems[i] := elems[k];
      elems[k] := temp;
      elems[k].pos := k;
      elems[i].pos := i;
      keys := Swapped(keys, k, i);
    }

    /** The two comparisons of the loop of SiftDown. */
    method LeastChild(k: int) returns (i: int)
      requires Indexed() && 0 <= k <= numElems
      ensures k < numElems ==> k <= i < numElems && LeastOfFamily(keys, k, i)
      ensures i != k ==> i - 2 * k in {1, 2} && i < numElems && keys[i] < keys[k]
    {
      var c1, c2 := 2 * k + 1, 2 * k + 2;
      i := k;
      if c1 < numElems && elems[c1].time < elems[i].time {
        i := c1;
      }
      if c2 < numElems && elems[c2].time < elems[i].time {
        i := c2;
      }
    }

    method SiftDown(node: int)
      requires Indexed() && 0 <= node <= numElems && HighAt(keys, node, node)
      modifies this`keys, elems, contents`pos
      ensures Indexed() && LowAt(keys, node)
      ensures node == numElems ==> keys == old(keys)
      ensures forall j :: numElems <= j < elems.Length ==> elems[j] == old(elems[j])
    {
      hide HighAt, LowAt, LeastOfFamily;
      if numElems <= 1 {
        SinkDone(keys, node, node);
        return;
      }
      var i := node;
      while true
        invariant Indexed() && node <= i <= numElems && HighAt(keys, node, i)
        invariant node == numElems ==> keys == old(keys)
        invariant forall j :: numElems <= j < elems.Length ==> elems[j] == old(elems[j])
        decreases numElems - i
      {
        var k := i;
        i := LeastChild(k);
        if k == i {
          SinkDone(keys, node, i);
          break;
        }
        SinkStep(keys, node, k, i);
        Swap(i, k);
      }
    }

    method PercolateUp(node: int)
      requires Indexed() && 0 <= node <= numElems && LowAt(keys, node)
      requires node == numElems > 0 ==>
        node < elems.Length && elems[node] != null && keys[Parent(node)] <= elems[node].time
      modifies this`keys, elems, contents`pos
      ensures Valid()
    {
      var i := node;
      while true
        invariant Indexed() && 0 <= i <= numElems && LowAt(keys, i)
        invariant i == numElems > 0 ==>
          i < elems.Length && elems[i] != null && keys[Parent(i)] <= elems[i].time
        decreases i
      {
        var k := i;
        var p := (i + 1) / 2;
        if p != 0 {
          p := p - 1;
          assert p == Parent(k);
          if elems[i].time < elems[p].time {
            i := p;
            RiseStep(keys, k);
            Swap(i, k);
          }
        }
        if k == i {
          RiseDone(keys, i);
          break;
        }
      }
    }

    method EnQueue(item: Event)
      requires Valid() && item !in contents
      modifies this, elems, contents`pos, item`pos
      ensures Valid() && (elems == old(elems) || fresh(elems))
      ensures contents == old(contents) + {item}
    {
      if numElems >= elems.Length {
        Grow();
      }
      Append(keys, item.time);
      elems[numElems] := item;
      item.pos := numElems;
      numElems := numElems + 1;
      contents := contents + {item};
      keys := keys + [item.time];
      PercolateUp(numElems - 1);
    }

    method Grow()
      requires Valid()
      modifies this`elems
      ensures Valid() && fresh(elems) && elems.Length == 2 * old(elems.Length)
    {
      var buffer := new Event?[2 * elems.Length](_ => null);
      for i := 0 to numElems
        invariant unchanged(this) && unchanged(elems)
        invariant forall j :: 0 <= j < i ==> buffer[j] == elems[j]
      {
        buffer[i] := elems[i];
      }
      elems := buffer;
    }

    method DeQueue() returns (item: Event?)
      requires Valid()
      modifies this`numElems, this`contents, this`keys, elems, contents`pos
      ensures Valid()
      ensures item == null <==> old(contents) == {}
      ensures item != null ==> item in old(contents) && old(IsEarliest(item, contents))
      ensures contents == old(contents) - (if item == null then {} else {item})
    {
      if numElems <= 0 {
        return null;
      }
      item := elems[0];
      forall e | e in contents
        ensures item.time <= e.time
      {
        RootIsLeast(keys, e.pos);
      }
      RemoveAt(0);
      SiftDown(0);
      RiseDone(keys, 0);
    }

    /** The three statements that DeQueue and Delete share. */
    method RemoveAt(i: int)
      requires Valid() && 0 <= i < numElems
      modifies this`numElems, this`contents, this`keys, elems, contents`pos
      ensures Indexed() && numElems == old(numElems) - 1 && HighAt(keys, i, i)
      ensures contents == old(contents) - {old(elems[i])}
      ensures i == numElems ==> elems[i] == old(elems[i])
      ensures i == numElems > 0 ==> keys[Parent(i)] <= elems[i].time
    {
      Overwrite(keys, i);
      assert Ordered(keys, i);
      hide HeapOrdered, HighAt, LowAt;
      contents := contents - {elems[i]};
      numElems := numElems - 1;
      elems[i] := elems[numElems];
      elems[i].pos := i;
      keys := keys[i := keys[numElems]][..numElems];
    }

    /** Delete of a queued event; it may be the one in the last position. */
    method Delete(item: Event)
      requires Valid() && item in contents
      modifies this`numElems, this`contents, this`keys, elems, contents`pos
      ensures Valid()
      ensures contents == old(contents) - {item}
    {
      var i := item.pos;
      RemoveAt(i);
      SiftDown(i);
      PercolateUp(i);
    }
  }
}
