/** FlowQueue of robustfairblue.cc: a singly linked list that remembers the
    flows seen last, driven by enque alone. */
module FlowQueues {

  class FlowQueueItem {
    var flowId: nat
    var lastPktTime: real
    var next: FlowQueueItem?

    constructor (flowId: nat, lastPktTime: real)
      ensures this.flowId == flowId && this.lastPktTime == lastPktTime && next == null
    {
      this.flowId, this.lastPktTime, this.next := flowId, lastPktTime, null;
    }
  }

  datatype Flow = Flow(id: nat, time: real)

  /** The list without flow id. */
  function Without(flows: seq<Flow>, id: nat): seq<Flow> {
    if flows == [] then []
    else if flows[0].id == id then Without(flows[1..], id)
    else [flows[0]] + Without(flows[1..], id)
  }

  /** A bounded list of the flows used last, least recent first. */
  function Used(flows: seq<Flow>, f: Flow, bound: int): seq<Flow> {
    var longer := Without(flows, f.id) + [f];
    if |longer| > bound then longer[1..] else longer
  }

  ghost predicate NoRepeats(flows: seq<Flow>) {
    forall i, j :: 0 <= i < j < |flows| ==> flows[i].id != flows[j].id
  }

  lemma {:induction false} WithoutKeeps(flows: seq<Flow>, id: nat)
    ensures |Without(flows, id)| <= |flows|
    ensures forall f :: f in Without(flows, id) <==> f in flows && f.id != id
    ensures NoRepeats(flows) ==> NoRepeats(Without(flows, id))
  {
    if flows != [] {
      WithoutKeeps(flows[1..], id);
      assert flows == [flows[0]] + flows[1..];
      if NoRepeats(flows) && flows[0].id != id {
        var rest := Without(flows[1..], id);
        forall j | 0 <= j < |rest|
          ensures rest[j].id != flows[0].id
        {
          assert rest[j] in flows[1..];
        }
      }
    }
  }

  /** With no repeats, taking out the one flow is leaving one place out. */
  lemma {:induction false} WithoutAt(flows: seq<Flow>, id: nat, k: int)
    requires NoRepeats(flows) && 0 <= k < |flows| && flows[k].id == id
    ensures Without(flows, id) == flows[..k] + flows[k + 1..]
  {
    if k == 0 {
      WithoutNone(flows[1..], id);
    } else {
      WithoutAt(flows[1..], id, k - 1);
      assert flows[..k] == [flows[0]] + flows[1..][..k - 1];
    }
  }

  /** A flow put at the end and taken out where it was has moved to the end. */
  lemma Moved(flows: seq<Flow>, f: Flow, k: int)
    requires NoRepeats(flows) && 0 <= k < |flows| && flows[k].id == f.id
    ensures (flows + [f])[..k] + (flows + [f])[k + 1..] == Without(flows, f.id) + [f]
  {
    WithoutAt(flows, f.id, k);
  }

  lemma DropFirst(flows: seq<Flow>)
    requires flows != []
    ensures flows[..0] + flows[1..] == flows[1..]
  {
  }

  lemma {:induction false} WithoutNone(flows: seq<Flow>, id: nat)
    requires forall i :: 0 <= i < |flows| ==> flows[i].id != id
    ensures Without(flows, id) == flows
  {
    if flows != [] {
      WithoutNone(flows[1..], id);
    }
  }

  /** The flow used last is kept, nothing is kept twice, and never too many. */
  lemma UsedKeeps(flows: seq<Flow>, f: Flow, bound: int)
    requires NoRepeats(flows) && |flows| <= bound && 0 < bound
    ensures NoRepeats(Used(flows, f, bound)) && |Used(flows, f, bound)| <= bound
    ensures Used(flows, f, bound)[|Used(flows, f, bound)| - 1] == f
    ensures forall g :: g in Used(flows, f, bound) ==> g == f || (g in flows && g.id != f.id)
  {
    WithoutKeeps(flows, f.id);
    var longer := Without(flows, f.id) + [f];
    forall i, j | 0 <= i < j < |longer|
      ensures longer[i].id != longer[j].id
    {
      if j == |longer| - 1 {
        assert longer[i] in Without(flows, f.id);
      }
    }
    forall g | g in longer[1..]
      ensures g in longer
    {
    }
  }

  class FlowQueue {
    var size: int
    const maxsize: int
    var head: FlowQueueItem?
    var tail: FlowQueueItem?
    ghost var items: seq<FlowQueueItem>

    ghost function Nodes(): set<FlowQueueItem>
      reads this
    {
      set x | x in items
    }

    ghost predicate Linked()
      reads this, items
    {
      && size == |items| && head == (if items == [] then null else items[0])
      && (forall i {:trigger items[i].next} :: 0 <= i < |items| ==>
            items[i].next == (if i + 1 < |items| then items[i + 1] else null))
      && (forall i, j :: 0 <= i < j < |items| ==> items[i] != items[j])
    }

    ghost predicate TailIsLast()
      reads this
    {
      tail == if items == [] then null else items[|items| - 1]
    }

    ghost function Flows(): seq<Flow>
      reads this, items
    {
      seq(|items|, i requires 0 <= i < |items| reads this, items => Flow(items[i].flowId, items[i].lastPktTime))
    }

    ghost predicate Valid()
      reads this, items
    {
      && 0 < maxsize && Linked() && TailIsLast() && size <= maxsize && NoRepeats(Flows())
    }

    constructor (msize: int)
      ensures maxsize == msize && items == [] && (0 < msize ==> Valid())
    {
      size, head, tail, maxsize, items := 0, null, null, msize, [];
    }

    /** The place of the first item with this flow id, or -1. */
    method Find(flowId: nat) returns (index: int)
      requires Linked()
      ensures -1 <= index < |items|
      ensures index >= 0 ==> items[index].flowId == flowId
      ensures index < 0 ==> forall i :: 0 <= i < |items| ==> items[i].flowId != flowId
    {
      index := -1;
      if size > 0 {
        var p := head;
        var i := 0;
        while i < size
          invariant 0 <= i <= size && p == (if i < |items| then items[i] else null)
          invariant forall j :: 0 <= j < i ==> items[j].flowId != flowId
        {
          if flowId == p.flowId {
            index := i;
            break;
          }
          p := p.next;
          i := i + 1;
        }
      }
    }

    /** Takes out the item at a place, if there is one; a negative index takes
        out the second item, and with fewer items it would follow a null
        pointer.  Afterwards the tail is still the last item, unless the last
        item was the one taken out. */
    method Deque(index: int) returns (taken: Flow)
      requires Linked() && (index < 0 ==> 2 <= size)
      modifies this`size, this`head, this`items, Nodes()`next
      ensures Linked() && Nodes() <= old(Nodes())
      ensures index >= |old(Flows())| ==> Flows() == old(Flows()) && items == old(items) && taken == Flow(0, -1.0)
      ensures var i := if index < 0 then 1 else index;
        i < |old(Flows())| ==> taken == old(Flows())[i] && Flows() == old(Flows())[..i] + old(Flows())[i + 1..]
      ensures old(TailIsLast()) ==> (TailIsLast() <==> (if index < 0 then 1 else index) != |old(Flows())| - 1)
    {
      hide *;
      Counts();
      taken := Flow(0, -1.0);
      if index == 0 && size > 0 {
        taken := DequeFront();
      } else if index < size {
        taken := DequeInner(index);
      }
    }

    method DequeFront() returns (taken: Flow)
      requires Linked() && 0 < |Flows()|
      modifies this`size, this`head, this`items
      ensures Linked() && Nodes() <= old(Nodes())
      ensures taken == old(Flows())[0] && Flows() == old(Flows())[..0] + old(Flows())[1..]
      ensures old(TailIsLast()) ==> (TailIsLast() <==> |old(Flows())| != 1)
    {
      taken := Flow(head.flowId, head.lastPktTime);
      head := head.next;
      size := size - 1;
      items := items[1..];
    }

    method DequeInner(index: int) returns (taken: Flow)
      requires Linked() && index != 0 && index < |Flows()| && (index < 0 ==> 2 <= |Flows()|)
      modifies this`size, this`items, Nodes()`next
      ensures Linked() && Nodes() <= old(Nodes())
      ensures var i := if index < 0 then 1 else index;
        taken == old(Flows())[i] && Flows() == old(Flows())[..i] + old(Flows())[i + 1..]
      ensures old(TailIsLast()) ==> (TailIsLast() <==> (if index < 0 then 1 else index) != |old(Flows())| - 1)
    {
      var prior := head;
      var i := 0;
      while i < index - 1
        invariant 0 <= i && (i == 0 || i <= index - 1) && prior == items[i] && i < |items| - 1
      {
        prior := prior.next;
        i := i + 1;
      }
      assert prior == items[i] && prior.next == items[i + 1];
      var p := prior.next;
      taken := Flow(p.flowId, p.lastPktTime);
      Unlink(prior, i + 1);
      assert items == old(items)[..i + 1] + old(items)[i + 2..];
    }

    /** Takes the item behind prior out of the list. */
    method Unlink(prior: FlowQueueItem, ghost i: int)
      requires Linked() && 0 < i < |items| && prior == items[i - 1]
      modifies this`size, this`items, Nodes()`next
      ensures Linked() && items == old(items)[..i] + old(items)[i + 1..]
    {
      ghost var rest := items[..i] + items[i + 1..];
      assert prior.next == items[i];
      assert forall j :: 0 <= j < |rest| ==> rest[j] == items[if j < i then j else j + 1];
      prior.next := prior.next.next;
      size := size - 1;
      items := rest;
    }

    /** Puts a new item at the end. */
    method Append(item: FlowQueueItem)
      requires Linked() && TailIsLast() && item !in items && item.next == null
      modifies this`size, this`head, this`tail, this`items, Nodes()`next
      ensures Linked() && TailIsLast() && Nodes() == old(Nodes()) + {item}
      ensures Flows() == old(Flows()) + [Flow(item.flowId, item.lastPktTime)]
    {
      if tail == null {
        tail := item;
      } else {
        tail.next := item;
        tail := item;
      }
      if head == null {
        head := item;
      }
      size := size + 1;
      items := items + [item];
    }

    /** The flow goes to the end, and from where it was. */
    method MoveToEnd(flowId: nat, lastPktTime: real)
      requires Linked() && TailIsLast() && NoRepeats(Flows())
      modifies this`size, this`head, this`tail, this`items, Nodes()`next
      ensures Linked() && TailIsLast()
      ensures Flows() == Without(old(Flows()), flowId) + [Flow(flowId, lastPktTime)]
      ensures fresh(Nodes() - old(Nodes()))
    {
      hide *;
      ghost var f, before := Flow(flowId, lastPktTime), Flows();
      Counts();
      var item := new FlowQueueItem(flowId, lastPktTime);
      var index := Find(flowId);
      Append(item);
      if index >= 0 {
        Moved(before, f, index);
        var taken := Deque(index);
      } else {
        WithoutNone(before, flowId);
      }
    }

    /** Remembers a flow: it becomes the one used last, and the one used least
        recently goes if there is no room. */
    method Enque(flowId: nat, lastPktTime: real) returns (n: int)
      requires Valid()
      modifies this`size, this`head, this`tail, this`items, Nodes()`next
      ensures Valid() && n == |Flows()|
      ensures Flows() == Used(old(Flows()), Flow(flowId, lastPktTime), maxsize)
    {
      hide *;
      ghost var f, before := Flow(flowId, lastPktTime), Flows();
      Sizes();
      UsedKeeps(before, f, maxsize);
      UsedIs(before, f, maxsize);
      MoveToEnd(flowId, lastPktTime);
      Counts();
      if size > maxsize {
        DropFirst(Flows());
        var taken := Deque(0);
      }
      NowValid();
      n := size;
    }

    lemma Sizes()
      requires Valid()
      ensures 0 < maxsize && Linked() && TailIsLast() && NoRepeats(Flows())
      ensures size == |items| == |Flows()| <= maxsize
    {
    }

    lemma Counts()
      requires Linked()
      ensures size == |items| == |Flows()|
      ensures forall i :: 0 <= i < |items| ==> Flows()[i] == Flow(items[i].flowId, items[i].lastPktTime)
    {
    }

    lemma NowValid()
      requires 0 < maxsize && Linked() && TailIsLast() && |Flows()| <= maxsize && NoRepeats(Flows())
      ensures Valid() && size == |Flows()|
    {
    }
  }

  lemma UsedIs(flows: seq<Flow>, f: Flow, bound: int)
    ensures Used(flows, f, bound) ==
      if |Without(flows, f.id) + [f]| > bound then (Without(flows, f.id) + [f])[1..] else Without(flows, f.id) + [f]
  {
  }
}
