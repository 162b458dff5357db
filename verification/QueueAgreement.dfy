/** What the simulator may assume of whichever queue it is built with: every
    dequeue gives one of the earliest events.  Driven by the same operations,
    all three queues dequeue the same events in the same order if no two events
    have the same time.  If some do, they still dequeue the same times in the
    same order, as long as every event is queued once and none is deleted. */
module QueueAgreement {
  import opened Events
  import opened SimpleQueues
  import opened HeapQueues
  import opened CalendarQueues

  /** What the owner of numbered events may do.  An event is queued at most
      once: owners keep a flag for each, and queue an event only while its flag
      is down and delete it only while its flag is up. */
  datatype Operation = EnQueue(event: nat) | Delete(event: nat) | DeQueue

  datatype Answer = Nothing | Event(event: nat)

  ghost predicate Runnable(times: seq<real>, ops: seq<Operation>) {
    forall k :: 0 <= k < |ops| ==> ops[k].DeQueue? || ops[k].event < |times|
  }

  ghost predicate NoTies(times: seq<real>) {
    forall i, j :: 0 <= i < j < |times| ==> times[i] != times[j]
  }

  /** What is pending after a run in which the dequeues gave these answers. */
  ghost function Left(times: seq<real>, ops: seq<Operation>, answers: seq<Answer>): (pending: set<nat>)
    requires Runnable(times, ops)
    ensures forall i :: i in pending ==> i < |times|
  {
    if ops == [] then {}
    else
      var first := ops[..|ops| - 1];
      match ops[|ops| - 1]
      case EnQueue(i) => Left(times, first, answers) + {i}
      case Delete(i) => Left(times, first, answers) - {i}
      case DeQueue =>
        if answers == [] then Left(times, first, [])
        else Left(times, first, answers[..|answers| - 1]) - Given(answers[|answers| - 1])
  }

  ghost function Given(a: Answer): set<nat> {
    if a == Nothing then {} else {a.event}
  }

  /** A dequeue may give this answer: one of the earliest pending events. */
  ghost predicate MayAnswer(times: seq<real>, pending: set<nat>, a: Answer)
    requires forall i :: i in pending ==> i < |times|
  {
    match a
    case Nothing => pending == {}
    case Event(i) => i in pending && forall j :: j in pending ==> times[i] <= times[j]
  }

  /** Every dequeue of the run gave an answer that it may give. */
  ghost predicate Possible(times: seq<real>, ops: seq<Operation>, answers: seq<Answer>)
    requires Runnable(times, ops)
  {
    if ops == [] then answers == []
    else
      var first := ops[..|ops| - 1];
      if !ops[|ops| - 1].DeQueue? then Possible(times, first, answers)
      else
        answers != [] &&
        var before := answers[..|answers| - 1];
        Possible(times, first, before) && MayAnswer(times, Left(times, first, before), answers[|answers| - 1])
  }

  /** Without ties the answers are those of the reference. */
  lemma {:induction false} Determined(times: seq<real>, ops: seq<Operation>, answers: seq<Answer>)
    requires Runnable(times, ops) && NoTies(times) && Possible(times, ops, answers)
    ensures answers == Answers(times, ops) && Left(times, ops, answers) == Pending(times, ops)
  {
    if ops != [] {
      var first := ops[..|ops| - 1];
      if ops[|ops| - 1].DeQueue? {
        var before, a := answers[..|answers| - 1], answers[|answers| - 1];
        Determined(times, first, before);
        assert answers == before + [a];
        var pending := Pending(times, first);
        if pending != {} {
          var i := Earliest(times, pending);
          assert times[a.event] == times[i];
          assert !(i < a.event) && !(a.event < i);
        }
      } else {
        Determined(times, first, answers);
      }
    }
  }

  /** Every event is queued at most once, and none is deleted. */
  ghost predicate EachOnce(ops: seq<Operation>) {
    && (forall k :: 0 <= k < |ops| ==> !ops[k].Delete?)
    && forall j, k :: 0 <= j < k < |ops| && ops[j].EnQueue? ==> ops[j] != ops[k]
  }

  /** Equal, but for which of several events of the same time it is. */
  ghost predicate SameTimes(times: seq<real>, a: seq<Answer>, b: seq<Answer>) {
    && |a| == |b|
    && forall k :: 0 <= k < |a| ==> SameTime(times, a[k], b[k])
  }

  ghost predicate SameTime(times: seq<real>, a: Answer, b: Answer) {
    a == b == Nothing
    || (a.Event? && b.Event? && a.event < |times| && b.event < |times| && times[a.event] == times[b.event])
  }

  /** The pending events of one time. */
  ghost function Of(times: seq<real>, pending: set<nat>, t: real): set<nat> {
    set i | i in pending && i < |times| && times[i] == t
  }

  lemma OfWith(times: seq<real>, pending: set<nat>, i: nat, t: real)
    requires i !in pending && i < |times|
    ensures |Of(times, pending + {i}, t)| == |Of(times, pending, t)| + if times[i] == t then 1 else 0
  {
    assert Of(times, pending + {i}, t) == Of(times, pending, t) + if times[i] == t then {i} else {};
  }

  lemma OfWithout(times: seq<real>, pending: set<nat>, i: nat, t: real)
    requires i in pending && i < |times|
    ensures |Of(times, pending - {i}, t)| == |Of(times, pending, t)| - if times[i] == t then 1 else 0
  {
    OfWith(times, pending - {i}, i, t);
    assert pending - {i} + {i} == pending;
  }

  /** As many events of each time. */
  ghost predicate Alike(times: seq<real>, p: set<nat>, q: set<nat>) {
    forall t :: |Of(times, p, t)| == |Of(times, q, t)|
  }

  /** What is pending has been queued. */
  lemma {:induction false} LeftQueued(times: seq<real>, ops: seq<Operation>, answers: seq<Answer>, i: nat)
    requires Runnable(times, ops) && i in Left(times, ops, answers)
    ensures EnQueue(i) in ops
  {
    var first := ops[..|ops| - 1];
    match ops[|ops| - 1]
    case EnQueue(j) =>
      if j != i {
        LeftQueued(times, first, answers, i);
      }
    case Delete(_) =>
      LeftQueued(times, first, answers, i);
    case DeQueue =>
      LeftQueued(times, first, if answers == [] then [] else answers[..|answers| - 1], i);
  }

  /** From alike pending events a dequeue gives events of the same time, and
      leaves alike ones. */
  lemma AnswersAlike(times: seq<real>, p: set<nat>, q: set<nat>, a: Answer, b: Answer)
    requires forall i :: i in p || i in q ==> i < |times|
    requires Alike(times, p, q) && MayAnswer(times, p, a) && MayAnswer(times, q, b)
    ensures SameTime(times, a, b) && Alike(times, p - Given(a), q - Given(b))
  {
    Witness(times, p, q);
    Witness(times, q, p);
    if a != Nothing {
      forall t
        ensures |Of(times, p - Given(a), t)| == |Of(times, q - Given(b), t)|
      {
        OfWithout(times, p, a.event, t);
        OfWithout(times, q, b.event, t);
      }
    }
  }

  lemma Witness(times: seq<real>, p: set<nat>, q: set<nat>)
    requires (forall i :: i in p || i in q ==> i < |times|) && Alike(times, p, q)
    ensures forall i :: i in p ==> exists j :: j in q && times[j] == times[i]
  {
    forall i | i in p
      ensures exists j :: j in q && times[j] == times[i]
    {
      var of := Of(times, q, times[i]);
      assert i in Of(times, p, times[i]);
      assert |of| > 0;
      var j :| j in of;
    }
  }

  /** Ties or not, runs that queue each event once and delete none dequeue the
      same times. */
  lemma {:induction false} TimesDetermined(times: seq<real>, ops: seq<Operation>, a: seq<Answer>, b: seq<Answer>)
    requires Runnable(times, ops) && EachOnce(ops) && Possible(times, ops, a) && Possible(times, ops, b)
    ensures SameTimes(times, a, b) && Alike(times, Left(times, ops, a), Left(times, ops, b))
  {
    if ops != [] {
      var first := ops[..|ops| - 1];
      match ops[|ops| - 1]
      case EnQueue(i) =>
        TimesDetermined(times, first, a, b);
        var p, q := Left(times, first, a), Left(times, first, b);
        NotYet(times, ops, a, i);
        NotYet(times, ops, b, i);
        forall t
          ensures |Of(times, p + {i}, t)| == |Of(times, q + {i}, t)|
        {
          OfWith(times, p, i, t);
          OfWith(times, q, i, t);
        }
      case DeQueue =>
        var a0, b0 := a[..|a| - 1], b[..|b| - 1];
        TimesDetermined(times, first, a0, b0);
        AnswersAlike(times, Left(times, first, a0), Left(times, first, b0), a[|a| - 1], b[|b| - 1]);
    }
  }

  lemma NotYet(times: seq<real>, ops: seq<Operation>, answers: seq<Answer>, i: nat)
    requires Runnable(times, ops) && EachOnce(ops) && ops != [] && ops[|ops| - 1] == EnQueue(i)
    ensures i !in Left(times, ops[..|ops| - 1], answers)
  {
    if i in Left(times, ops[..|ops| - 1], answers) {
      LeftQueued(times, ops[..|ops| - 1], answers, i);
      assert false;
    }
  }

  /** The pending event with the least time. */
  ghost function Earliest(times: seq<real>, pending: set<nat>): (i: nat)
    requires pending != {} && forall i :: i in pending ==> i < |times|
    ensures i in pending && forall j :: j in pending ==> times[i] <= times[j]
  {
    EarliestExists(times, pending);
    var i :| i in pending && forall j :: j in pending ==> times[i] <= times[j];
    i
  }

  lemma {:induction false} EarliestExists(times: seq<real>, pending: set<nat>)
    requires pending != {} && forall i :: i in pending ==> i < |times|
    ensures exists i :: i in pending && forall j :: j in pending ==> times[i] <= times[j]
    decreases |pending|
  {
    var k :| k in pending;
    var rest := pending - {k};
    if rest != {} {
      EarliestExists(times, rest);
      var i :| i in rest && forall j :: j in rest ==> times[i] <= times[j];
      var least := if times[i] <= times[k] then i else k;
      assert forall j :: j in pending ==> j == k || j in rest;
      assert least in pending && forall j :: j in pending ==> times[least] <= times[j];
    } else {
      assert pending == {k};
    }
  }

  /** The reference: a set of pending events. */
  ghost function Pending(times: seq<real>, ops: seq<Operation>): (pending: set<nat>)
    requires Runnable(times, ops)
    ensures forall i :: i in pending ==> i < |times|
  {
    if ops == [] then {}
    else
      var before := Pending(times, ops[..|ops| - 1]);
      match ops[|ops| - 1]
      case EnQueue(i) => before + {i}
      case Delete(i) => before - {i}
      case DeQueue => if before == {} then {} else before - {Earliest(times, before)}
  }

  ghost function Answers(times: seq<real>, ops: seq<Operation>): seq<Answer>
    requires Runnable(times, ops)
  {
    if ops == [] then []
    else
      var first := ops[..|ops| - 1];
      var pending := Pending(times, first);
      if !ops[|ops| - 1].DeQueue? then Answers(times, first)
      else Answers(times, first) + [if pending == {} then Nothing else Event(Earliest(times, pending))]
  }

  /** Successive dequeues give strictly later events. */
  lemma {:induction false} DequeuesAscend(times: seq<real>, ops: seq<Operation>, i: nat, j: nat)
    requires NoTies(times) && Runnable(times, ops) && Runnable(times, ops + [DeQueue]) && Runnable(times, ops + [DeQueue, DeQueue])
    requires Pending(times, ops) != {} && i == Earliest(times, Pending(times, ops))
    requires Pending(times, ops + [DeQueue]) != {} && j == Earliest(times, Pending(times, ops + [DeQueue]))
    ensures Answers(times, ops + [DeQueue, DeQueue]) == Answers(times, ops) + [Event(i), Event(j)]
    ensures times[i] < times[j]
  {
    var one := ops + [DeQueue];
    assert (ops + [DeQueue, DeQueue])[..|ops| + 1] == one && one[..|ops|] == ops;
    assert Pending(times, one) == Pending(times, ops) - {i};
    assert i != j && (i < j || j < i);
  }

  ghost function Picked(events: seq<Event>, pending: set<nat>): set<Event>
    requires forall i :: i in pending ==> i < |events|
  {
    set i | i in pending :: events[i]
  }

  lemma PickedIs(events: seq<Event>, pending: set<nat>, i: nat)
    requires Distinct(events) && i < |events| && forall j :: j in pending ==> j < |events|
    ensures events[i] in Picked(events, pending) <==> i in pending
    ensures Picked(events, pending + {i}) == Picked(events, pending) + {events[i]}
    ensures Picked(events, pending - {i}) == Picked(events, pending) - {events[i]}
  {
    assert forall j :: j in pending && events[j] == events[i] ==> j == i;
    forall e | e in Picked(events, pending) + {events[i]}
      ensures e in Picked(events, pending + {i})
    {
      if e == events[i] {
        assert i in pending + {i};
      } else {
        var j :| j in pending && events[j] == e;
        assert j in pending + {i};
      }
    }
    forall e | e in Picked(events, pending) - {events[i]}
      ensures e in Picked(events, pending - {i})
    {
      var j :| j in pending && events[j] == e;
      assert j in pending - {i};
    }
  }

  /** The numbered events that a run works on. */
  ghost predicate Numbered(events: seq<Event>, index: map<Event, nat>, times: seq<real>)
    reads events`time
  {
    && Distinct(events) && |events| == |times|
    && (forall i :: 0 <= i < |events| ==> events[i].time == times[i])
    && (forall i :: 0 <= i < |events| ==> events[i] in index && index[events[i]] == i)
  }

  lemma PickedEarliest(events: seq<Event>, index: map<Event, nat>, times: seq<real>, pending: set<nat>, e: Event)
    requires Numbered(events, index, times) && forall i :: i in pending ==> i < |events|
    requires IsEarliest(e, Picked(events, pending))
    ensures e in index && MayAnswer(times, pending, Answer.Event(index[e]))
  {
    var i :| i in pending && events[i] == e;
    forall j | j in pending
      ensures times[i] <= times[j]
    {
      assert events[j] in Picked(events, pending);
    }
  }

  method MakeEvents(times: seq<real>) returns (events: seq<Event>, index: map<Event, nat>)
    ensures Numbered(events, index, times) && fresh(events) && fresh(Elements(events))
  {
    events, index := [], map[];
    for n := 0 to |times|
      invariant Numbered(events, index, times[..n]) && fresh(events)
      invariant forall e :: e in index <==> e in events
    {
      var e := new Event(times[n]);
      events, index := events + [e], index[e := n];
    }
    assert times[..|times|] == times;
  }

  /** One more operation, which a dequeue answers with a. */
  lemma OneMore(times: seq<real>, ops: seq<Operation>, k: int, answers: seq<Answer>, a: Answer)
    requires Runnable(times, ops) && 0 <= k < |ops| && Possible(times, ops[..k], answers)
    ensures var before := Left(times, ops[..k], answers);
      match ops[k]
      case EnQueue(i) => Left(times, ops[..k + 1], answers) == before + {i} && Possible(times, ops[..k + 1], answers)
      case Delete(i) => Left(times, ops[..k + 1], answers) == before - {i} && Possible(times, ops[..k + 1], answers)
      case DeQueue =>
        && Left(times, ops[..k + 1], answers + [a]) == before - Given(a)
        && (MayAnswer(times, before, a) ==> Possible(times, ops[..k + 1], answers + [a]))
  {
    assert ops[..k + 1][..k] == ops[..k];
    assert (answers + [a])[..|answers|] == answers;
  }

  /** An operation takes a queue that holds before to one that holds after;
      e is what a dequeue gives. */
  ghost predicate Applied(op: Operation, events: seq<Event>, before: set<Event>, after: set<Event>, e: Event?)
    requires op.DeQueue? || op.event < |events|
    reads before`time
  {
    match op
    case EnQueue(i) => after == before + {events[i]}
    case Delete(i) => after == before - {events[i]}
    case DeQueue =>
      if e == null then before == after == {}
      else e in before && IsEarliest(e, before) && after == before - {e}
  }

  /** The owners' side of operation k: flags, answers. */
  method Record(times: seq<real>, ops: seq<Operation>, k: int, events: seq<Event>, index: map<Event, nat>,
                queued: seq<bool>, answers: seq<Answer>, ghost before: set<Event>, ghost after: set<Event>, e: Event?)
      returns (queued': seq<bool>, answers': seq<Answer>)
    requires Runnable(times, ops) && 0 <= k < |ops| && Numbered(events, index, times)
    requires Possible(times, ops[..k], answers) && Flags(queued, Left(times, ops[..k], answers)) && |queued| == |times|
    requires before == Picked(events, Left(times, ops[..k], answers))
    requires Applied(ops[k], events, before, after, e)
    ensures Possible(times, ops[..k + 1], answers') && Flags(queued', Left(times, ops[..k + 1], answers'))
    ensures |queued'| == |times|
    ensures after == Picked(events, Left(times, ops[..k + 1], answers')) && after <= Elements(events)
  {
    hide Left, Possible;
    ghost var pending := Left(times, ops[..k], answers);
    PickedNone(events, pending);
    queued', answers' := queued, answers;
    match ops[k]
    case EnQueue(i) =>
      OneMore(times, ops, k, answers, Nothing);
      PickedIs(events, pending, i);
      queued' := queued[i := true];
    case Delete(i) =>
      OneMore(times, ops, k, answers, Nothing);
      PickedIs(events, pending, i);
      queued' := queued[i := false];
    case DeQueue =>
      if e == null {
        OneMore(times, ops, k, answers, Nothing);
        answers' := answers + [Nothing];
      } else {
        PickedEarliest(events, index, times, pending, e);
        var i := index[e];
        OneMore(times, ops, k, answers, Event(i));
        PickedIs(events, pending, i);
        answers' := answers + [Event(i)];
        queued' := queued[i := false];
      }
  }

  ghost predicate Flags(queued: seq<bool>, pending: set<nat>) {
    && (forall i :: i in pending ==> i < |queued|)
    && forall i :: 0 <= i < |queued| ==> (queued[i] <==> i in pending)
  }

  /** The guard of an operation's owner, and that the flag tells the truth. */
  lemma FlagTells(times: seq<real>, ops: seq<Operation>, k: int, events: seq<Event>, index: map<Event, nat>,
                  queued: seq<bool>, pending: set<nat>)
    requires Runnable(times, ops) && 0 <= k < |ops| && Numbered(events, index, times)
    requires Flags(queued, pending) && |queued| == |times|
    requires !ops[k].DeQueue?
    ensures queued[ops[k].event] <==> events[ops[k].event] in Picked(events, pending)
  {
    PickedIs(events, pending, ops[k].event);
  }

  /** One operation on the SimpleQueue, behind its owner's flag. */
  method ApplySimple(queue: SimpleQueue, events: seq<Event>, op: Operation, queued: seq<bool>) returns (e: Event?)
    requires queue.Valid() && |queued| == |events|
    requires op.DeQueue? || (op.event < |events| && (queued[op.event] <==> events[op.event] in queue.Contents()))
    modifies queue, queue.Contents()`next, queue.Contents()`prev, Elements(events)`next, Elements(events)`prev
    ensures queue.Valid()
    ensures Applied(op, events, old(queue.Contents()), queue.Contents(), e)
  {
    hide SimpleQueue.Valid;
    e := null;
    match op
    case EnQueue(i) =>
      if !queued[i] {
        queue.EnQueue(events[i]);
      }
    case Delete(i) =>
      if queued[i] {
        ghost var j := IndexIn(queue.items, events[i]);
        queue.Delete(events[i], j);
      }
    case DeQueue =>
      e := queue.DeQueue();
  }

  method RunSimple(times: seq<real>, ops: seq<Operation>) returns (answers: seq<Answer>)
    requires Runnable(times, ops)
    ensures Possible(times, ops, answers)
  {
    hide Left, Possible, Numbered, SimpleQueue.Valid, Applied;
    var events, index := MakeEvents(times);
    var queue := new SimpleQueue();
    answers := [];
    var queued := seq(|times|, _ => false);
    NothingYet(times, ops);
    PickedNone(events, {});
    EventsOf(events, index, times);
    for k := 0 to |ops|
      invariant queue.Valid() && fresh(queue) && Numbered(events, index, times) && fresh(Elements(events))
      invariant Possible(times, ops[..k], answers)
      invariant Flags(queued, Left(times, ops[..k], answers)) && |queued| == |times|
      invariant queue.Contents() == Picked(events, Left(times, ops[..k], answers)) && queue.Contents() <= Elements(events)
    {
      if !ops[k].DeQueue? {
        FlagTells(times, ops, k, events, index, queued, Left(times, ops[..k], answers));
      }
      ghost var before := queue.Contents();
      var e := ApplySimple(queue, events, ops[k], queued);
      queued, answers := Record(times, ops, k, events, index, queued, answers, before, queue.Contents(), e);
    }
    assert ops[..|ops|] == ops;
  }

  /** One operation on the HeapQueue, behind its owner's flag. */
  method ApplyHeap(queue: HeapQueue, events: seq<Event>, op: Operation, queued: seq<bool>) returns (e: Event?)
    requires queue.Valid() && |queued| == |events|
    requires op.DeQueue? || (op.event < |events| && (queued[op.event] <==> events[op.event] in queue.contents))
    modifies queue, queue.elems, queue.contents`pos, Elements(events)`pos
    ensures queue.Valid() && (queue.elems == old(queue.elems) || fresh(queue.elems))
    ensures Applied(op, events, old(queue.contents), queue.contents, e)
  {
    hide HeapQueue.Valid;
    e := null;
    match op
    case EnQueue(i) =>
      if !queued[i] {
        queue.EnQueue(events[i]);
      }
    case Delete(i) =>
      if queued[i] {
        queue.Delete(events[i]);
      }
    case DeQueue =>
      e := queue.DeQueue();
  }

  method RunHeap(times: seq<real>, ops: seq<Operation>) returns (answers: seq<Answer>)
    requires Runnable(times, ops)
    ensures Possible(times, ops, answers)
  {
    hide Left, Possible, Numbered, HeapQueue.Valid, Applied;
    var events, index := MakeEvents(times);
    var queue := new HeapQueue();
    answers := [];
    var queued := seq(|times|, _ => false);
    NothingYet(times, ops);
    PickedNone(events, {});
    EventsOf(events, index, times);
    for k := 0 to |ops|
      invariant queue.Valid() && fresh(queue) && Numbered(events, index, times) && fresh(Elements(events))
      invariant Possible(times, ops[..k], answers)
      invariant Flags(queued, Left(times, ops[..k], answers)) && |queued| == |times|
      invariant queue.contents == Picked(events, Left(times, ops[..k], answers)) && queue.contents <= Elements(events) && fresh(queue.elems)
    {
      if !ops[k].DeQueue? {
        FlagTells(times, ops, k, events, index, queued, Left(times, ops[..k], answers));
      }
      ghost var before := queue.contents;
      var e := ApplyHeap(queue, events, ops[k], queued);
      queued, answers := Record(times, ops, k, events, index, queued, answers, before, queue.contents, e);
    }
    assert ops[..|ops|] == ops;
  }

  /** One operation on the CalendarQueue, behind its owner's flag. */
  method ApplyCalendar(queue: CalendarQueue, events: seq<Event>, op: Operation, queued: seq<bool>) returns (e: Event?)
    requires queue.Valid() && |queued| == |events|
    requires forall i :: 0 <= i < |events| ==> 0.0 <= events[i].time
    requires op.DeQueue? || (op.event < |events| && (queued[op.event] <==> events[op.event] in queue.Contents()))
    modifies queue, queue.buckets, queue.Contents()`next, Elements(events)`next
    ensures queue.Valid() && (queue.buckets == old(queue.buckets) || fresh(queue.buckets))
    ensures Applied(op, events, old(queue.Contents()), queue.Contents(), e)
  {
    hide CalendarQueue.Valid;
    e := null;
    match op
    case EnQueue(i) =>
      if !queued[i] {
        queue.EnQueue(events[i]);
      }
    case Delete(i) =>
      if queued[i] {
        queue.Delete(events[i]);
      }
    case DeQueue =>
      e := queue.DeQueue();
  }

  method RunCalendar(times: seq<real>, ops: seq<Operation>) returns (answers: seq<Answer>)
    requires Runnable(times, ops) && forall i :: 0 <= i < |times| ==> 0.0 <= times[i]
    ensures Possible(times, ops, answers)
  {
    hide Left, Possible, Numbered, CalendarQueue.Valid, Applied;
    var events, index := MakeEvents(times);
    var queue := new CalendarQueue();
    answers := [];
    var queued := seq(|times|, _ => false);
    NothingYet(times, ops);
    PickedNone(events, {});
    EventsOf(events, index, times);
    for k := 0 to |ops|
      invariant queue.Valid() && fresh(queue) && Numbered(events, index, times) && fresh(Elements(events))
      invariant Possible(times, ops[..k], answers)
      invariant Flags(queued, Left(times, ops[..k], answers)) && |queued| == |times|
      invariant queue.Contents() == Picked(events, Left(times, ops[..k], answers)) && queue.Contents() <= Elements(events) && fresh(queue.buckets)
    {
      EventsOf(events, index, times);
      if !ops[k].DeQueue? {
        FlagTells(times, ops, k, events, index, queued, Left(times, ops[..k], answers));
      }
      ghost var before := queue.Contents();
      var e := ApplyCalendar(queue, events, ops[k], queued);
      queued, answers := Record(times, ops, k, events, index, queued, answers, before, queue.Contents(), e);
    }
    assert ops[..|ops|] == ops;
  }

  /** The three queues agree on every run. */
  method RunAll(times: seq<real>, ops: seq<Operation>)
      returns (simple: seq<Answer>, heap: seq<Answer>, calendar: seq<Answer>)
    requires Runnable(times, ops) && forall i :: 0 <= i < |times| ==> 0.0 <= times[i]
    ensures Possible(times, ops, simple) && Possible(times, ops, heap) && Possible(times, ops, calendar)
    ensures NoTies(times) ==> simple == heap == calendar == Answers(times, ops)
    ensures EachOnce(ops) ==> SameTimes(times, simple, heap) && SameTimes(times, heap, calendar)
  {
    simple := RunSimple(times, ops);
    heap := RunHeap(times, ops);
    calendar := RunCalendar(times, ops);
    if NoTies(times) {
      Determined(times, ops, simple);
      Determined(times, ops, heap);
      Determined(times, ops, calendar);
    }
    if EachOnce(ops) {
      TimesDetermined(times, ops, simple, heap);
      TimesDetermined(times, ops, heap, calendar);
    }
  }

  lemma EventsOf(events: seq<Event>, index: map<Event, nat>, times: seq<real>)
    requires Numbered(events, index, times)
    ensures |events| == |times| && forall i :: 0 <= i < |events| ==> events[i].time == times[i]
  {
  }

  lemma NothingYet(times: seq<real>, ops: seq<Operation>)
    requires Runnable(times, ops)
    ensures Left(times, ops[..0], []) == {} && Possible(times, ops[..0], [])
  {
  }

  lemma PickedNone(events: seq<Event>, pending: set<nat>)
    requires forall j :: j in pending ==> j < |events|
    ensures Picked(events, pending) == {} <==> pending == {}
  {
    if j :| j in pending {
      assert events[j] in Picked(events, pending);
    }
  }

  ghost function IndexIn(s: seq<Event>, e: Event): (j: int)
    requires e in Elements(s)
    ensures 0 <= j < |s| && s[j] == e
  {
    var j :| 0 <= j < |s| && s[j] == e;
    j
  }

  /** Among events of one time a newcomer goes behind the front, but ahead of
      all others. */
  method EnQueueTied(queue: SimpleQueue, item: Event, t: real)
    requires queue.Valid() && item !in queue.items && AllAt(queue.items, t) && item.time == t
    modifies queue, queue.items`next, queue.items`prev, item`next, item`prev
    ensures queue.Valid() && AllAt(queue.items, t)
    ensures queue.items == Inserted(old(queue.items), if old(queue.items) == [] then 0 else 1, item)
  {
    hide SimpleQueue.Valid;
    queue.EnQueue(item);
  }

  ghost predicate AllAt(s: seq<Event>, t: real)
    reads s`time
  {
    forall i :: 0 <= i < |s| ==> s[i].time == t
  }

  /** Dequeues until nothing is left. */
  method Drain(queue: SimpleQueue) returns (out: seq<Event>)
    requires queue.Valid()
    modifies queue, queue.Contents()`prev
    ensures out == old(queue.items)
  {
    hide SimpleQueue.Valid;
    out := [];
    ghost var all := queue.items;
    HeadTells(queue);
    while queue.head != null
      invariant queue.Valid() && out + queue.items == all && (queue.head == null <==> queue.items == [])
      invariant queue.Contents() <= Elements(all)
      decreases |queue.items|
    {
      ghost var before := queue.items;
      var item := queue.DeQueue();
      assert out + before == (out + [item]) + queue.items;
      assert queue.items == before[1..];
      out := out + [item];
      HeadTells(queue);
    }
  }

  lemma HeadTells(queue: SimpleQueue)
    requires queue.Valid()
    ensures queue.head == null <==> queue.items == []
  {
  }

  /** Events of one time leave the list first the first and then the others
      backwards, so in the order in which they came exactly if there are at
      most two of them. */
  method SimpleTies(es: seq<Event>, t: real) returns (out: seq<Event>)
    requires Distinct(es) && AllAt(es, t)
    modifies Elements(es)`next, Elements(es)`prev
    ensures Tied(out, es) && (out == es <==> |es| <= 2)
  {
    hide SimpleQueue.Valid, Tied;
    var queue := new SimpleQueue();
    assert es[..0] == [];
    TiedMore([], es, 0);
    for k := 0 to |es|
      invariant queue.Valid() && Tied(queue.items, es[..k]) && AllAt(queue.items, t) && AllAt(es, t)
      invariant fresh(queue) && Elements(queue.items) <= Elements(es)
    {
      TiedMore(queue.items, es, k);
      AtIs(es, t, k);
      EnQueueTied(queue, es[k], t);
    }
    assert es[..|es|] == es;
    TiedIs(queue.items, es);
    out := Drain(queue);
  }

  /** The first, and then the others backwards. */
  ghost predicate Tied(out: seq<Event>, es: seq<Event>) {
    |out| == |es| && (forall i :: 0 <= i < |es| ==> out[i] == es[if i == 0 then 0 else |es| - i])
  }

  lemma TiedMore(out: seq<Event>, es: seq<Event>, k: int)
    requires Distinct(es) && 0 <= k <= |es|
    ensures Tied([], [])
    ensures k < |es| && Tied(out, es[..k]) ==>
      && es[k] !in out && Tied(Inserted(out, if out == [] then 0 else 1, es[k]), es[..k + 1])
  {
    if k < |es| && Tied(out, es[..k]) {
      var more := Inserted(out, if out == [] then 0 else 1, es[k]);
      assert es[k] !in out by {
        assert forall i :: 0 <= i < k ==> out[i] == es[if i == 0 then 0 else k - i];
      }
      forall i | 0 <= i < |more|
        ensures more[i] == es[..k + 1][if i == 0 then 0 else k + 1 - i]
      {
        if i > 1 {
          assert more[i] == out[i - 1] == es[..k][k - (i - 1)];
        }
      }
    }
  }

  lemma AtIs(es: seq<Event>, t: real, k: int)
    requires AllAt(es, t) && 0 <= k < |es|
    ensures es[k].time == t && es[k] in Elements(es)
  {
  }

  lemma TiedIs(out: seq<Event>, es: seq<Event>)
    requires Distinct(es) && Tied(out, es)
    ensures out == es <==> |es| <= 2
  {
    if |es| > 2 {
      assert out[1] == es[|es| - 1];
    }
  }
}
