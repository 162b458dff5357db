/** The events that the simulator's priority queues hold, and what all three
    queues must do with them: hold a set of pending events from which a
    dequeue takes one of minimum time.  An event object is in a queue at most
    once, so a set of objects says how often each is queued. */
module Events {

  class Event {
    var time: real
    var next: Event?
    var prev: Event?
    var pos: int

    constructor (t: real)
      ensures time == t
    {
      time := t;
      next, prev, pos := null, null, 0;
    }
  }

  /** In order of time. */
  ghost predicate Sorted(s: seq<Event>)
    reads s`time
  {
    forall i, j :: 0 <= i <= j < |s| ==> s[i].time <= s[j].time
  }

  ghost predicate Distinct<T>(s: seq<T>) {
    forall i, j :: 0 <= i < j < |s| ==> s[i] != s[j]
  }

  ghost function Inserted<T>(s: seq<T>, k: int, x: T): seq<T>
    requires 0 <= k <= |s|
  {
    s[..k] + [x] + s[k..]
  }

  ghost function Removed<T>(s: seq<T>, k: int): seq<T>
    requires 0 <= k < |s|
  {
    s[..k] + s[k + 1..]
  }

  ghost function Elements<T>(s: seq<T>): set<T> {
    set x | x in s
  }

  lemma ElementsNil<T>()
    ensures Elements<T>([]) == {}
  {
  }

  lemma ElementsCons<T>(x: T, s: seq<T>)
    ensures Elements([x] + s) == {x} + Elements(s)
  {
    assert forall y :: y in [x] + s <==> y == x || y in s;
  }

  /** Where both linked-list insertions put an event.  It is compared with the
      front by `<` and with every later event by `>`, so among equal times the
      newcomer goes behind the front but ahead of all others: neither
      first-in-first-out nor last-in-first-out. */
  ghost predicate IsInsertionPoint(s: seq<Event>, item: Event, k: int)
    reads s`time, item`time
  {
    && 0 <= k <= |s|
    && (k == 0 <==> s == [] || item.time < s[0].time)
    && (forall i :: 1 <= i < k ==> s[i].time < item.time)
    && (0 < k < |s| ==> item.time <= s[k].time)
  }

  lemma InsertionKeepsSorted(s: seq<Event>, item: Event, k: int)
    requires Sorted(s) && IsInsertionPoint(s, item, k)
    ensures Sorted(Inserted(s, k, item))
  {
  }

  lemma InsertedElements<T>(s: seq<T>, k: int, x: T)
    requires 0 <= k <= |s| && x !in s && Distinct(s)
    ensures Elements(Inserted(s, k, x)) == Elements(s) + {x}
    ensures Distinct(Inserted(s, k, x))
  {
    var s' := Inserted(s, k, x);
    forall y | y in Elements(s) + {x}
      ensures y in s'
    {
      if y == x {
        assert s'[k] == x;
      } else {
        var i :| 0 <= i < |s| && s[i] == y;
        assert s'[if i < k then i else i + 1] == y;
      }
    }
  }

  lemma RemovedElements<T>(s: seq<T>, k: int)
    requires 0 <= k < |s| && Distinct(s)
    ensures Elements(Removed(s, k)) == Elements(s) - {s[k]}
    ensures Distinct(Removed(s, k))
  {
    var s' := Removed(s, k);
    forall y | y in Elements(s) - {s[k]}
      ensures y in s'
    {
      var i :| 0 <= i < |s| && s[i] == y;
      assert s'[if i < k then i else i - 1] == y;
    }
  }

  /** e may be returned by a dequeue from the pending set s. */
  ghost predicate IsEarliest(e: Event, s: set<Event>)
    reads s`time
  {
    e in s && forall x :: x in s ==> e.time <= x.time
  }
}
