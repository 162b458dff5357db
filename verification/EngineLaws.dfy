/** What the operations of handlers come to, said without the recursion that
    computes it: which events are pending, when, and because of what. */
module EngineLaws {
  import opened Engine

  /** Operation i is the last that names e. */
  ghost predicate LastNaming(ops: seq<Operation>, e: EventId, i: int) {
    0 <= i < |ops| && ops[i].event == e && forall j :: i < j < |ops| ==> ops[j].event != e
  }

  ghost predicate Names(ops: seq<Operation>, e: EventId) {
    exists i :: 0 <= i < |ops| && ops[i].event == e
  }

  /** An operation on another event leaves e as it was. */
  lemma OtherOperation(queue: Pending, clock: real, ops: seq<Operation>, e: EventId)
    requires ops != [] && ops[|ops| - 1].event != e
    ensures var before, after := Performed(queue, clock, ops[..|ops| - 1]), Performed(queue, clock, ops);
      (e in after <==> e in before) && (e in before ==> after[e] == before[e])
  {
  }

  /** An event that no operation names is left as it was. */
  lemma {:induction false} UnnamedStays(queue: Pending, clock: real, ops: seq<Operation>, e: EventId)
    requires !Names(ops, e)
    ensures var after := Performed(queue, clock, ops);
      (e in after <==> e in queue) && (e in queue ==> after[e] == queue[e])
  {
    if ops != [] {
      var first := ops[..|ops| - 1];
      assert forall i :: 0 <= i < |first| ==> first[i] == ops[i] && ops[i].event != e;
      UnnamedStays(queue, clock, first, e);
      OtherOperation(queue, clock, ops, e);
    }
  }

  /** The last operation that names an event decides whether it is pending
      afterwards, and when. */
  lemma {:induction false} LastDecides(queue: Pending, clock: real, ops: seq<Operation>, e: EventId, i: int)
    requires LastNaming(ops, e, i)
    ensures var after := Performed(queue, clock, ops);
      match ops[i]
      case Set(_, delay) => e in after && after[e] == clock + delay
      case Cancel(_) => e !in after
  {
    if i < |ops| - 1 {
      var first := ops[..|ops| - 1];
      assert LastNaming(first, e, i);
      LastDecides(queue, clock, first, e, i);
      OtherOperation(queue, clock, ops, e);
    }
  }

  lemma {:induction false} LastExists(ops: seq<Operation>, e: EventId) returns (i: int)
    requires Names(ops, e)
    ensures LastNaming(ops, e, i)
  {
    var n := |ops| - 1;
    if ops[n].event == e {
      i := n;
    } else {
      var j :| 0 <= j < |ops| && ops[j].event == e;
      assert ops[..n][j].event == e;
      i := LastExists(ops[..n], e);
    }
  }

  /** Batch 0 is what the components do at the start, batch k + 1 what the
      handler of activation k does. */
  ghost function Batch(story: Story, k: nat): seq<Operation> {
    if k == 0 then story.start else if k - 1 < |story.script| then story.script[k - 1] else []
  }

  ghost function BatchTime(story: Story, k: nat): real
    requires story.Good()
  {
    if k == 0 || story.Next(k - 1) == Nothing then 0.0 else story.Next(k - 1).due.time
  }

  /** Batch b set e to time t, and up to activation k nothing has named it
      again, nor has it been activated. */
  ghost predicate Stands(story: Story, k: nat, e: EventId, t: real, b: nat)
    requires story.Good()
  {
    && b <= k
    && (exists i :: LastNaming(Batch(story, b), e, i) && Batch(story, b)[i].Set?
          && t == BatchTime(story, b) + Batch(story, b)[i].delay)
    && (forall j: nat :: b < j <= k ==> !Names(Batch(story, j), e))
    && (forall j: nat :: b <= j < k ==> story.Next(j) == Nothing || story.Next(j).due.event != e)
  }

  lemma AfterIs(story: Story, k: nat)
    requires story.Good() && (k > 0 ==> story.Next(k - 1) != Nothing)
    ensures story.After(k) == Performed(Before(story, k), BatchTime(story, k), Batch(story, k))
  {
    hide Performed, Story.After, Story.Next, Story.Good;
    if k > 0 {
      story.AfterOne(k - 1, story.Next(k - 1).due);
    } else {
      AfterStart(story);
    }
  }

  lemma AfterStart(story: Story)
    requires story.Good()
    ensures story.After(0) == Performed(map[], 0.0, story.start)
  {
    hide Performed, Story.Next, Story.Good;
  }

  /** What is pending when batch k begins. */
  ghost function Before(story: Story, k: nat): Pending
    requires story.Good()
  {
    if k == 0 || story.Next(k - 1) == Nothing then map[] else story.After(k - 1) - {story.Next(k - 1).due.event}
  }

  lemma BeforeIs(story: Story, k: nat, e: EventId, t: real)
    requires story.Good() && (k > 0 ==> story.Next(k - 1) != Nothing)
    ensures k == 0 ==> e !in Before(story, k)
    ensures k > 0 ==> (e in Before(story, k) && Before(story, k)[e] == t <==>
      e in story.After(k - 1) && story.After(k - 1)[e] == t && story.Next(k - 1).due.event != e)
    ensures k > 1 ==> story.Next(k - 2) != Nothing
  {
    hide Story.After;
    if k > 1 {
      story.NextIs(k - 1);
    }
  }

  /** An event is pending after k activations exactly because of some batch
      whose setting of it still stands. */
  lemma {:induction false} PendingIff(story: Story, k: nat, e: EventId, t: real)
    requires story.Good() && (k > 0 ==> story.Next(k - 1) != Nothing)
    ensures e in story.After(k) && story.After(k)[e] == t <==> exists b: nat :: Stands(story, k, e, t, b)
    decreases k
  {
    hide Performed, BatchTime, Story.After, Story.Next, Story.Good, Stands, LastNaming, Names, Before;
    AfterIs(story, k);
    if Names(Batch(story, k), e) {
      var i := LastExists(Batch(story, k), e);
      LastDecides(Before(story, k), BatchTime(story, k), Batch(story, k), e, i);
      OnlyNow(story, k, e, t, i);
    } else {
      UnnamedStays(Before(story, k), BatchTime(story, k), Batch(story, k), e);
      BeforeIs(story, k, e, t);
      if k > 0 {
        PendingIff(story, k - 1, e, t);
        Unnamed(story, k, k - 1, e, t);
      } else {
        NeverNamed(story, e, t);
      }
    }
  }

  lemma NeverNamed(story: Story, e: EventId, t: real)
    requires story.Good() && !Names(Batch(story, 0), e)
    ensures !exists b: nat :: Stands(story, 0, e, t, b)
  {
  }

  lemma OnlyNow(story: Story, k: nat, e: EventId, t: real, i: int)
    requires story.Good() && LastNaming(Batch(story, k), e, i)
    ensures (exists b: nat :: Stands(story, k, e, t, b)) <==>
      Batch(story, k)[i].Set? && t == BatchTime(story, k) + Batch(story, k)[i].delay
  {
    hide Story.Next, BatchTime, Story.Good;
    assert Names(Batch(story, k), e);
    if b: nat :| Stands(story, k, e, t, b) {
      assert b == k;
      var j :| LastNaming(Batch(story, b), e, j) && Batch(story, b)[j].Set?
        && t == BatchTime(story, b) + Batch(story, b)[j].delay;
      assert j == i;
    }
    if Batch(story, k)[i].Set? && t == BatchTime(story, k) + Batch(story, k)[i].delay {
      assert Stands(story, k, e, t, k);
    }
  }

  /** A batch that does not name an event leaves its setting standing, unless
      the activation before it was of this event. */
  lemma Unnamed(story: Story, k: nat, j: nat, e: EventId, t: real)
    requires story.Good() && k == j + 1 && story.Next(j) != Nothing && !Names(Batch(story, k), e)
    ensures (exists b: nat :: Stands(story, k, e, t, b)) <==>
      (exists b: nat :: Stands(story, j, e, t, b)) && story.Next(j).due.event != e
  {
    hide Story.After, Story.Next, BatchTime, Story.Good;
    if b: nat :| Stands(story, k, e, t, b) {
      assert b != k;
      assert Stands(story, j, e, t, b);
    }
    if b: nat :| Stands(story, j, e, t, b) && story.Next(j).due.event != e {
      assert Stands(story, k, e, t, b);
    }
  }

  /** Every activation of a run is of an event whose setting stands, at the
      time it was set to, and none that stands is earlier. */
  lemma LogIs(story: Story, log: seq<Due>, last: Dequeued, k: nat)
    requires story.Good() && Told(story, log, last) && k < |log|
    ensures exists b: nat :: Stands(story, k, log[k].event, log[k].time, b)
    ensures forall e, t, b: nat :: Stands(story, k, e, t, b) ==> log[k].time <= t
  {
    assert story.Next(k) == Event(log[k]);
    hide Told, Story.After, Story.Next, Story.Good, Stands;
    story.NextIs(k);
    PendingIff(story, k, log[k].event, log[k].time);
    forall e, t, b: nat | Stands(story, k, e, t, b)
      ensures log[k].time <= t
    {
      PendingIff(story, k, e, t);
      Earliest(story, k, e);
    }
  }

  lemma Earliest(story: Story, k: nat, e: EventId)
    requires story.Good() && e in story.After(k)
    ensures story.Next(k) != Nothing && story.Next(k).due.time <= story.After(k)[e]
  {
  }

  /** A run ends with nothing dequeued exactly if nothing that was set stands. */
  lemma EndsEmptyIff(story: Story, log: seq<Due>, last: Dequeued)
    requires story.Good() && Told(story, log, last)
    ensures last == Nothing <==> forall e, t, b: nat :: !Stands(story, |log|, e, t, b)
  {
    var k := |log|;
    if k > 0 {
      assert story.Next(k - 1) == Event(log[k - 1]);
    }
    assert last == story.Next(k);
    hide Told, Story.After, Story.Next, Story.Good, Stands;
    if e, t, b: nat :| Stands(story, k, e, t, b) {
      PendingIff(story, k, e, t);
      Earliest(story, k, e);
    }
    if last != Nothing {
      story.NextIs(k);
      PendingIff(story, k, last.due.event, last.due.time);
    }
  }

  /** An event that was cancelled and not set again is not activated. */
  lemma CancelledStaysOut(story: Story, log: seq<Due>, last: Dequeued, e: EventId, b: nat, i: int, k: nat)
    requires story.Good() && Told(story, log, last) && b <= k < |log|
    requires LastNaming(Batch(story, b), e, i) && Batch(story, b)[i].Cancel?
    requires forall j: nat, m :: b < j <= k && 0 <= m < |Batch(story, j)| && Batch(story, j)[m].Set? ==>
      Batch(story, j)[m].event != e
    ensures log[k].event != e
  {
    LogIs(story, log, last, k);
    hide Told, Story.After, Story.Next, BatchTime, Story.Good;
    var c: nat :| Stands(story, k, log[k].event, log[k].time, c);
    assert Names(Batch(story, b), e);
    if log[k].event == e {
      var m :| LastNaming(Batch(story, c), e, m) && Batch(story, c)[m].Set?;
      assert false;
    }
  }
}
