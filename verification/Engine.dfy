/** The discrete-event engine of cost.h: the clock, the pending events, the
    active flags of timers, and the run loop.  The queue is the set of pending
    events with their times; a dequeue takes any of the earliest, which is what
    each of the three queue classes is proved to do. */
module Engine {

  /** One event object: which timer it belongs to, and its index there.  The
      event of a plain Timer has index zero. */
  datatype EventId = EventId(timer: nat, index: nat)

  /** What handlers do: set a timer to some time from now, or cancel it. */
  datatype Operation = Set(event: EventId, delay: real) | Cancel(event: EventId)

  datatype Due = Due(event: EventId, time: real)

  datatype Dequeued = Nothing | Event(due: Due)

  ghost predicate Sensible(ops: seq<Operation>) {
    forall i :: 0 <= i < |ops| && ops[i].Set? ==> 0.0 <= ops[i].delay
  }

  ghost predicate AllSensible(script: seq<seq<Operation>>) {
    forall k :: 0 <= k < |script| ==> Sensible(script[k])
  }

  ghost predicate InOrder(log: seq<Due>) {
    forall i, j :: 0 <= i < j < |log| ==> log[i].time <= log[j].time
  }

  ghost predicate NoneLater(log: seq<Due>, t: real) {
    forall i :: 0 <= i < |log| ==> log[i].time <= t
  }

  type Pending = map<EventId, real>

  /** The pending events of least time. */
  function Soonest(queue: Pending): (es: set<EventId>)
    ensures es == {} <==> queue == map[]
    ensures forall e :: e in es <==> e in queue && forall x :: x in queue ==> queue[e] <= queue[x]
  {
    EarliestExists(queue);
    var es := set e | e in queue && forall x :: x in queue ==> queue[e] <= queue[x];
    assert queue != map[] ==>
      var e :| e in queue && forall x :: x in queue ==> queue[e] <= queue[x];
      e in es;
    es
  }

  lemma {:induction false} EarliestExists(queue: Pending)
    ensures queue != map[] ==> exists e :: e in queue && forall x :: x in queue ==> queue[e] <= queue[x]
    decreases |queue|
  {
    if queue != map[] {
      var k :| k in queue;
      var rest := queue - {k};
      assert queue == rest[k := queue[k]];
      if rest != map[] {
        EarliestExists(rest);
        var e :| e in rest && forall x :: x in rest ==> rest[e] <= rest[x];
        var least := if queue[e] <= queue[k] then e else k;
        assert least in queue && forall x :: x in queue ==> queue[least] <= queue[x];
      }
    }
  }

  /** How a queue picks one of several events of the same time; the number is
      that of the dequeue. */
  type Ties = (nat, set<EventId>) -> EventId

  ghost predicate Picks(ties: Ties) {
    forall k, es :: es != {} ==> ties(k, es) in es
  }

  function FirstOf(queue: Pending, ties: Ties, k: nat): Dequeued
    requires Picks(ties)
  {
    if queue == map[] then Nothing
    else
      var e := ties(k, Soonest(queue));
      Event(Due(e, queue[e]))
  }

  ghost predicate Late(log: seq<Due>, stop: real) {
    exists i :: 0 <= i < |log| && stop <= log[i].time
  }

  /** The run clears the statistics before it stops. */
  predicate Clears(clear: real, stop: real) {
    clear != 0.0 && clear < stop
  }

  /** Everything that decides what happens: what the components do at the
      start, what handler number k does (nothing when the script is over), and
      how the queue picks among events of the same time. */
  datatype Story = Story(start: seq<Operation>, script: seq<seq<Operation>>, ties: Ties)
  {
    ghost predicate Good() {
      Sensible(start) && AllSensible(script) && Picks(ties)
    }

    /** The pending events after k activations of an engine that never stops. */
    ghost function After(k: nat): Pending
      requires Good()
      decreases k, 0
    {
      if k == 0 then Performed(map[], 0.0, start)
      else
        match Next(k - 1)
        case Nothing => map[]
        case Event(d) => Performed(After(k - 1) - {d.event}, d.time, Ops(script, k - 1))
    }

    /** What such an engine activates as number k. */
    ghost function Next(k: nat): Dequeued
      requires Good()
      decreases k, 1
    {
      FirstOf(After(k), ties, k)
    }

    /** Number k is the first that is due at t or later. */
    ghost predicate FirstFrom(k: nat, t: real)
      requires Good()
    {
      && Next(k) != Nothing && t <= Next(k).due.time
      && forall j: nat :: j < k ==> Next(j) != Nothing && Next(j).due.time < t
    }

    /** The statistics are cleared, and what comes due first after that is not
        due before the stop time. */
    ghost predicate FallsThrough(clear: real, stop: real)
      requires Good()
    {
      Clears(clear, stop) && exists k: nat :: FirstFrom(k, clear) && stop <= Next(k).due.time
    }

    lemma AfterOne(k: nat, d: Due)
      requires Good() && Next(k) == Event(d)
      ensures After(k + 1) == Performed(After(k) - {d.event}, d.time, Ops(script, k))
    {
    }

    /** What is pending is not overdue. */
    lemma {:induction false} NoneOverdue(k: nat, e: EventId)
      requires Good() && e in After(k) && (k > 0 ==> Next(k - 1) != Nothing)
      ensures (if k == 0 then 0.0 else Next(k - 1).due.time) <= After(k)[e]
    {
      if k == 0 {
        PerformedLater(map[], 0.0, start);
      } else {
        var d := Next(k - 1).due;
        PerformedLater(After(k - 1) - {d.event}, d.time, Ops(script, k - 1));
      }
    }

    /** Events come due in order of time. */
    lemma {:induction false} InOrderOfTime(j: nat, k: nat)
      requires Good() && j <= k && Next(k) != Nothing
      ensures Next(j) != Nothing && Next(j).due.time <= Next(k).due.time
    {
      hide After, Next, Good, Picks;
      if j < k {
        NextIs(k);
        InOrderOfTime(j, k - 1);
        NoneOverdue(k, Next(k).due.event);
      }
    }

    lemma NextIs(k: nat)
      requires Good() && Next(k) != Nothing
      ensures Next(k).due.event in After(k) && Next(k).due.time == After(k)[Next(k).due.event]
      ensures k > 0 ==> Next(k - 1) != Nothing
    {
    }
  }

  /** What the run loop keeps about the activations so far and its next time. */
  ghost predicate Passed(log: seq<Due>, next: real, clear: real, stop: real) {
    && InOrder(log)
    && (next == stop || (Clears(clear, stop) && next == clear))
    && (next != stop ==> forall i :: 0 <= i < |log| ==> log[i].time < clear)
    && (next == stop && Clears(clear, stop) ==> exists i :: 0 <= i < |log| && clear <= log[i].time)
    && (forall i :: 0 <= i < |log| - 1 ==> log[i].time < stop)
    && (Late(log, stop) ==> Clears(clear, stop) && forall i :: 0 <= i < |log| - 1 ==> log[i].time < clear)
  }

  /** One more activation. */
  lemma Advance(log: seq<Due>, d: Due, next: real, clear: real, stop: real, clock: real)
    requires Passed(log, next, clear, stop) && NoneLater(log, clock) && clock <= d.time
    requires d.time < next || next != stop
    ensures Passed(log + [d], if d.time >= next then stop else next, clear, stop)
    ensures NoneLater(log + [d], d.time)
  {
    var log' := log + [d];
    assert log'[|log|] == d;
    assert forall i :: 0 <= i < |log| ==> log'[i] == log[i];
  }

  /** The story so far: what was activated, and what comes next. */
  ghost predicate Told(story: Story, log: seq<Due>, next: Dequeued)
    requires story.Good()
  {
    (forall i :: 0 <= i < |log| ==> story.Next(i) == Event(log[i])) && next == story.Next(|log|)
  }

  lemma Continues(story: Story, log: seq<Due>, due: Due)
    requires story.Good() && Told(story, log, Event(due))
    ensures story.After(|log| + 1) == Performed(story.After(|log|) - {due.event}, due.time, Ops(story.script, |log|))
    ensures Picks(story.ties) && Sensible(Ops(story.script, |log|))
    ensures Told(story, log + [due], story.Next(|log| + 1))
  {
    hide Story.After, Story.Next, Performed, FirstOf;
    story.AfterOne(|log|, due);
    hide Picks, Story.Good;
    var log' := log + [due];
    forall i | 0 <= i < |log'|
      ensures story.Next(i) == Event(log'[i])
    {
      assert i < |log| ==> log'[i] == log[i];
    }
  }

  lemma Goes(story: Story, log: seq<Due>, e: Dequeued, queue: Pending)
    requires story.Good() && queue == story.After(|log|) && e == FirstOf(queue, story.ties, |log|)
    ensures e == story.Next(|log|)
  {
  }

  /** The loop ends: an event at or after the stop time was activated exactly
      if the run fell through. */
  lemma Ends(story: Story, log: seq<Due>, last: Dequeued, next: real, clear: real, stop: real)
    requires story.Good() && Told(story, log, last) && Passed(log, next, clear, stop)
    requires last != Nothing ==> stop <= last.due.time && next == stop
    ensures Late(log, stop) <==> story.FallsThrough(clear, stop)
  {
    if Late(log, stop) {
      var i :| 0 <= i < |log| && stop <= log[i].time;
      assert i == |log| - 1;
      forall j: nat | j < i
        ensures story.Next(j) != Nothing && story.Next(j).due.time < clear
      {
        assert story.Next(j) == Event(log[j]);
      }
      assert story.FirstFrom(i, clear);
    }
    if story.FallsThrough(clear, stop) {
      var k: nat :| story.FirstFrom(k, clear) && stop <= story.Next(k).due.time;
      if k < |log| {
        assert story.Next(k) == Event(log[k]);
      } else {
        assert false;
      }
    }
  }

  /** The pending events after a handler has run. */
  ghost function Performed(queue: Pending, clock: real, ops: seq<Operation>): Pending {
    if ops == [] then queue
    else
      var before := Performed(queue, clock, ops[..|ops| - 1]);
      match ops[|ops| - 1]
      case Set(e, delay) => before[e := clock + delay]
      case Cancel(e) => before - {e}
  }

  /** Handlers set timers to the present or the future. */
  lemma {:induction false} PerformedLater(queue: Pending, clock: real, ops: seq<Operation>)
    requires Sensible(ops) && forall e :: e in queue ==> clock <= queue[e]
    ensures forall e :: e in Performed(queue, clock, ops) ==> clock <= Performed(queue, clock, ops)[e]
  {
    if ops != [] {
      PerformedLater(queue, clock, ops[..|ops| - 1]);
    }
  }

  class Simulation {
    const stopTime: real
    const clearStatsTime: real
    var clock: real
    var queue: Pending
    var active: set<EventId>

    /** An event is queued exactly if its active flag is set, and nothing
        queued is overdue. */
    ghost predicate Valid()
      reads this
    {
      queue.Keys == active && forall e :: e in queue ==> clock <= queue[e]
    }

    constructor (stopTime: real, clearStatsTime: real)
      requires 0.0 <= stopTime && 0.0 <= clearStatsTime
      ensures Valid() && clock == 0.0 && queue == map[]
      ensures this.stopTime == stopTime && this.clearStatsTime == clearStatsTime
    {
      this.stopTime, this.clearStatsTime := stopTime, clearStatsTime;
      clock, queue, active := 0.0, map[], {};
    }

    method ScheduleEvent(e: EventId, t: real)
      requires clock <= t && e !in queue
      modifies this`queue
      ensures queue == old(queue)[e := t]
    {
      queue := queue[e := t];
    }

    method CancelEvent(e: EventId)
      requires e in queue
      modifies this`queue
      ensures queue == old(queue) - {e}
    {
      queue := queue - {e};
    }

    /** Set of a Timer or MultiTimer: a pending event is cancelled first. */
    method SetTimer(e: EventId, t: real)
      requires Valid() && clock <= t
      modifies this`queue, this`active
      ensures Valid() && queue == old(queue)[e := t]
    {
      if e in active {
        CancelEvent(e);
      }
      active := active + {e};
      ScheduleEvent(e, t);
    }

    method CancelTimer(e: EventId)
      requires Valid()
      modifies this`queue, this`active
      ensures Valid() && queue == old(queue) - {e}
    {
      if e in active {
        CancelEvent(e);
      }
      active := active - {e};
    }

    /** Takes one of the earliest pending events, the one that ties picks. */
    method DeQueue(ties: Ties, k: nat) returns (d: Dequeued)
      requires Valid() && Picks(ties)
      modifies this`queue
      ensures d == FirstOf(old(queue), ties, k)
      ensures queue == old(queue) - (if d == Nothing then {} else {d.due.event})
      ensures Holding(d) && (d != Nothing ==> d.due.event in old(queue) && |queue| < |old(queue)|)
    {
      if queue == map[] {
        return Nothing;
      }
      var e := ties(k, Soonest(queue));
      d := Event(Due(e, queue[e]));
      queue := queue - {e};
    }

    /** What one handler does. */
    method Perform(ops: seq<Operation>)
      requires Valid() && Sensible(ops)
      modifies this`queue, this`active
      ensures Valid() && queue == Performed(old(queue), clock, ops)
    {
      for i := 0 to |ops|
        invariant Valid() && queue == Performed(old(queue), clock, ops[..i])
      {
        assert ops[..i + 1][..i] == ops[..i];
        match ops[i]
        case Set(e, delay) => SetTimer(e, clock + delay);
        case Cancel(e) => CancelTimer(e);
      }
      assert ops[..|ops|] == ops;
    }

    /** Holds between a dequeue and the activation of what it gave. */
    ghost predicate Holding(d: Dequeued)
      reads this
    {
      match d
      case Nothing => Valid() && queue == map[]
      case Event(due) =>
        && due.event !in queue && active == queue.Keys + {due.event}
        && clock <= due.time && forall e :: e in queue ==> due.time <= queue[e]
    }

    /** Activation of a dequeued event: its flag goes down, its handler runs. */
    method Activate(due: Due, ops: seq<Operation>)
      requires Holding(Event(due)) && Sensible(ops)
      modifies this`clock, this`queue, this`active
      ensures Valid() && clock == due.time && queue == Performed(old(queue), clock, ops)
      ensures ops == [] ==> queue == old(queue)
    {
      assert due.time >= clock;
      clock := due.time;
      active := active - {due.event};
      Perform(ops);
    }

    /** Between two activations: log has been activated, e has been dequeued. */
    ghost predicate At(story: Story, log: seq<Due>, e: Dequeued, next: real)
      requires story.Good()
      reads this
    {
      && Holding(e) && Told(story, log, e)
      && queue == story.After(|log|) - (if e == Nothing then {} else {e.due.event})
      && (e != Nothing ==> e.due.event in story.After(|log|))
      && Passed(log, next, clearStatsTime, stopTime) && NoneLater(log, clock)
    }

    /** What the components do at the start, and the first dequeue. */
    method Begin(story: Story, next: real) returns (e: Dequeued)
      requires Valid() && queue == map[] && story.Good() && 0.0 <= stopTime && 0.0 <= clearStatsTime
      requires next == if Clears(clearStatsTime, stopTime) then clearStatsTime else stopTime
      modifies this`clock, this`queue, this`active
      ensures At(story, [], e, next)
    {
      hide Performed, FirstOf, Passed, NoneLater;
      clock := 0.0;
      Perform(story.start);
      assert queue == story.After(0);
      e := DeQueue(story.ties, 0);
      NothingPassed(clearStatsTime, stopTime);
    }

    /** One round of the loop that is not the last. */
    method Round(story: Story, log: seq<Due>, due: Due, next: real) returns (log': seq<Due>, e: Dequeued)
      requires story.Good() && At(story, log, Event(due), next) && (due.time < next || next != stopTime)
      modifies this`clock, this`queue, this`active
      ensures log' == log + [due]
      ensures At(story, log', e, if due.time >= next then stopTime else next)
      ensures |story.script| <= |log| && e != Nothing ==> |queue| < |old(queue)|
    {
      hide Performed, FirstOf, Passed, NoneLater, Story.After, Told, Story.Good, Late, Picks, Sensible, InOrder, Ops;
      Advance(log, due, next, clearStatsTime, stopTime, clock);
      Continues(story, log, due);
      var ops := Ops(story.script, |log|);
      log' := log + [due];
      Activate(due, ops);
      e := DeQueue(story.ties, |log'|);
      Goes(story, log', e, story.After(|log'|));
    }

    /** The run loop.  log is what was activated, last what was dequeued
        without being so.  The run is exactly the beginning of the story: up to
        the first event that is due at the stop time or later, which itself is
        activated only if the story falls through. */
    method Run(story: Story) returns (log: seq<Due>, last: Dequeued)
      requires Valid() && queue == map[] && story.Good()
      requires 0.0 <= stopTime && 0.0 <= clearStatsTime
      modifies this`clock, this`queue, this`active
      ensures clock == stopTime
      ensures Told(story, log, last) && (last != Nothing ==> stopTime <= last.due.time)
      ensures queue == story.After(|log|) - (if last == Nothing then {} else {last.due.event})
      ensures active == story.After(|log|).Keys
      ensures InOrder(log) && forall i :: 0 <= i < |log| - 1 ==> log[i].time < stopTime
      ensures Late(log, stopTime) <==> story.FallsThrough(clearStatsTime, stopTime)
      ensures !Clears(clearStatsTime, stopTime) ==> !Late(log, stopTime)
    {
      hide Passed, Late, NoneLater, InOrder, Told, Story.After, Story.Good;
      var nextTime := if clearStatsTime != 0.0 && clearStatsTime < stopTime then clearStatsTime else stopTime;
      log := [];
      last := Begin(story, nextTime);
      while last != Nothing
        invariant At(story, log, last, nextTime)
        decreases if |log| < |story.script| then |story.script| - |log| else 0, |queue| + if last == Nothing then 0 else 1
      {
        var time := nextTime;
        if last.due.time >= nextTime {
          if nextTime == stopTime {
            break;
          }
          nextTime := stopTime;
        }
        log, last := Round(story, log, last.due, time);
      }
      clock := stopTime;
      Ends(story, log, last, nextTime, clearStatsTime, stopTime);
      PassedInOrder(log, nextTime, clearStatsTime, stopTime);
    }
  }

  lemma NothingPassed(clear: real, stop: real)
    ensures Passed([], if Clears(clear, stop) then clear else stop, clear, stop) && NoneLater([], 0.0)
  {
  }

  lemma PassedInOrder(log: seq<Due>, next: real, clear: real, stop: real)
    requires Passed(log, next, clear, stop)
    ensures InOrder(log) && forall i :: 0 <= i < |log| - 1 ==> log[i].time < stop
  {
  }

  function Ops(script: seq<seq<Operation>>, k: nat): (ops: seq<Operation>)
    ensures AllSensible(script) ==> Sensible(ops)
    ensures |script| <= k ==> ops == []
  {
    if k < |script| then script[k] else []
  }

  /** A run in which the loop falls through: it clears statistics at 5 and
      stops at 10, yet activates an event that is due at 12. */
  method FallThrough(ties: Ties) returns (log: seq<Due>)
    requires Picks(ties)
    ensures log == [Due(EventId(0, 0), 12.0)]
  {
    var story := Story([Set(EventId(0, 0), 12.0)], [], ties);
    assert Sensible(story.start);
    OneEvent(story);
    hide Picks, Story.After, Story.Next;
    var simulation := new Simulation(10.0, 5.0);
    var last;
    log, last := simulation.Run(story);
  }

  /** What comes due when one timer is set at the start. */
  lemma OneEvent(story: Story)
    requires story.Good() && story.start == [Set(EventId(0, 0), 12.0)] && story.script == []
    ensures story.Next(0) == Event(Due(EventId(0, 0), 12.0)) && story.Next(1) == Nothing
    ensures story.FallsThrough(5.0, 10.0)
  {
    var due := Due(EventId(0, 0), 12.0);
    hide Story.Good, Picks;
    StartOf(story);
    FirstOfOne(story.ties, due);
    hide Sensible, AllSensible;
    assert story.Next(0) == Event(due);
    story.AfterOne(0, due);
    assert story.After(0) - {due.event} == map[];
    assert Ops([], 0) == [] && Performed(map[], 12.0, []) == map[];
    assert story.FirstFrom(0, 5.0);
  }

  lemma StartOf(story: Story)
    requires story.Good() && story.start == [Set(EventId(0, 0), 12.0)]
    ensures story.After(0) == map[EventId(0, 0) := 12.0] && Picks(story.ties)
  {
    assert story.start[..0] == [] && Performed(map[], 0.0, story.start[..0]) == map[];
  }

  lemma FirstOfOne(ties: Ties, due: Due)
    requires Picks(ties)
    ensures FirstOf(map[due.event := due.time], ties, 0) == Event(due)
  {
    var queue: Pending := map[due.event := due.time];
    assert due.event in queue;
    assert ties(0, Soonest(queue)) in Soonest(queue);
  }
}
