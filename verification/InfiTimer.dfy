/** InfiTimer of cost.h: events in numbered slots, with a stack of free ones,
    scheduled in the engine. */
module InfiTimers {
  import opened Engine

  ghost predicate NoRepeats(s: seq<nat>) {
    forall i, j :: 0 <= i < j < |s| ==> s[i] != s[j]
  }

  lemma Pushed(s: seq<nat>, x: nat)
    requires NoRepeats(s) && x !in s
    ensures NoRepeats(s + [x])
    ensures forall y :: y in s + [x] <==> y in s || y == x
  {
  }

  lemma Popped(s: seq<nat>)
    requires NoRepeats(s) && s != []
    ensures var rest, x := s[..|s| - 1], s[|s| - 1];
      NoRepeats(rest) && x !in rest && x in s && forall y :: y in s <==> y in rest || y == x
  {
    assert s == s[..|s| - 1] + [s[|s| - 1]];
  }

  class InfiTimer {
    const engine: Simulation
    const id: nat                // whose events these are
    var slots: nat               // how many event objects there are
    var freeSlots: seq<nat>

    /** The slots in use: those whose event has its active flag up. */
    ghost function InUse(): set<nat>
      reads this, engine
    {
      set e | e in engine.active && e.timer == id :: e.index
    }

    /** The stack holds exactly the slots that are not in use, each once. */
    ghost predicate Slots()
      reads this, engine
    {
      && NoRepeats(freeSlots)
      && (forall i :: i in freeSlots <==> 0 <= i < slots && i !in InUse())
      && (forall i :: i in InUse() ==> i < slots)
    }

    ghost predicate Valid()
      reads this, engine
    {
      engine.Valid() && 1 <= slots && Slots()
    }

    /** When slot i is due. */
    function TimeOf(i: nat): real
      reads this, engine
      requires EventId(id, i) in engine.queue
    {
      engine.queue[EventId(id, i)]
    }

    constructor (engine: Simulation, id: nat)
      requires engine.Valid() && forall e :: e in engine.active ==> e.timer != id
      ensures this.engine == engine && this.id == id && Valid() && InUse() == {} && slots == 1
    {
      this.engine, this.id := engine, id;
      slots, freeSlots := 0, [];
      new;
      Grow(0);
    }

    /** The loop of GetEvent, which makes slots up to an index. */
    method Grow(index: nat)
      requires Slots()
      modifies this
      ensures Slots() && slots == if index < old(slots) then old(slots) else index + 1
      ensures index < old(slots) ==> freeSlots == old(freeSlots)
      ensures InUse() == old(InUse())
    {
      if index >= slots {
        var i := slots;
        while i <= index
          invariant old(slots) <= i == slots <= index + 1 && Slots() && InUse() == old(InUse())
        {
          Pushed(freeSlots, i);
          slots := slots + 1;
          freeSlots := freeSlots + [i];
          i := i + 1;
        }
      }
    }

    method GetSlot() returns (i: nat)
      requires Valid()
      modifies this
      ensures old(slots) <= slots && i < slots && i !in InUse() && NoRepeats(freeSlots)
      ensures forall j :: j in freeSlots <==> 0 <= j < slots && j !in InUse() && j != i
    {
      if freeSlots == [] {
        Grow(slots * 2 - 1);
        assert old(slots) !in InUse() && old(slots) in freeSlots;
      }
      Popped(freeSlots);
      i := freeSlots[|freeSlots| - 1];
      freeSlots := freeSlots[..|freeSlots| - 1];
    }

    /** Takes a slot that was not in use, and schedules its event. */
    method Set(time: real) returns (index: nat)
      requires Valid() && engine.clock <= time
      modifies this, engine`queue, engine`active
      ensures Valid() && index !in old(InUse()) && InUse() == old(InUse()) + {index}
      ensures engine.queue == old(engine.queue)[EventId(id, index) := time]
    {
      hide NoRepeats;
      index := GetSlot();
      var e := EventId(id, index);
      assert e !in engine.active && InUse() == old(InUse());
      engine.active := engine.active + {e};
      engine.ScheduleEvent(e, time);
      OneMore(old(engine.active), e);
    }

    /** What a raised flag adds to the slots in use. */
    lemma OneMore(before: set<EventId>, e: EventId)
      requires e.timer == id && engine.active == before + {e}
      ensures InUse() == (set x | x in before && x.timer == id :: x.index) + {e.index}
    {
      assert e in engine.active;
      forall x | x in before && x.timer == id
        ensures x.index in InUse()
      {
        assert x in engine.active;
      }
    }

    /** What a lowered flag takes from them. */
    lemma OneLess(before: set<EventId>, e: EventId)
      requires e.timer == id && engine.active == before - {e}
      ensures InUse() == (set x | x in before && x.timer == id :: x.index) - {e.index}
    {
      forall i | i in (set x | x in before && x.timer == id :: x.index) - {e.index}
        ensures i in InUse()
      {
        assert EventId(id, i) in engine.active;
      }
    }

    method Release(index: nat)
      modifies this`freeSlots
      ensures freeSlots == old(freeSlots) + [index]
    {
      freeSlots := freeSlots + [index];
    }

    /** Takes the event of a slot in use out of the engine. */
    method Cancel(index: nat)
      requires Valid() && index in InUse()
      modifies this, engine`queue, engine`active
      ensures Valid() && InUse() == old(InUse()) - {index} && slots == old(slots)
      ensures engine.queue == old(engine.queue) - {EventId(id, index)}
    {
      Grow(index);
      var e := EventId(id, index);
      assert e in engine.active;
      engine.CancelEvent(e);
      Pushed(freeSlots, index);
      Release(index);
      engine.active := engine.active - {e};
      OneLess(old(engine.active), e);
    }

    /** The engine has dequeued the event of a slot, set the clock to its time
        and activates it. */
    method Activate(due: Due)
      requires engine.Holding(Event(due)) && engine.clock == due.time && due.event.timer == id
      requires 1 <= slots && Slots()
      modifies this`freeSlots, engine`active
      ensures Valid() && InUse() == old(InUse()) - {due.event.index}
    {
      assert due.event in engine.active && due.event.index in InUse();
      Pushed(freeSlots, due.event.index);
      engine.active := engine.active - {due.event};
      Release(due.event.index);
      OneLess(old(engine.active), due.event);
    }
  }
}
