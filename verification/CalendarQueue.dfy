/** CalendarQueue of priority_q.h: an array of sorted chains, one per slot of
    a year of numberOfBuckets slots, behind a cached earliest event. */
module CalendarQueues {
  import opened Events
  import opened CalendarChains
  import opened CalendarSlots
  import opened CalendarYear
  import opened CalendarWidth

  const MaxSamples := 25

  class CalendarQueue {
    var lastBucket: int
    var numberOfBuckets: int
    var bucketWidth: real
    var buckets: array<Event?>
    var totalNumber: int
    var bucketTop: real
    var bottomThreshold: int
    var topThreshold: int
    var lastPriority: real
    var resizable: bool
    var head: Event?

    ghost var layout: Layout
    ghost var slot: int     // the slot that the cursor stands on

    /** Everything below the cached head. */
    ghost function Stored(): set<Event>
      reads this`layout
    {
      layout.bucketOf.Keys
    }

    /** The pointers and times in the heap are those of the layout. */
    ghost predicate Mirrored()
      reads this`layout, this`buckets, buckets, layout.next.Keys`next, layout.time.Keys`time
    {
      && buckets.Length == |layout.chains|
      && (forall i :: 0 <= i < |layout.chains| ==> buckets[i] == At(layout.chains[i], 0))
      && (forall e :: e in layout.next ==> e.next == layout.next[e])
      && (forall e :: e in layout.time ==> e.time == layout.time[e])
    }

    ghost predicate Structure()
      reads this`layout, this`buckets, this`totalNumber, buckets, layout.next.Keys`next, layout.time.Keys`time
    {
      layout.Good() && Mirrored() && totalNumber == |layout.bucketOf|
    }

    method LinkFront(i: int, item: Event)
      requires Mirrored() && 0 <= i < buckets.Length && item !in layout.next
      modifies this`layout, this`totalNumber, buckets, item`next
      ensures Mirrored() && layout == old(layout).With(i, 0, item, item.time) && totalNumber == old(totalNumber) + 1
    {
      item.next := buckets[i];
      buckets[i] := item;
      totalNumber := totalNumber + 1;
      layout := layout.With(i, 0, item, item.time);
    }

    method LinkAfter(ghost i: int, pos: Event, ghost k: int, item: Event)
      requires Mirrored() && 0 <= i < buckets.Length && item !in layout.next
      requires 0 <= k < |layout.chains[i]| && pos == layout.chains[i][k]
      requires pos in layout.next && layout.next[pos] == At(layout.chains[i], k + 1)
      modifies this`layout, this`totalNumber, pos`next, item`next
      ensures Mirrored() && layout == old(layout).With(i, k + 1, item, item.time) && totalNumber == old(totalNumber) + 1
    {
      item.next := pos.next;
      pos.next := item;
      totalNumber := totalNumber + 1;
      layout := layout.With(i, k + 1, item, item.time);
    }

    method UnlinkFront(i: int)
      requires Mirrored() && 0 <= i < buckets.Length && layout.chains[i] != []
      requires layout.chains[i][0] in layout.next
      requires layout.next[layout.chains[i][0]] == At(layout.chains[i], 1)
      modifies this`layout, buckets
      ensures Mirrored() && layout == old(layout).Without(i, 0)
    {
      buckets[i] := buckets[i].next;
      layout := layout.Without(i, 0);
    }

    method UnlinkAfter(ghost i: int, prev: Event, ghost k: int)
      requires Mirrored() && 0 <= i < buckets.Length
      requires 0 < k < |layout.chains[i]| && prev == layout.chains[i][k - 1]
      requires prev in layout.next && layout.next[prev] == layout.chains[i][k]
      requires layout.chains[i][k] in layout.next
      requires layout.next[layout.chains[i][k]] == At(layout.chains[i], k + 1)
      modifies this`layout, prev`next
      ensures Mirrored() && layout == old(layout).Without(i, k)
    {
      prev.next := prev.next.next;
      layout := layout.Without(i, k);
    }

    /** The walk over the later events of chain s: item goes behind pos. */
    method FindPlace(h: Event, item: Event, ghost s: seq<Event>) returns (pos: Event, ghost k: int)
      requires Mirrored() && LinksAlong(s, layout.next) && InOrder(s, layout.time)
      requires h == At(s, 0) && s != [] && h.time <= item.time
      ensures 0 <= k < |s| && pos == s[k] && layout.next[pos] == At(s, k + 1)
      ensures IsPlace(s, layout.time, item.time, k + 1)
    {
      pos, k := h, 0;
      while pos.next != null && item.time > pos.next.time
        invariant 0 <= k < |s| && pos == s[k] && layout.next[pos] == At(s, k + 1)
        invariant forall j :: 1 <= j <= k ==> layout.time[s[j]] < item.time
        decreases |s| - k
      {
        pos := pos.next;
        k := k + 1;
      }
    }

    method Search(h: Event?, item: Event, ghost s: seq<Event>) returns (found: bool, prev: Event?, ghost k: int)
      requires Mirrored() && LinksAlong(s, layout.next) && h == At(s, 0)
      ensures found <==> item in s
      ensures found ==> 0 <= k < |s| && item == s[k] && prev == if k == 0 then null else s[k - 1]
    {
      prev, k := null, 0;
      var i := h;
      while i != null
        invariant 0 <= k <= |s| && i == At(s, k) && item !in s[..k]
        invariant prev == if k == 0 then null else s[k - 1]
        decreases |s| - k
      {
        if i == item {
          return true, prev, k;
        }
        assert layout.next[s[k]] == At(s, k + 1);
        prev := i;
        i := i.next;
        k := k + 1;
      }
      found := false;
    }

    /** The insertion of enqueue: in front of the chain of bucket i, or where
        the walk along the chain says. */
    method Insert(i: int, item: Event)
      requires Structure() && 0 <= i < buckets.Length && item !in Stored()
      modifies this`layout, this`totalNumber, buckets, Stored()`next, item`next
      ensures Structure() && layout.bucketOf == old(layout.bucketOf)[item := i]
      ensures layout.time == old(layout.time)[item := item.time]
      ensures totalNumber == old(totalNumber) + 1
    {
      ghost var l := layout;
      ghost var k := 0;
      hide Layout.Good, LinksAlong, InOrder, LinksWith, Inserted, Mirrored, IsPlace, At, Layout.With;
      Fronts(i);
      l.ChainAt(i);
      if buckets[i] == null || item.time < buckets[i].time {
        PlaceFront(i, item.time);
        LinkFront(i, item);
      } else {
        var pos: Event;
        pos, k := FindPlace(buckets[i], item, l.chains[i]);
        LinkAfter(i, pos, k, item);
        k := k + 1;
      }
      l.WithGood(i, k, item, item.time);
    }

    lemma Fronts(i: int)
      requires Structure() && 0 <= i < buckets.Length
      ensures buckets.Length == |layout.chains| && buckets[i] == At(layout.chains[i], 0)
      ensures buckets[i] == null <==> layout.chains[i] == []
      ensures buckets[i] != null ==> buckets[i] in layout.time && buckets[i].time == layout.time[buckets[i]]
    {
      hide Layout.Linked;
      if layout.chains[i] != [] {
        layout.FrontOf(i);
      }
    }

    lemma PlaceFront(i: int, t: real)
      requires Structure() && 0 <= i < buckets.Length && (buckets[i] == null || t < buckets[i].time)
      ensures 0 <= i < |layout.chains| && IsPlace(layout.chains[i], layout.time, t, 0)
    {
      layout.ChainAt(i);
      Fronts(i);
    }

    method RemoveFront(i: int) returns (item: Event)
      requires Structure() && 0 <= i < buckets.Length && buckets[i] != null
      modifies this`layout, this`totalNumber, buckets
      ensures Structure() && old(layout.chains[i]) != [] && item == old(layout.chains[i])[0]
      ensures totalNumber == old(totalNumber) - 1
      ensures layout.bucketOf == old(layout.bucketOf) - {item} && layout.time == old(layout.time) - {item}
    {
      ghost var l := layout;
      hide Layout.Good;
      totalNumber := totalNumber - 1;
      l.ChainAt(i);
      assert l.next[l.chains[i][0]] == At(l.chains[i], 1);
      item := buckets[i];
      UnlinkFront(i);
      l.WithoutGood(i, 0);
    }

    /** Takes event k out of chain i; prev is the event whose link leads to it,
        null for the bucket itself. */
    method Unlink(i: int, prev: Event?, ghost k: int)
      requires Mirrored() && 0 <= i < buckets.Length && LinksAlong(layout.chains[i], layout.next)
      requires 0 <= k < |layout.chains[i]| && prev == if k == 0 then null else layout.chains[i][k - 1]
      modifies this`layout, buckets, layout.next.Keys`next
      ensures Mirrored() && layout == old(layout).Without(i, k)
    {
      assert layout.next[layout.chains[i][k]] == At(layout.chains[i], k + 1);
      if prev == null {
        UnlinkFront(i);
      } else {
        assert layout.next[layout.chains[i][k - 1]] == At(layout.chains[i], k);
        UnlinkAfter(i, prev, k);
      }
    }

    /** The search of Delete: unlinks item from chain i if it is there. */
    method Remove(i: int, item: Event) returns (found: bool)
      requires Structure() && 0 <= i < buckets.Length
      modifies this`layout, this`totalNumber, buckets, Stored()`next
      ensures Structure()
      ensures found <==> item in old(layout.chains[i])
      ensures found ==> layout.bucketOf == old(layout.bucketOf) - {item}
      ensures found ==> layout.time == old(layout.time) - {item}
      ensures !found ==> layout == old(layout)
      ensures totalNumber == old(totalNumber) - if found then 1 else 0
    {
      hide Layout.Good, LinksAlong, LinksWithout, Removed, InOrder;
      layout.ChainAt(i);
      var prev: Event?;
      ghost var k: int;
      found, prev, k := Search(buckets[i], item, layout.chains[i]);
      if found {
        totalNumber := totalNumber - 1;
        layout.WithoutGood(i, k);
        Unlink(i, prev, k);
      }
    }

    /** The chains are those of a calendar of numberOfBuckets slots a year. */
    ghost predicate Core()
      reads this`layout, this`buckets, this`totalNumber, this`numberOfBuckets, this`bucketWidth
      reads buckets, layout.next.Keys`next, layout.time.Keys`time
    {
      && Structure()
      && buckets.Length == numberOfBuckets && IsSize(numberOfBuckets) && 4 <= numberOfBuckets
      && 0.0 < bucketWidth && Homed(layout, bucketWidth, numberOfBuckets)
    }

    /** lastBucket and bucketTop belong to one slot, the cursor's, and nothing
        stored is before lastPriority, which is not before that slot. */
    ghost predicate Cursor()
      reads this`layout, this`numberOfBuckets, this`bucketWidth
      reads this`lastBucket, this`bucketTop, this`slot, this`lastPriority
    {
      && 0 < numberOfBuckets
      && CursorOn(slot, lastBucket, bucketTop, lastPriority, bucketWidth, numberOfBuckets)
      && NotBefore(layout, lastPriority)
    }

    /** On average there are never more than two events a bucket. */
    ghost predicate Thresholds()
      reads this`topThreshold, this`bottomThreshold, this`numberOfBuckets, this`totalNumber
    {
      && topThreshold == 2 * numberOfBuckets && bottomThreshold == numberOfBuckets / 2 - 2
      && totalNumber <= topThreshold
    }

    /** Puts the cursor on the slot of a time, with half a slot of slack. */
    method MoveCursor(t: real)
      requires 0.0 <= t && 0.0 < bucketWidth && 0 < numberOfBuckets
      modifies this`lastBucket, this`bucketTop, this`slot, this`lastPriority
      ensures 0 <= slot && lastBucket == slot % numberOfBuckets && IsTop(bucketTop, slot, bucketWidth)
      ensures slot == Slot(t, bucketWidth) && lastPriority == t && StartsBy(slot, bucketWidth, t)
    {
      var i := Slot(t, bucketWidth);
      FreshTop(t, bucketWidth);
      lastPriority := t;
      bucketTop := bucketWidth * (i + 1) as real + bucketWidth * 0.5;
      slot := i;
      lastBucket := i % numberOfBuckets;
    }

    /** Everything of enqueue but its resizing. */
    method Place(item: Event)
      requires Core() && item !in Stored() && item.time >= 0.0
      modifies this`layout, this`totalNumber, buckets, Stored()`next, item`next
      modifies this`lastBucket, this`bucketTop, this`slot, this`lastPriority
      ensures Core() && Stored() == old(Stored()) + {item}
      ensures old(Cursor()) ==> Cursor()
      ensures totalNumber == old(totalNumber) + 1
      ensures old(lastPriority) <= item.time ==>
        && lastBucket == old(lastBucket) && bucketTop == old(bucketTop)
        && lastPriority == old(lastPriority) && slot == old(slot)
    {
      hide Layout.Good, Homed, NotBefore, IsTop, Slot, StartsBy;
      ghost var l, cursor, before := layout, Cursor(), lastPriority;
      var i := Slot(item.time, bucketWidth);
      SlotBounds(item.time, bucketWidth);
      if item.time < lastPriority {
        MoveCursor(item.time);
      }
      i := i % numberOfBuckets;
      Insert(i, item);
      HomedWith(l, layout, bucketWidth, numberOfBuckets, item, item.time);
      if cursor {
        NotBeforeWith(l, layout, before, lastPriority, item, item.time);
      }
    }

    /** The walk of dequeue through the slots of one year, from the cursor on. */
    method YearScan() returns (i: int, hit: bool)
      requires Core() && Cursor()
      modifies this`bucketTop, this`slot
      ensures 0 <= i < numberOfBuckets && 0 <= slot && i == slot % numberOfBuckets
      ensures IsTop(bucketTop, slot, bucketWidth)
      ensures hit ==>
        buckets[i] != null && NotBefore(layout, buckets[i].time) && StartsBy(slot, bucketWidth, buckets[i].time)
      ensures hit ==> Before(buckets[i].time, old(slot) + numberOfBuckets, bucketWidth)
      ensures !hit ==> i == lastBucket && NotBeforeSlot(layout, old(slot) + numberOfBuckets, bucketWidth)
    {
      hide Layout.Good, Homed, NotBefore, IsTop, StartsBy, NotBeforeSlot, Before;
      SizeAtLeastFour(numberOfBuckets);
      CursorSlot(layout, slot, bucketWidth, lastPriority);
      ghost var start := slot;
      i := lastBucket;
      while true
        invariant start <= slot < start + numberOfBuckets && i == slot % numberOfBuckets
        invariant IsTop(bucketTop, slot, bucketWidth) && NotBeforeSlot(layout, slot, bucketWidth)
        decreases start + numberOfBuckets - slot
      {
        FrontTime(i);
        if buckets[i] != null && buckets[i].time < bucketTop {
          ScanHit(layout, bucketWidth, numberOfBuckets, slot, i, bucketTop);
          SlotStart(layout, slot, bucketWidth, buckets[i]);
          BeforeLater(buckets[i].time, slot + 1, start + numberOfBuckets, bucketWidth);
          return i, true;
        }
        ScanMiss(layout, bucketWidth, numberOfBuckets, slot, i, bucketTop);
        NextTop(bucketTop, slot, bucketWidth);
        NextBucket(slot, numberOfBuckets);
        SameBucket(start, slot + 1 - start, numberOfBuckets);
        i := i + 1;
        if i == numberOfBuckets {
          i := 0;
        }
        bucketTop := bucketTop + bucketWidth;
        slot := slot + 1;
        if i == lastBucket {
          return i, false;
        }
      }
    }

    lemma FrontTime(i: int)
      requires Core() && 0 <= i < numberOfBuckets
      ensures buckets[i] == null <==> layout.chains[i] == []
      ensures buckets[i] != null ==>
        && buckets[i] == layout.chains[i][0] && buckets[i] in layout.time
        && buckets[i].time == layout.time[buckets[i]]
    {
      if layout.chains[i] != [] {
        layout.FrontOf(i);
      }
    }

    lemma NoFronts()
      requires Core() && forall j :: 0 <= j < numberOfBuckets ==> buckets[j] == null
      ensures Stored() == {}
    {
      forall e | e in Stored() ensures false {
        layout.FrontIsLeast(e);
      }
    }

    lemma LeastFront(i: int)
      requires Core() && 0 <= i < numberOfBuckets && buckets[i] != null
      requires forall j :: 0 <= j < numberOfBuckets && buckets[j] != null ==> buckets[i].time <= buckets[j].time
      ensures NotBefore(layout, buckets[i].time) && buckets[i] in Stored()
    {
      FrontTime(i);
      forall e | e in layout.time
        ensures buckets[i].time <= layout.time[e]
      {
        layout.FrontIsLeast(e);
        FrontTime(layout.bucketOf[e]);
      }
    }

    /** The direct search of dequeue: compares the fronts of all chains. */
    method DirectSearch() returns (smallest: int)
      requires Core()
      ensures 0 <= smallest <= numberOfBuckets
      ensures smallest == numberOfBuckets <==> Stored() == {}
      ensures smallest < numberOfBuckets ==>
        buckets[smallest] != null && NotBefore(layout, buckets[smallest].time)
    {
      hide Layout.Good, Layout.Placed, Layout.Linked, Layout.Ordered, Homed, NotBefore, IsSize;
      smallest := 0;
      while smallest < numberOfBuckets && buckets[smallest] == null
        invariant 0 <= smallest <= numberOfBuckets
        invariant forall j :: 0 <= j < smallest ==> buckets[j] == null
      {
        smallest := smallest + 1;
      }
      if smallest >= numberOfBuckets {
        NoFronts();
        return;
      }
      var i := smallest + 1;
      while i < numberOfBuckets
        invariant 0 <= smallest < i <= numberOfBuckets && buckets[smallest] != null
        invariant forall j :: 0 <= j < i && buckets[j] != null ==> buckets[smallest].time <= buckets[j].time
      {
        if buckets[i] != null && buckets[i].time < buckets[smallest].time {
          smallest := i;
        }
        i := i + 1;
      }
      LeastFront(smallest);
    }

    /** Everything of dequeue but its resizing: the earliest stored event, and
        whether the year scan found it. */
    method Take() returns (item: Event?, scanned: bool)
      requires Core() && Cursor()
      modifies this`layout, this`totalNumber, buckets, Stored()`next
      modifies this`lastBucket, this`bucketTop, this`slot, this`lastPriority
      ensures Core() && Cursor()
      ensures item == null <==> old(Stored()) == {}
      ensures item != null ==> item in old(Stored()) && 0.0 <= item.time == lastPriority
      ensures totalNumber == old(totalNumber) - if item == null then 0 else 1
      ensures item != null ==> forall e :: e in old(Stored()) ==> item.time <= e.time
      ensures item != null ==> (scanned <==> Before(item.time, old(slot) + numberOfBuckets, bucketWidth))
      ensures item == null ==> !scanned
      ensures Stored() == old(Stored()) - (if item == null then {} else {item})
    {
      hide Structure, IsSize, Homed, NotBefore, IsTop, Slot, StartsBy, Before, NotBeforeSlot;
      SizeAtLeastFour(numberOfBuckets);
      var i;
      i, scanned := YearScan();
      if scanned {
        AllLater(buckets[i].time);
        item := TakeFront(i);
        lastBucket := i;
        lastPriority := item.time;
        return;
      }
      var smallest := DirectSearch();
      if smallest >= numberOfBuckets {
        lastPriority := bucketTop;
        TopIsLater(bucketTop, slot, bucketWidth);
        NothingStored(lastPriority);
        return null, false;
      }
      AllLater(buckets[smallest].time);
      FrontIs(smallest);
      NotYet(layout, old(slot) + numberOfBuckets, bucketWidth, buckets[smallest]);
      item := TakeFront(smallest);
      MoveCursor(item.time);
      lastBucket := smallest;
    }

    lemma FrontIs(i: int)
      requires Core() && 0 <= i < numberOfBuckets && buckets[i] != null
      ensures buckets[i] in layout.time && layout.time[buckets[i]] == buckets[i].time
    {
      FrontTime(i);
    }

    lemma AllLater(t: real)
      requires Core() && NotBefore(layout, t)
      ensures forall e :: e in Stored() ==> t <= e.time
    {
    }

    lemma NothingStored(t: real)
      requires Core() && Stored() == {}
      ensures NotBefore(layout, t)
    {
    }

    method TakeFront(i: int) returns (item: Event)
      requires Core() && 0 <= i < numberOfBuckets && buckets[i] != null && NotBefore(layout, buckets[i].time)
      modifies this`layout, this`totalNumber, buckets, Stored()`next
      ensures Core() && item == old(buckets[i]) && NotBefore(layout, item.time)
      ensures totalNumber == old(totalNumber) - 1
      ensures item in old(Stored()) && Stored() == old(Stored()) - {item}
      ensures 0.0 <= item.time && Slot(item.time, bucketWidth) % numberOfBuckets == i
    {
      hide Layout.Good, NotBefore, Slot;
      ghost var l := layout;
      FrontTime(i);
      l.FrontOf(i);
      item := RemoveFront(i);
      HomedWithout(l, layout, bucketWidth, numberOfBuckets, {item});
      NotBeforeWithout(l, layout, item.time, item.time, {item});
    }

    /** Sets the link of an event that is in no chain. */
    method SetNext(item: Event, list: Event?)
      requires Core() && item !in Stored()
      modifies item`next
      ensures Core() && item.next == list
    {
      hide Layout.Good, Homed, IsSize;
      layout.ItsKeys();
      item.next := list;
    }

    /** A list of events that are in no chain. */
    ghost predicate IsList(list: Event?, taken: seq<Event>)
      reads taken`next, taken`time
    {
      && list == At(taken, 0) && Distinct(taken) && (forall e :: e in taken ==> 0.0 <= e.time)
      && forall k {:trigger taken[k].next} :: 0 <= k < |taken| ==> taken[k].next == At(taken, k + 1)
    }

    method Enqueue(item: Event)
      requires Core() && Cursor() && Thresholds() && resizable && item !in Stored() && item.time >= 0.0
      modifies this, buckets, Stored()`next, item`next
      ensures Core() && Cursor() && Thresholds() && resizable && head == old(head)
      ensures var n := old(numberOfBuckets); numberOfBuckets == if old(totalNumber) + 1 > 2 * n then 2 * n else n
      ensures bucketWidth == if numberOfBuckets == old(numberOfBuckets) then old(bucketWidth) else WidthFor(Stored())
      ensures buckets == old(buckets) || fresh(buckets)
      ensures Stored() == old(Stored()) + {item}
    {
      hide Structure, IsSize, Homed, NotBefore, CursorOn, Slot, WidthFor;
      SizeAtLeastFour(numberOfBuckets);
      Place(item);
      if resizable && totalNumber > topThreshold {
        CountStored();
        DoubleSize(numberOfBuckets);
        ReSize(numberOfBuckets * 2);
      }
    }

    method Dequeue() returns (item: Event?)
      requires Core() && Cursor() && Thresholds() && resizable
      modifies this, buckets, Stored()`next
      ensures Core() && Cursor() && Thresholds() && resizable && head == old(head)
      ensures var n := old(numberOfBuckets);
        numberOfBuckets ==
          if item != null && Before(item.time, old(slot) + n, old(bucketWidth)) && old(totalNumber) - 1 < n / 2 - 2
          then n / 2 else n
      ensures bucketWidth == if numberOfBuckets == old(numberOfBuckets) then old(bucketWidth) else WidthFor(Stored())
      ensures buckets == old(buckets) || fresh(buckets)
      ensures item == null <==> old(Stored()) == {}
      ensures item != null ==> item in old(Stored()) && item.next == null
      ensures item != null ==> forall e :: e in old(Stored()) ==> item.time <= e.time
      ensures Stored() == old(Stored()) - (if item == null then {} else {item})
    {
      hide Structure, IsSize, Homed, NotBefore, CursorOn, Slot, Before, WidthFor;
      SizeAtLeastFour(numberOfBuckets);
      var scanned;
      item, scanned := Take();
      if item == null {
        return;
      }
      if scanned && resizable && totalNumber < bottomThreshold {
        CountStored();
        HalfSize(numberOfBuckets);
        ReSize(numberOfBuckets / 2);
      }
      SetNext(item, null);
    }

    lemma CountStored()
      requires Structure()
      ensures totalNumber == |Stored()|
    {
    }

    ghost predicate Fits(stored: set<Event>, buckets: int) {
      |stored| <= 2 * buckets
    }

    method ReSize(newsize: int)
      requires Core() && Cursor() && resizable && IsSize(newsize) && Fits(Stored(), newsize)
      modifies this, buckets, Stored()`next
      ensures Core() && Cursor() && Thresholds() && numberOfBuckets == newsize
      ensures resizable && head == old(head) && lastPriority == old(lastPriority) && fresh(buckets)
      ensures Stored() == old(Stored()) && bucketWidth == WidthFor(Stored())
    {
      hide Core, Cursor, IsSize, Fits, WidthFor;
      resizable := false;
      Rebuild(newsize);
      resizable := true;
      SetThresholds();
    }

    /** Everything of ReSize but the thresholds: new chains under a new width. */
    method Rebuild(newsize: int)
      requires Core() && Cursor() && IsSize(newsize)
      modifies this`layout, this`totalNumber, this`buckets, buckets, Stored()`next
      modifies this`numberOfBuckets, this`bucketWidth
      modifies this`lastBucket, this`bucketTop, this`slot, this`lastPriority
      ensures Core() && Cursor() && numberOfBuckets == newsize && fresh(buckets)
      ensures lastPriority == old(lastPriority) && Stored() == old(Stored()) && bucketWidth == WidthFor(Stored())
    {
      hide Core, Cursor, IsSize, Intact, CursorOn, NotBefore, WidthFor;
      var width := NewWidth();
      CoreCounts();
      IntactNow();
      Refill(newsize, width);
    }

    method SetThresholds()
      requires Core() && Cursor() && Fits(Stored(), numberOfBuckets)
      modifies this`topThreshold, this`bottomThreshold
      ensures Core() && Cursor() && Thresholds()
    {
      hide Core, Cursor;
      CoreCounts();
      topThreshold := numberOfBuckets * 2;
      bottomThreshold := numberOfBuckets / 2 - 2;
    }

    /** Moves every event into a new bucket array. */
    method Refill(newsize: int, width: real)
      requires Intact(buckets, layout) && IsSize(newsize) && 0.0 < width && 0.0 <= lastPriority
      requires |layout.chains| == numberOfBuckets
      modifies this`layout, this`totalNumber, this`buckets, buckets, layout.bucketOf.Keys`next
      modifies this`numberOfBuckets, this`bucketWidth
      modifies this`lastBucket, this`bucketTop, this`slot, this`lastPriority
      ensures Core() && Cursor() && numberOfBuckets == newsize && fresh(buckets)
      ensures lastPriority == old(lastPriority) && Stored() == old(Stored()) && bucketWidth == width
    {
      hide Core, IsSize, Leaving, Intact, CursorOn, NotBefore;
      var oldBuckets, oldNumber := buckets, numberOfBuckets;
      ghost var l := layout;
      Renew(newsize, width);
      LeavingStarts(oldBuckets, l);
      MoveAll(oldBuckets, oldNumber, l);
      FinishMoving(oldBuckets, l);
    }

    /** The moving loop. */
    method MoveAll(oldBuckets: array<Event?>, oldNumber: int, ghost l: Layout)
      requires Core() && buckets != oldBuckets && oldNumber == |l.chains| && Leaving(oldBuckets, l, 0, 0)
      modifies this`layout, this`totalNumber, buckets, oldBuckets, l.bucketOf.Keys`next
      modifies this`lastBucket, this`bucketTop, this`slot, this`lastPriority
      ensures Core() && Leaving(oldBuckets, l, |l.chains|, 0) && lastPriority == old(lastPriority)
    {
      hide Core, Leaving;
      var i := 0;
      while i < oldNumber
        invariant 0 <= i <= oldNumber && lastPriority == old(lastPriority)
        invariant Core() && Leaving(oldBuckets, l, i, 0)
      {
        MoveChain(oldBuckets, i, l);
        i := i + 1;
      }
    }

    /** The old array still holds the chains of l from place k of chain i on,
        and everything before that is stored in the new one. */
    ghost predicate Leaving(oldBuckets: array<Event?>, l: Layout, i: int, k: int)
      reads this`layout, this`lastPriority, oldBuckets, l.next.Keys`next, l.time.Keys`time
    {
      && l.Good() && oldBuckets.Length == |l.chains| && 0 <= i <= |l.chains| && 0 <= k
      && (i < |l.chains| ==> k <= |l.chains[i]| && oldBuckets[i] == At(l.chains[i], k))
      && (forall j :: i < j < |l.chains| ==> oldBuckets[j] == At(l.chains[j], 0))
      && Stored() == l.Before(i, k)
      && (forall e :: e in l.next && e !in Stored() ==> e.next == l.next[e])
      && (forall e :: e in l.time ==> 0.0 <= e.time == l.time[e])
      && NotBefore(l, lastPriority)
    }

    /** The part of Leaving that does not speak of the new array. */
    ghost predicate Intact(oldBuckets: array<Event?>, l: Layout)
      reads this`lastPriority, oldBuckets, l.next.Keys`next, l.time.Keys`time
    {
      && l.Good() && oldBuckets.Length == |l.chains|
      && (forall j :: 0 <= j < |l.chains| ==> oldBuckets[j] == At(l.chains[j], 0))
      && (forall e :: e in l.next ==> e.next == l.next[e])
      && (forall e :: e in l.time ==> 0.0 <= e.time == l.time[e])
      && NotBefore(l, lastPriority)
    }

    lemma IntactNow()
      requires Core() && NotBefore(layout, lastPriority)
      ensures Intact(buckets, layout) && |layout.chains| == numberOfBuckets
    {
      hide Layout.Good, NotBefore, IsSize, Slot;
    }

    lemma LeavingStarts(oldBuckets: array<Event?>, l: Layout)
      requires Intact(oldBuckets, l) && Stored() == {}
      ensures Leaving(oldBuckets, l, 0, 0)
    {
      l.BeforeEnds();
    }

    /** A new empty bucket array. */
    method Renew(newsize: int, width: real)
      requires IsSize(newsize) && 0.0 < width
      modifies this`buckets, this`layout, this`numberOfBuckets, this`bucketWidth, this`lastBucket, this`totalNumber
      ensures Core() && Stored() == {} && fresh(buckets) && numberOfBuckets == newsize && bucketWidth == width
    {
      hide Layout.Good, IsSize;
      SizeAtLeastFour(newsize);
      bucketWidth := width;
      buckets := new Event?[newsize](_ => null);
      numberOfBuckets := newsize;
      lastBucket := 0;
      totalNumber := 0;
      EmptyGood(newsize);
      layout := Empty(newsize);
    }

    /** Moves one chain of the old array, front first. */
    method MoveChain(oldBuckets: array<Event?>, i: int, ghost l: Layout)
      requires Core() && buckets != oldBuckets && 0 <= i < |l.chains| && Leaving(oldBuckets, l, i, 0)
      modifies this`layout, this`totalNumber, buckets, oldBuckets, l.bucketOf.Keys`next
      modifies this`lastBucket, this`bucketTop, this`slot, this`lastPriority
      ensures Core() && Leaving(oldBuckets, l, i + 1, 0) && lastPriority == old(lastPriority)
    {
      hide Core, Leaving;
      ghost var k := 0;
      LeavingAt(oldBuckets, l, i, k);
      while oldBuckets[i] != null
        invariant Core() && lastPriority == old(lastPriority)
        invariant Leaving(oldBuckets, l, i, k) && 0 <= k <= |l.chains[i]|
        invariant oldBuckets.Length == |l.chains| && oldBuckets[i] == At(l.chains[i], k)
        decreases |l.chains[i]| - k
      {
        MoveOne(oldBuckets, i, k, l);
        k := k + 1;
        LeavingAt(oldBuckets, l, i, k);
      }
      ChainMoved(oldBuckets, l, i);
    }

    method MoveOne(oldBuckets: array<Event?>, i: int, ghost k: int, ghost l: Layout)
      requires Core() && buckets != oldBuckets && 0 <= i < |l.chains|
      requires Leaving(oldBuckets, l, i, k) && k < |l.chains[i]|
      modifies this`layout, this`totalNumber, buckets, oldBuckets, l.bucketOf.Keys`next
      modifies this`lastBucket, this`bucketTop, this`slot, this`lastPriority
      ensures Core() && Leaving(oldBuckets, l, i, k + 1) && lastPriority == old(lastPriority)
    {
      hide Structure, IsSize, Homed, Slot, Layout.Good, Layout.Before;
      l.BeforeStep(i, k);
      l.ItsKeys();
      var item := oldBuckets[i];
      oldBuckets[i] := item.next;
      Place(item);
    }

    lemma LeavingAt(oldBuckets: array<Event?>, l: Layout, i: int, k: int)
      requires Leaving(oldBuckets, l, i, k) && i < |l.chains|
      ensures oldBuckets.Length == |l.chains| && 0 <= k <= |l.chains[i]|
      ensures oldBuckets[i] == At(l.chains[i], k)
    {
    }

    lemma ChainMoved(oldBuckets: array<Event?>, l: Layout, i: int)
      requires 0 <= i < |l.chains| && Leaving(oldBuckets, l, i, |l.chains[i]|)
      ensures Leaving(oldBuckets, l, i + 1, 0)
    {
      l.BeforeNext(i);
    }

    lemma AllMoved(oldBuckets: array<Event?>, l: Layout)
      requires Core() && Leaving(oldBuckets, l, |l.chains|, 0)
      ensures Stored() == l.bucketOf.Keys && NotBefore(layout, lastPriority)
    {
      hide Layout.Good, Layout.Before, IsSize, Homed;
      l.BeforeEnds();
      l.ItsKeys();
      layout.ItsKeys();
      forall e | e in layout.time
        ensures lastPriority <= layout.time[e]
      {
        assert e in l.time;
      }
    }

    /** The cursor of the new array. */
    method FinishMoving(ghost oldBuckets: array<Event?>, ghost l: Layout)
      requires Core() && Leaving(oldBuckets, l, |l.chains|, 0) && 0.0 <= lastPriority
      modifies this`lastBucket, this`bucketTop, this`slot, this`lastPriority
      ensures Core() && Cursor() && lastPriority == old(lastPriority) && Stored() == l.bucketOf.Keys
    {
      hide Structure, IsSize, Homed, IsTop, Slot, StartsBy, Leaving;
      SizeAtLeastFour(numberOfBuckets);
      AllMoved(oldBuckets, l);
      MoveCursor(lastPriority);
    }

    /** Estimates a slot width from the gaps between the earliest events, which
        it takes out and puts back.  Like ReSize it runs with resizing switched
        off, when enqueue and dequeue are just Place and Take. */
    method NewWidth() returns (width: real)
      requires Core() && Cursor()
      modifies this`layout, this`totalNumber, buckets, Stored()`next
      modifies this`lastBucket, this`bucketTop, this`slot, this`lastPriority
      ensures Core() && Cursor() && Stored() == old(Stored())
      ensures lastBucket == old(lastBucket) && bucketTop == old(bucketTop) && lastPriority == old(lastPriority)
      ensures 0.0 < width == WidthFor(Stored()) && (|Stored()| <= 5 ==> width == 1.0)
    {
      hide Core, Cursor, CursorOn, Sum, IsList, WidthOf, WidthFrom, Listing;
      CoreCounts();
      if totalNumber < 2 {
        return 1.0;
      }
      var nsamples := if totalNumber <= 5 then totalNumber else 5 + totalNumber / 10;
      if nsamples > MaxSamples {
        nsamples := MaxSamples;
      }
      width := Measure(nsamples);
    }

    method Measure(nsamples: int) returns (width: real)
      requires Core() && Cursor() && Stored() != {} && 2 <= nsamples <= MaxSamples
      modifies this`layout, this`totalNumber, buckets, Stored()`next
      modifies this`lastBucket, this`bucketTop, this`slot, this`lastPriority
      ensures Core() && Cursor() && Stored() == old(Stored())
      ensures lastBucket == old(lastBucket) && bucketTop == old(bucketTop) && lastPriority == old(lastPriority)
      ensures 0.0 < width && (|Stored()| <= nsamples ==> width == 1.0)
      ensures width == WidthFrom(Listing(Times(Stored())), nsamples)
    {
      hide Core, Cursor, CursorOn, Sum, IsList, WidthOf, Elements, AllPositive, NoneBefore, WidthFrom, Listing;
      CursorFacts();
      var savedBucket, savedTop, savedPriority := lastBucket, bucketTop, lastPriority;
      ghost var savedSlot := slot;
      var list; ghost var taken;
      list, width, taken := SampleWidth(nsamples);
      PutAllBack(list, taken, savedSlot, savedBucket, savedTop, savedPriority);
    }

    /** Takes the events out, and computes the width from the gaps between them. */
    method SampleWidth(nsamples: int) returns (list: Event?, width: real, ghost taken: seq<Event>)
      requires Core() && Cursor() && Stored() != {} && 2 <= nsamples <= MaxSamples
      modifies this`layout, this`totalNumber, buckets, Stored()`next
      modifies this`lastBucket, this`bucketTop, this`slot, this`lastPriority
      ensures Core() && IsList(list, taken)
      ensures Elements(taken) !! Stored() && Elements(taken) + Stored() == old(Stored())
      ensures 0.0 < width && (|old(Stored())| <= nsamples ==> width == 1.0)
      ensures width == WidthFrom(Listing(Times(old(Stored()))), nsamples)
    {
      hide Core, Cursor, CursorOn, Sum, IsList, WidthOf, Elements, AllPositive, WidthFrom, Listing, Times, Sampled;
      var avg, avg1;
      ghost var ts;
      list, avg, avg1, taken, ts := Sample(nsamples);
      width := WidthOfGaps(nsamples, avg, avg1);
      SampledWidth(Elements(taken), Stored(), ts, list.time, avg, nsamples);
    }

    method WidthOfGaps(nsamples: int, avg: seq<real>, avg1: real) returns (width: real)
      requires 2 <= nsamples && AllPositive(avg) && avg1 == Sum(avg)
      ensures 0.0 < width && (|avg| < nsamples ==> width == 1.0)
      ensures nsamples <= |avg| ==> width == WidthOf(avg)
    {
      if |avg| < nsamples {
        width := 1.0;
      } else {
        width := Average(avg, avg1);
      }
    }

    method PutAllBack(list: Event?, ghost taken: seq<Event>,
                      ghost savedSlot: int, savedBucket: int, savedTop: real, savedPriority: real)
      requires Core() && IsList(list, taken) && Elements(taken) !! Stored()
      requires NoneBefore(Elements(taken) + Stored(), savedPriority)
      requires CursorOn(savedSlot, savedBucket, savedTop, savedPriority, bucketWidth, numberOfBuckets)
      modifies this`layout, this`totalNumber, buckets, Stored()`next, Elements(taken)`next
      modifies this`lastBucket, this`bucketTop, this`slot, this`lastPriority
      ensures Core() && Cursor() && Stored() == old(Stored()) + Elements(taken)
      ensures lastBucket == savedBucket && bucketTop == savedTop && lastPriority == savedPriority
    {
      hide Structure, IsSize, Homed, CursorOn, IsList;
      PutBack(list, taken);
      RestoreCursor(savedSlot, savedBucket, savedTop, savedPriority);
    }

    lemma CursorFacts()
      requires Core() && Cursor()
      ensures CursorOn(slot, lastBucket, bucketTop, lastPriority, bucketWidth, numberOfBuckets)
      ensures NoneBefore(Stored(), lastPriority)
    {
    }

    ghost predicate NoneBefore(s: set<Event>, t: real)
      reads s`time
    {
      forall e :: e in s ==> t <= e.time
    }

    lemma CoreCounts()
      requires Core() && Cursor()
      ensures totalNumber == |Stored()| && 0.0 < bucketWidth && 4 <= numberOfBuckets && 0.0 <= lastPriority
      ensures CursorOn(slot, lastBucket, bucketTop, lastPriority, bucketWidth, numberOfBuckets)
      ensures forall e :: e in Stored() ==> lastPriority <= e.time
      ensures NotBefore(layout, lastPriority)
    {
      hide IsTop, StartsBy;
      CursorIsPositive(slot, bucketWidth, lastPriority);
    }

    method RestoreCursor(ghost savedSlot: int, savedBucket: int, savedTop: real, savedPriority: real)
      requires Core() && NoneBefore(Stored(), savedPriority)
      requires CursorOn(savedSlot, savedBucket, savedTop, savedPriority, bucketWidth, numberOfBuckets)
      modifies this`slot, this`lastBucket, this`bucketTop, this`lastPriority
      ensures Core() && Cursor()
      ensures lastBucket == savedBucket && bucketTop == savedTop && lastPriority == savedPriority
    {
      hide Structure, Homed, CursorOn, NotBefore;
      AllStill(savedPriority);
      lastBucket, bucketTop, lastPriority, slot := savedBucket, savedTop, savedPriority, savedSlot;
    }

    lemma AllStill(t: real)
      requires Core() && forall e :: e in Stored() ==> t <= e.time
      ensures NotBefore(layout, t)
    {
      layout.ItsKeys();
    }

    /** Takes the earliest event out and puts it in front of a list. */
    method TakeNext(list: Event?, ghost taken: seq<Event>) returns (item: Event?, ghost taken': seq<Event>)
      requires Core() && Cursor() && IsList(list, taken) && Elements(taken) !! Stored()
      modifies this`layout, this`totalNumber, buckets, Stored()`next
      modifies this`lastBucket, this`bucketTop, this`slot, this`lastPriority
      ensures Core() && Cursor()
      ensures item == null <==> old(Stored()) == {}
      ensures item == null ==> taken' == taken && IsList(list, taken) && Stored() == {}
      ensures item != null ==>
        && item in old(Stored()) && Elements(taken') == {item} + Elements(taken) && IsList(item, taken')
        && Stored() == old(Stored()) - {item}
        && forall e :: e in old(Stored()) ==> item.time <= e.time
    {
      hide Structure, Homed, IsSize, CursorOn, NotBefore;
      var scanned;
      item, scanned := Take();
      taken' := taken;
      if item != null {
        assert item !in Elements(taken);
        SetNext(item, list);
        taken' := [item] + taken;
        ElementsCons(item, taken);
      }
    }

    lemma EmptyList()
      ensures IsList(null, [])
    {
    }

    /** What the sampling loop keeps: taken and stored events are those there
        were at the start, the last one taken is not later than any left, and
        more have been taken than gaps counted. */
    ghost predicate Sampling(all: set<Event>, list: Event?, taken: seq<Event>, gaps: int)
      reads this, buckets, layout.next.Keys`next, layout.time.Keys`time, Stored()`time, taken`next, taken`time
      reads if list == null then {} else {list}
    {
      && Core() && Cursor() && IsList(list, taken) && list != null
      && Elements(taken) !! Stored() && Elements(taken) + Stored() == all
      && (forall e :: e in Stored() ==> list.time <= e.time)
      && gaps + |Stored()| < |all|
    }

    /** Takes one more event, if there is one. */
    method SampleOne(list: Event, ghost all: set<Event>, ghost taken: seq<Event>, ghost gaps: int)
        returns (item: Event?, ghost taken': seq<Event>)
      requires Sampling(all, list, taken, gaps)
      modifies this`layout, this`totalNumber, buckets, Stored()`next
      modifies this`lastBucket, this`bucketTop, this`slot, this`lastPriority
      ensures item == null ==> Sampling(all, list, taken', gaps) && taken' == taken && Stored() == {}
      ensures item != null ==> Sampling(all, item, taken', gaps + 1) && Stored() < old(Stored())
      ensures item != null ==> Elements(taken') == {item} + Elements(taken)
      ensures item != null ==> list.time <= item.time
    {
      hide Core, Cursor, IsList, Elements;
      ghost var before := Stored();
      item, taken' := TakeNext(list, taken);
      if item == null {
        NoneLeft(before, Stored());
        return;
      }
      Shifted(all, before, Elements(taken), item, gaps);
    }

    /** The same with the times seen so far. */
    method SampleNext(list: Event, ghost all: set<Event>, ghost taken: seq<Event>, ghost taking: int,
                      ghost ts: seq<real>, ghost gaps: seq<real>)
        returns (item: Event?, ghost taken': seq<Event>, ghost ts': seq<real>)
      requires Sampling(all, list, taken, taking) && Sampled(Elements(taken), ts, list.time, gaps)
      modifies this`layout, this`totalNumber, buckets, Stored()`next
      modifies this`lastBucket, this`bucketTop, this`slot, this`lastPriority
      ensures item == null ==>
        Sampling(all, list, taken', taking) && Stored() == {} && Sampled(Elements(taken'), ts', list.time, gaps)
      ensures item != null ==>
        && Sampling(all, item, taken', taking + 1) && Stored() < old(Stored()) && list.time <= item.time
        && Sampled(Elements(taken'), ts', item.time,
                   if item.time == list.time then gaps else gaps + [item.time - list.time])
    {
      hide Sampling, Sampled, Listing, Sum;
      item, taken' := SampleOne(list, all, taken, taking);
      ts' := ts;
      if item != null {
        ts' := SampledMore(Elements(taken), ts, list.time, gaps, item);
      }
    }

    lemma NoneLeft(before: set<Event>, now: set<Event>)
      requires before == {} && now == {}
      ensures before == now
    {
    }

    lemma Shifted(all: set<Event>, stored: set<Event>, taken: set<Event>, item: Event, gaps: int)
      requires taken !! stored && taken + stored == all && item in stored && gaps + |stored| < |all|
      ensures ({item} + taken) !! (stored - {item}) && ({item} + taken) + (stored - {item}) == all
      ensures gaps + 1 + |stored - {item}| < |all| && stored - {item} < stored
    {
    }

    /** Takes events out until nsamples gaps that are not zero have been seen
        or nothing is left.  The events end up in a list, latest first. */
    method Sample(nsamples: int)
        returns (list: Event?, avg: seq<real>, avg1: real, ghost taken: seq<Event>, ghost ts: seq<real>)
      requires Core() && Cursor() && Stored() != {} && 2 <= nsamples <= MaxSamples
      modifies this`layout, this`totalNumber, buckets, Stored()`next
      modifies this`lastBucket, this`bucketTop, this`slot, this`lastPriority
      ensures Core() && IsList(list, taken)
      ensures Elements(taken) !! Stored() && Elements(taken) + Stored() == old(Stored())
      ensures AllPositive(avg) && avg1 == Sum(avg) && |avg| <= nsamples && |avg| < |old(Stored())|
      ensures list != null && NoneBefore(Stored(), list.time) && Sampled(Elements(taken), ts, list.time, avg)
      ensures |avg| == nsamples || Stored() == {}
    {
      hide Core, Cursor, Sum, IsList, AllPositive, Sampled;
      EmptyList();
      ElementsNil<Event>();
      list, taken := TakeNext(null, []);
      SampledFirst(list);
      list, avg, avg1, taken, ts := SampleRest(nsamples, list, old(Stored()), taken);
    }

    /** The sampling loop.  The source notes a gap of zero too, and overwrites
        it in the next round. */
    method SampleRest(nsamples: int, first: Event, ghost all: set<Event>, ghost firstTaken: seq<Event>)
        returns (list: Event?, avg: seq<real>, avg1: real, ghost taken: seq<Event>, ghost ts: seq<real>)
      requires Sampling(all, first, firstTaken, 0) && 0 <= nsamples
      requires Sampled(Elements(firstTaken), [first.time], first.time, [])
      modifies this`layout, this`totalNumber, buckets, Stored()`next
      modifies this`lastBucket, this`bucketTop, this`slot, this`lastPriority
      ensures Sampling(all, list, taken, |avg|) && |avg| <= nsamples
      ensures AllPositive(avg) && avg1 == Sum(avg)
      ensures list != null && Sampled(Elements(taken), ts, list.time, avg)
      ensures |avg| == nsamples || Stored() == {}
    {
      hide *;
      list, avg, avg1, taken, ts := first, [], 0.0, firstTaken, [first.time];
      NoGaps();
      ghost var taking := 0;
      while |avg| < nsamples
        invariant list != null && Sampling(all, list, taken, taking) && |avg| <= taking && |avg| <= nsamples
        invariant AllPositive(avg) && avg1 == Sum(avg) && Sampled(Elements(taken), ts, list.time, avg)
        invariant Stored() <= old(Stored())
        decreases Stored()
      {
        var item;
        item, taken, ts := SampleNext(list, all, taken, taking, ts, avg);
        if item == null {
          FewerGaps(all, list, taken, taking, |avg|);
          return;
        }
        taking := taking + 1;
        var gap := item.time - list.time;
        avg1 := avg1 + gap;
        if gap != 0.0 {
          AppendGap(avg, gap);
          avg := avg + [gap];
        }
        list := item;
      }
      FewerGaps(all, list, taken, taking, |avg|);
    }

    lemma FewerGaps(all: set<Event>, list: Event?, taken: seq<Event>, gaps: int, fewer: int)
      requires Sampling(all, list, taken, gaps) && fewer <= gaps
      ensures Sampling(all, list, taken, fewer)
    {
    }

    lemma ListStep(taken: seq<Event>, k: int)
      requires 0 <= k < |taken| && Distinct(taken)
      ensures Elements(taken[..k + 1]) == Elements(taken[..k]) + {taken[k]}
      ensures Elements(taken[..k]) <= Elements(taken)
      ensures forall j :: k <= j < |taken| ==> taken[j] in Elements(taken) && taken[j] !in Elements(taken[..k])
    {
      assert taken[..k + 1] == taken[..k] + [taken[k]];
    }

    /** Puts the events of a list back. */
    method PutBack(list: Event?, ghost taken: seq<Event>)
      requires Core() && IsList(list, taken) && Elements(taken) !! Stored()
      modifies this`layout, this`totalNumber, buckets, Stored()`next, Elements(taken)`next
      modifies this`lastBucket, this`bucketTop, this`slot, this`lastPriority
      ensures Core() && Stored() == old(Stored()) + Elements(taken)
    {
      hide Core, Elements;
      var item := list;
      ghost var k := 0;
      ElementsNil<Event>();
      while item != null
        invariant Core() && 0 <= k <= |taken| && item == At(taken, k)
        invariant Stored() == old(Stored()) + Elements(taken[..k])
        invariant forall j {:trigger taken[j].next} :: k <= j < |taken| ==> taken[j].next == At(taken, j + 1)
        decreases |taken| - k
      {
        var next := item.next;
        ListStep(taken, k);
        Place(item);
        item := next;
        k := k + 1;
      }
      assert taken[..k] == taken;
    }

    method Average(avg: seq<real>, avg1: real) returns (width: real)
      requires 2 <= |avg| && AllPositive(avg) && avg1 == Sum(avg)
      ensures width == WidthOf(avg) && 0.0 < width
    {
      var limit := avg1 / (|avg| - 1) as real * 2.0;
      assert limit == Limit(avg);
      hide Limit, Sum, Below, AllPositive;
      assert avg[..0] == [];
      NothingBelow(limit);
      var avg2, count := 0.0, 0;
      var i := 0;
      while i < |avg| - 1
        invariant 0 <= i <= |avg| - 1
        invariant count == |Below(avg[..i], limit)| && avg2 == Sum(Below(avg[..i], limit))
      {
        BelowPrefix(avg, i, limit);
        PositiveAt(avg, i);
        if avg[i] < limit && avg[i] != 0.0 {
          SumAppend(Below(avg[..i], limit), avg[i]);
          avg2 := avg2 + avg[i];
          count := count + 1;
        }
        i := i + 1;
      }
      SomeBelow(avg);
      BelowPositive(avg[..|avg| - 1], limit);
      SumPositive(Below(avg[..|avg| - 1], limit));
      if count == 0 || avg2 == 0.0 {
        assert false;
        return 1.0;
      }
      avg2 := avg2 / count as real;
      avg2 := avg2 * 3.0;
      return avg2;
    }

    /** What holds between calls from outside: head is the earliest event, and
        the calendar below it holds the others. */
    ghost predicate Valid()
      reads this, buckets, layout.next.Keys`next, layout.time.Keys`time, Stored()`time
      reads if head == null then {} else {head}
    {
      && Core() && Cursor() && Thresholds() && resizable
      && HeadLeads(head, Stored())
    }

    ghost function Contents(): set<Event>
      reads this`layout, this`head
    {
      Stored() + (if head == null then {} else {head})
    }

    constructor ()
      ensures Valid() && Contents() == {} && fresh(buckets)
    {
      numberOfBuckets := 16;
      bucketWidth := 1.0;
      bucketTop := 1.0;
      totalNumber := 0;
      lastBucket := 0;
      lastPriority := 0.0;
      topThreshold := 16 * 2;
      bottomThreshold := 16 / 2 - 2;
      resizable := true;
      buckets := new Event?[16](_ => null);
      head := null;
      layout := Empty(16);
      slot := 0;
      new;
      EmptyGood(16);
      Sixteen();
    }

    method EnQueue(item: Event)
      requires Valid() && item !in Contents() && 0.0 <= item.time
      modifies this, buckets, Contents()`next, item`next
      ensures Valid() && (buckets == old(buckets) || fresh(buckets))
      ensures Contents() == old(Contents()) + {item}
    {
      hide Core, Cursor, Thresholds, WidthFor, WidthFrom, Listing;
      if head == null {
        head := item;
        return;
      }
      if head.time > item.time {
        Enqueue(head);
        head := item;
      } else {
        Enqueue(item);
      }
    }

    method DeQueue() returns (item: Event?)
      requires Valid()
      modifies this, buckets, Contents()`next
      ensures Valid() && (buckets == old(buckets) || fresh(buckets))
      ensures item == null <==> old(Contents()) == {}
      ensures item != null ==> IsEarliest(item, old(Contents()))
      ensures Contents() == old(Contents()) - (if item == null then {} else {item})
    {
      hide Core, Cursor, Thresholds, WidthFor, WidthFrom, Listing;
      item := head;
      NextHead();
    }

    /** head becomes the earliest stored event. */
    method NextHead()
      requires Valid()
      modifies this, buckets, Stored()`next
      ensures Valid() && (buckets == old(buckets) || fresh(buckets))
      ensures Contents() == old(Stored())
    {
      hide Core, Cursor, Thresholds, WidthFor, WidthFrom, Listing;
      StoredTimes();
      head := Dequeue();
    }

    /** Delete of any event; nothing happens if it is not queued. */
    method Delete(item: Event)
      requires Valid() && 0.0 <= item.time
      modifies this, buckets, Contents()`next
      ensures Valid() && (buckets == old(buckets) || fresh(buckets))
      ensures Contents() == old(Contents()) - {item}
    {
      hide Core, Cursor, Thresholds, WidthFor, WidthFrom, Listing;
      if item == head {
        NextHead();
      } else {
        DeleteStored(item);
      }
    }

    method DeleteStored(item: Event)
      requires Core() && Cursor() && Thresholds() && resizable && 0.0 <= item.time
      modifies this, buckets, Stored()`next
      ensures Core() && Cursor() && Thresholds() && resizable && head == old(head)
      ensures var n := old(numberOfBuckets);
        numberOfBuckets == if item in old(Stored()) && old(totalNumber) - 1 < n / 2 - 2 then n / 2 else n
      ensures bucketWidth == if numberOfBuckets == old(numberOfBuckets) then old(bucketWidth) else WidthFor(Stored())
      ensures buckets == old(buckets) || fresh(buckets)
      ensures Stored() == old(Stored()) - {item}
    {
      hide Structure, IsSize, Homed, CursorOn, NotBefore, Slot, WidthFor;
      SizeAtLeastFour(numberOfBuckets);
      ghost var l := layout;
      var j := Slot(item.time, bucketWidth) % numberOfBuckets;
      InItsBucket(item);
      var found := Remove(j, item);
      if !found {
        return;
      }
      HomedWithout(l, layout, bucketWidth, numberOfBuckets, {item});
      NotBeforeWithout(l, layout, lastPriority, lastPriority, {item});
      if resizable && totalNumber < bottomThreshold {
        CountStored();
        HalfSize(numberOfBuckets);
        ReSize(numberOfBuckets / 2);
      }
    }

    lemma InItsBucket(item: Event)
      requires Core() && 0.0 <= item.time
      ensures 0 <= Slot(item.time, bucketWidth) % numberOfBuckets < |layout.chains|
      ensures item in Stored() <==> item in layout.chains[Slot(item.time, bucketWidth) % numberOfBuckets]
    {
    }

    lemma StoredTimes()
      requires Core()
      ensures forall e :: e in Stored() ==> 0.0 <= e.time
    {
    }
  }

  lemma Sixteen()
    ensures IsSize(16)
  {
    DoubleSize(4);
    DoubleSize(8);
  }

  ghost predicate HeadLeads(head: Event?, stored: set<Event>)
    reads stored`time
    reads if head == null then {} else {head}
  {
    if head == null then stored == {}
    else head !in stored && 0.0 <= head.time && forall e :: e in stored ==> head.time <= e.time
  }
}
