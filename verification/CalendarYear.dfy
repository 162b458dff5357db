/** Why the year scan of the calendar queue finds an earliest event: the
    relation between the slots that times fall in and the buckets that hold
    them. */
module CalendarYear {
  import opened Events
  import opened CalendarChains
  import opened CalendarSlots

  /** Every event is in the bucket of its slot. */
  ghost predicate Homed(l: Layout, w: real, n: int)
    requires 0.0 < w && 0 < n
  {
    && l.bucketOf.Keys == l.time.Keys
    && forall e :: e in l.time ==> 0.0 <= l.time[e] && l.bucketOf[e] == Slot(l.time[e], w) % n
  }

  ghost predicate NotBefore(l: Layout, t: real) {
    forall e :: e in l.time ==> t <= l.time[e]
  }

  /** bucketTop is the end of a slot, or half a slot beyond it. */
  ghost predicate IsTop(top: real, slot: int, w: real) {
    top == w * (slot + 1) as real || top == w * (slot + 1) as real + w * 0.5
  }

  /** The slot starts no later than t. */
  ghost predicate StartsBy(slot: int, w: real, t: real) {
    slot as real * w <= t
  }

  lemma FreshTop(t: real, w: real)
    requires 0.0 <= t && 0.0 < w
    ensures IsTop(w * (Slot(t, w) + 1) as real + w * 0.5, Slot(t, w), w)
    ensures 0 <= Slot(t, w) && StartsBy(Slot(t, w), w, t)
  {
    SlotBounds(t, w);
  }

  lemma HomedWith(l: Layout, l': Layout, w: real, n: int, item: Event, t: real)
    requires 0.0 < w && 0 < n && Homed(l, w, n) && 0.0 <= t
    requires l'.bucketOf == l.bucketOf[item := Slot(t, w) % n] && l'.time == l.time[item := t]
    ensures Homed(l', w, n)
  {
  }

  lemma HomedWithout(l: Layout, l': Layout, w: real, n: int, items: set<Event>)
    requires 0.0 < w && 0 < n && Homed(l, w, n)
    requires l'.bucketOf == l.bucketOf - items && l'.time == l.time - items
    ensures Homed(l', w, n)
  {
  }

  lemma NotBeforeWith(l: Layout, l': Layout, b: real, b': real, item: Event, t: real)
    requires NotBefore(l, b) && b' <= b && b' <= t && l'.time == l.time[item := t]
    ensures NotBefore(l', b')
  {
  }

  lemma NotBeforeWithout(l: Layout, l': Layout, b: real, b': real, items: set<Event>)
    requires NotBefore(l, b) && b' <= b && l'.time == l.time - items
    ensures NotBefore(l', b')
  {
  }

  /** Nothing stored is of an earlier slot. */
  ghost predicate NotBeforeSlot(l: Layout, slot: int, w: real) {
    NotBefore(l, slot as real * w)
  }

  /** A time is before a slot. */
  ghost predicate Before(t: real, slot: int, w: real) {
    t < slot as real * w
  }

  lemma BeforeLater(t: real, s: int, s': int, w: real)
    requires Before(t, s, w) && s <= s' && 0.0 < w
    ensures Before(t, s', w)
  {
    Scale(s as real, s' as real, w);
  }

  lemma NotYet(l: Layout, slot: int, w: real, e: Event)
    requires NotBeforeSlot(l, slot, w) && e in l.time
    ensures !Before(l.time[e], slot, w)
  {
  }

  lemma CursorSlot(l: Layout, slot: int, w: real, t: real)
    requires NotBefore(l, t) && StartsBy(slot, w, t)
    ensures NotBeforeSlot(l, slot, w)
  {
  }

  lemma SlotStart(l: Layout, slot: int, w: real, e: Event)
    requires NotBeforeSlot(l, slot, w) && e in l.time
    ensures StartsBy(slot, w, l.time[e])
  {
  }

  lemma TopIsLater(top: real, slot: int, w: real)
    requires IsTop(top, slot, w) && 0.0 < w
    ensures StartsBy(slot, w, top)
  {
    assert w * (slot + 1) as real == slot as real * w + w;
  }

  /** The bucket, the top and the priority of a cursor that stands on a slot. */
  ghost predicate CursorOn(slot: int, bucket: int, top: real, priority: real, w: real, n: int)
    requires 0 < n
  {
    0 <= slot && bucket == slot % n && IsTop(top, slot, w) && StartsBy(slot, w, priority)
  }

  lemma CursorIsPositive(slot: int, w: real, t: real)
    requires 0 <= slot && 0.0 < w && StartsBy(slot, w, t)
    ensures 0.0 <= t
  {
    assert 0.0 <= slot as real * w;
  }

  lemma NextTop(top: real, slot: int, w: real)
    requires IsTop(top, slot, w)
    ensures IsTop(top + w, slot + 1, w)
  {
    assert w * (slot + 2) as real == w * (slot + 1) as real + w;
  }

  /** A bucket whose front is not before the top holds nothing of this slot,
      and then nothing stored is of this slot. */
  lemma ScanMiss(l: Layout, w: real, n: int, slot: int, i: int, top: real)
    requires 0.0 < w && 0 < n == |l.chains| && l.Good() && Homed(l, w, n)
    requires 0 <= slot && i == slot % n && IsTop(top, slot, w)
    requires NotBeforeSlot(l, slot, w)
    requires l.chains[i] != [] ==> l.chains[i][0] in l.time && top <= l.time[l.chains[i][0]]
    ensures NotBeforeSlot(l, slot + 1, w)
  {
    hide Layout.Good;
    forall e | e in l.time
      ensures (slot + 1) as real * w <= l.time[e]
    {
      if l.time[e] < (slot + 1) as real * w {
        SlotUnique(l.time[e], w, slot);
        l.FrontIsLeast(e);
        assert false;
      }
    }
  }

  /** The half slot of slack in the top does not let a later slot in, because
      neighbouring slots are in different buckets. */
  lemma ScanHit(l: Layout, w: real, n: int, slot: int, i: int, top: real)
    requires 0.0 < w && 2 <= n == |l.chains| && l.Good() && Homed(l, w, n)
    requires 0 <= slot && i == slot % n && IsTop(top, slot, w)
    requires NotBeforeSlot(l, slot, w)
    requires l.chains[i] != [] && l.chains[i][0] in l.time && l.time[l.chains[i][0]] < top
    ensures NotBefore(l, l.time[l.chains[i][0]]) && Before(l.time[l.chains[i][0]], slot + 1, w)
  {
    hide Layout.Good;
    var h := l.chains[i][0];
    l.FrontOf(i);
    HitSlot(l, w, n, slot, h, top);
    forall e | e in l.time
      ensures l.time[h] <= l.time[e]
    {
      if l.time[e] < (slot + 1) as real * w {
        SlotUnique(l.time[e], w, slot);
        l.FrontIsLeast(e);
      }
    }
  }

  lemma HitSlot(l: Layout, w: real, n: int, slot: int, h: Event, top: real)
    requires 0.0 < w && 2 <= n && Homed(l, w, n)
    requires 0 <= slot && IsTop(top, slot, w)
    requires h in l.time && slot as real * w <= l.time[h] < top && l.bucketOf[h] == slot % n
    ensures l.time[h] < (slot + 1) as real * w
  {
    if l.time[h] >= (slot + 1) as real * w {
      assert (slot + 2) as real * w == (slot + 1) as real * w + w;
      SlotUnique(l.time[h], w, slot + 1);
      SameBucket(slot, 1, n);
      assert false;
    }
  }
}
