/** What the bucket array of the calendar queue looks like, as a value: which
    events each bucket's chain holds and which link leads where.  All reasoning
    about order and membership is about such values. */
module CalendarChains {
  import opened Events

  type Links = map<Event, Event?>
  type Clock = map<Event, real>

  ghost function At(s: seq<Event>, k: nat): Event? {
    if k < |s| then s[k] else null
  }

  /** The links lead along s to its end. */
  ghost predicate LinksAlong(s: seq<Event>, next: Links) {
    && (forall k :: 0 <= k < |s| ==> s[k] in next)
    && (forall k {:trigger next[s[k]]} :: 0 <= k < |s| ==> next[s[k]] == At(s, k + 1))
  }

  ghost function LinksWith(next: Links, s: seq<Event>, k: int, item: Event): Links
    requires 0 <= k <= |s|
  {
    var next1 := next[item := At(s, k)];
    if k > 0 then next1[s[k - 1] := item] else next1
  }

  ghost function LinksWithout(next: Links, s: seq<Event>, k: int): Links
    requires 0 <= k < |s|
  {
    (if k > 0 then next[s[k - 1] := At(s, k + 1)] else next) - {s[k]}
  }

  lemma InsertedLinks(next: Links, s: seq<Event>, k: int, item: Event)
    requires LinksAlong(s, next) && Distinct(s) && item !in s && 0 <= k <= |s|
    ensures LinksAlong(Inserted(s, k, item), LinksWith(next, s, k, item))
  {
    var d := Inserted(s, k, item);
    forall m | 0 <= m < |d|
      ensures d[m] in LinksWith(next, s, k, item) && LinksWith(next, s, k, item)[d[m]] == At(d, m + 1)
    {
      if m < k {
        assert d[m] == s[m];
      } else if m > k {
        assert d[m] == s[m - 1];
      }
    }
  }

  lemma RemovedLinks(next: Links, s: seq<Event>, k: int)
    requires LinksAlong(s, next) && Distinct(s) && 0 <= k < |s|
    ensures LinksAlong(Removed(s, k), LinksWithout(next, s, k))
  {
    var d := Removed(s, k);
    forall m | 0 <= m < |d|
      ensures d[m] in LinksWithout(next, s, k) && LinksWithout(next, s, k)[d[m]] == At(d, m + 1)
    {
      assert d[m] == if m < k then s[m] else s[m + 1];
    }
  }

  ghost predicate InOrder(s: seq<Event>, time: Clock) {
    && (forall k :: 0 <= k < |s| ==> s[k] in time)
    && forall i, j :: 0 <= i <= j < |s| ==> time[s[i]] <= time[s[j]]
  }

  /** Where enqueue puts an event of time t.  It compares it with the front by
      `<` and with every later event by `>`, so among equal times the newcomer
      goes behind the front but ahead of all others. */
  ghost predicate IsPlace(s: seq<Event>, time: Clock, t: real, k: int) {
    && 0 <= k <= |s| && (forall j :: 0 <= j < |s| ==> s[j] in time)
    && (k == 0 <==> s == [] || t < time[s[0]])
    && (forall j :: 1 <= j < k ==> time[s[j]] < t)
    && (0 < k < |s| ==> t <= time[s[k]])
  }

  lemma InsertedInOrder(time: Clock, s: seq<Event>, k: int, item: Event, t: real)
    requires InOrder(s, time) && IsPlace(s, time, t, k) && item !in s
    ensures InOrder(Inserted(s, k, item), time[item := t])
  {
    var d := Inserted(s, k, item);
    assert forall m :: 0 <= m < |d| ==> d[m] == if m < k then s[m] else if m == k then item else s[m - 1];
    if 0 < k < |s| {
      assert time[s[0]] <= time[s[k]];
    }
  }

  lemma RemovedInOrder(time: Clock, s: seq<Event>, k: int)
    requires InOrder(s, time) && Distinct(s) && 0 <= k < |s|
    ensures InOrder(Removed(s, k), time - {s[k]})
  {
    var d := Removed(s, k);
    assert forall m :: 0 <= m < |d| ==> d[m] == if m < k then s[m] else s[m + 1];
  }

  ghost function Empty(n: nat): Layout {
    Layout(seq(n, _ => []), map[], map[], map[])
  }

  lemma EmptyGood(n: nat)
    ensures Empty(n).Good() && |Empty(n).chains| == n && forall i :: 0 <= i < n ==> Empty(n).chains[i] == []
  {
  }

  datatype Layout = Layout(
    chains: seq<seq<Event>>,        // the events of each bucket, front first
    bucketOf: map<Event, int>,      // which bucket an event is in
    next: Links,
    time: Clock)
  {
    /** Every event is in one chain once, the links lead along the chains, and
        the chains are in order of time. */
    ghost predicate Good() {
      Placed() && Linked() && Ordered()
    }

    ghost predicate Placed() {
      && (forall i, k :: 0 <= i < |chains| && 0 <= k < |chains[i]| ==> chains[i][k] in bucketOf)
      && (forall i, k :: 0 <= i < |chains| && 0 <= k < |chains[i]| ==> bucketOf[chains[i][k]] == i)
      && (forall e :: e in bucketOf ==> 0 <= bucketOf[e] < |chains| && e in chains[bucketOf[e]])
      && (forall i :: 0 <= i < |chains| ==> Distinct(chains[i]))
    }

    ghost predicate Linked() {
      && next.Keys == bucketOf.Keys
      && forall i :: 0 <= i < |chains| ==> LinksAlong(chains[i], next)
    }

    ghost predicate Ordered() {
      && time.Keys == bucketOf.Keys
      && forall i :: 0 <= i < |chains| ==> InOrder(chains[i], time)
    }

    ghost function With(i: int, k: int, item: Event, t: real): Layout
      requires 0 <= i < |chains| && 0 <= k <= |chains[i]|
    {
      Layout(chains[i := Inserted(chains[i], k, item)], bucketOf[item := i],
             LinksWith(next, chains[i], k, item), time[item := t])
    }

    ghost function Without(i: int, k: int): Layout
      requires 0 <= i < |chains| && 0 <= k < |chains[i]|
    {
      Layout(chains[i := Removed(chains[i], k)], bucketOf - {chains[i][k]},
             LinksWithout(next, chains[i], k), time - {chains[i][k]})
    }

    lemma ChainAt(i: int)
      requires Good() && 0 <= i < |chains|
      ensures LinksAlong(chains[i], next) && InOrder(chains[i], time)
      ensures next.Keys == time.Keys == bucketOf.Keys
    {
    }

    /** The events of the chains before i and of the first k places of chain i. */
    ghost function Before(i: int, k: int): set<Event>
      requires 0 <= i <= |chains| && 0 <= k && (i < |chains| ==> k <= |chains[i]|)
    {
      set e | e in bucketOf && (bucketOf[e] < i || (bucketOf[e] == i < |chains| && e in chains[i][..k]))
    }

    lemma BeforeStep(i: int, k: int)
      requires Good() && 0 <= i < |chains| && 0 <= k < |chains[i]|
      ensures chains[i][k] in bucketOf && chains[i][k] !in Before(i, k)
      ensures Before(i, k + 1) == Before(i, k) + {chains[i][k]} && Before(i, k) <= bucketOf.Keys
      ensures next[chains[i][k]] == At(chains[i], k + 1)
    {
      var e := chains[i][k];
      assert e in bucketOf && bucketOf[e] == i && Distinct(chains[i]);
      assert chains[i][..k + 1] == chains[i][..k] + [e];
      assert LinksAlong(chains[i], next);
    }

    lemma BeforeNext(i: int)
      requires Good() && 0 <= i < |chains|
      ensures Before(i, |chains[i]|) == Before(i + 1, 0)
    {
      assert chains[i][..|chains[i]|] == chains[i];
    }

    lemma BeforeEnds()
      requires Good()
      ensures Before(0, 0) == {} && Before(|chains|, 0) == bucketOf.Keys
    {
    }

    lemma ItsKeys()
      requires Good()
      ensures next.Keys == time.Keys == bucketOf.Keys
    {
    }

    /** No event is earlier than the front of its chain. */
    lemma FrontIsLeast(e: Event)
      requires Good() && e in bucketOf
      ensures 0 <= bucketOf[e] < |chains| && chains[bucketOf[e]] != []
      ensures chains[bucketOf[e]][0] in time && e in time && time[chains[bucketOf[e]][0]] <= time[e]
    {
      var k :| 0 <= k < |chains[bucketOf[e]]| && chains[bucketOf[e]][k] == e;
      assert InOrder(chains[bucketOf[e]], time);
    }

    lemma FrontOf(i: int)
      requires Good() && 0 <= i < |chains| && chains[i] != []
      ensures chains[i][0] in bucketOf && bucketOf[chains[i][0]] == i
    {
    }

    lemma WithGood(i: int, k: int, item: Event, t: real)
      requires Good() && item !in bucketOf && 0 <= i < |chains| && IsPlace(chains[i], time, t, k)
      ensures With(i, k, item, t).Good()
      ensures With(i, k, item, t).bucketOf == bucketOf[item := i] && With(i, k, item, t).time == time[item := t]
      ensures |With(i, k, item, t).bucketOf| == |bucketOf| + 1
    {
      WithPlaced(i, k, item, t);
      WithLinked(i, k, item, t);
      WithOrdered(i, k, item, t);
    }

    lemma WithoutGood(i: int, k: int)
      requires Good() && 0 <= i < |chains| && 0 <= k < |chains[i]|
      ensures Without(i, k).Good()
      ensures |Without(i, k).bucketOf| == |bucketOf| - 1
    {
      WithoutPlaced(i, k);
      WithoutLinked(i, k);
      WithoutOrdered(i, k);
    }

    lemma WithPlaced(i: int, k: int, item: Event, t: real)
      requires Placed() && item !in bucketOf && 0 <= i < |chains| && 0 <= k <= |chains[i]|
      ensures With(i, k, item, t).Placed()
      ensures |With(i, k, item, t).bucketOf| == |bucketOf| + 1
    {
      InsertedElements(chains[i], k, item);
      var c := With(i, k, item, t).chains[i];
      assert forall e :: e in c <==> e in Elements(c);
      assert forall e :: e in chains[i] <==> e in Elements(chains[i]);
    }

    lemma WithoutPlaced(i: int, k: int)
      requires Placed() && 0 <= i < |chains| && 0 <= k < |chains[i]|
      ensures Without(i, k).Placed()
      ensures |Without(i, k).bucketOf| == |bucketOf| - 1
    {
      RemovedElements(chains[i], k);
      var l, c := Without(i, k), chains[i];
      forall j, m | 0 <= j < |l.chains| && 0 <= m < |l.chains[j]|
        ensures l.chains[j][m] in l.bucketOf && l.bucketOf[l.chains[j][m]] == j
      {
        if j == i {
          assert l.chains[i][m] == if m < k then c[m] else c[m + 1];
        } else {
          assert l.chains[j][m] == chains[j][m];
        }
      }
      forall e | e in l.bucketOf
        ensures e in l.chains[l.bucketOf[e]]
      {
        if bucketOf[e] == i {
          assert e in Elements(c) - {c[k]};
        }
      }
      var rest := Without(i, k).bucketOf;
      assert rest.Keys == bucketOf.Keys - {chains[i][k]};
      assert |bucketOf| == |bucketOf.Keys| && |rest| == |rest.Keys|;
    }

    lemma WithLinked(i: int, k: int, item: Event, t: real)
      requires Placed() && Linked() && item !in bucketOf && 0 <= i < |chains| && 0 <= k <= |chains[i]|
      ensures With(i, k, item, t).Linked()
    {
      var l := With(i, k, item, t);
      assert item !in chains[i];
      assert k > 0 ==> chains[i][k - 1] in next;
      InsertedLinks(next, chains[i], k, item);
      forall j | 0 <= j < |chains| && j != i
        ensures LinksAlong(chains[j], l.next)
      {
        assert LinksAlong(chains[j], next);
        assert k > 0 ==> bucketOf[chains[i][k - 1]] == i;
      }
    }

    lemma WithoutLinked(i: int, k: int)
      requires Placed() && Linked() && 0 <= i < |chains| && 0 <= k < |chains[i]|
      ensures Without(i, k).Linked()
    {
      WithoutKeys(i, k);
      assert Distinct(chains[i]) && LinksAlong(chains[i], next);
      RemovedLinks(next, chains[i], k);
      hide LinksAlong, LinksWithout, Placed, Removed;
      forall j | 0 <= j < |chains| && j != i
        ensures LinksAlong(chains[j], Without(i, k).next)
      {
        OtherLinks(i, k, j);
      }
    }

    lemma WithoutKeys(i: int, k: int)
      requires Placed() && Linked() && 0 <= i < |chains| && 0 <= k < |chains[i]|
      ensures LinksWithout(next, chains[i], k).Keys == (bucketOf - {chains[i][k]}).Keys
    {
      assert LinksAlong(chains[i], next);
      assert k > 0 ==> chains[i][k - 1] in next && chains[i][k - 1] != chains[i][k];
    }

    lemma OtherLinks(i: int, k: int, j: int)
      requires Placed() && Linked() && 0 <= i < |chains| && 0 <= k < |chains[i]|
      requires 0 <= j < |chains| && j != i
      ensures LinksAlong(chains[j], LinksWithout(next, chains[i], k))
    {
      assert LinksAlong(chains[j], next);
      assert k > 0 ==> bucketOf[chains[i][k - 1]] == i;
      assert bucketOf[chains[i][k]] == i;
    }

    lemma WithOrdered(i: int, k: int, item: Event, t: real)
      requires Placed() && Ordered() && item !in bucketOf && 0 <= i < |chains| && IsPlace(chains[i], time, t, k)
      ensures With(i, k, item, t).Ordered()
    {
      assert item !in chains[i];
      InsertedInOrder(time, chains[i], k, item, t);
      forall j | 0 <= j < |chains| && j != i
        ensures InOrder(chains[j], With(i, k, item, t).time)
      {
        assert InOrder(chains[j], time) && item !in chains[j];
      }
    }

    lemma WithoutOrdered(i: int, k: int)
      requires Placed() && Ordered() && 0 <= i < |chains| && 0 <= k < |chains[i]|
      ensures Without(i, k).Ordered()
    {
      RemovedInOrder(time, chains[i], k);
      forall j | 0 <= j < |chains| && j != i
        ensures InOrder(chains[j], Without(i, k).time)
      {
        assert InOrder(chains[j], time);
        assert bucketOf[chains[i][k]] == i;
      }
    }
  }
}
