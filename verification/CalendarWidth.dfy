/** The slot width that the calendar queue derives from the times of its
    events: which gaps count, and what the width comes to. */
module CalendarWidth {
  import opened Events
  import opened CalendarSlots

  ghost predicate Ascending(ts: seq<real>) {
    forall i, j :: 0 <= i < j < |ts| ==> ts[i] < ts[j]
  }

  /** ts is the set s in order. */
  ghost predicate Lists(ts: seq<real>, s: set<real>) {
    Ascending(ts) && Elements(ts) == s
  }

  ghost function Times(s: set<Event>): set<real>
    reads s`time
  {
    set e | e in s :: e.time
  }

  ghost function Listing(s: set<real>): (ts: seq<real>)
    ensures Lists(ts, s)
  {
    if s == {} then []
    else
      SomeIn(s);
      var t :| t in s;
      var rest := Listing(s - {t});
      var k := PlaceOf(rest, t);
      InsertedLists(rest, s - {t}, k, t);
      Inserted(rest, k, t)
  }

  lemma SomeIn(s: set<real>)
    requires s != {}
    ensures exists t :: t in s
  {
    if forall t :: t !in s {
      NoneIn(s);
      assert false;
    }
  }

  lemma NoneIn(s: set<real>)
    requires forall t :: t !in s
    ensures s == {}
  {
    assert forall t :: t in s <==> t in {};
  }

  /** How many of the times are before t. */
  ghost function PlaceOf(ts: seq<real>, t: real): (k: int)
    requires Ascending(ts) && t !in ts
    ensures 0 <= k <= |ts| && (forall i :: 0 <= i < k ==> ts[i] < t) && (forall i :: k <= i < |ts| ==> t < ts[i])
  {
    if ts == [] || t < ts[0] then 0 else 1 + PlaceOf(ts[1..], t)
  }

  lemma InsertedLists(ts: seq<real>, s: set<real>, k: int, t: real)
    requires Lists(ts, s) && t !in s && 0 <= k <= |ts|
    requires (forall i :: 0 <= i < k ==> ts[i] < t) && (forall i :: k <= i < |ts| ==> t < ts[i])
    ensures Lists(Inserted(ts, k, t), s + {t})
  {
    InsertedElements(ts, k, t);
  }

  /** There is one way to put a set in order. */
  lemma {:induction false} OneOrder(x: seq<real>, y: seq<real>, s: set<real>)
    requires Lists(x, s) && Lists(y, s)
    ensures x == y
  {
    if x == [] {
      HasFirst(y);
    } else {
      SameFirst(x, y, s);
      TailLists(x, s);
      TailLists(y, s);
      OneOrder(x[1..], y[1..], s - {x[0]});
    }
  }

  lemma HasFirst(x: seq<real>)
    ensures x != [] ==> x[0] in Elements(x)
  {
  }

  lemma SameFirst(x: seq<real>, y: seq<real>, s: set<real>)
    requires Lists(x, s) && Lists(y, s) && x != []
    ensures y != [] && x[0] == y[0]
  {
    assert x[0] in Elements(y);
    var k :| 0 <= k < |y| && y[k] == x[0];
    assert y[0] in Elements(x);
    var m :| 0 <= m < |x| && x[m] == y[0];
  }

  lemma TailLists(x: seq<real>, s: set<real>)
    requires Lists(x, s) && x != []
    ensures Lists(x[1..], s - {x[0]})
  {
    assert Removed(x, 0) == x[1..];
    RemovedElements(x, 0);
  }

  /** Times none of which is earlier come behind. */
  lemma Behind(a: seq<real>, b: seq<real>, s: set<real>, u: set<real>)
    requires Lists(a, s) && Lists(b, u) && forall x, y :: x in s && y in u ==> x < y
    ensures Lists(a + b, s + u)
  {
    forall i, j | 0 <= i < j < |a + b|
      ensures (a + b)[i] < (a + b)[j]
    {
      if i < |a| <= j {
        assert a[i] in Elements(a) && b[j - |a|] in Elements(b);
      }
    }
    assert forall x :: x in a + b <==> x in a || x in b;
  }

  ghost function Gaps(ts: seq<real>): (gaps: seq<real>)
    requires ts != [] && Ascending(ts)
    ensures |gaps| == |ts| - 1 && AllPositive(gaps)
  {
    seq(|ts| - 1, i requires 0 <= i < |ts| - 1 => ts[i + 1] - ts[i])
  }

  lemma GapsMore(ts: seq<real>, t: real)
    requires ts != [] && Ascending(ts) && ts[|ts| - 1] < t
    ensures Ascending(ts + [t]) && Gaps(ts + [t]) == Gaps(ts) + [t - ts[|ts| - 1]]
  {
  }

  /** Up to five events count all, beyond that five and a tenth of them, but
      never more than twenty-five. */
  function SampleSize(total: int): int {
    var n := if total <= 5 then total else 5 + total / 10;
    if n > 25 then 25 else n
  }

  /** The first n gaps between different times determine the width; if there
      are fewer, it is one. */
  ghost function WidthFrom(ts: seq<real>, n: int): (w: real)
    requires Ascending(ts) && 2 <= n
    ensures 0.0 < w
  {
    if |ts| <= n then 1.0 else WidthOf(Gaps(ts[..n + 1]))
  }

  /** The width that belongs to a set of events. */
  ghost function WidthFor(s: set<Event>): (w: real)
    reads s`time
    ensures 0.0 < w
  {
    if |s| < 2 then 1.0 else WidthFrom(Listing(Times(s)), SampleSize(|s|))
  }

  /** The different times among the events taken, the last of which is last. */
  ghost predicate Sampled(taken: set<Event>, ts: seq<real>, last: real, gaps: seq<real>)
    reads taken`time
  {
    Lists(ts, Times(taken)) && ts != [] && ts[|ts| - 1] == last && gaps == Gaps(ts)
  }

  lemma SampledFirst(e: Event)
    ensures Sampled({e}, [e.time], e.time, [])
  {
  }

  lemma SampledMore(taken: set<Event>, ts: seq<real>, last: real, gaps: seq<real>, item: Event) returns (more: seq<real>)
    requires Sampled(taken, ts, last, gaps) && last <= item.time
    ensures Sampled({item} + taken, more, item.time, if item.time == last then gaps else gaps + [item.time - last])
  {
    assert Times({item} + taken) == Times(taken) + {item.time};
    hide Times, Gaps;
    assert ts[|ts| - 1] in Elements(ts);
    if item.time == last {
      more := ts;
    } else {
      more := ts + [item.time];
      forall x | x in Elements(ts)
        ensures x < item.time
      {
        var i :| 0 <= i < |ts| && ts[i] == x;
      }
      Behind(ts, [item.time], Elements(ts), {item.time});
      GapsMore(ts, item.time);
    }
  }

  /** If nothing left is earlier, the times of the events taken are the first of
      all times; and all, if nothing is left. */
  lemma SampledIsPrefix(taken: set<Event>, rest: set<Event>, ts: seq<real>, last: real, gaps: seq<real>)
    requires Sampled(taken, ts, last, gaps) && forall e :: e in rest ==> last <= e.time
    ensures |ts| <= |Listing(Times(taken + rest))| && ts == Listing(Times(taken + rest))[..|ts|]
    ensures rest == {} ==> ts == Listing(Times(taken + rest))
  {
    var later := Listing(Times(rest) - Times(taken));
    assert Times(taken + rest) == Times(taken) + (Times(rest) - Times(taken));
    assert ts[|ts| - 1] in Elements(ts);
    forall x, y | x in Times(taken) && y in Times(rest) - Times(taken)
      ensures x < y
    {
      var i :| 0 <= i < |ts| && ts[i] == x;
    }
    Behind(ts, later, Times(taken), Times(rest) - Times(taken));
    OneOrder(ts + later, Listing(Times(taken + rest)), Times(taken + rest));
    if rest == {} {
      HasFirst(later);
    }
  }

  /** When n gaps have been seen, or nothing is left, the width is known. */
  lemma SampledWidth(taken: set<Event>, rest: set<Event>, ts: seq<real>, last: real, gaps: seq<real>, n: int)
    requires Sampled(taken, ts, last, gaps) && forall e :: e in rest ==> last <= e.time
    requires |gaps| <= n && 2 <= n && (|gaps| == n || rest == {})
    ensures AllPositive(gaps)
    ensures WidthFrom(Listing(Times(taken + rest)), n) == if |gaps| < n then 1.0 else WidthOf(gaps)
  {
    SampledIsPrefix(taken, rest, ts, last, gaps);
  }

  lemma WidthIs(gaps: seq<real>)
    requires 2 <= |gaps| && AllPositive(gaps)
    ensures var chosen := Below(gaps[..|gaps| - 1], Limit(gaps));
      chosen != [] && WidthOf(gaps) == Sum(chosen) / |chosen| as real * 3.0
  {
    hide Sum, Below, Limit;
    SomeBelow(gaps);
  }

  /** Equal gaps of g give a width of three times g. */
  lemma EvenWidth(gaps: seq<real>, g: real)
    requires 2 <= |gaps| && 0.0 < g && forall i :: 0 <= i < |gaps| ==> gaps[i] == g
    ensures AllPositive(gaps) && WidthOf(gaps) == 3.0 * g
  {
    hide WidthOf, Sum, Below, Limit;
    var first, m := gaps[..|gaps| - 1], (|gaps| - 1) as real;
    WidthIs(gaps);
    EvenSum(gaps, g);
    EvenSum(first, g);
    LimitTimes(gaps);
    EvenLimit(m, Limit(gaps), g);
    EvenBelow(first, g, Limit(gaps));
    EvenMean(m, g);
  }

  lemma EvenLimit(m: real, limit: real, g: real)
    requires 0.0 < m && 0.0 < g && m * limit == 2.0 * ((m + 1.0) * g)
    ensures g < limit
  {
    assert 0.0 < m * g;
    assert m * (limit - g) == m * g + 2.0 * g;
    Positive(m, limit - g);
  }

  lemma Positive(m: real, x: real)
    requires 0.0 < m && 0.0 < m * x
    ensures 0.0 < x
  {
    if x <= 0.0 {
      Scale(x, 0.0, m);
      assert false;
    }
  }

  lemma EvenMean(m: real, g: real)
    requires 0.0 < m
    ensures m * g / m * 3.0 == 3.0 * g
  {
    assert m * g / m == g;
  }

  lemma {:induction false} EvenSum(gaps: seq<real>, g: real)
    requires forall i :: 0 <= i < |gaps| ==> gaps[i] == g
    ensures Sum(gaps) == |gaps| as real * g
  {
    if gaps != [] {
      EvenSum(gaps[..|gaps| - 1], g);
    }
  }

  lemma {:induction false} EvenBelow(gaps: seq<real>, g: real, limit: real)
    requires g < limit && forall i :: 0 <= i < |gaps| ==> gaps[i] == g
    ensures Below(gaps, limit) == gaps
  {
    if gaps != [] {
      EvenBelow(gaps[..|gaps| - 1], g, limit);
      assert gaps == gaps[..|gaps| - 1] + [gaps[|gaps| - 1]];
    }
  }

  /** The width lies between three times the least and three times the greatest
      gap. */
  lemma WidthWithin(gaps: seq<real>, least: real, greatest: real)
    requires 2 <= |gaps| && AllPositive(gaps)
    requires forall i :: 0 <= i < |gaps| ==> least <= gaps[i] <= greatest
    ensures 3.0 * least <= WidthOf(gaps) <= 3.0 * greatest
  {
    hide WidthOf, Sum, Below, Limit;
    var chosen := Below(gaps[..|gaps| - 1], Limit(gaps));
    WidthIs(gaps);
    BelowWithin(gaps[..|gaps| - 1], Limit(gaps), least, greatest);
    SumWithin(chosen, least, greatest);
    Mean(Sum(chosen), |chosen| as real, least, greatest);
  }

  lemma Mean(sum: real, n: real, least: real, greatest: real)
    requires 0.0 < n && n * least <= sum <= n * greatest
    ensures 3.0 * least <= sum / n * 3.0 <= 3.0 * greatest
  {
    var q := sum / n;
    assert q * n == sum;
    Cancel(least, q, n);
    Cancel(q, greatest, n);
  }

  lemma Cancel(x: real, y: real, n: real)
    requires 0.0 < n && x * n <= y * n
    ensures x <= y
  {
    assert (x - y) * n == x * n - y * n;
    if y < x {
      Positive(n, x - y);
      assert false;
    }
  }

  lemma {:induction false} BelowWithin(gaps: seq<real>, limit: real, least: real, greatest: real)
    requires forall i :: 0 <= i < |gaps| ==> least <= gaps[i] <= greatest
    ensures forall i :: 0 <= i < |Below(gaps, limit)| ==> least <= Below(gaps, limit)[i] <= greatest
  {
    if gaps != [] {
      BelowWithin(gaps[..|gaps| - 1], limit, least, greatest);
    }
  }

  lemma {:induction false} SumWithin(gaps: seq<real>, least: real, greatest: real)
    requires forall i :: 0 <= i < |gaps| ==> least <= gaps[i] <= greatest
    ensures |gaps| as real * least <= Sum(gaps) <= |gaps| as real * greatest
  {
    if gaps != [] {
      SumWithin(gaps[..|gaps| - 1], least, greatest);
    }
  }
}
