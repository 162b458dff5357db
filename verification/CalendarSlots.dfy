/** Slot arithmetic of the calendar queue: which slot of which year a time
    falls in, and the averages from which a new slot width is computed. */
module CalendarSlots {
  import opened NumberTheory

  /** The source's (long)(t/w), for a time t that is not negative. */
  function Slot(t: real, w: real): int
    requires w > 0.0
  {
    (t / w).Floor
  }

  lemma SlotBounds(t: real, w: real)
    requires 0.0 <= t && 0.0 < w
    ensures 0 <= Slot(t, w)
    ensures Slot(t, w) as real * w <= t < (Slot(t, w) + 1) as real * w
  {
    var q := t / w;
    var f := q.Floor;
    assert q * w == t;
    Scale(f as real, q, w);
    assert 0.0 < ((f + 1) as real - q) * w;
    assert ((f + 1) as real - q) * w == (f + 1) as real * w - q * w;
    assert t < (f + 1) as real * w;
  }

  lemma Scale(a: real, b: real, w: real)
    requires a <= b && 0.0 < w
    ensures a * w <= b * w
  {
    assert b * w - a * w == (b - a) * w;
  }

  /** Slots partition the times: a slot's bounds determine it. */
  lemma SlotUnique(t: real, w: real, s: int)
    requires 0.0 <= t && 0.0 < w && s as real * w <= t < (s + 1) as real * w
    ensures Slot(t, w) == s
  {
    SlotBounds(t, w);
    hide Slot;
    var u := Slot(t, w);
    Between(u, s, t, w);
    Between(s, u, t, w);
  }

  lemma Between(u: int, s: int, t: real, w: real)
    requires 0.0 < w && t < (u + 1) as real * w && s as real * w <= t
    ensures s <= u
  {
    if u + 1 <= s {
      Scale((u + 1) as real, s as real, w);
      assert false;
    }
  }

  /** The bucket after that of slot s, with the source's wrap-around. */
  lemma NextBucket(s: int, n: int)
    requires 0 <= s && 0 < n
    ensures (s + 1) % n == if s % n + 1 == n then 0 else s % n + 1
  {
    var q, r := s / n, s % n;
    assert s + 1 == q * n + (r + 1);
    if r + 1 == n {
      assert s + 1 == (q + 1) * n;
      ModOf(s + 1, q + 1, 0, n);
    } else {
      ModOf(s + 1, q, r + 1, n);
    }
  }

  /** Within one year no two slots share a bucket. */
  lemma SameBucket(s: int, k: int, n: int)
    requires 0 <= s && 0 < k <= n
    ensures (s + k) % n == s % n <==> k == n
  {
    var q, r := s / n, s % n;
    if r + k < n {
      ModOf(s + k, q, r + k, n);
    } else {
      assert s + k == (q + 1) * n + (r + k - n);
      if r + k - n < n {
        ModOf(s + k, q + 1, r + k - n, n);
      }
    }
  }

  function Sum(s: seq<real>): real {
    if s == [] then 0.0 else Sum(s[..|s| - 1]) + s[|s| - 1]
  }

  lemma SumPrefix(s: seq<real>, i: int)
    requires 0 <= i < |s|
    ensures Sum(s[..i + 1]) == Sum(s[..i]) + s[i]
  {
    assert s[..i + 1][..i] == s[..i];
  }

  /** The source's bucket counts: powers of two, at least four. */
  ghost predicate IsSize(n: int) {
    n == 4 || (n > 4 && n % 2 == 0 && IsSize(n / 2))
  }

  lemma SizeAtLeastFour(n: int)
    requires IsSize(n)
    ensures 4 <= n
  {
  }

  lemma DoubleSize(n: int)
    requires IsSize(n)
    ensures IsSize(2 * n)
  {
    SizeAtLeastFour(n);
    hide IsSize;
    Halves(n + n, n);
    SizeUp(n + n, n);
  }

  lemma Halves(m: int, n: int)
    requires m == n + n
    ensures m % 2 == 0 && m / 2 == n
  {
  }

  lemma SizeUp(m: int, n: int)
    requires 4 < m && m % 2 == 0 && m / 2 == n && IsSize(n)
    ensures IsSize(m)
  {
  }

  /** Where the source halves the bucket count there are at least eight. */
  lemma HalfSize(n: int)
    requires IsSize(n) && 0 < n / 2 - 2
    ensures IsSize(n / 2)
  {
  }

  /** The samples below a limit, in order. */
  function Below(s: seq<real>, limit: real): seq<real> {
    if s == [] then []
    else
      var rest := Below(s[..|s| - 1], limit);
      if s[|s| - 1] < limit then rest + [s[|s| - 1]] else rest
  }

  lemma BelowPrefix(s: seq<real>, i: int, limit: real)
    requires 0 <= i < |s|
    ensures Below(s[..i + 1], limit) == if s[i] < limit then Below(s[..i], limit) + [s[i]] else Below(s[..i], limit)
  {
    assert s[..i + 1][..i] == s[..i];
  }

  lemma NothingBelow(limit: real)
    ensures Below([], limit) == [] && Sum([]) == 0.0
  {
  }

  lemma PositiveAt(s: seq<real>, i: int)
    requires AllPositive(s) && 0 <= i < |s|
    ensures 0.0 < s[i]
  {
  }

  lemma SumAppend(s: seq<real>, x: real)
    ensures Sum(s + [x]) == Sum(s) + x
  {
    assert (s + [x])[..|s|] == s;
  }

  ghost predicate AllPositive(s: seq<real>) {
    forall i :: 0 <= i < |s| ==> 0.0 < s[i]
  }

  lemma AppendGap(s: seq<real>, x: real)
    requires AllPositive(s) && 0.0 < x
    ensures AllPositive(s + [x]) && Sum(s + [x]) == Sum(s) + x
  {
    SumAppend(s, x);
  }

  lemma NoGaps()
    ensures AllPositive([]) && Sum([]) == 0.0
  {
  }

  lemma {:induction false} SumPositive(s: seq<real>)
    requires s != [] && AllPositive(s)
    ensures 0.0 < Sum(s)
  {
    if |s| > 1 {
      SumPositive(s[..|s| - 1]);
    }
  }

  lemma {:induction false} BelowPositive(s: seq<real>, limit: real)
    requires AllPositive(s)
    ensures AllPositive(Below(s, limit))
  {
    if s != [] {
      BelowPositive(s[..|s| - 1], limit);
    }
  }

  lemma {:induction false} NoneBelow(s: seq<real>, limit: real)
    requires Below(s, limit) == []
    ensures |s| as real * limit <= Sum(s)
  {
    if s != [] {
      var r := s[..|s| - 1];
      assert s[|s| - 1] >= limit;
      NoneBelow(r, limit);
      assert |s| as real * limit == |r| as real * limit + limit;
    }
  }

  /** Twice the average gap that NewWidth's n samples leave it with. */
  function Limit(s: seq<real>): real
    requires 2 <= |s|
  {
    Sum(s) / (|s| - 1) as real * 2.0
  }

  lemma LimitTimes(s: seq<real>)
    requires 2 <= |s|
    ensures (|s| - 1) as real * Limit(s) == 2.0 * Sum(s)
  {
    hide Sum;
    var m := (|s| - 1) as real;
    var q := Sum(s) / m;
    assert q * m == Sum(s);
    assert m * (q * 2.0) == 2.0 * (q * m);
  }

  /** Of n positive samples, some of the first n - 1 is less than twice the sum
      of all n divided by n - 1: NewWidth's fallback for an empty selection is
      never needed. */
  lemma SomeBelow(s: seq<real>)
    requires 2 <= |s| && AllPositive(s)
    ensures Below(s[..|s| - 1], Limit(s)) != []
  {
    var m := |s| - 1;
    SumPrefix(s, m);
    assert s[..m + 1] == s;
    SumPositive(s);
    LimitTimes(s);
    hide Limit, Sum;
    if Below(s[..m], Limit(s)) == [] {
      NoneBelow(s[..m], Limit(s));
    }
  }

  /** The width that NewWidth computes from its samples: three times the mean
      of those of the first n - 1 that are below the limit. */
  ghost function WidthOf(s: seq<real>): (w: real)
    requires 2 <= |s| && AllPositive(s)
    ensures 0.0 < w
  {
    var chosen := Below(s[..|s| - 1], Limit(s));
    SomeBelow(s);
    BelowPositive(s[..|s| - 1], Limit(s));
    SumPositive(chosen);
    Sum(chosen) / |chosen| as real * 3.0
  }
}
