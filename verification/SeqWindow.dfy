/** seq_number_t of flooding.h: a window of bits that stands for a set of
    sequence numbers. */
module SeqWindows {

  const Width: nat := 32              // of the bit register

  /** The sequence number seen last that was largest, and a register whose bit
      k says whether the number k before it has been seen. */
  datatype Window = Window(current: int, bits: seq<bool>)

  ghost predicate IsWindow(w: Window) {
    |w.bits| == Width
  }

  function Cleared(): seq<bool> {
    seq(Width, i => false)
  }

  /** A left shift; a shift by the width or more is taken to clear.  In C it is
      undefined. */
  function Shifted(bits: seq<bool>, d: nat): (r: seq<bool>)
    requires |bits| == Width
    ensures |r| == Width
    ensures forall k :: 0 <= k < Width ==> r[k] == (d <= k && bits[k - d])
  {
    seq(Width, k requires 0 <= k < Width => d <= k && bits[k - d])
  }

  /** What check answers; span is sizeof(unsigned long), four or eight. */
  function Answer(w: Window, n: int, span: nat): bool
    requires |w.bits| == Width && span <= Width
  {
    n + span <= w.current || (n <= w.current && w.bits[w.current - n])
  }

  function After(w: Window, n: int, span: nat): (r: Window)
    requires |w.bits| == Width && span <= Width
    ensures |r.bits| == Width
  {
    if n + span <= w.current then w
    else if n > w.current then Window(n, Shifted(w.bits, n - w.current)[0 := true])
    else w.(bits := w.bits[w.current - n := true])
  }

  class SeqNumber {
    const span: nat
    var current: int
    var bits: seq<bool>

    function State(): Window
      reads this
    {
      Window(current, bits)
    }

    constructor (span: nat)
      ensures this.span == span && State() == Window(0, Cleared())
    {
      this.span := span;
      current, bits := 0, Cleared();
    }

    /** The copy that is kept for one source. */
    constructor Of(span: nat, w: Window)
      ensures this.span == span && State() == w
    {
      this.span := span;
      current, bits := w.current, w.bits;
    }

    method Check(n: int) returns (seen: bool)
      requires |bits| == Width && span <= Width
      modifies this
      ensures |bits| == Width && State() == After(old(State()), n, span)
      ensures seen == Answer(old(State()), n, span)
    {
      if n + span <= current {
        return true;
      }
      if n > current {
        bits := Shifted(bits, n - current);
        current := n;
      }
      var flag := current - n;
      seen := bits[flag];
      bits := bits[flag := true];
    }
  }

  /** The windows after each of a run of checks, from a new one. */
  ghost function Run(ns: seq<int>, span: nat): (w: Window)
    requires span <= Width
    ensures |w.bits| == Width
  {
    if ns == [] then Window(0, Cleared()) else After(Run(ns[..|ns| - 1], span), ns[|ns| - 1], span)
  }

  /** Within the span, the bits are the set of numbers given. */
  ghost predicate Mirrors(w: Window, given: seq<int>, span: nat)
    requires |w.bits| == Width
  {
    && (forall n :: n in given ==> n <= w.current)
    && forall k :: 0 <= k < span && k < Width ==> (w.bits[k] <==> w.current - k in given)
  }

  lemma AfterMirrors(w: Window, given: seq<int>, n: int, span: nat)
    requires |w.bits| == Width && span <= Width && 0 < span && Mirrors(w, given, span)
    ensures Mirrors(After(w, n, span), given + [n], span)
  {
    var w' := After(w, n, span);
    assert forall m :: m in given + [n] <==> m in given || m == n;
    forall k | 0 <= k < span
      ensures w'.bits[k] <==> w'.current - k in given + [n]
    {
      if n > w.current {
        var d := n - w.current;
        if k >= d {
          assert w.bits[k - d] <==> w.current - (k - d) in given;
        }
      } else {
        assert w.bits[k] <==> w.current - k in given;
      }
    }
  }

  lemma {:induction false} RunMirrors(ns: seq<int>, span: nat)
    requires 0 < span <= Width
    ensures forall n :: n in ns ==> n <= Run(ns, span).current || n <= 0
    ensures forall k :: 0 <= k < span ==> (Run(ns, span).bits[k] <==> Run(ns, span).current - k in ns)
    ensures 0 <= Run(ns, span).current
  {
    if ns != [] {
      var first, n := ns[..|ns| - 1], ns[|ns| - 1];
      RunMirrors(first, span);
      assert ns == first + [n];
      AfterMirrors(Run(first, span), first, n, span);
    }
  }

  /** After any checks, the next answers "seen" exactly if the number is too old
      for the span or was given before. */
  lemma {:induction false} AgreesWithSet(ns: seq<int>, n: int, span: nat)
    requires 0 < span <= Width
    ensures Answer(Run(ns, span), n, span) <==> n + span <= Run(ns, span).current || n in ns
  {
    RunMirrors(ns, span);
    var w := Run(ns, span);
    if !(n + span <= w.current) && n <= w.current {
      assert w.bits[w.current - n] <==> w.current - (w.current - n) in ns;
    }
  }

  /** current is the largest number given, or zero. */
  lemma {:induction false} CurrentIsLargest(ns: seq<int>, span: nat)
    requires span <= Width
    ensures Run(ns, span).current == 0 || Run(ns, span).current in ns
    ensures forall n :: n in ns ==> n <= Run(ns, span).current
  {
    if ns != [] {
      CurrentIsLargest(ns[..|ns| - 1], span);
      assert ns == ns[..|ns| - 1] + [ns[|ns| - 1]];
    }
  }

  /** A shift whose count is taken modulo the width, as common machines do. */
  function MaskedAfter(w: Window, n: int, span: nat): (r: Window)
    requires |w.bits| == Width && span <= Width
    ensures |r.bits| == Width
  {
    if n + span <= w.current then w
    else if n > w.current then Window(n, Shifted(w.bits, (n - w.current) % Width)[0 := true])
    else w.(bits := w.bits[w.current - n := true])
  }

  /** What check answers with such a shift. */
  function MaskedAnswer(w: Window, n: int, span: nat): bool
    requires |w.bits| == Width && span <= Width
  {
    if n + span <= w.current then true
    else if n > w.current then Shifted(w.bits, (n - w.current) % Width)[0]
    else w.bits[w.current - n]
  }

  /** The two agree while a number is less than the width ahead. */
  lemma MaskedAgrees(w: Window, n: int, span: nat)
    requires |w.bits| == Width && span <= Width && n - w.current < Width
    ensures MaskedAfter(w, n, span) == After(w, n, span) && MaskedAnswer(w, n, span) == Answer(w, n, span)
  {
    if n > w.current {
      assert (n - w.current) % Width == n - w.current;
    }
  }

  /** The windows after a run of checks with such a shift. */
  ghost function MaskedRun(ns: seq<int>, span: nat): (w: Window)
    requires span <= Width
    ensures |w.bits| == Width
  {
    if ns == [] then Window(0, Cleared()) else MaskedAfter(MaskedRun(ns[..|ns| - 1], span), ns[|ns| - 1], span)
  }

  /** A jump by d after the numbers in given, the largest of which is current,
      leaves nothing within the span: either it is below the width, or what is
      left of it modulo the width still moves all recent numbers out. */
  ghost predicate Harmless(given: seq<int>, current: int, d: int, span: nat) {
    d < Width || forall x :: x in given ==> x + span - d % Width <= current
  }

  /** All jumps of a run are harmless. */
  ghost predicate AllHarmless(ns: seq<int>, span: nat)
    requires span <= Width
  {
    ns != [] ==>
      var first, n := ns[..|ns| - 1], ns[|ns| - 1];
      AllHarmless(first, span) && Harmless(first, Run(first, span).current, n - Run(first, span).current, span)
  }

  /** At every point of a run both kinds of shift answer alike: to the check
      that comes next, and to any number that is not the width or more ahead. */
  ghost predicate Alike(ns: seq<int>, span: nat)
    requires span <= Width
  {
    && (forall n :: n < Run(ns, span).current + Width ==>
          MaskedAnswer(MaskedRun(ns, span), n, span) == Answer(Run(ns, span), n, span))
    && (ns != [] ==>
          var first, n := ns[..|ns| - 1], ns[|ns| - 1];
          Alike(first, span) && MaskedAnswer(MaskedRun(first, span), n, span) == Answer(Run(first, span), n, span))
  }

  /** The bits that a check can see. */
  ghost predicate SameSpan(w: Window, w': Window, span: nat)
    requires |w.bits| == |w'.bits| == Width && span <= Width
  {
    w.current == w'.current && forall k :: 0 <= k < span ==> w.bits[k] == w'.bits[k]
  }

  lemma HarmlessStep(w: Window, m: Window, given: seq<int>, n: int, span: nat)
    requires |w.bits| == |m.bits| == Width && 0 < span <= Width && SameSpan(w, m, span)
    requires forall k :: 0 <= k < span ==> (w.bits[k] <==> w.current - k in given)
    requires Harmless(given, w.current, n - w.current, span)
    ensures SameSpan(After(w, n, span), MaskedAfter(m, n, span), span)
    ensures MaskedAnswer(m, n, span) == Answer(w, n, span)
  {
    var d := n - w.current;
    if d > 0 {
      var r := d % Width;
      forall k | 0 <= k < span
        ensures After(w, n, span).bits[k] == MaskedAfter(m, n, span).bits[k]
        ensures d >= Width && r <= k ==> !m.bits[k - r]
      {
        assert d >= Width && r <= k ==> w.current - (k - r) !in given;
      }
      assert d >= Width && r == 0 ==> !m.bits[0 - r];
    }
  }

  /** A jump that is not harmless leaves a number that was never given. */
  lemma HarmfulStep(w: Window, m: Window, given: seq<int>, n: int, span: nat)
    requires |w.bits| == |m.bits| == Width && 0 < span <= Width && SameSpan(w, m, span)
    requires forall k :: 0 <= k < span ==> (w.bits[k] <==> w.current - k in given)
    requires (forall x :: x in given ==> x <= w.current) && !Harmless(given, w.current, n - w.current, span)
    ensures After(w, n, span).current == n
    ensures MaskedAnswer(m, n, span) != Answer(w, n, span)
      || exists x :: x < n && MaskedAnswer(MaskedAfter(m, n, span), x, span) != Answer(After(w, n, span), x, span)
  {
    var d := n - w.current;
    var r := d % Width;
    var x :| x in given && x + span - r > w.current;
    var j := w.current - x;
    var k := r + j;
    assert w.current - j == x;
    assert m.bits[j] && m.bits[k - r];
    if k > 0 {
      assert MaskedAfter(m, n, span).bits[k] && !After(w, n, span).bits[k];
      assert MaskedAnswer(MaskedAfter(m, n, span), n - k, span) != Answer(After(w, n, span), n - k, span);
    }
  }

  lemma SameAnswers(w: Window, m: Window, span: nat)
    requires |w.bits| == |m.bits| == Width && 0 < span <= Width && SameSpan(w, m, span)
    ensures forall n :: n < w.current + Width ==> MaskedAnswer(m, n, span) == Answer(w, n, span)
  {
    forall n | n < w.current + Width
      ensures MaskedAnswer(m, n, span) == Answer(w, n, span)
    {
      if n > w.current {
        assert (n - w.current) % Width == n - w.current;
      } else if n + span > w.current {
        assert w.bits[w.current - n] == m.bits[w.current - n];
      }
    }
  }

  /** The masked window answers as the set of numbers does, all along a run,
      exactly if all jumps of the run are harmless. */
  lemma {:induction false} MaskedRunAlikeIff(ns: seq<int>, span: nat)
    requires 0 < span <= Width
    ensures Alike(ns, span) <==> AllHarmless(ns, span)
    ensures AllHarmless(ns, span) ==> SameSpan(Run(ns, span), MaskedRun(ns, span), span)
  {
    hide Answer, MaskedAnswer, After, MaskedAfter, Harmless;
    if ns == [] {
      SameAnswers(Run(ns, span), MaskedRun(ns, span), span);
    } else {
      hide SameSpan;
      var first, n := ns[..|ns| - 1], ns[|ns| - 1];
      MaskedRunAlikeIff(first, span);
      RunMirrors(first, span);
      var w, m := Run(first, span), MaskedRun(first, span);
      if AllHarmless(first, span) {
        if Harmless(first, w.current, n - w.current, span) {
          HarmlessStep(w, m, first, n, span);
          SameAnswers(Run(ns, span), MaskedRun(ns, span), span);
        } else {
          HarmfulStep(w, m, first, n, span);
          if MaskedAnswer(m, n, span) == Answer(w, n, span) {
            var x :| x < n
              && MaskedAnswer(MaskedAfter(m, n, span), x, span) != Answer(After(w, n, span), x, span);
            assert Run(ns, span) == After(w, n, span) && MaskedRun(ns, span) == MaskedAfter(m, n, span);
          }
        }
      }
    }
  }

  /** So it does if no jump is as wide as the register. */
  lemma {:induction false} ShortJumpsAreHarmless(ns: seq<int>, span: nat)
    requires 0 < span <= Width
    requires forall i :: 0 <= i < |ns| ==> ns[i] < Run(ns[..i], span).current + Width
    ensures AllHarmless(ns, span)
  {
    if ns != [] {
      var first := ns[..|ns| - 1];
      forall i | 0 <= i < |first|
        ensures first[i] < Run(first[..i], span).current + Width
      {
        assert first[..i] == ns[..i];
      }
      ShortJumpsAreHarmless(first, span);
    }
  }

  /** Once the largest number is one that was given, a jump is harmless exactly
      if it is below the width or leaves at least the span modulo the width. */
  lemma HarmlessIff(given: seq<int>, current: int, d: int, span: nat)
    requires current in given && (forall x :: x in given ==> x <= current) && 0 < d
    ensures Harmless(given, current, d, span) <==> d < Width || span <= d % Width
  {
  }

  /** For instance, given 1 and then 34, a masked window takes 33 for seen. */
  lemma MaskedForgets()
    ensures MaskedAnswer(MaskedRun([1, 34], 8), 33, 8) && !Answer(Run([1, 34], 8), 33, 8)
    ensures !Alike([1, 34], 8)
  {
    var one := [1];
    assert one[..0] == [] && [1, 34][..1] == one;
    var w := Run(one, 8);
    assert w == MaskedRun(one, 8) && w.current == 1 && w.bits[0];
    assert Run([1, 34], 8) == After(w, 34, 8) && MaskedRun([1, 34], 8) == MaskedAfter(w, 34, 8);
    assert (34 - 1) % Width == 1;
  }
}
