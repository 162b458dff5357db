/** What FlowQueue remembers after any run of uses: the flows used last. */
module FlowLaws {
  import opened FlowQueues

  /** The list after a run of enques. */
  ghost function Remembered(uses: seq<Flow>, bound: int): seq<Flow> {
    if uses == [] then [] else Used(Remembered(uses[..|uses| - 1], bound), uses[|uses| - 1], bound)
  }

  /** Use i is the last one of its flow. */
  ghost predicate LastUse(uses: seq<Flow>, i: int) {
    0 <= i < |uses| && forall j :: i < j < |uses| ==> uses[j].id != uses[i].id
  }

  /** The list holds last uses, those at the given places, in their order.
      There are no more than bound, and any other last use is earlier than all
      of these, which then are as many as there can be. */
  ghost predicate AreMostRecent(uses: seq<Flow>, bound: int, flows: seq<Flow>, places: seq<int>) {
    && |places| == |flows| <= bound
    && (forall i :: 0 <= i < |places| ==> LastUse(uses, places[i]) && flows[i] == uses[places[i]])
    && (forall i, j :: 0 <= i < j < |places| ==> places[i] < places[j])
    && forall p :: LastUse(uses, p) ==> p in places || (|flows| == bound > 0 && p < places[0])
  }

  lemma OneMoreUse(uses: seq<Flow>, f: Flow, i: int)
    ensures LastUse(uses + [f], i) <==> i == |uses| || (LastUse(uses, i) && uses[i].id != f.id)
  {
    var more := uses + [f];
    assert forall j :: 0 <= j < |uses| ==> more[j] == uses[j];
    assert more[|uses|] == f;
  }

  lemma NoFlowTwice(uses: seq<Flow>, bound: int, flows: seq<Flow>, places: seq<int>)
    requires AreMostRecent(uses, bound, flows, places)
    ensures NoRepeats(flows)
  {
    forall i, j | 0 <= i < j < |flows|
      ensures flows[i].id != flows[j].id
    {
      assert LastUse(uses, places[i]) && places[i] < places[j] < |uses|;
    }
  }

  /** Some places, those of other flows, with the new one behind them. */
  ghost predicate Kept(uses: seq<Flow>, f: Flow, flows: seq<Flow>, places: seq<int>) {
    && |places| == |flows|
    && (forall i :: 0 <= i < |places| ==>
          LastUse(uses, places[i]) && flows[i] == uses[places[i]] && flows[i].id != f.id && 0 <= places[i] < |uses|)
    && (forall i, j :: 0 <= i < j < |places| ==> places[i] < places[j])
  }

  lemma KeptAndNew(uses: seq<Flow>, f: Flow, bound: int, flows: seq<Flow>, places: seq<int>)
    requires Kept(uses, f, flows, places) && |flows| < bound
    requires forall p :: LastUse(uses, p) && uses[p].id != f.id ==>
      p in places || (|flows| == bound - 1 && (places == [] || p < places[0]))
    ensures AreMostRecent(uses + [f], bound, flows + [f], places + [|uses|])
  {
    var flows', places' := flows + [f], places + [|uses|];
    hide LastUse;
    forall i | 0 <= i < |places'|
      ensures LastUse(uses + [f], places'[i]) && flows'[i] == (uses + [f])[places'[i]]
    {
      OneMoreUse(uses, f, places'[i]);
    }
    forall p | LastUse(uses + [f], p)
      ensures p in places' || (|flows'| == bound && p < places'[0])
    {
      OneMoreUse(uses, f, p);
      LastUseIn(uses, p);
      if p == |uses| {
        assert places'[|places'| - 1] == p;
      } else if p in places {
        var i :| 0 <= i < |places| && places[i] == p;
        assert places'[i] == p;
      }
    }
  }

  lemma LastUseIn(uses: seq<Flow>, p: int)
    ensures LastUse(uses, p) ==> 0 <= p < |uses|
  {
  }

  lemma StillThere(places: seq<int>, k: int, p: int)
    requires 0 <= k < |places|
    ensures p in places && p != places[k] ==> p in places[..k] + places[k + 1..]
  {
  }

  /** The flow of the new use is remembered already. */
  lemma UsedAgain(uses: seq<Flow>, f: Flow, bound: int, flows: seq<Flow>, places: seq<int>, k: int)
    requires 0 < bound && AreMostRecent(uses, bound, flows, places) && 0 <= k < |flows| && flows[k].id == f.id
    ensures AreMostRecent(uses + [f], bound, Used(flows, f, bound), places[..k] + places[k + 1..] + [|uses|])
  {
    NoFlowTwice(uses, bound, flows, places);
    WithoutAt(flows, f.id, k);
    var rest, others := places[..k] + places[k + 1..], flows[..k] + flows[k + 1..];
    assert Used(flows, f, bound) == others + [f];
    OthersKept(uses, f, bound, flows, places, k);
    forall p | LastUse(uses, p) && uses[p].id != f.id
      ensures p in rest || (|others| == bound - 1 && (rest == [] || p < rest[0]))
    {
      OthersThere(uses, f, bound, flows, places, k, p);
    }
    hide Used, Kept, AreMostRecent, LastUse;
    KeptAndNew(uses, f, bound, others, rest);
  }

  lemma OthersKept(uses: seq<Flow>, f: Flow, bound: int, flows: seq<Flow>, places: seq<int>, k: int)
    requires AreMostRecent(uses, bound, flows, places) && 0 <= k < |flows| && flows[k].id == f.id && NoRepeats(flows)
    ensures var rest, others := places[..k] + places[k + 1..], flows[..k] + flows[k + 1..];
      Kept(uses, f, others, rest) && |others| == |flows| - 1 < bound
  {
    hide LastUse;
    var rest, others := places[..k] + places[k + 1..], flows[..k] + flows[k + 1..];
    forall i | 0 <= i < |rest|
      ensures var j := if i < k then i else i + 1; rest[i] == places[j] && others[i] == flows[j]
      ensures LastUse(uses, rest[i]) && 0 <= rest[i] < |uses|
    {
      LastUseIn(uses, rest[i]);
    }
  }

  lemma OthersThere(uses: seq<Flow>, f: Flow, bound: int, flows: seq<Flow>, places: seq<int>, k: int, p: int)
    requires AreMostRecent(uses, bound, flows, places) && 0 <= k < |flows| && flows[k].id == f.id
    requires LastUse(uses, p) && uses[p].id != f.id
    ensures var rest := places[..k] + places[k + 1..];
      p in rest || (|flows| == bound && (rest == [] || p < rest[0]))
  {
    hide LastUse;
    if p in places {
      StillThere(places, k, p);
    } else {
      assert k > 0 ==> (places[..k] + places[k + 1..])[0] == places[0];
    }
  }

  /** It is not. */
  lemma UsedAnew(uses: seq<Flow>, f: Flow, bound: int, flows: seq<Flow>, places: seq<int>)
    requires 0 < bound && AreMostRecent(uses, bound, flows, places)
    requires forall k :: 0 <= k < |flows| ==> flows[k].id != f.id
    ensures AreMostRecent(uses + [f], bound, Used(flows, f, bound),
      if |flows| == bound then places[1..] + [|uses|] else places + [|uses|])
  {
    UsedNew(flows, f, bound);
    hide LastUse, Used;
    forall i | 0 <= i < |places|
      ensures 0 <= places[i] < |uses|
    {
      LastUseIn(uses, places[i]);
    }
    assert Kept(uses, f, flows, places);
    if |flows| == bound {
      FirstGone(uses, f, flows, places);
      hide Kept, AreMostRecent;
      KeptAndNew(uses, f, bound, flows[1..], places[1..]);
    } else {
      KeptAndNew(uses, f, bound, flows, places);
    }
  }

  lemma UsedNew(flows: seq<Flow>, f: Flow, bound: int)
    requires |flows| <= bound && forall k :: 0 <= k < |flows| ==> flows[k].id != f.id
    ensures Used(flows, f, bound) == if |flows| == bound then (flows + [f])[1..] else flows + [f]
    ensures flows != [] ==> (flows + [f])[1..] == flows[1..] + [f]
  {
    WithoutNone(flows, f.id);
  }

  lemma FirstGone(uses: seq<Flow>, f: Flow, flows: seq<Flow>, places: seq<int>)
    requires flows != [] && Kept(uses, f, flows, places)
    requires forall p :: LastUse(uses, p) ==> p in places || p < places[0]
    ensures Kept(uses, f, flows[1..], places[1..])
    ensures forall p :: LastUse(uses, p) ==> p in places[1..] || places[1..] == [] || p < places[1..][0]
  {
    hide LastUse;
    forall p | LastUse(uses, p)
      ensures p in places[1..] || places[1..] == [] || p < places[1..][0]
    {
      if p in places && p != places[0] {
        StillThere(places, 0, p);
        assert places[..0] + places[1..] == places[1..];
      }
    }
  }

  /** After any run of enques the list holds the flows used last, each as it was
      used last, in the order of these uses; and it holds as many as it can. */
  lemma {:induction false} RemembersMostRecent(uses: seq<Flow>, bound: int) returns (places: seq<int>)
    requires 0 < bound
    ensures AreMostRecent(uses, bound, Remembered(uses, bound), places)
  {
    if uses == [] {
      places := [];
    } else {
      var first, f := uses[..|uses| - 1], uses[|uses| - 1];
      var flows := Remembered(first, bound);
      var before := RemembersMostRecent(first, bound);
      assert first + [f] == uses;
      if k :| 0 <= k < |flows| && flows[k].id == f.id {
        places := before[..k] + before[k + 1..] + [|first|];
        UsedAgain(first, f, bound, flows, before, k);
      } else {
        places := if |flows| == bound then before[1..] + [|first|] else before + [|first|];
        UsedAnew(first, f, bound, flows, before);
      }
    }
  }
}
