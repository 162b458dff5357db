/** Over whole runs: which data the 802.11 MAC hands up, and which outcome it
    reports for which request. */
module MacHistory {
  import opened MacStates
  import opened MacInvariant
  import opened MacRuns
  import opened MacReports

  /** The data handed up, in order. */
  ghost function Ups(acts: seq<Act>): seq<Act> {
    if acts == [] then []
    else
      var a := acts[|acts| - 1];
      Ups(acts[..|acts| - 1]) + if a.NetworkData? then [a] else []
  }

  /** The outcomes reported, in order. */
  ghost function Outcomes(acts: seq<Act>): seq<bool> {
    if acts == [] then []
    else
      var a := acts[|acts| - 1];
      Outcomes(acts[..|acts| - 1]) + if a.NetworkAck? then [a.success] else []
  }

  lemma {:induction false} Joined(acts: seq<Act>, added: seq<Act>)
    ensures Ups(acts + added) == Ups(acts) + Ups(added)
    ensures Outcomes(acts + added) == Outcomes(acts) + Outcomes(added)
  {
    if added == [] {
      assert acts + added == acts;
    } else {
      var first := added[..|added| - 1];
      Joined(acts, first);
      assert (acts + added)[..|acts + added| - 1] == acts + first;
    }
  }

  lemma Short(a: Act, b: Act)
    ensures Ups([]) == [] && Outcomes([]) == []
    ensures Ups([a]) == if a.NetworkData? then [a] else []
    ensures Outcomes([a]) == if a.NetworkAck? then [a.success] else []
    ensures Ups([a, b]) == Ups([a]) + Ups([b]) && Outcomes([a, b]) == Outcomes([a]) + Outcomes([b])
  {
    assert [a][..0] == [] && [a, b][..1] == [a];
  }

  datatype Heard = Nothing | Number(seqNo: nat)

  /** The number of the data frame that was last taken from a node. */
  ghost function LastTaken(c: Config, s: State, hs: seq<Happening>, sa: Address): Heard
    requires c.Valid()
  {
    if hs == [] then Nothing
    else
      var first, h := hs[..|hs| - 1], hs[|hs| - 1];
      var before := Run(c, s, first);
      if h.event.RecvFires? && TakesData(c, before, h.time) && before.rx.frame.sa == sa then Number(before.rx.frame.seqNo)
      else LastTaken(c, s, first, sa)
  }

  lemma {:induction false} CacheIs(c: Config, s: State, hs: seq<Happening>, sa: Address)
    requires c.Valid() && IsStart(s) && Legal(c, s, hs)
    ensures var cache := Run(c, s, hs).air.cache;
      LastTaken(c, s, hs, sa) == if sa in cache then Number(cache[sa]) else Nothing
  {
    hide Step, Inv, Enabled, TakesData, Logs;
    if hs != [] {
      var first, h := hs[..|hs| - 1], hs[|hs| - 1];
      CacheIs(c, s, first, sa);
      RunKeeps(c, s, first);
      var before := Run(c, s, first);
      if h.event.RecvFires? {
        RecvSays(c, before, h.time);
      } else {
        OthersSays(c, before, h.time, h.event);
        hide Opened;
        OpenedCache(c, before, h.time, h.event);
      }
    }
  }

  lemma OpenedCache(c: Config, s: State, t: real, e: Event)
    requires c.Valid() && !e.RecvFires? && Others(c, s, t, e, Step(c, s, t, e))
    ensures Step(c, s, t, e).air.cache == s.air.cache
  {
    hide Step;
  }

  lemma OneMore(c: Config, s: State, hs: seq<Happening>, h: Happening)
    requires c.Valid() && IsStart(s) && Legal(c, s, hs + [h])
    ensures Legal(c, s, hs) && Enabled(Run(c, s, hs), h.time, h.event) && Inv(c, Run(c, s, hs))
    ensures Run(c, s, hs + [h]) == Step(c, Run(c, s, hs), h.time, h.event)
  {
    assert (hs + [h])[..|hs|] == hs;
    RunKeeps(c, s, hs);
  }

  /** In every run, what is handed up is the payload and the address of every
      data frame that this node takes, but for those with the number of the one
      last taken from the same node. */
  lemma DataGoesUp(c: Config, s: State, hs: seq<Happening>, h: Happening)
    requires c.Valid() && IsStart(s) && Legal(c, s, hs + [h])
    ensures var before, after := Run(c, s, hs), Run(c, s, hs + [h]);
      var p := before.rx.frame;
      Ups(after.acts) == Ups(before.acts) +
        if h.event.RecvFires? && TakesData(c, before, h.time) && LastTaken(c, s, hs, p.sa) != Number(p.seqNo)
        then [NetworkData(p.payload, p.da)] else []
  {
    hide *;
    OneMore(c, s, hs, h);
    CacheIs(c, s, hs, Run(c, s, hs).rx.frame.sa);
    KnownIff(Run(c, s, hs), LastTaken(c, s, hs, Run(c, s, hs).rx.frame.sa));
    StepUps(c, Run(c, s, hs), h.time, h.event);
  }

  lemma KnownIff(s: State, last: Heard)
    requires last == if s.rx.frame.sa in s.air.cache then Number(s.air.cache[s.rx.frame.sa]) else Nothing
    ensures Known(s) <==> last == Number(s.rx.frame.seqNo)
  {
  }

  lemma StepUps(c: Config, s: State, t: real, e: Event)
    requires c.Valid() && Inv(c, s) && Enabled(s, t, e)
    ensures Ups(Step(c, s, t, e).acts) == Ups(s.acts) +
      if e.RecvFires? && TakesData(c, s, t) && !Known(s) then [NetworkData(s.rx.frame.payload, s.rx.frame.da)] else []
  {
    hide *;
    StepSays(c, s, t, e);
    var added :| Logs(c, s, t, e, added) && Step(c, s, t, e).acts == s.acts + added;
    Joined(s.acts, added);
    AddsUp(c, s, t, e, added);
  }

  lemma AddsUp(c: Config, s: State, t: real, e: Event, added: seq<Act>)
    requires c.Valid() && Logs(c, s, t, e, added)
    ensures Ups(added) == if e.RecvFires? && TakesData(c, s, t) && !Known(s)
      then [NetworkData(s.rx.frame.payload, s.rx.frame.da)] else []
    ensures Outcomes(added) == match e
      case FromNetwork(_, _) => if s.job.mode == Idle then [] else [false]
      case RecvFires => if GetsAck(c, s, t) then [true] else []
      case CtsFires(_) => if GivesUp(c, s, e) then [false] else []
      case AckFires(_) => if GivesUp(c, s, e) then [false] else []
      case NetAckFires => [s.timers.netAckData]
      case _ => []
  {
    assert TakesData(c, s, t) ==> !GetsAck(c, s, t);
    hide GivesUp, IsOpening, TakesData, GetsAck, Known;
    var a, b := if added == [] then Timeout else added[0], if |added| < 2 then Timeout else added[1];
    Short(a, b);
    assert added == [] || added == [a] || added == [a, b];
  }

  datatype Aired = NoneYet | Aired(start: real, frame: Frame)

  /** What was put on the air last. */
  ghost function LastAired(acts: seq<Act>): Aired {
    if acts == [] then NoneYet
    else
      match acts[|acts| - 1]
      case OnAir(start, f) => Aired(start, f)
      case _ => LastAired(acts[..|acts| - 1])
  }

  /** An outcome that is due later is that of the broadcast put on the air last,
      at its end. */
  ghost predicate BroadcastIsDue(s: State) {
    s.timers.netAck.At? ==>
      && s.timers.netAckData && s.timers.phy == Off
      && var a := LastAired(s.acts);
         a.Aired? && a.frame.kind.Data? && a.frame.da == Broadcast && a.start + a.frame.txTime == s.timers.netAck.time
  }

  lemma LastAiredMore(acts: seq<Act>, added: seq<Act>)
    requires |added| <= 2 && (|added| == 2 ==> !added[0].OnAir? && !added[1].OnAir?)
    ensures LastAired(acts + added) ==
      if added != [] && added[0].OnAir? then Aired(added[0].start, added[0].frame) else LastAired(acts)
  {
    if added == [] {
      assert acts + added == acts;
    } else if |added| == 1 {
      assert (acts + added)[..|acts|] == acts;
    } else {
      assert (acts + added)[..|acts| + 1] == acts + [added[0]];
      assert (acts + [added[0]])[..|acts|] == acts;
    }
  }

  lemma StepIsDue(c: Config, s: State, t: real, e: Event)
    requires c.Valid() && Inv(c, s) && Enabled(s, t, e) && BroadcastIsDue(s)
    ensures BroadcastIsDue(Step(c, s, t, e))
  {
    StepSays(c, s, t, e);
    hide Step, Inv, NonePast, TakenOn, TriedAgain, Air, Usec, Seconds;
    var added :| Logs(c, s, t, e, added) && Step(c, s, t, e).acts == s.acts + added;
    LastAiredMore(s.acts, added);
    TimePasses(c, s, t);
    if e.RecvFires? {
      RecvSays(c, s, t);
      PhyFree(c, s.(clock := t));
    } else {
      OthersSays(c, s, t, e);
      if e.DeferFires? {
        DeferFree(c, s, t);
      }
    }
  }

  lemma DeferFree(c: Config, s: State, t: real)
    requires c.Valid() && Inv(c, s) && Enabled(s, t, DeferFires)
    ensures s.timers.netAck == Off && s.timers.phy == Off
  {
    TimePasses(c, s, t);
    DeferKeeps(c, s.(clock := t));
  }

  lemma {:induction false} RunIsDue(c: Config, s: State, hs: seq<Happening>)
    requires c.Valid() && IsStart(s) && Legal(c, s, hs)
    ensures BroadcastIsDue(Run(c, s, hs))
  {
    hide Step, BroadcastIsDue, Inv, Enabled;
    if hs == [] {
      StartIsDue(s);
    } else {
      var first, h := hs[..|hs| - 1], hs[|hs| - 1];
      RunIsDue(c, s, first);
      RunKeeps(c, s, first);
      StepIsDue(c, Run(c, s, first), h.time, h.event);
    }
  }

  lemma StartIsDue(s: State)
    requires IsStart(s)
    ensures BroadcastIsDue(s)
  {
  }

  /** In every run success is reported exactly when the acknowledgement that is
      waited for is received, or the broadcast that was sent last is over; and
      failure exactly when a request is refused or given up after a timeout. */
  lemma OutcomesAre(c: Config, s: State, hs: seq<Happening>, h: Happening)
    requires c.Valid() && IsStart(s) && Legal(c, s, hs + [h])
    ensures var before, after := Run(c, s, hs), Run(c, s, hs + [h]);
      && Outcomes(after.acts) == Outcomes(before.acts) +
         (match h.event
          case FromNetwork(_, _) => if before.job.mode == Idle then [] else [false]
          case RecvFires => if GetsAck(c, before, h.time) then [true] else []
          case CtsFires(_) => if GivesUp(c, before, h.event) then [false] else []
          case AckFires(_) => if GivesUp(c, before, h.event) then [false] else []
          case NetAckFires => [true]
          case _ => [])
      && (h.event.NetAckFires? ==>
            var a := LastAired(before.acts);
            a.Aired? && a.frame.kind.Data? && a.frame.da == Broadcast && h.time == a.start + a.frame.txTime)
  {
    OneMore(c, s, hs, h);
    RunIsDue(c, s, hs);
    var before := Run(c, s, hs);
    StepSays(c, before, h.time, h.event);
    hide Run, Step, Inv, TakesData, GetsAck, IsOpening, GivesUp;
    var added :| Logs(c, before, h.time, h.event, added) && Step(c, before, h.time, h.event).acts == before.acts + added;
    Joined(before.acts, added);
    AddsUp(c, before, h.time, h.event, added);
  }

  /** The contention window after n timeouts. */
  function Widened(n: nat): (w: int)
    ensures w in {31, 63, 127, 255, 511, 1023}
  {
    if n == 0 then 31
    else
      var w := Widened(n - 1);
      if w < 1023 then 2 * w + 1 else w
  }

  lemma WidenedIs()
    ensures Widened(0) == 31 && Widened(1) == 63 && Widened(2) == 127 && Widened(3) == 255 && Widened(4) == 511
    ensures forall n: nat :: 5 <= n ==> Widened(n) == 1023
  {
    assert Widened(1) == 63 && Widened(2) == 127 && Widened(3) == 255 && Widened(4) == 511 && Widened(5) == 1023;
    forall n: nat | 5 <= n
      ensures Widened(n) == 1023
    {
      WidestStays(n);
    }
  }

  lemma {:induction false} WidestStays(n: nat)
    requires 5 <= n
    ensures Widened(n) == 1023
  {
    if n > 5 {
      WidestStays(n - 1);
    } else {
      assert Widened(1) == 63 && Widened(2) == 127 && Widened(3) == 255 && Widened(4) == 511;
    }
  }

  /** The window is as wide as the timeouts of the request in hand make it, and
      as narrow as can be without one; the counter of a short payload is the
      number of its timeouts, and a broadcast has none. */
  ghost predicate WindowFits(s: State) {
    && s.job.cw == Widened(if s.job.mode == Idle then 0 else Timeouts(s.acts))
    && (s.job.mode != Idle && !s.job.longPld ==> s.job.ssrc == Timeouts(s.acts))
    && (s.job.mode != Idle && s.job.request.dst == Broadcast ==>
          !s.job.longPld && s.job.mode == Defer && Timeouts(s.acts) == 0)
  }

  lemma TimeoutsMore(acts: seq<Act>, added: seq<Act>)
    requires |added| <= 2 && (|added| == 2 ==> added[0].Timeout? && added[1].NetworkAck?)
    ensures Timeouts(acts + added) == if added == [] then Timeouts(acts)
      else if added[0].Accept? then 0 else if added[0].Timeout? then 1 + Timeouts(acts) else Timeouts(acts)
  {
    if added == [] {
      assert acts + added == acts;
    } else if |added| == 1 {
      Logged(acts, added[0]);
      assert added == [added[0]];
    } else {
      Logged(acts, added[0]);
      Logged(acts + [added[0]], added[1]);
      assert acts + added == acts + [added[0]] + [added[1]];
    }
  }

  /** How the request in hand fares. */
  lemma JobNow(c: Config, s: State, t: real, e: Event)
    requires c.Valid() && Inv(c, s) && Enabled(s, t, e)
    ensures var j, j' := s.job, Step(c, s, t, e).job;
      match e
      case FromNetwork(r, _) => if j.mode == Idle then TakenOn(c, j, j', r) else j' == j
      case DeferFires =>
        j' == j.(mode := if j.longPld then AwaitCts else if j.request.dst != Broadcast then AwaitAck else Idle)
      case RecvFires =>
        || j' == j || (j.mode == AwaitCts && j' == j.(mode := AwaitAck))
        || (j.mode == AwaitAck && j' == j.(mode := Idle, cw := CWMin))
      case CtsFires(_) => TriedAgain(c, s, e, j')
      case AckFires(_) => TriedAgain(c, s, e, j')
      case _ => j' == j
  {
    hide Step, Inv, Enabled, IsAnswer, Answers, TakesData, TriedAgain, TakenOn;
    if e.RecvFires? {
      RecvSays(c, s, t);
    } else {
      OthersSays(c, s, t, e);
    }
  }

  lemma StepFits(c: Config, s: State, t: real, e: Event)
    requires c.Valid() && Inv(c, s) && Enabled(s, t, e) && WindowFits(s)
    ensures WindowFits(Step(c, s, t, e))
  {
    hide Step, Inv, Widened, Timeouts, Enabled;
    TimeoutsNow(c, s, t, e);
    ModesNow(c, s, t, e);
    JobNow(c, s, t, e);
    WidenedMore(Timeouts(s.acts));
  }

  lemma TimeoutsNow(c: Config, s: State, t: real, e: Event)
    requires c.Valid() && Inv(c, s) && Enabled(s, t, e)
    ensures Timeouts(Step(c, s, t, e).acts) == match e
      case FromNetwork(_, _) => if s.job.mode == Idle then 0 else Timeouts(s.acts)
      case CtsFires(_) => Timeouts(s.acts) + 1
      case AckFires(_) => Timeouts(s.acts) + 1
      case _ => Timeouts(s.acts)
  {
    StepSays(c, s, t, e);
    hide Step, Inv, IsOpening, GetsAck, TakesData, Known, GivesUp, Timeouts, Enabled;
    var added :| Logs(c, s, t, e, added) && Step(c, s, t, e).acts == s.acts + added;
    TimeoutsMore(s.acts, added);
  }

  lemma WidenedMore(n: nat)
    ensures Widened(0) == 31 && Widened(n + 1) == if Widened(n) < 1023 then 2 * Widened(n) + 1 else Widened(n)
  {
  }

  /** In which mode a timer of the request fires. */
  lemma ModesNow(c: Config, s: State, t: real, e: Event)
    requires c.Valid() && Inv(c, s) && Enabled(s, t, e)
    ensures e.CtsFires? ==> s.job.mode == AwaitCts && s.job.longPld
    ensures e.AckFires? ==> s.job.mode == AwaitAck
    ensures e.DeferFires? ==> s.job.mode == Defer
    ensures s.job.mode != Idle && !s.job.longPld ==> s.job.ssrc + 1 < Wrap32
  {
  }

  /** In every run the window is the least, doubled for every timeout of the
      request in hand, up to the greatest. */
  lemma {:induction false} WindowIs(c: Config, s: State, hs: seq<Happening>)
    requires c.Valid() && IsStart(s) && Legal(c, s, hs)
    ensures WindowFits(Run(c, s, hs))
  {
    hide Step, WindowFits, Inv, Enabled;
    if hs == [] {
      StartFits(s);
    } else {
      var first, h := hs[..|hs| - 1], hs[|hs| - 1];
      WindowIs(c, s, first);
      RunKeeps(c, s, first);
      StepFits(c, Run(c, s, first), h.time, h.event);
    }
  }

  lemma StartFits(s: State)
    requires IsStart(s)
    ensures WindowFits(s)
  {
  }

  lemma ShortStep(c: Config, s: State, t: real, e: Event)
    requires c.Valid() && Inv(c, s) && Enabled(s, t, e) && WindowFits(s) && e.AckFires? && !s.job.longPld
    ensures GivesUp(c, s, e) <==> c.shortLimit <= Timeouts(s.acts) + 1
    ensures Step(c, s, t, e).job.mode == Idle <==> c.shortLimit <= Timeouts(s.acts) + 1
  {
    ModesNow(c, s, t, e);
    JobNow(c, s, t, e);
    hide Step, Inv;
  }

  /** So a short payload is given up exactly with the timeout that makes their
      number the limit, or with the first if the limit is less than one. */
  lemma ShortGivesUp(c: Config, s: State, hs: seq<Happening>, h: Happening)
    requires c.Valid() && IsStart(s) && Legal(c, s, hs + [h]) && h.event.AckFires? && !Run(c, s, hs).job.longPld
    ensures var before, after := Run(c, s, hs), Run(c, s, hs + [h]);
      && Outcomes(after.acts) == Outcomes(before.acts) + (if c.shortLimit <= Timeouts(before.acts) + 1 then [false] else [])
      && (after.job.mode == Idle <==> c.shortLimit <= Timeouts(before.acts) + 1)
  {
    hide Step, Inv, WindowFits, Enabled, Outcomes, Timeouts, GivesUp, Run, LastAired;
    OneMore(c, s, hs, h);
    WindowIs(c, s, hs);
    OutcomesAre(c, s, hs, h);
    ShortStep(c, Run(c, s, hs), h.time, h.event);
  }

  /** The counter of short retries is not reset for a long payload: after one
      that was given up for want of a CTS, the next one is given up with its
      first such timeout. */
  lemma NoSecondChance(c: Config, s: State, t: real, draw: real, s1: State, t1: real, r: Request, draw1: real, draw2: real)
    requires c.Valid() && Inv(c, s) && Enabled(s, t, CtsFires(draw)) && GivesUp(c, s, CtsFires(draw))
    requires c.shortLimit < Wrap32 - 1 && s.job.ssrc + 2 < Wrap32
    requires s1.job == Step(c, s, t, CtsFires(draw)).job && Inv(c, s1) && Enabled(s1, t1, FromNetwork(r, draw1))
    requires c.rtsThreshold <= r.size && r.dst != Broadcast
    ensures var s2 := Step(c, s1, t1, FromNetwork(r, draw1));
      s2.job.longPld && GivesUp(c, s2, CtsFires(draw2))
  {
    OthersSays(c, s, t, CtsFires(draw));
    OthersSays(c, s1, t1, FromNetwork(r, draw1));
    hide Step, Inv;
  }
}
