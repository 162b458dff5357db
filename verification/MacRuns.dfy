/** Whole runs of one 802.11 MAC, driven by any network layer and any medium. */
module MacRuns {
  import opened MacStates
  import opened MacInvariant

  datatype Happening = Happening(time: real, event: Event)

  ghost function Run(c: Config, s: State, hs: seq<Happening>): State
    requires c.Valid()
  {
    if hs == [] then s
    else
      var h := hs[|hs| - 1];
      Step(c, Run(c, s, hs[..|hs| - 1]), h.time, h.event)
  }

  ghost predicate Legal(c: Config, s: State, hs: seq<Happening>)
    requires c.Valid()
  {
    hs != [] ==>
      var first, h := hs[..|hs| - 1], hs[|hs| - 1];
      Legal(c, s, first) && Enabled(Run(c, s, first), h.time, h.event)
  }

  ghost function Requests(hs: seq<Happening>): nat {
    if hs == [] then 0
    else Requests(hs[..|hs| - 1]) + if hs[|hs| - 1].event.FromNetwork? then 1 else 0
  }

  /** In every reachable state the invariant holds, and every request that
      came in has been acknowledged once or is pending. */
  lemma {:induction false} RunKeeps(c: Config, s: State, hs: seq<Happening>)
    requires c.Valid() && IsStart(s) && Legal(c, s, hs)
    ensures Inv(c, Run(c, s, hs))
    ensures Acks(Run(c, s, hs).acts) + Pending(Run(c, s, hs)) == Requests(hs)
  {
    hide Inv, Step, Enabled, Acks, Pending;
    if hs == [] {
      StartKeeps(c, s);
    } else {
      var first, h := hs[..|hs| - 1], hs[|hs| - 1];
      RunKeeps(c, s, first);
      StepKeeps(c, Run(c, s, first), h.time, h.event);
    }
  }

  /** The source's assertions, and its two "sends overlap" branches not taken. */
  ghost predicate AssertsHold(c: Config, s: State, t: real, e: Event) {
    match e
    case FromNetwork(_, _) => s.job.mode == Idle ==> s.timers.defer == Off
    case FromPhy(_, _, _) =>
      s.timers.recv == Off && s.job.mode == Defer ==> s.timers.defer.At? && 0.0 <= Suspended(s.wait, t).backoff
    case DeferFires =>
      && s.job.mode == Defer && s.air.lastSend <= t
      && (!s.job.longPld && s.job.request.dst == Broadcast ==> s.timers.netAck == Off)
    case RecvFires =>
      && (s.job.mode == Defer ==> s.timers.defer == Off)
      && (!s.rx.error && s.air.lastSend <= t - s.rx.frame.txTime ==>
            && s.timers.phy == Off && s.air.lastSend <= t + c.sifs
            && t <= Later(s.air.nav, Seconds(s.rx.frame.duration) + t))
    case CtsFires(_) => s.job.mode == AwaitCts && s.timers.defer == Off
    case AckFires(_) => s.job.mode == AwaitAck && s.timers.defer == Off
    case _ => true
  }

  lemma AssertsFollow(c: Config, s: State, t: real, e: Event)
    requires c.Valid() && Inv(c, s) && Enabled(s, t, e)
    ensures AssertsHold(c, s, t, e)
  {
    hide History, Tries, Window, Seconds;
    SecondsPositive(s.rx.frame.duration);
  }

  lemma SecondsPositive(d: nat)
    ensures 0.0 <= Seconds(d)
  {
  }

  /** None of them fails in any run. */
  lemma {:induction false} NoAssertFails(c: Config, s: State, hs: seq<Happening>, k: int)
    requires c.Valid() && IsStart(s) && Legal(c, s, hs) && 0 <= k < |hs|
    ensures AssertsHold(c, Run(c, s, hs[..k]), hs[k].time, hs[k].event)
  {
    hide Inv, Step, Enabled, AssertsHold;
    var first, h := hs[..|hs| - 1], hs[|hs| - 1];
    if k == |first| {
      RunKeeps(c, s, first);
      AssertsFollow(c, Run(c, s, first), h.time, h.event);
    } else {
      NoAssertFails(c, s, first, k);
      assert first[..k] == hs[..k];
    }
  }

  /** m_last_send only grows. */
  lemma LastSendGrows(c: Config, s: State, t: real, e: Event)
    requires c.Valid()
    ensures s.air.lastSend <= Step(c, s, t, e).air.lastSend
  {
    hide Air, Usec, Seconds, StartDefer, OnPhy, OnRecv;
    var s1 := s.(clock := t);
    match e
    case FromNetwork(r, draw) => StartDeferSends(c, Log(s1.(job := NewJob(c, s1.job, r)), Accept(r)), false, draw);
    case FromPhy(f, error, power) => assert OnPhy(c, s1, f, error, power).air == s1.air by { OnPhySends(c, s1, f, error, power); }
    case RecvFires => OnRecvSends(c, s1);
    case CtsFires(draw) =>
      var j := s.job.(ssrc := (s.job.ssrc + 1) % Wrap32, cw := Wider(s.job.cw));
      StartDeferSends(c, Log(s1.(timers := s.timers.(cts := Off), job := j), Timeout), true, draw);
    case AckFires(draw) =>
      var j := if s.job.longPld then s.job.(slrc := (s.job.slrc + 1) % Wrap32)
               else s.job.(ssrc := (s.job.ssrc + 1) % Wrap32);
      var s2 := Log(s1.(timers := s.timers.(ack := Off), job := j), Timeout);
      StartDeferSends(c, s2.(job := j.(cw := Wider(j.cw))), true, draw);
    case _ =>
  }

  lemma StartDeferSends(c: Config, s: State, backoff: bool, draw: real)
    requires c.Valid()
    ensures StartDefer(c, s, backoff, draw).air == s.air && StartDefer(c, s, backoff, draw).acts == s.acts
  {
    hide Air, Drawn;
  }

  lemma ResumeDeferSends(c: Config, s: State)
    requires c.Valid()
    ensures ResumeDefer(c, s).air == s.air && ResumeDefer(c, s).acts == s.acts
  {
    hide Air;
  }

  lemma OnPhySends(c: Config, s: State, f: Frame, error: bool, power: real)
    ensures OnPhy(c, s, f, error, power).air == s.air && OnPhy(c, s, f, error, power).acts == s.acts
  {
    hide Captures;
  }

  lemma OnRecvSends(c: Config, s: State)
    requires c.Valid()
    ensures s.air.lastSend <= OnRecv(c, s).air.lastSend
  {
    hide Air, Seconds, ResumeDefer, Received;
    ResumeDeferSends(c, s.(timers := s.timers.(recv := Off), air := s.air.(txFailed := true)));
    var p := s.rx.frame;
    var air := s.air.(nav := Later(s.air.nav, Seconds(p.duration) + s.clock), txFailed := false);
    ReceivedSends(c, s.(timers := s.timers.(recv := Off), air := air), p);
  }

  lemma ReceivedSends(c: Config, s: State, p: Frame)
    requires c.Valid()
    ensures s.air.lastSend <= Received(c, s, p).air.lastSend
  {
    hide Air, Usec, Seconds, CtsDuration, ResumeDefer;
    ResumeDeferSends(c, s);
    ResumeDeferSends(c, RecvRts(c, s, p));
    ResumeDeferSends(c, RecvCts(c, s, p));
    var ack := Control(c, Ack, p.sa, 0, Air(c.ackLen, c.basicRate));
    ResumeDeferSends(c, if p.da == c.me then TxLater(s, ack, c.sifs) else s);
  }

  lemma {:induction false} InOrder(acts: seq<Act>, t: real, i: int, j: int)
    requires AirBefore(acts, t) && 0 <= i < j < |acts| && acts[i].OnAir? && acts[j].OnAir?
    ensures acts[i].start + acts[i].frame.txTime <= acts[j].start
    decreases |acts|, 0
  {
    var first, a := acts[..|acts| - 1], acts[|acts| - 1];
    if j < |first| {
      InOrder(first, if a.OnAir? then a.start else t, i, j);
    } else {
      OverBy(first, a.start, i);
    }
  }

  lemma {:induction false} OverBy(acts: seq<Act>, t: real, i: int)
    requires AirBefore(acts, t) && 0 <= i < |acts| && acts[i].OnAir?
    ensures acts[i].start + acts[i].frame.txTime <= t
  {
    var first, a := acts[..|acts| - 1], acts[|acts| - 1];
    if i < |first| {
      OverBy(first, if a.OnAir? then a.start else t, i);
    }
  }

  /** No two transmissions of a node overlap, in any run. */
  lemma NeverOverlap(c: Config, s: State, hs: seq<Happening>, i: int, j: int)
    requires c.Valid() && IsStart(s) && Legal(c, s, hs)
    requires 0 <= i < j < |Run(c, s, hs).acts| && Run(c, s, hs).acts[i].OnAir? && Run(c, s, hs).acts[j].OnAir?
    ensures Run(c, s, hs).acts[i].start + Run(c, s, hs).acts[i].frame.txTime <= Run(c, s, hs).acts[j].start
  {
    RunKeeps(c, s, hs);
    var r := Run(c, s, hs);
    InOrder(r.acts, FreeFrom(r.air.lastSend, r.timers), i, j);
  }

  /** What the acts of one step other than a request look like. */
  ghost predicate Adds(a: seq<Act>, a': seq<Act>) {
    && |a| <= |a'| && a'[..|a|] == a
    && forall i :: |a| <= i < |a'| ==> !a'[i].Accept? && (a'[i].NetworkAck? ==> i == |a'| - 1)
  }

  lemma StepAdds(c: Config, s: State, t: real, e: Event)
    requires c.Valid() && !e.FromNetwork?
    ensures Adds(s.acts, Step(c, s, t, e).acts)
  {
    hide Adds, OnDefer, OnPhy, OnRecv, OnCts, OnAck, OnNav, OnNetAck, OnPhyTimer;
    var s1 := s.(clock := t);
    match e
    case FromPhy(f, error, power) => PhyAdds(c, s1, f, error, power);
    case DeferFires => DeferAdds(c, s1);
    case RecvFires => OnRecvAdds(c, s1);
    case CtsFires(draw) => TimeoutAdds(c, s1, draw);
    case AckFires(draw) => TimeoutAdds(c, s1, draw);
    case _ => TimerAdds(s1);
  }

  lemma PhyAdds(c: Config, s: State, f: Frame, error: bool, power: real)
    ensures Adds(s.acts, OnPhy(c, s, f, error, power).acts)
  {
    hide OnPhy;
    OnPhySends(c, s, f, error, power);
  }

  lemma DeferAdds(c: Config, s: State)
    requires c.Valid()
    ensures Adds(s.acts, OnDefer(c, s).acts)
  {
    hide Air, Usec, Seconds;
  }

  lemma TimerAdds(s: State)
    ensures Adds(s.acts, OnNav(s).acts) && Adds(s.acts, OnNetAck(s).acts) && Adds(s.acts, OnPhyTimer(s).acts)
  {
  }

  lemma TimeoutAdds(c: Config, s: State, draw: real)
    requires c.Valid()
    ensures Adds(s.acts, OnCts(c, s, draw).acts) && Adds(s.acts, OnAck(c, s, draw).acts)
  {
    hide Retry;
    var j := s.job.(ssrc := (s.job.ssrc + 1) % Wrap32);
    RetryAdds(c, Log(s.(timers := s.timers.(cts := Off), job := j), Timeout), j.ssrc < c.shortLimit, draw);
    var k := if s.job.longPld then s.job.(slrc := (s.job.slrc + 1) % Wrap32) else j;
    var again := if k.longPld then k.slrc < c.longLimit else k.ssrc < c.shortLimit;
    RetryAdds(c, Log(s.(timers := s.timers.(ack := Off), job := k), Timeout), again, draw);
  }

  lemma RetryAdds(c: Config, s: State, again: bool, draw: real)
    requires c.Valid()
    ensures Retry(c, s, again, draw).acts == s.acts + if again then [] else [NetworkAck(false)]
  {
    hide StartDefer;
    StartDeferSends(c, s.(job := s.job.(cw := Wider(s.job.cw))), true, draw);
  }

  lemma OnRecvAdds(c: Config, s: State)
    requires c.Valid()
    ensures Adds(s.acts, OnRecv(c, s).acts)
  {
    hide Air, Seconds, ResumeDefer, Received;
    ResumeDeferSends(c, s.(timers := s.timers.(recv := Off), air := s.air.(txFailed := true)));
    var p := s.rx.frame;
    var air := s.air.(nav := Later(s.air.nav, Seconds(p.duration) + s.clock), txFailed := false);
    ReceivedAdds(c, s.(timers := s.timers.(recv := Off), air := air), p);
  }

  lemma ReceivedAdds(c: Config, s: State, p: Frame)
    requires c.Valid()
    ensures Adds(s.acts, Received(c, s, p).acts)
  {
    hide Air, Usec, Seconds, CtsDuration, ResumeDefer;
    ResumeDeferSends(c, s);
    ResumeDeferSends(c, RecvRts(c, s, p));
    ResumeDeferSends(c, RecvCts(c, s, p));
    var ack := Control(c, Ack, p.sa, 0, Air(c.ackLen, c.basicRate));
    ResumeDeferSends(c, if p.da == c.me then TxLater(s, ack, c.sifs) else s);
  }

  lemma {:induction false} TimeoutsGrow(a: seq<Act>, a': seq<Act>, k: int)
    requires Adds(a, a') && |a| <= k <= |a'|
    ensures Timeouts(a'[..k]) <= Timeouts(a')
    decreases |a'|
  {
    if k < |a'| {
      var first := a'[..|a'| - 1];
      assert first[..|a|] == a && first[..k] == a'[..k];
      TimeoutsGrow(a, first, k);
    } else {
      assert a'[..k] == a';
    }
  }

  /** At every moment of every run there have been at most shortLimit plus
      longLimit timeouts since the last request was accepted, hence before each
      acknowledgement (a limit of zero acts like one). */
  lemma {:induction false} GivesUpInTime(c: Config, s: State, hs: seq<Happening>, k: int)
    requires c.Valid() && IsStart(s) && Legal(c, s, hs) && 0 <= k <= |Run(c, s, hs).acts|
    ensures Timeouts(Run(c, s, hs).acts[..k]) <= c.shortLimit + AtLeastOne(c.longLimit)
  {
    hide Step, Enabled, Timeouts, Acks, Pending, Modes, Deferring, Sending, History, Window;
    RunKeeps(c, s, hs);
    var acts := Run(c, s, hs).acts;
    if k == |acts| {
      assert acts[..k] == acts;
    } else {
      assert hs != [];
      var first, h := hs[..|hs| - 1], hs[|hs| - 1];
      var before := Run(c, s, first);
      if h.event.FromNetwork? {
        NetworkAdds(c, before.(clock := h.time), h.event.request, h.event.draw);
        StepIsNetwork(c, before, h.time, h.event);
      } else {
        StepAdds(c, before, h.time, h.event);
      }
      if k <= |before.acts| {
        GivesUpInTime(c, s, first, k);
        assert acts[..k] == before.acts[..k];
      } else {
        TimeoutsGrow(before.acts, acts, k);
      }
    }
  }

  lemma StepIsNetwork(c: Config, s: State, t: real, e: Event)
    requires c.Valid() && e.FromNetwork?
    ensures Step(c, s, t, e) == OnNetwork(c, s.(clock := t), e.request, e.draw)
  {
  }

  lemma NetworkAdds(c: Config, s: State, r: Request, draw: real)
    requires c.Valid()
    ensures var a := OnNetwork(c, s, r, draw).acts; |a| == |s.acts| + 1 && a[..|s.acts|] == s.acts
  {
    hide StartDefer;
    StartDeferSends(c, Log(s.(job := NewJob(c, s.job, r)), Accept(r)), false, draw);
  }
}
