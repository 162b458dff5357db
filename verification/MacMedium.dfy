/** What the 802.11 MAC receives, and how long it defers, over whole runs. */
module MacMedium {
  import opened MacStates
  import opened MacInvariant
  import opened MacRuns
  import opened MacReports
  import opened MacHistory

  /** At happening k the start of a frame is heard. */
  ghost predicate Begins(hs: seq<Happening>, k: int) {
    0 <= k < |hs| && hs[k].event.FromPhy?
  }

  ghost predicate Ends(hs: seq<Happening>, k: int) {
    0 <= k < |hs| && hs[k].event.RecvFires?
  }

  /** A signal takes the reception over from another, or is drowned by it. */
  ghost predicate TakesOver(c: Config, power: real, other: real) {
    power > other * c.cpThreshold
  }

  ghost predicate Drowned(c: Config, power: real, other: real) {
    !TakesOver(c, power, other) && other > power * c.cpThreshold
  }

  /** The frame whose start is heard at k comes without error, takes over any
      reception under way, and drowns all that start later. */
  ghost predicate Clear(c: Config, s: State, hs: seq<Happening>, k: int)
    requires c.Valid()
  {
    && Begins(hs, k) && !hs[k].event.error
    && (var before := Run(c, s, hs[..k]);
        before.timers.recv.At? ==> TakesOver(c, hs[k].event.power, before.rx.power))
    && forall j :: k < j && Begins(hs, j) ==> Drowned(c, hs[j].event.power, hs[k].event.power)
  }

  /** The frame being received started at k, and there is no error exactly if
      it came clear. */
  ghost predicate Receives(c: Config, s: State, hs: seq<Happening>, k: int)
    requires c.Valid()
  {
    && Begins(hs, k)
    && (var after := Run(c, s, hs);
        && after.rx.frame == hs[k].event.frame && after.rx.power == hs[k].event.power
        && after.timers.recv == At(hs[k].time + hs[k].event.frame.txTime)
        && (!after.rx.error <==> Clear(c, s, hs, k)))
  }

  lemma Prefix(hs: seq<Happening>, h: Happening, k: int)
    requires 0 <= k < |hs|
    ensures (hs + [h])[..k] == hs[..k] && (hs + [h])[k] == hs[k]
    ensures Begins(hs + [h], k) == Begins(hs, k) && Ends(hs + [h], k) == Ends(hs, k)
  {
  }

  /** One more happening. */
  lemma ClearStays(c: Config, s: State, hs: seq<Happening>, h: Happening, k: int)
    requires c.Valid() && 0 <= k < |hs|
    ensures Clear(c, s, hs + [h], k) <==>
      Clear(c, s, hs, k) && (h.event.FromPhy? ==> Drowned(c, h.event.power, hs[k].event.power))
  {
    var hs' := hs + [h];
    hide Run, Drowned, TakesOver;
    Prefix(hs, h, k);
    forall j
      ensures k < j && Begins(hs', j) <==> (k < j < |hs| && Begins(hs, j)) || (j == |hs| && h.event.FromPhy?)
      ensures 0 <= j < |hs| ==> hs'[j] == hs[j]
    {
      if 0 <= j < |hs| {
        Prefix(hs, h, j);
      }
    }
    assert hs'[|hs|] == h;
  }

  /** A frame whose start has just been heard. */
  lemma ClearNow(c: Config, s: State, hs: seq<Happening>, h: Happening)
    requires c.Valid() && h.event.FromPhy?
    ensures var r := Run(c, s, hs);
      Clear(c, s, hs + [h], |hs|) <==>
        !h.event.error && (r.timers.recv.At? ==> TakesOver(c, h.event.power, r.rx.power))
  {
    hide Run, Drowned, TakesOver;
    assert (hs + [h])[..|hs|] == hs && (hs + [h])[|hs|] == h;
  }

  ghost predicate SameReception(s: State, s': State) {
    s'.timers.recv == s.timers.recv && s'.rx == s.rx
  }

  /** The start of a frame, in terms of powers. */
  lemma StartSays(c: Config, s: State, t: real, f: Frame, error: bool, power: real)
    requires c.Valid()
    ensures var s' := Step(c, s, t, FromPhy(f, error, power));
      var mine := s'.rx.frame == f && s'.rx.power == power && s'.timers.recv == At(t + f.txTime);
      && (s.timers.recv == Off || TakesOver(c, power, s.rx.power) ==> mine && s'.rx.error == error)
      && (s.timers.recv.At? && Drowned(c, power, s.rx.power) ==> SameReception(s, s'))
      && (s.timers.recv.At? && !TakesOver(c, power, s.rx.power) && !Drowned(c, power, s.rx.power) ==>
            && s'.rx.error
            && if t + f.txTime > s.timers.recv.time then mine
               else s'.rx.frame == s.rx.frame && s'.rx.power == s.rx.power && s'.timers.recv == s.timers.recv)
  {
  }

  lemma StartDeferRx(c: Config, s: State, backoff: bool, draw: real)
    requires c.Valid()
    ensures SameReception(s, StartDefer(c, s, backoff, draw))
  {
  }

  /** Only the start and the end of a frame touch what is being received. */
  lemma OthersDoNot(c: Config, s: State, t: real, e: Event)
    requires c.Valid() && !e.FromPhy? && !e.RecvFires?
    ensures SameReception(s, Step(c, s, t, e))
  {
    hide Air, Usec, Seconds, StartDefer;
    var s1 := s.(clock := t);
    match e
    case FromNetwork(r, draw) => StartDeferRx(c, Log(s1.(job := NewJob(c, s1.job, r)), Accept(r)), false, draw);
    case CtsFires(draw) =>
      var j := s.job.(ssrc := (s.job.ssrc + 1) % Wrap32);
      var s2 := Log(s1.(timers := s.timers.(cts := Off), job := j), Timeout);
      StartDeferRx(c, s2.(job := j.(cw := Wider(j.cw))), true, draw);
    case AckFires(draw) =>
      var j := if s.job.longPld then s.job.(slrc := (s.job.slrc + 1) % Wrap32)
               else s.job.(ssrc := (s.job.ssrc + 1) % Wrap32);
      var s2 := Log(s1.(timers := s.timers.(ack := Off), job := j), Timeout);
      StartDeferRx(c, s2.(job := j.(cw := Wider(j.cw))), true, draw);
    case _ =>
  }

  lemma EndOff(c: Config, s: State, t: real)
    requires c.Valid()
    ensures Step(c, s, t, RecvFires).timers.recv == Off
  {
    hide Air, Usec, Seconds, ResumeDefer, CtsDuration;
    var p := s.rx.frame;
    var off := s.(clock := t, timers := s.timers.(recv := Off));
    ResumeDeferJob(c, off.(air := s.air.(txFailed := true)));
    var good := off.(air := s.air.(nav := Later(s.air.nav, Seconds(p.duration) + t), txFailed := false));
    ResumeDeferJob(c, good);
    ResumeDeferJob(c, RecvRts(c, good, p));
    ResumeDeferJob(c, RecvCts(c, good, p));
    var ack := Control(c, Ack, p.sa, 0, Air(c.ackLen, c.basicRate));
    ResumeDeferJob(c, if p.da == c.me then TxLater(good, ack, c.sifs) else good);
  }

  /** In every run, what is being received is a frame whose start was heard, and
      it is without error exactly if that frame came clear. */
  lemma {:induction false} ReceptionIs(c: Config, s: State, hs: seq<Happening>)
    requires c.Valid() && IsStart(s) && Legal(c, s, hs) && Run(c, s, hs).timers.recv.At?
    ensures exists k :: Receives(c, s, hs, k)
  {
    hide Step, Drowned, TakesOver, Clear, Enabled, Run, Legal, IsStart;
    if hs == [] {
      NothingYet(c, s);
    } else {
      var first, h := hs[..|hs| - 1], hs[|hs| - 1];
      assert hs == first + [h];
      OneMore(c, s, first, h);
      var before := Run(c, s, first);
      if h.event.RecvFires? {
        EndOff(c, before, h.time);
        assert false;
      } else if h.event.FromPhy? {
        StartSays(c, before, h.time, h.event.frame, h.event.error, h.event.power);
        ClearNow(c, s, first, h);
        if before.timers.recv.At? {
          ReceptionIs(c, s, first);
          var k :| Receives(c, s, first, k);
          Prefix(first, h, k);
          ClearStays(c, s, first, h, k);
          assert Receives(c, s, hs, k) || Receives(c, s, hs, |first|);
        } else {
          assert Receives(c, s, hs, |first|);
        }
      } else {
        OthersDoNot(c, before, h.time, h.event);
        ReceptionIs(c, s, first);
        var k :| Receives(c, s, first, k);
        Prefix(first, h, k);
        ClearStays(c, s, first, h, k);
        assert Receives(c, s, hs, k);
      }
    }
  }

  lemma NothingYet(c: Config, s: State)
    requires c.Valid() && IsStart(s)
    ensures Run(c, s, []).timers.recv == Off && Run(c, s, []).job.mode == Idle
  {
  }

  lemma ClearBegins(c: Config, s: State, hs: seq<Happening>, k: int)
    requires c.Valid() && Clear(c, s, hs, k)
    ensures Begins(hs, k)
  {
  }

  /** A frame that comes clear is what is being received until it ends. */
  lemma {:induction false} ClearIsReceived(c: Config, s: State, hs: seq<Happening>, k: int)
    requires c.Valid() && IsStart(s) && Legal(c, s, hs) && Clear(c, s, hs, k)
    requires forall j :: k < j ==> !Ends(hs, j)
    ensures Receives(c, s, hs, k)
    decreases |hs|
  {
    ClearBegins(c, s, hs, k);
    var first, h := hs[..|hs| - 1], hs[|hs| - 1];
    assert hs == first + [h];
    OneMore(c, s, first, h);
    var before := Run(c, s, first);
    hide Run, Step, Drowned, TakesOver, Enabled, Clear, Legal;
    if k == |first| {
      StartSays(c, before, h.time, h.event.frame, h.event.error, h.event.power);
      ClearNow(c, s, first, h);
    } else {
      Prefix(first, h, k);
      ClearStays(c, s, first, h, k);
      forall j | k < j
        ensures !Ends(first, j)
      {
        if 0 <= j < |first| {
          Prefix(first, h, j);
          assert !Ends(hs, j);
        }
      }
      ClearIsReceived(c, s, first, k);
      assert !Ends(hs, |first|);
      if h.event.FromPhy? {
        StartSays(c, before, h.time, h.event.frame, h.event.error, h.event.power);
      } else {
        OthersDoNot(c, before, h.time, h.event);
      }
    }
  }

  /** A frame is sound at its end exactly if it came clear and began no earlier
      than this node's last transmission ended. */
  lemma SoundIff(c: Config, s: State, hs: seq<Happening>, h: Happening)
    requires c.Valid() && IsStart(s) && Legal(c, s, hs + [h]) && h.event.RecvFires?
    ensures exists k :: Receives(c, s, hs, k)
    ensures forall k :: Receives(c, s, hs, k) ==>
      (Sound(Run(c, s, hs), h.time) <==> Clear(c, s, hs, k) && Run(c, s, hs).air.lastSend <= hs[k].time)
  {
    OneMore(c, s, hs, h);
    ReceptionIs(c, s, hs);
    hide Run, Step, Clear;
  }

  /** The interframe space: longer after a reception that failed. */
  ghost predicate IsIfs(c: Config, failed: bool, ifs: real)
    requires 0.0 < c.dataRate
  {
    var difs := c.sifs + c.slot;
    ifs == if failed then c.sifs + Air(c.ackLen, c.dataRate) + difs else difs
  }

  /** Deferral begins now, or when the node's last transmission or the NAV ends,
      whichever is latest. */
  ghost predicate IsStartOf(s: State, t: real, start: real) {
    && t <= start && s.air.lastSend <= start && s.air.nav <= start
    && (start == t || start == s.air.lastSend || start == s.air.nav)
  }

  /** A deferral that has been set at time t. */
  ghost predicate SetAt(c: Config, s: State, t: real, backoff: real)
    requires c.Valid()
  {
    && IsIfs(c, s.air.txFailed, s.wait.ifs) && IsStartOf(s, t, s.wait.start)
    && s.timers.defer == At(s.wait.start + s.wait.ifs + backoff)
  }

  /** How one step changes a deferral: a new one draws a backoff, which counts
      only if it is a retry or has to wait for a reception; a reception suspends
      it, and takes from the backoff what has been served of it; the end of the
      reception sets it again. */
  ghost predicate Defers(c: Config, s: State, t: real, e: Event, s': State)
    requires c.Valid()
  {
    && (s'.job.mode == Defer && s.job.mode != Defer ==>
          && (e.FromNetwork? || e.CtsFires? || e.AckFires?)
          && s'.wait.backoff == Drawn(s'.job.cw, c.slot, e.draw)
          && if s.timers.recv.At? then s'.timers.defer == Off
             else SetAt(c, s', t, if e.FromNetwork? then 0.0 else s'.wait.backoff))
    && (s'.job.mode == Defer && s.job.mode == Defer ==>
          if e.FromPhy? && s.timers.recv == Off then
            && s'.timers.defer == Off
            && s'.wait.backoff == s.wait.backoff - Served(s.wait, t)
          else if e.RecvFires? then
            s'.wait.backoff == s.wait.backoff && SetAt(c, s', t, s'.wait.backoff)
          else s'.wait == s.wait && s'.timers.defer == s.timers.defer && s'.air.nav == s.air.nav
               && s'.air.lastSend == s.air.lastSend && s'.air.txFailed == s.air.txFailed)
  }

  /** How much of its backoff a deferral has served at time t. */
  ghost function Served(w: Deferral, t: real): real {
    if t > w.start + w.ifs then t - w.start - w.ifs else 0.0
  }

  lemma StartDeferSets(c: Config, s: State, backoff: bool, draw: real)
    requires c.Valid()
    ensures var s' := StartDefer(c, s, backoff, draw);
      && s'.job == s.job.(mode := Defer) && s'.wait.backoff == Drawn(s.job.cw, c.slot, draw)
      && (s.timers.recv.At? ==> s'.timers.defer == s.timers.defer)
      && (s.timers.recv == Off ==> SetAt(c, s', s.clock, if backoff then s'.wait.backoff else 0.0))
  {
    hide Air, Drawn;
  }

  lemma ResumeDeferSets(c: Config, s: State)
    requires c.Valid() && s.job.mode == Defer
    ensures var s' := ResumeDefer(c, s);
      s'.job == s.job && s'.wait.backoff == s.wait.backoff && SetAt(c, s', s.clock, s'.wait.backoff)
  {
    hide Air;
  }

  lemma StepDefers(c: Config, s: State, t: real, e: Event)
    requires c.Valid() && Inv(c, s) && Enabled(s, t, e)
    ensures Defers(c, s, t, e, Step(c, s, t, e))
  {
    hide Air, Usec, Seconds, Drawn, OnNetwork, OnDefer, OnRecv, OnCts, OnAck, Defers, SetAt;
    ModesNow(c, s, t, e);
    DeferOff(c, s);
    match e
    case FromNetwork(r, draw) => NetworkDefers(c, s, t, r, draw);
    case DeferFires => OpenDefers(c, s, t);
    case CtsFires(draw) => CtsDefers(c, s, t, draw);
    case AckFires(draw) => AckDefers(c, s, t, draw);
    case RecvFires => RecvDefers(c, s, t);
    case _ => RestDefers(c, s, t, e);
  }

  lemma DeferOff(c: Config, s: State)
    requires Inv(c, s)
    ensures s.job.mode != Defer ==> s.timers.defer == Off
    ensures s.timers.recv.At? ==> s.timers.defer == Off
  {
  }

  lemma NetworkDefers(c: Config, s: State, t: real, r: Request, draw: real)
    requires c.Valid() && (s.job.mode != Defer ==> s.timers.defer == Off)
    ensures Defers(c, s, t, FromNetwork(r, draw), OnNetwork(c, s.(clock := t), r, draw))
  {
    hide StartDefer, SetAt, Drawn;
    var s1 := s.(clock := t);
    StartDeferSets(c, Log(s1.(job := NewJob(c, s1.job, r)), Accept(r)), false, draw);
  }

  lemma OpenDefers(c: Config, s: State, t: real)
    requires c.Valid()
    ensures Defers(c, s, t, DeferFires, OnDefer(c, s.(clock := t)))
  {
    hide Air, Usec, Seconds, SetAt;
  }

  lemma CtsDefers(c: Config, s: State, t: real, draw: real)
    requires c.Valid() && s.job.mode == AwaitCts && s.timers.defer == Off
    ensures Defers(c, s, t, CtsFires(draw), OnCts(c, s.(clock := t), draw))
  {
    hide StartDefer, SetAt, Drawn;
    var j := s.job.(ssrc := (s.job.ssrc + 1) % Wrap32);
    var s1 := Log(s.(clock := t, timers := s.timers.(cts := Off), job := j), Timeout);
    StartDeferSets(c, s1.(job := j.(cw := Wider(j.cw))), true, draw);
  }

  lemma AckDefers(c: Config, s: State, t: real, draw: real)
    requires c.Valid() && s.job.mode == AwaitAck && s.timers.defer == Off
    ensures Defers(c, s, t, AckFires(draw), OnAck(c, s.(clock := t), draw))
  {
    hide StartDefer, SetAt, Drawn;
    var j := if s.job.longPld then s.job.(slrc := (s.job.slrc + 1) % Wrap32)
             else s.job.(ssrc := (s.job.ssrc + 1) % Wrap32);
    var s1 := Log(s.(clock := t, timers := s.timers.(ack := Off), job := j), Timeout);
    StartDeferSets(c, s1.(job := j.(cw := Wider(j.cw))), true, draw);
  }

  lemma RestDefers(c: Config, s: State, t: real, e: Event)
    requires c.Valid() && (e.FromPhy? || e.NavFires? || e.NetAckFires? || e.PhyFires?)
    ensures Defers(c, s, t, e, Step(c, s, t, e))
  {
    hide SetAt;
  }

  lemma RecvDefers(c: Config, s: State, t: real)
    requires c.Valid()
    ensures Defers(c, s, t, RecvFires, OnRecv(c, s.(clock := t)))
  {
    RecvIs(c, s, t);
    hide OnRecv, SetAt, Received, ResumeDefer, GoodState, BadState;
    RecvStates(s, t);
    if Sound(s, t) {
      ReceivedDefers(c, GoodState(s, t), s.rx.frame);
    } else {
      var bad := BadState(s).(clock := t);
      if bad.job.mode == Defer {
        ResumeDeferSets(c, bad);
      } else {
        ResumeDeferJob(c, bad);
      }
    }
  }

  lemma RecvStates(s: State, t: real)
    ensures var g, b := GoodState(s, t), BadState(s).(clock := t);
      g.job == b.job == s.job && g.wait == b.wait == s.wait && g.clock == b.clock == t
  {
  }

  lemma ReceivedDefers(c: Config, s: State, p: Frame)
    requires c.Valid()
    ensures var s' := Received(c, s, p);
      && (s.job.mode != Defer ==> s'.job.mode != Defer)
      && (s.job.mode == Defer ==>
            s'.wait.backoff == s.wait.backoff && SetAt(c, s', s.clock, s'.wait.backoff))
  {
    hide Air, Usec, Seconds, CtsDuration, ResumeDefer, SetAt;
    var ack := Control(c, Ack, p.sa, 0, Air(c.ackLen, c.basicRate));
    ResumeDeferJob(c, s);
    ResumeDeferJob(c, RecvRts(c, s, p));
    ResumeDeferJob(c, RecvCts(c, s, p));
    ResumeDeferJob(c, if p.da == c.me then TxLater(s, ack, c.sifs) else s);
    if s.job.mode == Defer {
      ResumeDeferSets(c, s);
      ResumeDeferSets(c, RecvRts(c, s, p));
      ResumeDeferSets(c, RecvCts(c, s, p));
      ResumeDeferSets(c, if p.da == c.me then TxLater(s, ack, c.sifs) else s);
      SetDelivers(c, ResumeDefer(c, if p.da == c.me then TxLater(s, ack, c.sifs) else s), p);
    }
  }

  /** Handing data up, or not waiting for an acknowledgement, changes nothing
      about a deferral. */
  lemma SetDelivers(c: Config, s: State, p: Frame)
    requires c.Valid()
    ensures forall t, b :: SetAt(c, s, t, b) ==> SetAt(c, Deliver(s, p), t, b)
    ensures Deliver(s, p).wait == s.wait && Deliver(s, p).job == s.job
  {
  }

  /** What was drawn when the deferral that is going on began. */
  ghost function LastDraw(c: Config, s: State, hs: seq<Happening>): real
    requires c.Valid()
  {
    if hs == [] then 0.0
    else
      var first, h := hs[..|hs| - 1], hs[|hs| - 1];
      if Run(c, s, first).job.mode != Defer && (h.event.FromNetwork? || h.event.CtsFires? || h.event.AckFires?) then
        Drawn(Run(c, s, hs).job.cw, c.slot, h.event.draw)
      else LastDraw(c, s, first)
  }

  /** What has been served of it since. */
  ghost function ServedSince(c: Config, s: State, hs: seq<Happening>): real
    requires c.Valid()
  {
    if hs == [] then 0.0
    else
      var first, h := hs[..|hs| - 1], hs[|hs| - 1];
      var before := Run(c, s, first);
      if before.job.mode != Defer then 0.0
      else if h.event.FromPhy? && before.timers.recv == Off then ServedSince(c, s, first) + Served(before.wait, h.time)
      else ServedSince(c, s, first)
  }

  /** The backoff counts: this is a retry, or something was received since the
      deferral began. */
  ghost predicate Counts(c: Config, s: State, hs: seq<Happening>)
    requires c.Valid()
  {
    hs != [] &&
    var first, h := hs[..|hs| - 1], hs[|hs| - 1];
    if Run(c, s, first).job.mode != Defer then !h.event.FromNetwork? || Run(c, s, hs).timers.recv.At?
    else Counts(c, s, first) || h.event.RecvFires?
  }

  /** When the deferral was set last. */
  ghost function WhenSet(c: Config, s: State, hs: seq<Happening>): real
    requires c.Valid()
  {
    if hs == [] then 0.0
    else
      var first, h := hs[..|hs| - 1], hs[|hs| - 1];
      if Run(c, s, first).job.mode != Defer || h.event.RecvFires? then h.time else WhenSet(c, s, first)
  }

  /** In every run the backoff left is the backoff drawn less what has been
      served of it, and a deferral that is going on ends an interframe space and,
      if it counts, the backoff left after the node's last transmission, the NAV
      and the moment when it was set. */
  lemma {:induction false} DeferralIs(c: Config, s: State, hs: seq<Happening>)
    requires c.Valid() && IsStart(s) && Legal(c, s, hs) && Run(c, s, hs).job.mode == Defer
    ensures var now := Run(c, s, hs);
      && now.wait.backoff == LastDraw(c, s, hs) - ServedSince(c, s, hs)
      && (now.timers.defer.At? ==>
            SetAt(c, now, WhenSet(c, s, hs), if Counts(c, s, hs) then now.wait.backoff else 0.0))
  {
    hide Step, Enabled, Inv, Drawn, Served, IsStart, IsIfs, IsStartOf, Legal;
    if hs == [] {
      NothingYet(c, s);
    } else {
      var first, h := hs[..|hs| - 1], hs[|hs| - 1];
      assert hs == first + [h];
      OneMore(c, s, first, h);
      var before := Run(c, s, first);
      if before.job.mode == Defer {
        DeferralIs(c, s, first);
      }
      StepDefers(c, before, h.time, h.event);
      SetStays(c, before, Run(c, s, hs));
      RunKeeps(c, s, hs);
      DeferOff(c, Run(c, s, hs));
    }
  }

  lemma SetStays(c: Config, s: State, s': State)
    requires c.Valid()
    ensures (s'.wait == s.wait && s'.timers.defer == s.timers.defer && s'.air.nav == s.air.nav
             && s'.air.lastSend == s.air.lastSend && s'.air.txFailed == s.air.txFailed)
      ==> forall t, b :: SetAt(c, s, t, b) ==> SetAt(c, s', t, b)
  {
  }

  /** At happening k a sound frame ends that reserves the medium until t. */
  ghost predicate Reserves(c: Config, s: State, hs: seq<Happening>, k: int, t: real)
    requires c.Valid()
  {
    && 0 <= k < |hs| && hs[k].event.RecvFires? && Sound(Run(c, s, hs[..k]), hs[k].time)
    && t == hs[k].time + Seconds(Run(c, s, hs[..k]).rx.frame.duration)
  }

  lemma ReservesMore(c: Config, s: State, hs: seq<Happening>, h: Happening, t: real)
    requires c.Valid()
    ensures forall k :: 0 <= k < |hs| ==> Reserves(c, s, hs + [h], k, t) == Reserves(c, s, hs, k, t)
    ensures Reserves(c, s, hs + [h], |hs|, t) <==>
      h.event.RecvFires? && Sound(Run(c, s, hs), h.time) && t == h.time + Seconds(Run(c, s, hs).rx.frame.duration)
  {
    hide Run, Sound, Seconds;
    assert (hs + [h])[..|hs|] == hs && (hs + [h])[|hs|] == h;
    forall k | 0 <= k < |hs|
      ensures Reserves(c, s, hs + [h], k, t) == Reserves(c, s, hs, k, t)
    {
      Prefix(hs, h, k);
    }
  }

  /** The latest time that any sound frame has reserved the medium until. */
  ghost predicate IsLatest(c: Config, s: State, hs: seq<Happening>, nav: real)
    requires c.Valid()
  {
    && (forall k, t :: Reserves(c, s, hs, k, t) ==> t <= nav)
    && (nav == 0.0 || exists k :: Reserves(c, s, hs, k, nav))
  }

  lemma LatestStep(c: Config, s: State, hs: seq<Happening>, h: Happening, nav: real)
    requires c.Valid() && IsLatest(c, s, hs, nav)
    ensures var until := Seconds(Run(c, s, hs).rx.frame.duration) + h.time;
      IsLatest(c, s, hs + [h],
               if h.event.RecvFires? && Sound(Run(c, s, hs), h.time) && until > nav then until else nav)
  {
    hide Run, Sound, Seconds, Reserves;
    var until := Seconds(Run(c, s, hs).rx.frame.duration) + h.time;
    var taken := h.event.RecvFires? && Sound(Run(c, s, hs), h.time);
    ReservesSplit(c, s, hs, h, until, taken);
    ReservesMore(c, s, hs, h, nav);
    ReservesMore(c, s, hs, h, until);
    ReservesWhere(c, s, hs, nav);
    if taken && until > nav {
      assert Reserves(c, s, hs + [h], |hs|, until);
    }
  }

  lemma ReservesSplit(c: Config, s: State, hs: seq<Happening>, h: Happening, until: real, taken: bool)
    requires c.Valid() && until == Seconds(Run(c, s, hs).rx.frame.duration) + h.time
    requires taken == (h.event.RecvFires? && Sound(Run(c, s, hs), h.time))
    ensures forall k, t :: Reserves(c, s, hs + [h], k, t) ==> Reserves(c, s, hs, k, t) || (taken && t == until)
  {
    hide *;
    forall k, t | Reserves(c, s, hs + [h], k, t)
      ensures Reserves(c, s, hs, k, t) || (taken && t == until)
    {
      ReservesMore(c, s, hs, h, t);
      ReservesWhere(c, s, hs + [h], t);
    }
  }

  /** So is the NAV in every run. */
  lemma {:induction false} NavIs(c: Config, s: State, hs: seq<Happening>)
    requires c.Valid() && IsStart(s) && Legal(c, s, hs)
    ensures IsLatest(c, s, hs, Run(c, s, hs).air.nav)
  {
    hide *;
    if hs == [] {
      NoNav(c, s);
    } else {
      var first, h := hs[..|hs| - 1], hs[|hs| - 1];
      assert hs == first + [h];
      OneMore(c, s, first, h);
      NavIs(c, s, first);
      NavNow(c, Run(c, s, first), h.time, h.event);
      LatestStep(c, s, first, h, Run(c, s, first).air.nav);
    }
  }

  lemma ReservesWhere(c: Config, s: State, hs: seq<Happening>, t: real)
    requires c.Valid()
    ensures forall k :: Reserves(c, s, hs, k, t) ==> 0 <= k < |hs|
  {
  }

  lemma NoNav(c: Config, s: State)
    requires c.Valid() && IsStart(s)
    ensures IsLatest(c, s, [], Run(c, s, []).air.nav)
  {
  }

  lemma NavNow(c: Config, s: State, t: real, e: Event)
    requires c.Valid() && Inv(c, s) && Enabled(s, t, e)
    ensures var until := Seconds(s.rx.frame.duration) + t;
      Step(c, s, t, e).air.nav ==
        if e.RecvFires? && Sound(s, t) && until > s.air.nav then until else s.air.nav
  {
    hide Step, Inv, Enabled, Seconds, Sound;
    if e.RecvFires? {
      RecvSays(c, s, t);
    } else {
      OthersSays(c, s, t, e);
    }
  }

  /** The draw is the share of the contention window that is waited, so every
      backoff within the window, and no other, can be drawn. */
  lemma DrawnIs(cw: int, slot: real, draw: real)
    requires 0 < cw && 0.0 < slot && IsDraw(draw)
    ensures var window := cw as real * slot;
      0.0 <= Drawn(cw, slot, draw) < window && Drawn(cw, slot, draw) == window * draw
  {
    var window := cw as real * slot;
    assert Drawn(cw, slot, draw) == window * draw;
    Product(cw as real, slot);
    Share(window, draw);
  }

  lemma Share(x: real, y: real)
    requires 0.0 < x && 0.0 <= y < 1.0
    ensures 0.0 <= x * y < x
  {
    Product(x, y);
    Product(x, 1.0 - y);
    assert x * (1.0 - y) == x - x * y;
  }

  lemma Product(x: real, y: real)
    requires 0.0 < x && 0.0 <= y
    ensures 0.0 <= x * y && (0.0 < y ==> 0.0 < x * y)
  {
  }

  /** A duration that fits its field says a time to half a microsecond. */
  lemma DurationIs(t: real)
    requires 0.0 <= t && t * 1000000.0 + 0.5 < Wrap16 as real
    ensures -0.0000005 <= Seconds(Usec(t)) - t <= 0.0000005
  {
    var d := (t * 1000000.0 + 0.5).Floor;
    assert d % Wrap16 == d;
    assert d as real <= t * 1000000.0 + 0.5 < (d + 1) as real;
  }

  /** A frame lasts as long as its bytes take at the rate. */
  lemma AirIs(bytes: nat, rate: real)
    requires 0.0 < rate
    ensures Air(bytes, rate) * rate == bytes as real
  {
  }
}
