/** The component MAC80211 of mac_80211.h, in place.  Every handler is proved
    to take one step of the state machine; the source's assertions are asserted
    where the source has them. */
module Mac80211 {
  import opened MacStates
  import opened MacInvariant
  import opened MacRuns

  class Mac {
    const cfg: Config

    // The fields that change together are kept together.
    var clock: real                    // what SimTime() gives
    var job: Job
    var wait: Deferral
    var air: Medium
    var rx: Reception
    var timers: Timers
    ghost var acts: seq<Act>           // the calls of the outports, and the marks

    ghost function State(): State
      reads this
    {
      MacStates.State.State(clock, job, wait, air, rx, timers, acts)
    }

    ghost predicate Valid()
      reads this
    {
      cfg.Valid() && Inv(cfg, State())
    }

    /** Construction and Start; what the source leaves uninitialised may be anything. */
    constructor (c: Config, j: Job, w: Deferral, m: Medium, r: Reception, x: Timers)
      requires c.Valid()
      ensures Valid() && cfg == c && IsStart(State())
    {
      cfg := c;
      clock := 0.0;
      job := j.(mode := Idle, cw := CWMin, ssrc := 0, slrc := 0, seqNo := 0);
      wait := w;
      air := m.(nav := 0.0, lastSend := 0.0, txFailed := false, cache := map[]);
      rx := r;
      timers := Timers(Off, Off, Off, Off, Off, Off, x.netAckData, Off, x.phyData);
      acts := [];
      new;
      StartKeeps(cfg, State());
    }

    method StartDefer(backoff: bool, draw: real)
      requires cfg.Valid() && job.mode != Defer && timers.defer == Off
      modifies this
      ensures State() == MacStates.StartDefer(cfg, old(State()), backoff, draw)
    {
      hide Drawn, Air;
      wait := wait.(backoff := Drawn(job.cw, cfg.slot, draw));
      if !timers.recv.At? {
        wait := wait.(ifs := if air.txFailed then cfg.Eifs() else cfg.Difs());
        var pt := wait.ifs;
        if backoff {
          pt := pt + wait.backoff;
        }
        var now := clock;
        if now < air.lastSend {
          now := air.lastSend;
        }
        wait := wait.(start := if air.nav > now then air.nav else now);
        timers := timers.(defer := At(wait.start + pt));
      }
      job := job.(mode := Defer);
    }

    method ResumeDefer()
      requires cfg.Valid() && (job.mode == Defer ==> timers.defer == Off)
      modifies this
      ensures State() == MacStates.ResumeDefer(cfg, old(State()))
    {
      hide Air;
      if job.mode != Defer {
        return;
      }
      wait := wait.(ifs := if air.txFailed then cfg.Eifs() else cfg.Difs());
      var now := clock;
      if now < air.lastSend {
        now := air.lastSend;
      }
      wait := wait.(start := if air.nav > now then air.nav else now);
      timers := timers.(defer := At(wait.start + wait.ifs + wait.backoff));
    }

    /** The immediate TxPacket; the branch where two sends overlap is not taken. */
    method TxNow(f: Frame)
      requires air.lastSend <= clock
      modifies this`air, this`acts
      ensures State() == MacStates.TxNow(old(State()), f)
    {
      if clock < air.lastSend {
        assert false;
        return;
      }
      air := air.(lastSend := clock + f.txTime);
      acts := acts + [OnAir(clock, f)];
    }

    /** The delayed TxPacket; the branch where two sends overlap is not taken. */
    method TxLater(f: Frame, delay: real)
      requires air.lastSend <= clock + delay && timers.phy == Off
      modifies this`air, this`timers
      ensures State() == MacStates.TxLater(old(State()), f, delay)
    {
      var start := clock + delay;
      if start < air.lastSend {
        assert false;
        return;
      }
      air := air.(lastSend := start + f.txTime);
      timers := timers.(phy := At(start), phyData := f);
    }

    method FromNetwork(t: real, r: Request, draw: real)
      requires Valid() && Enabled(State(), t, Event.FromNetwork(r, draw))
      modifies this
      ensures Valid() && State() == OnNetwork(cfg, old(State()).(clock := t), r, draw)
    {
      hide Inv, Enabled, Drawn, MacStates.StartDefer;
      EnabledNow(cfg, State(), t, Event.FromNetwork(r, draw));
      NetworkKeeps(cfg, State().(clock := t), r, draw);
      clock := t;
      if job.mode != Idle {
        acts := acts + [NetworkAck(false)];
        return;
      }
      if r.size < cfg.rtsThreshold || r.dst == Broadcast {
        job := job.(longPld := false);
        job := job.(ssrc := 0);
      } else {
        job := job.(longPld := true);
        job := job.(slrc := 0);
      }
      job := job.(request := r);
      job := job.(seqNo := (job.seqNo + 1) % Wrap16);
      acts := acts + [Accept(r)];
      StartDefer(false, draw);
    }

    method DeferFires(t: real)
      requires Valid() && Enabled(State(), t, Event.DeferFires)
      modifies this
      ensures Valid() && State() == OnDefer(cfg, old(State()).(clock := t))
    {
      hide Inv, Enabled, Air, Usec, Seconds, MacStates.TxNow;
      EnabledNow(cfg, State(), t, Event.DeferFires);
      DeferKeeps(cfg, State().(clock := t));
      clock := t;
      timers := timers.(defer := Off);
      assert job.mode == Defer;
      var size := job.request.size + cfg.hdrLen;
      var np: Frame;
      if !job.longPld {
        if job.request.dst != Broadcast {
          var duration := Usec(cfg.sifs + Air(cfg.ackLen, cfg.basicRate) + Air(size, cfg.dataRate));
          np := Frame(Data, job.request.dst, cfg.me, duration, job.seqNo, job.request.payload, Air(size, cfg.dataRate));
          timers := timers.(ack := At(Seconds(duration) + cfg.Difs() + clock));
          job := job.(mode := AwaitAck);
        } else {
          np := Frame(Data, job.request.dst, cfg.me, 0, job.seqNo, job.request.payload, Air(size, cfg.basicRate));
          assert timers.netAck == Off;
          timers := timers.(netAck := At(clock + np.txTime), netAckData := true);
          job := job.(mode := Idle);
        }
      } else {
        var duration := Usec(3.0 * cfg.sifs + Air(cfg.ctsLen, cfg.basicRate) + Air(size, cfg.dataRate)
                             + Air(cfg.ackLen, cfg.basicRate));
        np := Frame(Rts, job.request.dst, cfg.me, duration, 0, 0, Air(cfg.rtsLen, cfg.basicRate));
        timers := timers.(cts := At(Seconds(duration) + cfg.sifs + clock));
        job := job.(mode := AwaitCts);
      }
      TxNow(np);
    }

    method FromPhy(t: real, f: Frame, error: bool, power: real)
      requires Valid() && Enabled(State(), t, Event.FromPhy(f, error, power))
      modifies this
      ensures Valid() && State() == OnPhy(cfg, old(State()).(clock := t), f, error, power)
    {
      hide Inv, Enabled, Captures;
      EnabledNow(cfg, State(), t, Event.FromPhy(f, error, power));
      PhyKeeps(cfg, State().(clock := t), f, error, power);
      clock := t;
      if timers.recv.At? {
        if Captures(power, rx.power, cfg.cpThreshold) {
          rx := Reception(f, error, power);
          timers := timers.(recv := At(clock + f.txTime));
        } else if Captures(rx.power, power, cfg.cpThreshold) {
        } else {
          var endTime := clock + f.txTime;
          if endTime > timers.recv.time {
            timers := timers.(recv := At(endTime));
            rx := Reception(f, error, power);
          }
          rx := rx.(error := true);
        }
      } else {
        rx := Reception(f, error, power);
        timers := timers.(recv := At(f.txTime + clock));
        if job.mode == Defer {
          assert timers.defer.At?;
          var pt := clock - wait.start;
          if pt > wait.ifs {
            wait := wait.(backoff := wait.backoff - (pt - wait.ifs));
            assert wait.backoff >= 0.0;
          }
          timers := timers.(defer := Off);
        }
      }
    }

    method RecvFires(t: real)
      requires Valid() && Enabled(State(), t, Event.RecvFires)
      modifies this
      ensures Valid() && State() == OnRecv(cfg, old(State()).(clock := t))
    {
      hide Inv, Enabled, Seconds, Received, MacStates.ResumeDefer;
      EnabledNow(cfg, State(), t, Event.RecvFires);
      RecvKeeps(cfg, State().(clock := t));
      clock := t;
      timers := timers.(recv := Off);
      var p := rx.frame;
      if rx.error {
        air := air.(txFailed := true);
        ResumeDefer();
        return;
      }
      if clock - p.txTime < air.lastSend {
        air := air.(txFailed := true);
        ResumeDefer();
        return;
      }
      var till := Seconds(p.duration) + clock;
      if till > air.nav {
        air := air.(nav := till);
      }
      Receive(p);
    }

    /** RecvTimer from where the frame turns out to be sound. */
    method Receive(p: Frame)
      requires cfg.Valid() && (job.mode == Defer ==> timers.defer == Off)
      requires timers.phy == Off && air.lastSend <= clock + cfg.sifs && clock <= air.nav
      modifies this
      ensures State() == Received(cfg, old(State()).(air := old(State()).air.(txFailed := false)), p)
    {
      hide MacStates.ResumeDefer, MacStates.RecvRts, MacStates.RecvCts, MacStates.RecvAck, MacStates.RecvData;
      if p.da != cfg.me && p.da != Broadcast {
        if !cfg.promiscuous || p.kind != Data {
          air := air.(txFailed := false);
          ResumeDefer();
          return;
        }
      }
      air := air.(txFailed := false);
      match p.kind
      case Rts =>
        RecvRts(p);
        ResumeDefer();
      case Cts =>
        RecvCts(p);
        ResumeDefer();
      case Ack =>
        ResumeDefer();
        RecvAck();
      case Data =>
        RecvData(p);
    }

    method RecvRts(p: Frame)
      requires cfg.Valid() && timers.phy == Off && air.lastSend <= clock + cfg.sifs && clock <= air.nav
      modifies this
      ensures State() == MacStates.RecvRts(cfg, old(State()), p)
      ensures job.mode == old(job.mode) && timers.defer == old(timers.defer)
    {
      hide Air, Usec;
      if job.mode != Idle && job.mode != Defer {
        return;
      }
      if timers.nav.At? {
        return;
      }
      var duration := (p.duration - Usec(cfg.sifs + Air(cfg.rtsLen, cfg.basicRate))) % Wrap16;
      TxLater(Frame(Cts, p.sa, cfg.me, duration, 0, 0, Air(cfg.ctsLen, cfg.basicRate)), cfg.sifs);
      air := air.(inSession := true);
      air := air.(peer := p.sa);
      assert air.nav >= clock;
      timers := timers.(nav := At(air.nav));
    }

    method RecvCts(p: Frame)
      requires cfg.Valid() && timers.phy == Off && air.lastSend <= clock + cfg.sifs
      modifies this
      ensures State() == MacStates.RecvCts(cfg, old(State()), p)
      ensures (job.mode == Defer ==> old(job.mode) == Defer) && timers.defer == old(timers.defer)
    {
      hide Air, Usec, Seconds;
      if job.mode != AwaitCts {
        return;
      }
      var size := job.request.size + cfg.hdrLen;
      var duration := Usec(2.0 * cfg.sifs + Air(cfg.ackLen, cfg.basicRate) + Air(size, cfg.dataRate));
      var np := Frame(Data, p.sa, cfg.me, duration, job.seqNo, job.request.payload, Air(size, cfg.dataRate));
      job := job.(mode := AwaitAck);
      timers := timers.(ack := At(Seconds(duration) + cfg.Difs() + clock));
      TxLater(np, cfg.sifs);
      timers := timers.(cts := Off);
    }

    method RecvData(p: Frame)
      requires cfg.Valid() && (job.mode == Defer ==> timers.defer == Off)
      requires timers.phy == Off && air.lastSend <= clock + cfg.sifs
      modifies this
      ensures State() == MacStates.RecvData(cfg, old(State()), p)
    {
      hide Air, MacStates.ResumeDefer, MacStates.TxLater;
      if job.mode != Idle && job.mode != Defer {
        return;
      }
      if p.da == cfg.me {
        if timers.nav.At? && !(air.inSession && p.sa == air.peer) {
          ResumeDefer();
          return;
        }
        KeepsDefer(State(), Control(cfg, Ack, p.sa, 0, Air(cfg.ackLen, cfg.basicRate)), cfg.sifs);
        TxLater(Frame(Ack, p.sa, cfg.me, 0, 0, 0, Air(cfg.ackLen, cfg.basicRate)), cfg.sifs);
      }
      ResumeDefer();
      if p.sa in air.cache {
        if air.cache[p.sa] == p.seqNo {
          return;
        }
      }
      air := air.(cache := air.cache[p.sa := p.seqNo]);
      acts := acts + [NetworkData(p.payload, p.da)];
    }

    method RecvAck()
      modifies this
      ensures State() == MacStates.RecvAck(old(State()))
    {
      if job.mode != AwaitAck {
        return;
      }
      timers := timers.(ack := Off);
      job := job.(mode := Idle);
      job := job.(cw := CWMin);
      acts := acts + [NetworkAck(true)];
    }

    method CtsFires(t: real, draw: real)
      requires Valid() && Enabled(State(), t, Event.CtsFires(draw))
      modifies this
      ensures Valid() && State() == OnCts(cfg, old(State()).(clock := t), draw)
    {
      hide Inv, Enabled, MacStates.StartDefer;
      EnabledNow(cfg, State(), t, Event.CtsFires(draw));
      CtsKeeps(cfg, State().(clock := t), draw);
      clock := t;
      timers := timers.(cts := Off);
      assert job.mode == AwaitCts;
      job := job.(ssrc := (job.ssrc + 1) % Wrap32);
      acts := acts + [Timeout];
      if job.ssrc < cfg.shortLimit {
        if job.cw < CWMax {
          job := job.(cw := 2 * job.cw + 1);
        }
        StartDefer(true, draw);
      } else {
        job := job.(mode := Idle);
        job := job.(cw := CWMin);
        acts := acts + [NetworkAck(false)];
      }
    }

    method AckFires(t: real, draw: real)
      requires Valid() && Enabled(State(), t, Event.AckFires(draw))
      modifies this
      ensures Valid() && State() == OnAck(cfg, old(State()).(clock := t), draw)
    {
      hide Inv, Enabled, MacStates.StartDefer;
      EnabledNow(cfg, State(), t, Event.AckFires(draw));
      AckKeeps(cfg, State().(clock := t), draw);
      clock := t;
      timers := timers.(ack := Off);
      assert job.mode == AwaitAck;
      acts := acts + [Timeout];
      var retry := false;
      if job.longPld {
        job := job.(slrc := (job.slrc + 1) % Wrap32);
        if job.slrc < cfg.longLimit {
          retry := true;
        }
      } else {
        job := job.(ssrc := (job.ssrc + 1) % Wrap32);
        if job.ssrc < cfg.shortLimit {
          retry := true;
        }
      }
      if retry {
        if job.cw < CWMax {
          job := job.(cw := 2 * job.cw + 1);
        }
        StartDefer(true, draw);
      } else {
        job := job.(mode := Idle);
        job := job.(cw := CWMin);
        acts := acts + [NetworkAck(false)];
      }
    }

    method NavFires(t: real)
      requires Valid() && Enabled(State(), t, Event.NavFires)
      modifies this
      ensures Valid() && State() == OnNav(old(State()).(clock := t))
    {
      hide Inv, Enabled;
      EnabledNow(cfg, State(), t, Event.NavFires);
      OtherTimersKeep(cfg, State().(clock := t));
      clock := t;
      timers := timers.(nav := Off);
      air := air.(inSession := false);
    }

    method NetworkAckFires(t: real)
      requires Valid() && Enabled(State(), t, Event.NetAckFires)
      modifies this
      ensures Valid() && State() == OnNetAck(old(State()).(clock := t))
    {
      hide Inv, Enabled;
      EnabledNow(cfg, State(), t, Event.NetAckFires);
      OtherTimersKeep(cfg, State().(clock := t));
      clock := t;
      timers := timers.(netAck := Off);
      acts := acts + [NetworkAck(timers.netAckData)];
    }

    method PhyFires(t: real)
      requires Valid() && Enabled(State(), t, Event.PhyFires)
      modifies this
      ensures Valid() && State() == OnPhyTimer(old(State()).(clock := t))
    {
      hide Inv, Enabled;
      EnabledNow(cfg, State(), t, Event.PhyFires);
      OtherTimersKeep(cfg, State().(clock := t));
      clock := t;
      timers := timers.(phy := Off);
      acts := acts + [OnAir(clock, timers.phyData)];
    }
  }

  /** What the handlers need from the moment of the call. */
  lemma EnabledNow(c: Config, s: State, t: real, e: Event)
    requires c.Valid() && Inv(c, s) && Enabled(s, t, e)
    ensures Inv(c, s.(clock := t)) && AssertsHold(c, s, t, e)
    ensures e.FromNetwork? ==> IsDraw(e.draw)
    ensures e.FromPhy? ==> 0.0 < e.frame.txTime
    ensures e.DeferFires? ==> s.timers.defer == At(t)
    ensures e.RecvFires? ==> s.timers.recv == At(t)
    ensures e.CtsFires? ==> s.timers.cts == At(t) && IsDraw(e.draw)
    ensures e.AckFires? ==> s.timers.ack == At(t) && IsDraw(e.draw)
    ensures e.NetAckFires? ==> s.timers.netAck.At?
    ensures e.PhyFires? ==> s.timers.phy == At(t)
  {
    hide Inv, AssertsHold;
    TimePasses(c, s, t);
    AssertsFollow(c, s, t, e);
  }

  lemma KeepsDefer(s: State, f: Frame, delay: real)
    ensures var s' := TxLater(s, f, delay);
      s'.job == s.job && s'.timers.defer == s.timers.defer && s'.air.cache == s.air.cache && s'.acts == s.acts
  {
  }
}
