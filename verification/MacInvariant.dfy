/** What every reachable state of the 802.11 MAC satisfies, and what follows
    for whole runs. */
module MacInvariant {
  import opened MacStates

  /** Which timers run in which mode. */
  ghost predicate Modes(j: Job, t: Timers) {
    && (t.defer.At? ==> j.mode == Defer)
    && (j.mode == Defer ==> (t.defer.At? <==> t.recv == Off))
    && (j.mode == AwaitCts <==> t.cts.At?)
    && (j.mode == AwaitAck <==> t.ack.At?)
    && (j.mode == AwaitCts ==> j.longPld)
  }

  /** The deferral timer expires after everything sent or arranged so far, and
      no later than the backoff left allows. */
  ghost predicate Deferring(w: Deferral, lastSend: real, t: Timers) {
    t.defer.At? ==> lastSend < t.defer.time <= w.start + w.ifs + w.backoff
  }

  /** lastSend is the end of the last transmission, under way or arranged. */
  ghost predicate Sending(j: Job, lastSend: real, t: Timers) {
    && (t.phy.At? ==> 0.0 < t.phyData.txTime && t.phy.time + t.phyData.txTime == lastSend)
    && (t.phy.At? && t.phyData.kind.Data? ==>
          j.mode == AwaitAck && t.ack.At? && t.phy.time < t.ack.time && t.phyData.payload == j.request.payload)
    && (t.netAck.At? ==> t.netAck.time <= lastSend)
  }

  ghost predicate Window(cw: int) {
    cw in {31, 63, 127, 255, 511, 1023}
  }

  /** The timeouts since the last request was accepted. */
  ghost function Timeouts(acts: seq<Act>): nat {
    if acts == [] then 0
    else
      match acts[|acts| - 1]
      case Accept(_) => 0
      case Timeout => 1 + Timeouts(acts[..|acts| - 1])
      case _ => Timeouts(acts[..|acts| - 1])
  }

  ghost function Acks(acts: seq<Act>): nat {
    if acts == [] then 0
    else (if acts[|acts| - 1].NetworkAck? then 1 else 0) + Acks(acts[..|acts| - 1])
  }

  ghost predicate LastAccepted(acts: seq<Act>, r: Request) {
    acts != [] &&
    if acts[|acts| - 1].Accept? then acts[|acts| - 1].request == r else LastAccepted(acts[..|acts| - 1], r)
  }

  /** The transmissions come one after the other and are over by t. */
  ghost predicate AirBefore(acts: seq<Act>, t: real) {
    if acts == [] then true
    else
      match acts[|acts| - 1]
      case OnAir(start, f) => start + f.txTime <= t && 0.0 <= f.txTime && AirBefore(acts[..|acts| - 1], start)
      case _ => AirBefore(acts[..|acts| - 1], t)
  }

  /** Every data frame carries the payload of the request accepted last. */
  ghost predicate Carries(acts: seq<Act>) {
    acts == [] ||
    (var a := acts[|acts| - 1];
     && Carries(acts[..|acts| - 1])
     && (a.OnAir? && a.frame.kind.Data? ==>
           exists r :: LastAccepted(acts[..|acts| - 1], r) && r.payload == a.frame.payload))
  }

  lemma Logged(acts: seq<Act>, a: Act)
    ensures (acts + [a])[..|acts|] == acts
    ensures Timeouts(acts + [a]) == if a.Accept? then 0 else if a.Timeout? then 1 + Timeouts(acts) else Timeouts(acts)
    ensures Acks(acts + [a]) == Acks(acts) + if a.NetworkAck? then 1 else 0
    ensures forall r :: LastAccepted(acts + [a], r) == if a.Accept? then a.request == r else LastAccepted(acts, r)
    ensures a.OnAir? ==> forall t :: AirBefore(acts + [a], t) <==>
      a.start + a.frame.txTime <= t && 0.0 <= a.frame.txTime && AirBefore(acts, a.start)
    ensures !a.OnAir? ==> forall t :: AirBefore(acts + [a], t) <==> AirBefore(acts, t)
    ensures Carries(acts + [a]) == (Carries(acts) && (a.OnAir? && a.frame.kind.Data? ==>
        exists r :: LastAccepted(acts, r) && r.payload == a.frame.payload))
  {
    assert (acts + [a])[..|acts|] == acts;
  }

  lemma {:induction false} AirLater(acts: seq<Act>, t: real, t': real)
    requires AirBefore(acts, t) && t <= t'
    ensures AirBefore(acts, t')
  {
    if acts != [] && !acts[|acts| - 1].OnAir? {
      AirLater(acts[..|acts| - 1], t, t');
    }
  }

  /** When the air is free of this node's transmissions so far. */
  ghost function FreeFrom(lastSend: real, t: Timers): real {
    if t.phy.At? then t.phy.time else lastSend
  }

  ghost predicate History(s: State) {
    && AirBefore(s.acts, FreeFrom(s.air.lastSend, s.timers))
    && Carries(s.acts)
    && (s.job.mode != Idle ==> LastAccepted(s.acts, s.job.request))
  }

  ghost function AtLeastOne(n: nat): nat {
    if n == 0 then 1 else n
  }

  /** How many timeouts a request can see before it is given up. */
  ghost function Patience(c: Config): nat {
    c.shortLimit + AtLeastOne(c.longLimit)
  }

  ghost predicate Tries(c: Config, j: Job, timeouts: nat) {
    && timeouts <= Patience(c)
    && (j.mode != Idle && j.longPld ==>
          && j.slrc < AtLeastOne(c.longLimit)
          && timeouts <= j.slrc + if j.ssrc < c.shortLimit then j.ssrc + 1 else 0)
    && (j.mode != Idle && !j.longPld ==> j.ssrc < AtLeastOne(c.shortLimit) && timeouts <= j.ssrc)
  }

  ghost predicate Inv(c: Config, s: State) {
    && NonePast(s.clock, s.timers)
    && Modes(s.job, s.timers)
    && (s.job.mode == Defer ==> 0.0 <= s.wait.backoff)
    && Deferring(s.wait, s.air.lastSend, s.timers)
    && Sending(s.job, s.air.lastSend, s.timers)
    && (s.timers.recv.At? ==> 0.0 < s.rx.frame.txTime)
    && Window(s.job.cw) && History(s) && Tries(c, s.job, Timeouts(s.acts))
  }

  /** The requests that have not been acknowledged yet. */
  ghost function Pending(s: State): nat {
    (if s.job.mode != Idle then 1 else 0) + if s.timers.netAck.At? then 1 else 0
  }

  ghost function Balance(s: State): nat {
    Acks(s.acts) + Pending(s)
  }

  lemma StartKeeps(c: Config, s: State)
    requires c.Valid() && IsStart(s)
    ensures Inv(c, s) && Balance(s) == 0
  {
  }

  lemma DrawnBackoff(cw: int, slot: real, draw: real)
    requires Window(cw) && 0.0 < slot && IsDraw(draw)
    ensures 0.0 <= Drawn(cw, slot, draw)
  {
    assert 0.0 <= cw as real * slot;
  }

  /** Everything in Inv but that a mode of Defer has a timer running. */
  ghost predicate AlmostInv(c: Config, s: State) {
    && NonePast(s.clock, s.timers)
    && s.timers.defer == Off
    && (s.job.mode == AwaitCts <==> s.timers.cts.At?)
    && (s.job.mode == AwaitAck <==> s.timers.ack.At?)
    && (s.job.mode == AwaitCts ==> s.job.longPld)
    && (s.job.mode == Defer ==> 0.0 <= s.wait.backoff)
    && Sending(s.job, s.air.lastSend, s.timers)
    && (s.timers.recv.At? ==> 0.0 < s.rx.frame.txTime)
    && Window(s.job.cw) && History(s) && Tries(c, s.job, Timeouts(s.acts))
  }

  /** StartDefer sets a deadline after everything under way, or leaves it to
      the reception under way. */
  lemma StartDeferKeeps(c: Config, s: State, backoff: bool, draw: real)
    requires c.Valid() && IsDraw(draw)
    requires s.job.mode != Defer && AlmostInv(c, s.(job := s.job.(mode := Defer), wait := s.wait.(backoff := 0.0)))
    ensures Inv(c, StartDefer(c, s, backoff, draw))
    ensures Balance(StartDefer(c, s, backoff, draw)) == Acks(s.acts) + Pending(s.(job := s.job.(mode := Defer)))
  {
    hide Air, Drawn, Timeouts, Acks, LastAccepted, AirBefore, Carries, Tries, Window;
    DrawnBackoff(s.job.cw, c.slot, draw);
  }

  lemma ResumeDeferKeeps(c: Config, s: State)
    requires c.Valid() && AlmostInv(c, s) && s.timers.recv == Off
    ensures Inv(c, ResumeDefer(c, s)) && Balance(ResumeDefer(c, s)) == Balance(s)
  {
    hide Air, Timeouts, Acks, LastAccepted, AirBefore, Carries, Tries, Window;
  }

  lemma NetworkKeeps(c: Config, s: State, r: Request, draw: real)
    requires c.Valid() && Inv(c, s) && IsDraw(draw)
    ensures Inv(c, OnNetwork(c, s, r, draw)) && Balance(OnNetwork(c, s, r, draw)) == Balance(s) + 1
  {
    hide Air, Timeouts, Acks, LastAccepted, AirBefore, Carries, StartDefer, Window;
    if s.job.mode != Idle {
      Logged(s.acts, NetworkAck(false));
    } else {
      Logged(s.acts, Accept(r));
      StartDeferKeeps(c, Log(s.(job := NewJob(c, s.job, r)), Accept(r)), false, draw);
    }
  }

  lemma PhyKeeps(c: Config, s: State, f: Frame, error: bool, power: real)
    requires c.Valid() && Inv(c, s) && 0.0 < f.txTime
    ensures Inv(c, OnPhy(c, s, f, error, power)) && Balance(OnPhy(c, s, f, error, power)) == Balance(s)
  {
    hide Captures, Timeouts, Acks, LastAccepted, AirBefore, Carries, Tries, Window;
  }

  lemma DeferKeeps(c: Config, s: State)
    requires c.Valid() && Inv(c, s) && s.timers.defer == At(s.clock)
    ensures Inv(c, OnDefer(c, s)) && Balance(OnDefer(c, s)) == Balance(s)
    ensures s.air.lastSend < s.clock && s.timers.netAck == Off && s.timers.phy == Off
  {
    hide Air, Usec, Seconds, Timeouts, Acks, LastAccepted, AirBefore, Carries, Window;
    assert s.air.lastSend < s.clock && s.timers.netAck == Off && s.timers.phy == Off;
    var s' := OnDefer(c, s);
    var sent := s'.acts[|s.acts|];
    Logged(s.acts, sent);
    AirLater(s.acts, s.air.lastSend, s.clock);
  }

  lemma RetryKeeps(c: Config, s: State, again: bool, draw: real)
    requires c.Valid() && IsDraw(draw) && s.job.mode in {AwaitCts, AwaitAck}
    requires AlmostInv(c, s.(job := s.job.(mode := Idle)))
    requires again ==> Tries(c, s.job, Timeouts(s.acts)) && LastAccepted(s.acts, s.job.request)
    ensures Inv(c, Retry(c, s, again, draw)) && Balance(Retry(c, s, again, draw)) == Balance(s)
  {
    hide Air, Drawn, Timeouts, Acks, LastAccepted, AirBefore, Carries, StartDefer, Window;
    if again {
      WiderKeeps(s.job.cw);
      StartDeferKeeps(c, s.(job := s.job.(cw := Wider(s.job.cw))), true, draw);
    } else {
      WindowStarts();
      Logged(s.acts, NetworkAck(false));
    }
  }

  lemma WindowStarts()
    ensures Window(CWMin)
  {
  }

  lemma WiderKeeps(cw: int)
    requires Window(cw)
    ensures Window(Wider(cw))
  {
  }

  lemma CtsKeeps(c: Config, s: State, draw: real)
    requires c.Valid() && Inv(c, s) && s.timers.cts == At(s.clock) && IsDraw(draw)
    ensures Inv(c, OnCts(c, s, draw)) && Balance(OnCts(c, s, draw)) == Balance(s)
  {
    hide Air, Timeouts, Acks, LastAccepted, AirBefore, Carries, Retry, Window;
    var j := s.job.(ssrc := (s.job.ssrc + 1) % Wrap32);
    Logged(s.acts, Timeout);
    RetryKeeps(c, Log(s.(timers := s.timers.(cts := Off), job := j), Timeout), j.ssrc < c.shortLimit, draw);
  }

  lemma AckKeeps(c: Config, s: State, draw: real)
    requires c.Valid() && Inv(c, s) && s.timers.ack == At(s.clock) && IsDraw(draw)
    ensures Inv(c, OnAck(c, s, draw)) && Balance(OnAck(c, s, draw)) == Balance(s)
  {
    hide Air, Timeouts, Acks, LastAccepted, AirBefore, Carries, Retry, Window;
    var j := if s.job.longPld then s.job.(slrc := (s.job.slrc + 1) % Wrap32)
             else s.job.(ssrc := (s.job.ssrc + 1) % Wrap32);
    var again := if j.longPld then j.slrc < c.longLimit else j.ssrc < c.shortLimit;
    Logged(s.acts, Timeout);
    RetryKeeps(c, Log(s.(timers := s.timers.(ack := Off), job := j), Timeout), again, draw);
  }

  /** A delayed transmission right after a reception that met no earlier one. */
  lemma TxLaterKeeps(c: Config, s: State, f: Frame)
    requires c.Valid() && AlmostInv(c, s) && s.air.lastSend < s.clock && 0.0 < f.txTime
    requires f.kind.Data? ==>
      && s.job.mode == AwaitAck && s.clock + c.sifs < s.timers.ack.time && f.payload == s.job.request.payload
    ensures s.timers.phy == Off && s.air.lastSend <= s.clock + c.sifs
    ensures AlmostInv(c, TxLater(s, f, c.sifs)) && Balance(TxLater(s, f, c.sifs)) == Balance(s)
  {
    hide Timeouts, Acks, LastAccepted, AirBefore, Carries, Tries, Window;
    AirLater(s.acts, s.air.lastSend, s.clock + c.sifs);
  }

  lemma RtsKeeps(c: Config, s: State, p: Frame)
    requires c.Valid() && AlmostInv(c, s) && s.air.lastSend < s.clock <= s.air.nav
    ensures AlmostInv(c, RecvRts(c, s, p)) && Balance(RecvRts(c, s, p)) == Balance(s)
    ensures RecvRts(c, s, p).timers.recv == s.timers.recv
  {
    hide Air, CtsDuration, Timeouts, Acks, LastAccepted, AirBefore, Carries, Tries, Window;
    TxLaterKeeps(c, s, Control(c, Cts, p.sa, CtsDuration(c, p.duration), Air(c.ctsLen, c.basicRate)));
  }

  lemma RecvCtsKeeps(c: Config, s: State, p: Frame)
    requires c.Valid() && AlmostInv(c, s) && s.air.lastSend < s.clock
    ensures AlmostInv(c, RecvCts(c, s, p)) && Balance(RecvCts(c, s, p)) == Balance(s)
    ensures RecvCts(c, s, p).timers.recv == s.timers.recv
  {
    hide Air, Usec, Seconds, Timeouts, Acks, LastAccepted, AirBefore, Carries, TxLater, Window;
    if s.job.mode == AwaitCts {
      var size := s.job.request.size + c.hdrLen;
      var duration := Usec(2.0 * c.sifs + Air(c.ackLen, c.basicRate) + Air(size, c.dataRate));
      var t := s.timers.(ack := At(Seconds(duration) + c.Difs() + s.clock), cts := Off);
      var s1 := s.(job := s.job.(mode := AwaitAck), timers := t);
      PhyOff(c, s);
      TxLaterKeeps(c, s1, DataFrame(c, s.job, p.sa, duration, Air(size, c.dataRate)));
      TxLaterTimers(s1, DataFrame(c, s.job, p.sa, duration, Air(size, c.dataRate)), c.sifs);
    }
  }

  lemma PhyOff(c: Config, s: State)
    requires AlmostInv(c, s) && s.air.lastSend < s.clock
    ensures s.timers.phy == Off && s.timers.netAck == Off
  {
  }

  lemma TxLaterTimers(s: State, f: Frame, delay: real)
    ensures TxLater(s, f, delay).timers.recv == s.timers.recv
  {
  }

  lemma DeliverKeeps(c: Config, s: State, p: Frame)
    requires Inv(c, s)
    ensures Inv(c, Deliver(s, p)) && Balance(Deliver(s, p)) == Balance(s)
  {
    hide Timeouts, Acks, LastAccepted, AirBefore, Carries, Tries, Window, Modes, Deferring, Sending;
    Logged(s.acts, NetworkData(p.payload, p.da));
  }

  lemma DataKeeps(c: Config, s: State, p: Frame)
    requires c.Valid() && AlmostInv(c, s) && s.air.lastSend < s.clock && s.timers.recv == Off
    ensures Inv(c, RecvData(c, s, p)) && Balance(RecvData(c, s, p)) == Balance(s)
  {
    hide Air, Inv, AlmostInv, TxLater, Deliver, Balance;
    if s.job.mode.AwaitCts? || s.job.mode.AwaitAck? {
      ResumeDeferKeeps(c, s);
      return;
    }
    if p.da == c.me && s.timers.nav.At? && !(s.air.inSession && p.sa == s.air.peer) {
      ResumeDeferKeeps(c, s);
      return;
    }
    var ack := Control(c, Ack, p.sa, 0, Air(c.ackLen, c.basicRate));
    var s1 := if p.da == c.me then TxLater(s, ack, c.sifs) else s;
    if p.da == c.me {
      TxLaterKeeps(c, s, ack);
      TxLaterTimers(s, ack, c.sifs);
    }
    ResumeDeferKeeps(c, s1);
    DeliverKeeps(c, ResumeDefer(c, s1), p);
  }

  lemma RecvAckKeeps(c: Config, s: State)
    requires Inv(c, s) && s.timers.phy == Off
    ensures Inv(c, RecvAck(s)) && Balance(RecvAck(s)) == Balance(s)
  {
    hide Timeouts, Acks, LastAccepted, AirBefore, Carries, Window;
    WindowStarts();
    Logged(s.acts, NetworkAck(true));
  }

  lemma ResumeDeferTimers(c: Config, s: State)
    requires c.Valid()
    ensures ResumeDefer(c, s).timers.phy == s.timers.phy
  {
    hide Air;
  }

  lemma ReceivedKeeps(c: Config, s: State, p: Frame)
    requires c.Valid() && AlmostInv(c, s) && s.air.lastSend < s.clock <= s.air.nav && s.timers.recv == Off
    ensures Inv(c, Received(c, s, p)) && Balance(Received(c, s, p)) == Balance(s)
  {
    hide Inv, AlmostInv, ResumeDefer, RecvRts, RecvCts, RecvData, RecvAck, Balance;
    ResumeDeferKeeps(c, s);
    match p.kind
    case Rts =>
      RtsKeeps(c, s, p);
      ResumeDeferKeeps(c, RecvRts(c, s, p));
    case Cts =>
      RecvCtsKeeps(c, s, p);
      ResumeDeferKeeps(c, RecvCts(c, s, p));
    case Ack =>
      PhyOff(c, s);
      ResumeDeferTimers(c, s);
      RecvAckKeeps(c, ResumeDefer(c, s));
    case Data => DataKeeps(c, s, p);
  }

  lemma ReceptionEnds(c: Config, s: State, air: Medium)
    requires c.Valid() && Inv(c, s) && s.timers.recv == At(s.clock) && air.lastSend == s.air.lastSend
    ensures var s1 := s.(timers := s.timers.(recv := Off), air := air);
      AlmostInv(c, s1) && Balance(s1) == Balance(s)
  {
    hide Timeouts, Acks, LastAccepted, AirBefore, Carries, Tries, Window;
  }

  lemma RecvKeeps(c: Config, s: State)
    requires c.Valid() && Inv(c, s) && s.timers.recv == At(s.clock)
    ensures Inv(c, OnRecv(c, s)) && Balance(OnRecv(c, s)) == Balance(s)
  {
    hide AlmostInv, ResumeDefer, Received, Seconds, Balance, Tries, History, Sending, Modes, Deferring, Window;
    var p := s.rx.frame;
    if s.rx.error || s.clock - p.txTime < s.air.lastSend {
      ReceptionEnds(c, s, s.air.(txFailed := true));
      ResumeDeferKeeps(c, s.(timers := s.timers.(recv := Off), air := s.air.(txFailed := true)));
    } else {
      var air := s.air.(nav := Later(s.air.nav, Seconds(p.duration) + s.clock), txFailed := false);
      ReceptionEnds(c, s, air);
      ReceivedKeeps(c, s.(timers := s.timers.(recv := Off), air := air), p);
    }
  }

  lemma OtherTimersKeep(c: Config, s: State)
    requires Inv(c, s)
    ensures Inv(c, OnNav(s)) && Balance(OnNav(s)) == Balance(s)
    ensures s.timers.netAck.At? ==> Inv(c, OnNetAck(s)) && Balance(OnNetAck(s)) == Balance(s)
    ensures s.timers.phy == At(s.clock) ==> Inv(c, OnPhyTimer(s)) && Balance(OnPhyTimer(s)) == Balance(s)
  {
    hide Timeouts, Acks, LastAccepted, AirBefore, Carries, Tries, Window;
    Logged(s.acts, NetworkAck(s.timers.netAckData));
    Logged(s.acts, OnAir(s.clock, s.timers.phyData));
  }

  lemma TimePasses(c: Config, s: State, t: real)
    requires Inv(c, s) && s.clock <= t && NonePast(t, s.timers)
    ensures Inv(c, s.(clock := t)) && Balance(s.(clock := t)) == Balance(s)
  {
  }

  /** Every step keeps the invariant, and the requests that came in are those
      acknowledged and those pending. */
  lemma StepKeeps(c: Config, s: State, t: real, e: Event)
    requires c.Valid() && Inv(c, s) && Enabled(s, t, e)
    ensures Inv(c, Step(c, s, t, e))
    ensures Balance(Step(c, s, t, e)) == Balance(s) + if e.FromNetwork? then 1 else 0
  {
    hide Inv, Balance, OnNetwork, OnPhy, OnDefer, OnRecv, OnCts, OnAck, OnNav, OnNetAck, OnPhyTimer;
    var s1 := s.(clock := t);
    TimePasses(c, s, t);
    match e
    case FromNetwork(r, draw) => NetworkKeeps(c, s1, r, draw);
    case FromPhy(f, error, power) => PhyKeeps(c, s1, f, error, power);
    case DeferFires => DeferKeeps(c, s1);
    case RecvFires => RecvKeeps(c, s1);
    case CtsFires(draw) => CtsKeeps(c, s1, draw);
    case AckFires(draw) => AckKeeps(c, s1, draw);
    case NavFires => OtherTimersKeep(c, s1);
    case NetAckFires => OtherTimersKeep(c, s1);
    case PhyFires => OtherTimersKeep(c, s1);
  }
}
