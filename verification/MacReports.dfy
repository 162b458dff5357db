/** What the 802.11 MAC tells the layers above and below it, said in terms of
    what it was asked to do and what it heard. */
module MacReports {
  import opened MacStates
  import opened MacInvariant
  import opened MacRuns

  /** The frame being received is sound: it came without error, and since it
      began this node has sent nothing. */
  ghost predicate Sound(s: State, t: real) {
    !s.rx.error && s.air.lastSend <= t - s.rx.frame.txTime
  }

  ghost predicate ForMe(c: Config, p: Frame) {
    p.da == c.me || p.da == Broadcast
  }

  /** The node is not waiting for an answer itself. */
  ghost predicate AtEase(s: State) {
    s.job.mode == Idle || s.job.mode == Defer
  }

  /** Somebody else's exchange is going on. */
  ghost predicate Reserved(s: State, p: Frame) {
    s.timers.nav.At? && !(s.air.inSession && p.sa == s.air.peer)
  }

  /** The frame that ends is data that this node takes. */
  ghost predicate TakesData(c: Config, s: State, t: real) {
    var p := s.rx.frame;
    && Sound(s, t) && p.kind.Data? && AtEase(s)
    && (ForMe(c, p) || c.promiscuous) && (p.da == c.me ==> !Reserved(s, p))
  }

  /** The frame that ends is the acknowledgement that this node waits for. */
  ghost predicate GetsAck(c: Config, s: State, t: real) {
    Sound(s, t) && s.rx.frame.kind.Ack? && ForMe(c, s.rx.frame) && s.job.mode == AwaitAck
  }

  ghost predicate GetsCts(c: Config, s: State, t: real) {
    Sound(s, t) && s.rx.frame.kind.Cts? && ForMe(c, s.rx.frame) && s.job.mode == AwaitCts
  }

  /** The frame that ends is a request to send that this node grants. */
  ghost predicate Grants(c: Config, s: State, t: real) {
    Sound(s, t) && s.rx.frame.kind.Rts? && ForMe(c, s.rx.frame) && AtEase(s) && s.timers.nav == Off
  }

  ghost predicate Known(s: State) {
    s.rx.frame.sa in s.air.cache && s.air.cache[s.rx.frame.sa] == s.rx.frame.seqNo
  }

  /** A timeout is the last that the request in hand may see: the counter of
      short retries, or that of long ones for an acknowledgement of a long
      payload, reaches its limit. */
  ghost predicate GivesUp(c: Config, s: State, e: Event)
    requires e.CtsFires? || e.AckFires?
  {
    if e.AckFires? && s.job.longPld then c.longLimit <= s.job.slrc + 1
    else c.shortLimit <= (s.job.ssrc + 1) % Wrap32
  }

  /** The frame with which a node begins an exchange. */
  ghost predicate IsOpening(c: Config, j: Job, f: Frame)
    requires c.Valid()
  {
    var size := j.request.size + c.hdrLen;
    && f.sa == c.me && f.da == j.request.dst
    && if j.longPld then
         f.kind == Rts && f.txTime == Air(c.rtsLen, c.basicRate)
         && f.duration == Usec(3.0 * c.sifs + Air(c.ctsLen, c.basicRate) + Air(size, c.dataRate) + Air(c.ackLen, c.basicRate))
       else if j.request.dst == Broadcast then
         IsData(j, f) && f.txTime == Air(size, c.basicRate) && f.duration == 0
       else
         IsData(j, f) && f.txTime == Air(size, c.dataRate)
         && f.duration == Usec(c.sifs + Air(c.ackLen, c.basicRate) + Air(size, c.dataRate))
  }

  ghost predicate IsData(j: Job, f: Frame) {
    f.kind == Data && f.payload == j.request.payload && f.seqNo == j.seqNo
  }

  /** What a step adds to what the MAC has done. */
  ghost predicate Logs(c: Config, s: State, t: real, e: Event, added: seq<Act>)
    requires c.Valid()
  {
    match e
    case FromNetwork(r, _) => added == [if s.job.mode == Idle then Accept(r) else NetworkAck(false)]
    case FromPhy(_, _, _) => added == []
    case DeferFires => |added| == 1 && added[0].OnAir? && added[0].start == t && IsOpening(c, s.job, added[0].frame)
    case RecvFires =>
      added == if TakesData(c, s, t) && !Known(s) then [NetworkData(s.rx.frame.payload, s.rx.frame.da)]
               else if GetsAck(c, s, t) then [NetworkAck(true)] else []
    case CtsFires(_) => added == [Timeout] + if GivesUp(c, s, e) then [NetworkAck(false)] else []
    case AckFires(_) => added == [Timeout] + if GivesUp(c, s, e) then [NetworkAck(false)] else []
    case NavFires => added == []
    case NetAckFires => added == [NetworkAck(s.timers.netAckData)]
    case PhyFires => added == [OnAir(t, s.timers.phyData)]
  }

  /** Every step says exactly that. */
  lemma StepSays(c: Config, s: State, t: real, e: Event)
    requires c.Valid() && Inv(c, s) && Enabled(s, t, e)
    ensures exists added :: Logs(c, s, t, e, added) && Step(c, s, t, e).acts == s.acts + added
  {
    hide Inv, NonePast, OnNetwork, OnDefer, OnRecv, OnCts, OnAck, Logs;
    var s1 := s.(clock := t);
    TimePasses(c, s, t);
    SameLogs(c, s, t, e);
    var added: seq<Act>;
    match e
    case FromNetwork(r, draw) => added := NetworkActs(c, s1, r, draw);
    case DeferFires => added := DeferActs(c, s1);
    case RecvFires => added := RecvActs(c, s1);
    case CtsFires(draw) => added := CtsActs(c, s1, draw);
    case AckFires(draw) => added := AckActs(c, s1, draw);
    case _ => added := RestActs(c, s, t, e);
  }

  lemma SameLogs(c: Config, s: State, t: real, e: Event)
    requires c.Valid()
    ensures forall added :: Logs(c, s.(clock := t), t, e, added) ==> Logs(c, s, t, e, added)
  {
  }

  lemma RestActs(c: Config, s: State, t: real, e: Event) returns (added: seq<Act>)
    requires c.Valid() && (e.FromPhy? || e.NavFires? || e.NetAckFires? || e.PhyFires?)
    ensures Logs(c, s, t, e, added) && Step(c, s, t, e).acts == s.acts + added
  {
    added := Step(c, s, t, e).acts[|s.acts|..];
  }

  lemma NetworkActs(c: Config, s: State, r: Request, draw: real) returns (added: seq<Act>)
    requires c.Valid()
    ensures OnNetwork(c, s, r, draw).acts == s.acts + added && Logs(c, s, s.clock, FromNetwork(r, draw), added)
  {
    added := [if s.job.mode == Idle then Accept(r) else NetworkAck(false)];
    if s.job.mode == Idle {
      StartDeferSends(c, Log(s.(job := NewJob(c, s.job, r)), Accept(r)), false, draw);
    }
  }

  lemma DeferActs(c: Config, s: State) returns (added: seq<Act>)
    requires c.Valid() && Inv(c, s) && s.timers.defer == At(s.clock)
    ensures OnDefer(c, s).acts == s.acts + added && Logs(c, s, s.clock, DeferFires, added)
  {
    DeferKeeps(c, s);
    hide Inv, Air, Usec, Seconds;
    added := OnDefer(c, s).acts[|s.acts|..];
  }

  lemma RecvActs(c: Config, s: State) returns (added: seq<Act>)
    requires c.Valid() && Inv(c, s) && s.timers.recv == At(s.clock)
    ensures OnRecv(c, s).acts == s.acts + added && Logs(c, s, s.clock, RecvFires, added)
  {
    hide Air, Usec, Seconds, CtsDuration, ResumeDefer, Inv;
    var p := s.rx.frame;
    var off := s.(timers := s.timers.(recv := Off));
    ResumeDeferSends(c, off.(air := s.air.(txFailed := true)));
    var s1 := off.(air := s.air.(nav := Later(s.air.nav, Seconds(p.duration) + s.clock), txFailed := false));
    ResumeDeferSends(c, s1);
    ResumeDeferSends(c, RecvRts(c, s1, p));
    ResumeDeferSends(c, RecvCts(c, s1, p));
    var ack := Control(c, Ack, p.sa, 0, Air(c.ackLen, c.basicRate));
    ResumeDeferSends(c, if p.da == c.me then TxLater(s1, ack, c.sifs) else s1);
    ResumeDeferJob(c, s1);
    added := OnRecv(c, s).acts[|s.acts|..];
  }

  lemma ResumeDeferJob(c: Config, s: State)
    requires c.Valid()
    ensures ResumeDefer(c, s).job == s.job && ResumeDefer(c, s).timers.(defer := Off) == s.timers.(defer := Off)
    ensures ResumeDefer(c, s).air == s.air && ResumeDefer(c, s).rx == s.rx && ResumeDefer(c, s).clock == s.clock
  {
  }

  lemma CtsActs(c: Config, s: State, draw: real) returns (added: seq<Act>)
    requires c.Valid() && Inv(c, s) && s.timers.cts == At(s.clock)
    ensures OnCts(c, s, draw).acts == s.acts + added && Logs(c, s, s.clock, CtsFires(draw), added)
  {
    hide Retry, Inv;
    var j := s.job.(ssrc := (s.job.ssrc + 1) % Wrap32);
    RetryAdds(c, Log(s.(timers := s.timers.(cts := Off), job := j), Timeout), j.ssrc < c.shortLimit, draw);
    added := [Timeout] + if GivesUp(c, s, CtsFires(draw)) then [NetworkAck(false)] else [];
  }

  lemma AckActs(c: Config, s: State, draw: real) returns (added: seq<Act>)
    requires c.Valid() && Inv(c, s) && s.timers.ack == At(s.clock)
    ensures OnAck(c, s, draw).acts == s.acts + added && Logs(c, s, s.clock, AckFires(draw), added)
  {
    Counters(c, s);
    hide Retry, Inv;
    var j := if s.job.longPld then s.job.(slrc := (s.job.slrc + 1) % Wrap32)
             else s.job.(ssrc := (s.job.ssrc + 1) % Wrap32);
    var again := if j.longPld then j.slrc < c.longLimit else j.ssrc < c.shortLimit;
    RetryAdds(c, Log(s.(timers := s.timers.(ack := Off), job := j), Timeout), again, draw);
    added := [Timeout] + if GivesUp(c, s, AckFires(draw)) then [NetworkAck(false)] else [];
  }

  /** The counter of long retries does not wrap around before its limit, nor
      does that of short ones while it belongs to a short payload. */
  lemma Counters(c: Config, s: State)
    requires c.Valid() && Inv(c, s) && s.job.mode != Idle
    ensures s.job.longPld ==> s.job.slrc + 1 < Wrap32 && (s.job.slrc + 1) % Wrap32 == s.job.slrc + 1
    ensures !s.job.longPld ==> s.job.ssrc + 1 < Wrap32 && (s.job.ssrc + 1) % Wrap32 == s.job.ssrc + 1
  {
  }

  /** The answer to what has just been heard, a SIFS later. */
  ghost predicate IsAnswer(c: Config, s: State, t: real, f: Frame)
    requires c.Valid()
  {
    var p, size := s.rx.frame, s.job.request.size + c.hdrLen;
    && f.da == p.sa && f.sa == c.me
    && (Grants(c, s, t) ==>
          && f.kind == Cts && f.txTime == Air(c.ctsLen, c.basicRate)
          && f.duration == (p.duration - Usec(c.sifs + Air(c.rtsLen, c.basicRate))) % Wrap16)
    && (GetsCts(c, s, t) ==>
          && IsData(s.job, f) && f.txTime == Air(size, c.dataRate)
          && f.duration == Usec(2.0 * c.sifs + Air(c.ackLen, c.basicRate) + Air(size, c.dataRate)))
    && (TakesData(c, s, t) ==> f.kind == Ack && f.duration == 0 && f.txTime == Air(c.ackLen, c.basicRate))
  }

  ghost predicate Answers(c: Config, s: State, t: real) {
    Grants(c, s, t) || GetsCts(c, s, t) || (TakesData(c, s, t) && s.rx.frame.da == c.me)
  }

  /** What the end of a reception does besides: a frame that asks for it is
      answered, granting a request opens a session until the NAV runs out, and
      the number of data taken is remembered. */
  ghost predicate Heard(c: Config, s: State, t: real, s': State)
    requires c.Valid()
  {
    var p, x, x' := s.rx.frame, s.timers, s'.timers;
    && (if Answers(c, s, t) then x'.phy == At(t + c.sifs) && IsAnswer(c, s, t, x'.phyData)
        else x'.phy == x.phy && x'.phyData == x.phyData)
    && s'.air.cache == (if TakesData(c, s, t) then s.air.cache[p.sa := p.seqNo] else s.air.cache)
    && s'.air.nav == (if Sound(s, t) then Later(s.air.nav, Seconds(p.duration) + t) else s.air.nav)
    && s'.air.txFailed == !Sound(s, t)
    && (if Grants(c, s, t) then x'.nav == At(s'.air.nav) && s'.air.inSession && s'.air.peer == p.sa
        else x'.nav == x.nav && s'.air.inSession == s.air.inSession && s'.air.peer == s.air.peer)
    && x'.netAck == x.netAck && x'.netAckData == x.netAckData
    && x'.cts == (if GetsCts(c, s, t) then Off else x.cts)
    && x'.ack == (if GetsCts(c, s, t) then At(t + Seconds(x'.phyData.duration) + c.Difs())
                  else if GetsAck(c, s, t) then Off else x.ack)
    && s'.job == (if GetsCts(c, s, t) then s.job.(mode := AwaitAck)
                  else if GetsAck(c, s, t) then s.job.(mode := Idle, cw := CWMin) else s.job)
  }

  lemma RecvSays(c: Config, s: State, t: real)
    requires c.Valid() && Inv(c, s) && Enabled(s, t, RecvFires)
    ensures Heard(c, s, t, Step(c, s, t, RecvFires))
  {
    TimePasses(c, s, t);
    PhyFree(c, s.(clock := t));
    RecvIs(c, s, t);
    hide Inv, NonePast, Received, ResumeDefer, Heard, OnRecv, GoodState, BadState;
    if Sound(s, t) {
      GoodIs(s, t);
      ReceivedSays(c, s, t, GoodState(s, t));
    } else {
      GoodIs(s, t);
      UnsoundSays(c, s, t, BadState(s).(clock := t));
    }
  }

  /** The states in which a sound frame and another are dealt with. */
  ghost function GoodState(s: State, t: real): State {
    s.(clock := t, timers := s.timers.(recv := Off),
       air := s.air.(nav := Later(s.air.nav, Seconds(s.rx.frame.duration) + t), txFailed := false))
  }

  ghost function BadState(s: State): State {
    s.(timers := s.timers.(recv := Off), air := s.air.(txFailed := true))
  }

  lemma GoodIs(s: State, t: real)
    ensures Sound(s, t) && s.air.lastSend < t ==> Good(s, t, GoodState(s, t))
    ensures BadState(s).job == s.job && BadState(s).timers == s.timers.(recv := Off)
    ensures BadState(s).air == s.air.(txFailed := true)
  {
  }

  lemma RecvIs(c: Config, s: State, t: real)
    requires c.Valid()
    ensures OnRecv(c, s.(clock := t)) ==
      if Sound(s, t) then Received(c, GoodState(s, t), s.rx.frame) else ResumeDefer(c, BadState(s).(clock := t))
  {
    hide Received, ResumeDefer;
  }

  lemma UnsoundSays(c: Config, s: State, t: real, bad: State)
    requires c.Valid() && !Sound(s, t) && bad.job == s.job && bad.timers == s.timers.(recv := Off)
    requires bad.air == s.air.(txFailed := true)
    ensures Heard(c, s, t, ResumeDefer(c, bad))
  {
    hide Air, Usec, Seconds, ResumeDefer;
    ResumeDeferJob(c, bad);
  }

  /** When a sound frame ends, no transmission is arranged. */
  lemma PhyFree(c: Config, s: State)
    requires c.Valid() && Inv(c, s) && s.timers.recv == At(s.clock)
    ensures Sound(s, s.clock) ==> s.timers.phy == Off && s.timers.netAck == Off && s.air.lastSend < s.clock
  {
  }

  /** The state in which a sound frame is dealt with. */
  ghost predicate Good(s: State, t: real, good: State) {
    && Sound(s, t) && s.air.lastSend < t && good.clock == t && good.job == s.job
    && good.rx == s.rx && good.timers == s.timers.(recv := Off)
    && good.air == s.air.(nav := Later(s.air.nav, Seconds(s.rx.frame.duration) + t), txFailed := false)
  }

  lemma ReceivedSays(c: Config, s: State, t: real, good: State)
    requires c.Valid() && Good(s, t, good)
    ensures Heard(c, s, t, Received(c, good, s.rx.frame))
  {
    hide Air, Usec, Seconds, ResumeDefer, RecvRts, RecvCts, RecvAck, RecvData, Good, Heard;
    var p := s.rx.frame;
    if ForMe(c, p) || (c.promiscuous && p.kind.Data?) {
      match p.kind
      case Rts => RtsSays(c, s, t, good);
      case Cts => CtsSays(c, s, t, good);
      case Ack => AckSays(c, s, t, good);
      case Data => DataSays(c, s, t, good);
    } else {
      OthersSay(c, s, t, good);
    }
  }

  lemma OthersSay(c: Config, s: State, t: real, good: State)
    requires c.Valid() && Good(s, t, good) && !ForMe(c, s.rx.frame) && (!c.promiscuous || !s.rx.frame.kind.Data?)
    ensures Heard(c, s, t, ResumeDefer(c, good))
  {
    hide Air, Usec, Seconds, ResumeDefer;
    ResumeDeferJob(c, good);
  }

  lemma RtsSays(c: Config, s: State, t: real, good: State)
    requires c.Valid() && Good(s, t, good) && ForMe(c, s.rx.frame) && s.rx.frame.kind.Rts?
    ensures Heard(c, s, t, ResumeDefer(c, RecvRts(c, good, s.rx.frame)))
  {
    hide Air, Usec, Seconds, ResumeDefer;
    ResumeDeferJob(c, RecvRts(c, good, s.rx.frame));
  }

  lemma CtsSays(c: Config, s: State, t: real, good: State)
    requires c.Valid() && Good(s, t, good) && ForMe(c, s.rx.frame) && s.rx.frame.kind.Cts?
    ensures Heard(c, s, t, ResumeDefer(c, RecvCts(c, good, s.rx.frame)))
  {
    hide Air, Usec, Seconds, ResumeDefer;
    ResumeDeferJob(c, RecvCts(c, good, s.rx.frame));
  }

  lemma AckSays(c: Config, s: State, t: real, good: State)
    requires c.Valid() && Good(s, t, good) && ForMe(c, s.rx.frame) && s.rx.frame.kind.Ack?
    ensures Heard(c, s, t, RecvAck(ResumeDefer(c, good)))
  {
    hide Air, Usec, Seconds, ResumeDefer;
    ResumeDeferJob(c, good);
  }

  lemma DataSays(c: Config, s: State, t: real, good: State)
    requires c.Valid() && Good(s, t, good) && (ForMe(c, s.rx.frame) || c.promiscuous) && s.rx.frame.kind.Data?
    ensures Heard(c, s, t, RecvData(c, good, s.rx.frame))
  {
    hide Air, Usec, Seconds, ResumeDefer;
    var p := s.rx.frame;
    var ack := Control(c, Ack, p.sa, 0, Air(c.ackLen, c.basicRate));
    ResumeDeferJob(c, good);
    ResumeDeferJob(c, if p.da == c.me then TxLater(good, ack, c.sifs) else good);
    assert p.sa in s.air.cache && s.air.cache[p.sa] == p.seqNo ==> s.air.cache[p.sa := p.seqNo] == s.air.cache;
  }

  /** A request is taken on: under the next number, and as a long one exactly if
      it has the size for it and one destination. */
  ghost predicate TakenOn(c: Config, j: Job, j': Job, r: Request) {
    var long := c.rtsThreshold <= r.size && r.dst != Broadcast;
    j' == j.(mode := Defer, request := r, seqNo := (j.seqNo + 1) % Wrap16, longPld := long,
             slrc := if long then 0 else j.slrc, ssrc := if long then j.ssrc else 0)
  }

  /** Another try, with a wider window, or none. */
  ghost predicate TriedAgain(c: Config, s: State, e: Event, j': Job)
    requires e.CtsFires? || e.AckFires?
  {
    var j := if e.AckFires? && s.job.longPld then s.job.(slrc := s.job.slrc + 1)
             else s.job.(ssrc := (s.job.ssrc + 1) % Wrap32);
    if GivesUp(c, s, e) then j' == j.(mode := Idle, cw := 31)
    else j' == j.(mode := Defer, cw := if s.job.cw < 1023 then 2 * s.job.cw + 1 else s.job.cw)
  }

  /** The exchange goes on as the frame that was sent asks for. */
  ghost predicate Opened(c: Config, s: State, t: real, s': State)
    requires c.Valid() && |s'.acts| == |s.acts| + 1 && s'.acts[|s.acts|].OnAir?
  {
    var f, x, x' := s'.acts[|s.acts|].frame, s.timers, s'.timers;
    var unicast := !s.job.longPld && s.job.request.dst != Broadcast;
    && s'.job == s.job.(mode := if s.job.longPld then AwaitCts else if unicast then AwaitAck else Idle)
    && x'.cts == (if s.job.longPld then At(t + Seconds(f.duration) + c.sifs) else x.cts)
    && x'.ack == (if unicast then At(t + Seconds(f.duration) + c.Difs()) else x.ack)
    && (if !s.job.longPld && !unicast then x'.netAck == At(t + f.txTime) && x'.netAckData
        else x'.netAck == x.netAck && x'.netAckData == x.netAckData)
    && s'.air == s.air.(lastSend := t + f.txTime)
  }

  /** What the other events do to the request in hand, to the timers and to what
      is known of the medium. */
  ghost predicate Others(c: Config, s: State, t: real, e: Event, s': State)
    requires c.Valid() && !e.RecvFires?
  {
    var x, x' := s.timers, s'.timers;
    && (e.FromNetwork? ==> if s.job.mode == Idle then TakenOn(c, s.job, s'.job, e.request) else s'.job == s.job)
    && (e.CtsFires? || e.AckFires? ==> TriedAgain(c, s, e, s'.job))
    && (e.DeferFires? ==> |s'.acts| == |s.acts| + 1 && s'.acts[|s.acts|].OnAir? && Opened(c, s, t, s'))
    && (e.FromPhy? || e.NavFires? || e.NetAckFires? || e.PhyFires? ==> s'.job == s.job)
    && (!e.DeferFires? ==>
          && x'.cts == (if e.CtsFires? then Off else x.cts) && x'.ack == (if e.AckFires? then Off else x.ack)
          && x'.netAck == (if e.NetAckFires? then Off else x.netAck) && x'.netAckData == x.netAckData
          && s'.air == if e.NavFires? then s.air.(inSession := false) else s.air)
    && x'.nav == (if e.NavFires? then Off else x.nav)
    && x'.phy == (if e.PhyFires? then Off else x.phy) && x'.phyData == x.phyData
  }

  lemma OthersSays(c: Config, s: State, t: real, e: Event)
    requires c.Valid() && Inv(c, s) && Enabled(s, t, e) && !e.RecvFires?
    ensures Others(c, s, t, e, Step(c, s, t, e))
  {
    hide Air, Usec, Seconds, Inv, NonePast, OnNetwork, OnDefer, OnCts, OnAck, Others;
    TimePasses(c, s, t);
    match e
    case FromNetwork(r, draw) => NetworkSays(c, s, t, r, draw);
    case DeferFires => OpenSays(c, s, t);
    case CtsFires(draw) => CtsTimeoutSays(c, s, t, draw);
    case AckFires(draw) => AckTimeoutSays(c, s, t, draw);
    case _ => RestSays(c, s, t, e);
  }

  lemma RestSays(c: Config, s: State, t: real, e: Event)
    requires c.Valid() && (e.FromPhy? || e.NavFires? || e.NetAckFires? || e.PhyFires?)
    ensures Others(c, s, t, e, Step(c, s, t, e))
  {
  }

  lemma NetworkSays(c: Config, s: State, t: real, r: Request, draw: real)
    requires c.Valid()
    ensures Others(c, s, t, FromNetwork(r, draw), OnNetwork(c, s.(clock := t), r, draw))
  {
    hide StartDefer;
    var s1 := s.(clock := t);
    StartDeferJob(c, Log(s1.(job := NewJob(c, s1.job, r)), Accept(r)), false, draw);
  }

  lemma OpenSays(c: Config, s: State, t: real)
    requires c.Valid() && Inv(c, s.(clock := t)) && s.timers.defer == At(t)
    ensures Others(c, s, t, DeferFires, OnDefer(c, s.(clock := t)))
  {
    DeferKeeps(c, s.(clock := t));
    hide Inv, Air, Usec, Seconds, IsOpening, IsData;
    if s.job.longPld {
      assert Opened(c, s, t, OnDefer(c, s.(clock := t)));
    }
  }

  lemma CtsTimeoutSays(c: Config, s: State, t: real, draw: real)
    requires c.Valid()
    ensures Others(c, s, t, CtsFires(draw), OnCts(c, s.(clock := t), draw))
  {
    hide Retry;
    var s1, j := s.(clock := t), s.job.(ssrc := (s.job.ssrc + 1) % Wrap32);
    RetryJob(c, Log(s1.(timers := s.timers.(cts := Off), job := j), Timeout), draw);
  }

  lemma AckTimeoutSays(c: Config, s: State, t: real, draw: real)
    requires c.Valid() && Inv(c, s.(clock := t)) && s.timers.ack.At?
    ensures Others(c, s, t, AckFires(draw), OnAck(c, s.(clock := t), draw))
  {
    Counters(c, s.(clock := t));
    hide Inv, OnAck, Others, TriedAgain;
    if s.job.longPld {
      LongSays(c, s, t, draw);
    } else {
      ShortSays(c, s, t, draw);
    }
  }

  lemma LongSays(c: Config, s: State, t: real, draw: real)
    requires c.Valid() && s.job.longPld && (s.job.slrc + 1) % Wrap32 == s.job.slrc + 1
    ensures Others(c, s, t, AckFires(draw), OnAck(c, s.(clock := t), draw))
  {
    hide Retry;
    var s1 := s.(clock := t, timers := s.timers.(ack := Off), job := s.job.(slrc := s.job.slrc + 1));
    RetryJob(c, Log(s1, Timeout), draw);
  }

  lemma ShortSays(c: Config, s: State, t: real, draw: real)
    requires c.Valid() && !s.job.longPld && (s.job.ssrc + 1) % Wrap32 == s.job.ssrc + 1
    ensures Others(c, s, t, AckFires(draw), OnAck(c, s.(clock := t), draw))
  {
    hide Retry;
    var s1 := s.(clock := t, timers := s.timers.(ack := Off), job := s.job.(ssrc := s.job.ssrc + 1));
    RetryJob(c, Log(s1, Timeout), draw);
  }

  lemma StartDeferJob(c: Config, s: State, backoff: bool, draw: real)
    requires c.Valid()
    ensures StartDefer(c, s, backoff, draw).job == s.job.(mode := Defer)
    ensures StartDefer(c, s, backoff, draw).timers.(defer := Off) == s.timers.(defer := Off)
    ensures StartDefer(c, s, backoff, draw).air == s.air && StartDefer(c, s, backoff, draw).acts == s.acts
  {
  }

  lemma RetryJob(c: Config, s: State, draw: real)
    requires c.Valid()
    ensures Retry(c, s, true, draw).job == s.job.(mode := Defer, cw := Wider(s.job.cw))
    ensures Retry(c, s, false, draw).job == s.job.(mode := Idle, cw := CWMin)
    ensures forall again :: Retry(c, s, again, draw).timers.(defer := Off) == s.timers.(defer := Off)
    ensures forall again :: Retry(c, s, again, draw).air == s.air
  {
    hide StartDefer;
    StartDeferJob(c, s.(job := s.job.(cw := Wider(s.job.cw))), true, draw);
  }
}
