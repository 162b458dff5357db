/** The 802.11 medium access control of mac_80211.h as a timed state machine:
    one pure function per handler, on a record of the MAC's fields and timers. */
module MacStates {

  type Address = int
  const Broadcast: Address := -1

  const CWMin: int := 31
  const CWMax: int := 1023

  datatype Config = Config(
    me: Address, promiscuous: bool,
    sifs: real, slot: real, basicRate: real, dataRate: real,
    hdrLen: nat, rtsLen: nat, ctsLen: nat, ackLen: nat,
    rtsThreshold: nat, shortLimit: nat, longLimit: nat, cpThreshold: real)
  {
    ghost predicate Valid() {
      && 0.0 < sifs && 0.0 < slot && 0.0 < basicRate && 0.0 < dataRate
      && 0 < hdrLen && 0 < rtsLen && 0 < ctsLen && 0 < ackLen
      && shortLimit < Wrap32 && longLimit < Wrap32
    }

    function Difs(): real {
      sifs + slot
    }

    function Eifs(): real
      requires 0.0 < dataRate
    {
      sifs + Air(ackLen, dataRate) + Difs()
    }
  }

  const Wrap32: int := 0x1_0000_0000
  const Wrap16: int := 0x1_0000

  /** The time that a number of bytes takes. */
  function Air(bytes: nat, rate: real): (t: real)
    requires 0.0 < rate
    ensures 0.0 <= t && (0 < bytes ==> 0.0 < t)
  {
    bytes as real / rate
  }

  /** Seconds to microseconds, in a sixteen-bit field. */
  function Usec(t: real): (d: nat)
    ensures d < Wrap16
  {
    (t * 1000000.0 + 0.5).Floor % Wrap16
  }

  function Seconds(d: nat): (t: real)
    ensures 0.0 <= t
  {
    d as real * 0.000001
  }

  function Later(a: real, b: real): real {
    if b > a then b else a
  }

  datatype Kind = Rts | Cts | Data | Ack

  datatype Frame = Frame(kind: Kind, da: Address, sa: Address, duration: nat, seqNo: nat, payload: nat, txTime: real)

  /** What the network layer hands down. */
  datatype Request = Request(payload: nat, dst: Address, size: nat)

  datatype Mode = Idle | Defer | AwaitCts | AwaitAck

  datatype Timer = Off | At(time: real)

  /** What a MAC does that others can see, in order.  Accept is not a message:
      it marks that a request was taken on rather than refused. */
  datatype Act =
    | Accept(request: Request)
    | Timeout
    | OnAir(start: real, frame: Frame)
    | NetworkAck(success: bool)
    | NetworkData(data: nat, to: Address)

  /** The request in hand: m_state, m_pldinfo, m_long_pld, m_seq_no, m_cw and the retry counters. */
  datatype Job = Job(mode: Mode, request: Request, longPld: bool, seqNo: nat, cw: int, ssrc: nat, slrc: nat)

  datatype Deferral = Deferral(backoff: real, ifs: real, start: real)

  /** What the MAC knows of the medium and its neighbours. */
  datatype Medium = Medium(nav: real, lastSend: real, txFailed: bool, inSession: bool, peer: Address,
                           cache: map<Address, nat>)

  datatype Reception = Reception(frame: Frame, error: bool, power: real)

  /** The seven timers; the last two carry data. */
  datatype Timers = Timers(defer: Timer, recv: Timer, cts: Timer, ack: Timer, nav: Timer,
                           netAck: Timer, netAckData: bool, phy: Timer, phyData: Frame)

  datatype State = State(clock: real, job: Job, wait: Deferral, air: Medium, rx: Reception, timers: Timers, acts: seq<Act>)

  /** Everything that can happen to a MAC.  A draw is what the random number
      generator gives for the backoff, at least zero and below one. */
  datatype Event =
    | FromNetwork(request: Request, draw: real)
    | FromPhy(frame: Frame, error: bool, power: real)
    | DeferFires | RecvFires | CtsFires(draw: real) | AckFires(draw: real)
    | NavFires | NetAckFires | PhyFires

  ghost function Log(s: State, a: Act): State {
    s.(acts := s.acts + [a])
  }

  /** A random time of up to cw slots. */
  function Drawn(cw: int, slot: real, draw: real): real {
    cw as real * slot * draw
  }

  /** One signal drowns another. */
  predicate Captures(power: real, other: real, threshold: real) {
    power > other * threshold
  }

  /** Deferral starts when the medium is known to be free. */
  ghost function Free(s: State): real {
    Later(Later(s.clock, s.air.lastSend), s.air.nav)
  }

  ghost function Ifs(c: Config, s: State): real
    requires c.Valid()
  {
    if s.air.txFailed then c.Eifs() else c.Difs()
  }

  ghost function StartDefer(c: Config, s: State, backoff: bool, draw: real): State
    requires c.Valid()
  {
    var drawn := Drawn(s.job.cw, c.slot, draw);
    if s.timers.recv.At? then s.(wait := s.wait.(backoff := drawn), job := s.job.(mode := Defer))
    else
      var pt := if backoff then Ifs(c, s) + drawn else Ifs(c, s);
      s.(wait := Deferral(drawn, Ifs(c, s), Free(s)), timers := s.timers.(defer := At(Free(s) + pt)),
         job := s.job.(mode := Defer))
  }

  ghost function ResumeDefer(c: Config, s: State): State
    requires c.Valid()
  {
    if s.job.mode != Defer then s
    else
      s.(wait := Deferral(s.wait.backoff, Ifs(c, s), Free(s)),
         timers := s.timers.(defer := At(Free(s) + Ifs(c, s) + s.wait.backoff)))
  }

  /** Transmission at once; nothing is sent while an earlier one lasts. */
  ghost function TxNow(s: State, f: Frame): State {
    if s.clock < s.air.lastSend then s
    else Log(s.(air := s.air.(lastSend := s.clock + f.txTime)), OnAir(s.clock, f))
  }

  /** Transmission after a delay; nothing is sent if an earlier one would still last. */
  ghost function TxLater(s: State, f: Frame, delay: real): State {
    var start := s.clock + delay;
    if start < s.air.lastSend then s
    else s.(air := s.air.(lastSend := start + f.txTime), timers := s.timers.(phy := At(start), phyData := f))
  }

  ghost function OnNetwork(c: Config, s: State, r: Request, draw: real): State
    requires c.Valid()
  {
    if s.job.mode != Idle then Log(s, NetworkAck(false))
    else StartDefer(c, Log(s.(job := NewJob(c, s.job, r)), Accept(r)), false, draw)
  }

  ghost function NewJob(c: Config, j: Job, r: Request): Job {
    var long := !(r.size < c.rtsThreshold || r.dst == Broadcast);
    j.(longPld := long, slrc := if long then 0 else j.slrc, ssrc := if long then j.ssrc else 0,
       request := r, seqNo := (j.seqNo + 1) % Wrap16)
  }

  ghost function DataFrame(c: Config, j: Job, da: Address, duration: nat, txTime: real): Frame {
    Frame(Data, da, c.me, duration, j.seqNo, j.request.payload, txTime)
  }

  /** A frame that carries no payload and no sequence number. */
  ghost function Control(c: Config, kind: Kind, da: Address, duration: nat, txTime: real): Frame {
    Frame(kind, da, c.me, duration, 0, 0, txTime)
  }

  ghost function OnDefer(c: Config, s: State): State
    requires c.Valid()
  {
    var t := s.timers.(defer := Off);
    var size := s.job.request.size + c.hdrLen;
    if s.job.longPld then
      var duration := Usec(3.0 * c.sifs + Air(c.ctsLen, c.basicRate) + Air(size, c.dataRate) + Air(c.ackLen, c.basicRate));
      TxNow(s.(timers := t.(cts := At(Seconds(duration) + c.sifs + s.clock)), job := s.job.(mode := AwaitCts)),
            Control(c, Rts, s.job.request.dst, duration, Air(c.rtsLen, c.basicRate)))
    else if s.job.request.dst != Broadcast then
      var duration := Usec(c.sifs + Air(c.ackLen, c.basicRate) + Air(size, c.dataRate));
      TxNow(s.(timers := t.(ack := At(Seconds(duration) + c.Difs() + s.clock)), job := s.job.(mode := AwaitAck)),
            DataFrame(c, s.job, s.job.request.dst, duration, Air(size, c.dataRate)))
    else
      var txTime := Air(size, c.basicRate);
      TxNow(s.(timers := t.(netAck := At(s.clock + txTime), netAckData := true), job := s.job.(mode := Idle)),
            DataFrame(c, s.job, Broadcast, 0, txTime))
  }

  ghost function OnPhy(c: Config, s: State, f: Frame, error: bool, power: real): State {
    var end := s.clock + f.txTime;
    var t := s.timers.(recv := At(end));
    if s.timers.recv.At? then
      if Captures(power, s.rx.power, c.cpThreshold) then s.(rx := Reception(f, error, power), timers := t)
      else if Captures(s.rx.power, power, c.cpThreshold) then s
      else if end > s.timers.recv.time then s.(rx := Reception(f, true, power), timers := t)
      else s.(rx := s.rx.(error := true))
    else if s.job.mode == Defer then
      s.(rx := Reception(f, error, power), wait := Suspended(s.wait, s.clock), timers := t.(defer := Off))
    else s.(rx := Reception(f, error, power), timers := t)
  }

  /** The backoff that is left when a deferral is suspended. */
  ghost function Suspended(w: Deferral, now: real): Deferral {
    var pt := now - w.start;
    if pt > w.ifs then w.(backoff := w.backoff - (pt - w.ifs)) else w
  }

  ghost function OnRecv(c: Config, s0: State): State
    requires c.Valid()
  {
    var s := s0.(timers := s0.timers.(recv := Off));
    var p := s.rx.frame;
    if s.rx.error || s.clock - p.txTime < s.air.lastSend then
      ResumeDefer(c, s.(air := s.air.(txFailed := true)))
    else
      Received(c, s.(air := s.air.(nav := Later(s.air.nav, Seconds(p.duration) + s.clock), txFailed := false)), p)
  }

  /** A frame received without error. */
  ghost function Received(c: Config, s: State, p: Frame): State
    requires c.Valid()
  {
    if p.da != c.me && p.da != Broadcast && (!c.promiscuous || p.kind != Data) then ResumeDefer(c, s)
    else
      match p.kind
      case Rts => ResumeDefer(c, RecvRts(c, s, p))
      case Cts => ResumeDefer(c, RecvCts(c, s, p))
      case Ack => RecvAck(ResumeDefer(c, s))
      case Data => RecvData(c, s, p)
  }

  ghost function RecvRts(c: Config, s: State, p: Frame): State
    requires c.Valid()
  {
    if s.job.mode.AwaitCts? || s.job.mode.AwaitAck? || s.timers.nav.At? then s
    else
      var cts := Control(c, Cts, p.sa, CtsDuration(c, p.duration), Air(c.ctsLen, c.basicRate));
      var s1 := TxLater(s, cts, c.sifs);
      s1.(air := s1.air.(inSession := true, peer := p.sa), timers := s1.timers.(nav := At(s.air.nav)))
  }

  ghost function CtsDuration(c: Config, duration: nat): nat
    requires c.Valid()
  {
    (duration - Usec(c.sifs + Air(c.rtsLen, c.basicRate))) % Wrap16
  }

  ghost function RecvCts(c: Config, s: State, p: Frame): State
    requires c.Valid()
  {
    if s.job.mode != AwaitCts then s
    else
      var size := s.job.request.size + c.hdrLen;
      var duration := Usec(2.0 * c.sifs + Air(c.ackLen, c.basicRate) + Air(size, c.dataRate));
      var t := s.timers.(ack := At(Seconds(duration) + c.Difs() + s.clock), cts := Off);
      TxLater(s.(job := s.job.(mode := AwaitAck), timers := t),
              DataFrame(c, s.job, p.sa, duration, Air(size, c.dataRate)), c.sifs)
  }

  ghost function RecvData(c: Config, s: State, p: Frame): State
    requires c.Valid()
  {
    if s.job.mode.AwaitCts? || s.job.mode.AwaitAck? then s
    else if p.da == c.me && s.timers.nav.At? && !(s.air.inSession && p.sa == s.air.peer) then ResumeDefer(c, s)
    else
      var ack := Control(c, Ack, p.sa, 0, Air(c.ackLen, c.basicRate));
      Deliver(ResumeDefer(c, if p.da == c.me then TxLater(s, ack, c.sifs) else s), p)
  }

  /** Hands a payload up unless its sender's last one had the same sequence number. */
  ghost function Deliver(s: State, p: Frame): State {
    if p.sa in s.air.cache && s.air.cache[p.sa] == p.seqNo then s
    else Log(s.(air := s.air.(cache := s.air.cache[p.sa := p.seqNo])), NetworkData(p.payload, p.da))
  }

  ghost function RecvAck(s: State): State {
    if s.job.mode != AwaitAck then s
    else
      Log(s.(timers := s.timers.(ack := Off), job := s.job.(mode := Idle, cw := CWMin)), NetworkAck(true))
  }

  ghost function Wider(cw: int): int {
    if cw < CWMax then 2 * cw + 1 else cw
  }

  ghost function OnCts(c: Config, s: State, draw: real): State
    requires c.Valid()
  {
    var j := s.job.(ssrc := (s.job.ssrc + 1) % Wrap32);
    Retry(c, Log(s.(timers := s.timers.(cts := Off), job := j), Timeout), j.ssrc < c.shortLimit, draw)
  }

  ghost function OnAck(c: Config, s: State, draw: real): State
    requires c.Valid()
  {
    var j := if s.job.longPld then s.job.(slrc := (s.job.slrc + 1) % Wrap32)
             else s.job.(ssrc := (s.job.ssrc + 1) % Wrap32);
    var again := if j.longPld then j.slrc < c.longLimit else j.ssrc < c.shortLimit;
    Retry(c, Log(s.(timers := s.timers.(ack := Off), job := j), Timeout), again, draw)
  }

  /** Another try with a wider window, or giving up. */
  ghost function Retry(c: Config, s: State, again: bool, draw: real): State
    requires c.Valid()
  {
    if again then StartDefer(c, s.(job := s.job.(cw := Wider(s.job.cw))), true, draw)
    else Log(s.(job := s.job.(mode := Idle, cw := CWMin)), NetworkAck(false))
  }

  ghost function OnNav(s: State): State {
    s.(timers := s.timers.(nav := Off), air := s.air.(inSession := false))
  }

  ghost function OnNetAck(s: State): State {
    Log(s.(timers := s.timers.(netAck := Off)), NetworkAck(s.timers.netAckData))
  }

  ghost function OnPhyTimer(s: State): State {
    Log(s.(timers := s.timers.(phy := Off)), OnAir(s.clock, s.timers.phyData))
  }

  /** One event at time t. */
  ghost function Step(c: Config, s0: State, t: real, e: Event): State
    requires c.Valid()
  {
    var s := s0.(clock := t);
    match e
    case FromNetwork(r, draw) => OnNetwork(c, s, r, draw)
    case FromPhy(f, error, power) => OnPhy(c, s, f, error, power)
    case DeferFires => OnDefer(c, s)
    case RecvFires => OnRecv(c, s)
    case CtsFires(draw) => OnCts(c, s, draw)
    case AckFires(draw) => OnAck(c, s, draw)
    case NavFires => OnNav(s)
    case NetAckFires => OnNetAck(s)
    case PhyFires => OnPhyTimer(s)
  }

  ghost predicate NotPast(t: real, timer: Timer) {
    timer.At? ==> t <= timer.time
  }

  /** Time t is not beyond any timer that is set. */
  ghost predicate NonePast(t: real, x: Timers) {
    && NotPast(t, x.defer) && NotPast(t, x.recv) && NotPast(t, x.cts) && NotPast(t, x.ack)
    && NotPast(t, x.nav) && NotPast(t, x.netAck) && NotPast(t, x.phy)
  }

  ghost predicate IsDraw(x: real) {
    0.0 <= x < 1.0
  }

  /** The simulation engine delivers events in order of time, and a timer's at
      the time it was set to. */
  ghost predicate Enabled(s: State, t: real, e: Event) {
    && s.clock <= t && NonePast(t, s.timers)
    && match e
       case FromNetwork(_, draw) => IsDraw(draw)
       case FromPhy(f, _, _) => 0.0 < f.txTime
       case DeferFires => s.timers.defer == At(t)
       case RecvFires => s.timers.recv == At(t)
       case CtsFires(draw) => s.timers.cts == At(t) && IsDraw(draw)
       case AckFires(draw) => s.timers.ack == At(t) && IsDraw(draw)
       case NavFires => s.timers.nav == At(t)
       case NetAckFires => s.timers.netAck == At(t)
       case PhyFires => s.timers.phy == At(t)
  }

  /** The state at the start of a simulation; the fields that the source does
      not initialise may hold anything. */
  ghost predicate IsStart(s: State) {
    && s.clock == 0.0 && s.job.mode == Idle && s.job.cw == CWMin && s.job.ssrc == 0 && s.job.slrc == 0
    && s.job.seqNo == 0 && s.air.nav == 0.0 && s.air.lastSend == 0.0 && !s.air.txFailed && s.air.cache == map[]
    && s.timers == Timers(Off, Off, Off, Off, Off, Off, s.timers.netAckData, Off, s.timers.phyData)
    && s.acts == []
  }
}
