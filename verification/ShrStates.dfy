/** The routing layer of shr.h on top of the broadcast MAC of bcast_mac.h.  The
    two call each other at once, so one record holds the state of both, and
    each handler is a function on it. */
module ShrStates {

  datatype Config = Config(
    me: int, ifs: real, cpThreshold: real,                         // MAC
    transition: real, slotWidth: real, continuous: bool)           // SHR
  {
    ghost predicate Valid() {
      0.0 <= ifs && 0.0 <= transition && 0.0 <= slotWidth
    }
  }

  const Wrap32: int := 0x1_0000_0000
  const Wrap16: int := 0x1_0000

  datatype Packet = Packet(src: int, number: int, isAck: bool, delay: real, newSeq: bool, canceled: bool)

  datatype Frame = Frame(sa: int, seqNo: nat, payload: Packet, txTime: real)

  datatype Timer = Off | At(time: real)

  datatype Mode = Idle | Defer | Send

  /** The MAC's packet in hand and its timers. */
  datatype Mac = Mac(mode: Mode, payload: Packet, delay: real, deferStart: real, txEnd: real,
                     defer: Timer, send: Timer, ack: Timer, ackFlag: bool)

  /** The MAC's receiving side. */
  datatype Reception = Reception(recv: Timer, frame: Frame, error: bool, power: real, srCollision: bool,
                                 cache: map<int, nat>, seqNo: nat)

  datatype Delayed = Delayed(packet: Packet, deadline: real)

  datatype Shr = Shr(busy: bool, active: Packet, transit: Timer, transitPacket: Packet,
                     queue: seq<Packet>, delayed: seq<Delayed>, seqNumber: int)

  /** How many packets were handed to SendPacket by SHR's own logic, how many
      are done with, and how many were cancelled before they became active. */
  datatype Tally = Tally(submitted: nat, done: nat, dropped: nat)

  datatype State = State(clock: real, mac: Mac, rx: Reception, shr: Shr, tally: Tally)

  /** What SHR does when it hears a packet, hears from the layer above, or
      gives up waiting for an acknowledgement: any calls of these. */
  datatype Action = Submit(packet: Packet) | Cancel(src: int, number: int)

  /** What happens; txTime is how long the frame that goes on the air takes. */
  datatype Event =
    | Acts(actions: seq<Action>)
    | DelayFires(k: nat) | TransitFires
    | FromPhy(frame: Frame, error: bool, power: real)
    | DeferFires(txTime: real) | RecvFires(actions: seq<Action>) | SendFires | AckFires

  // The MAC.

  predicate Refuses(s: State) {
    s.mac.mode != Idle || s.mac.txEnd > s.clock
  }

  ghost function FromNetwork(s: State, p: Packet, backoff: real): State {
    if Refuses(s) then s.(mac := s.mac.(ack := At(s.clock), ackFlag := false))
    else
      StartDefer(s.(mac := s.mac.(payload := p, delay := backoff), rx := s.rx.(seqNo := (s.rx.seqNo + 1) % Wrap16)))
  }

  ghost function StartDefer(s: State): State {
    if s.rx.recv.At? then s.(mac := s.mac.(mode := Defer))
    else s.(mac := s.mac.(mode := Defer, deferStart := s.clock, defer := At(s.clock + s.mac.delay)))
  }

  ghost function ResumeDefer(c: Config, s: State): State {
    if s.mac.mode != Defer then s
    else s.(mac := s.mac.(deferStart := s.clock, defer := At(s.clock + s.mac.delay + c.ifs)))
  }

  ghost function OnDefer(s: State, txTime: real): State {
    s.(mac := s.mac.(defer := Off, txEnd := s.clock + txTime, send := At(s.clock + txTime), mode := Send),
       rx := s.rx.(srCollision := false))
  }

  ghost function MacCancel(s: State): State {
    if s.mac.mode != Defer then s
    else s.(mac := s.mac.(defer := Off, mode := Idle, ack := At(s.clock), ackFlag := true))
  }

  predicate Captures(power: real, other: real, threshold: real) {
    power > other * threshold
  }

  ghost function OnPhy(c: Config, s: State, f: Frame, error: bool, power: real): State {
    var end := s.clock + f.txTime;
    var r := s.rx.(srCollision := true);
    var taken := r.(recv := At(end), frame := f, error := error, power := power);
    if s.rx.recv.At? then
      if Captures(power, s.rx.power, c.cpThreshold) then s.(rx := taken)
      else if Captures(s.rx.power, power, c.cpThreshold) then s.(rx := r)
      else if end > s.rx.recv.time then s.(rx := taken.(error := true))
      else s.(rx := r.(error := true))
    else if s.mac.mode == Defer then
      s.(rx := taken, mac := s.mac.(defer := Off, delay := s.mac.delay - (s.clock - s.mac.deferStart)))
    else s.(rx := taken)
  }

  /** The end of a reception; actions are what SHR does if it gets the packet. */
  ghost function OnRecv(c: Config, s0: State, actions: seq<Action>): State {
    var s := s0.(rx := s0.rx.(recv := Off));
    var p := s.rx.frame;
    if s.rx.error || s.clock - p.txTime < s.mac.txEnd then ResumeDefer(c, s)
    else
      var s1 := ResumeDefer(c, s);
      if p.sa in s1.rx.cache && s1.rx.cache[p.sa] == p.seqNo then s1
      else OnActs(c, s1.(rx := s1.rx.(cache := s1.rx.cache[p.sa := p.seqNo])), actions)
  }

  ghost function OnSend(c: Config, s: State): State {
    FromMacAck(c, s.(mac := s.mac.(send := Off, mode := Idle)), !s.rx.srCollision)
  }

  ghost function OnAck(c: Config, s: State): State {
    FromMacAck(c, s.(mac := s.mac.(ack := Off, mode := Idle)), s.mac.ackFlag)
  }

  // SHR.

  ghost function SendToMac(c: Config, s: State, p: Packet): State {
    var s1 := s.(shr := s.shr.(busy := true));
    if c.transition != 0.0 then
      s1.(shr := s1.shr.(transit := At(s.clock + c.transition), transitPacket := p))
    else FromNetwork(s1, p, 0.0)
  }

  ghost function OnTransit(s: State): State {
    FromNetwork(s.(shr := s.shr.(transit := Off)), s.shr.transitPacket, 0.0)
  }

  /** Behind every packet whose delay is not greater. */
  function Enqueued(queue: seq<Packet>, p: Packet): seq<Packet> {
    if queue == [] then [p]
    else if queue[0].delay <= p.delay then [queue[0]] + Enqueued(queue[1..], p)
    else [p] + queue
  }

  /** The packet as it leaves SHR, with a sequence number of its own if it is
      new and this node's. */
  function Numbered(c: Config, seqNumber: int, p: Packet): Packet {
    if p.newSeq && p.src == c.me then p.(canceled := false, newSeq := false, number := (seqNumber + 1) % Wrap32)
    else p.(canceled := false, newSeq := false)
  }

  ghost function AssignSeqNumber(c: Config, s: State, p: Packet): State {
    var p1 := Numbered(c, s.shr.seqNumber, p);
    var last := if p.newSeq && p.src == c.me then (s.shr.seqNumber + 1) % Wrap32 else s.shr.seqNumber;
    if s.shr.busy then s.(shr := s.shr.(seqNumber := last, queue := Enqueued(s.shr.queue, p1)))
    else SendToMac(c, s.(shr := s.shr.(seqNumber := last, active := p1)), p1)
  }

  ghost function SendPacket(c: Config, s: State, p: Packet): State {
    if p.delay == 0.0 then AssignSeqNumber(c, s, p)
    else s.(shr := s.shr.(delayed := s.shr.delayed + [Delayed(p, s.clock + p.delay)]))
  }

  ghost function OnDelay(c: Config, s: State, k: nat): State
    requires k < |s.shr.delayed|
  {
    var d := s.shr.delayed;
    AssignSeqNumber(c, s.(shr := s.shr.(delayed := d[..k] + d[k + 1..])), d[k].packet)
  }

  predicate Is(p: Packet, src: int, number: int) {
    p.src == src && p.number == number
  }

  /** The position of the first packet with this source and number, or the length. */
  function Find(ps: seq<Packet>, src: int, number: int): (i: nat)
    ensures i <= |ps| && (i < |ps| ==> Is(ps[i], src, number)) && forall j :: 0 <= j < i ==> !Is(ps[j], src, number)
  {
    if ps == [] || Is(ps[0], src, number) then 0 else 1 + Find(ps[1..], src, number)
  }

  function FindDelayed(ds: seq<Delayed>, src: int, number: int): (i: nat)
    ensures i <= |ds| && (i < |ds| ==> Is(ds[i].packet, src, number))
    ensures forall j :: 0 <= j < i ==> !Is(ds[j].packet, src, number)
  {
    if ds == [] || Is(ds[0].packet, src, number) then 0 else 1 + FindDelayed(ds[1..], src, number)
  }

  ghost function CancelPacket(s: State, src: int, number: int): State {
    if s.shr.busy && Is(s.shr.active, src, number) && !s.shr.active.isAck then
      MacCancel(s.(shr := s.shr.(active := s.shr.active.(canceled := true))))
    else
      var ds, q := s.shr.delayed, s.shr.queue;
      var i, j := FindDelayed(ds, src, number), Find(q, src, number);
      if i < |ds| then
        s.(shr := s.shr.(delayed := ds[..i] + ds[i + 1..]), tally := s.tally.(dropped := s.tally.dropped + 1))
      else if j < |q| && !q[j].isAck then
        s.(shr := s.shr.(queue := q[..j] + q[j + 1..]), tally := s.tally.(dropped := s.tally.dropped + 1))
      else s
  }

  /** The MAC has finished with the active packet. */
  ghost function FromMacAck(c: Config, s: State, flag: bool): State {
    if !flag && !s.shr.active.isAck then
      if !c.continuous && c.me != s.shr.active.src then
        var again := s.shr.active.(delay := c.slotWidth);
        NextPacket(c, SendPacket(c, s.(shr := s.shr.(active := again)), again))
      else
        var again := s.shr.active.(delay := 0.0);
        SendToMac(c, s.(shr := s.shr.(active := again)), again)
    else NextPacket(c, s.(tally := s.tally.(done := s.tally.done + 1)))
  }

  ghost function NextPacket(c: Config, s: State): State {
    var q := s.shr.queue;
    if q == [] then s.(shr := s.shr.(busy := false))
    else SendToMac(c, s.(shr := s.shr.(queue := q[1..], active := q[0])), q[0])
  }

  ghost function OnAction(c: Config, s: State, a: Action): State {
    match a
    case Submit(p) => SendPacket(c, s.(tally := s.tally.(submitted := s.tally.submitted + 1)), p)
    case Cancel(src, number) => CancelPacket(s, src, number)
  }

  ghost function OnActs(c: Config, s: State, actions: seq<Action>): State {
    if actions == [] then s
    else OnAction(c, OnActs(c, s, actions[..|actions| - 1]), actions[|actions| - 1])
  }

  ghost function Step(c: Config, s0: State, t: real, e: Event): State
    requires e.DelayFires? ==> e.k < |s0.shr.delayed|
  {
    var s := s0.(clock := t);
    match e
    case Acts(actions) => OnActs(c, s, actions)
    case DelayFires(k) => OnDelay(c, s, k)
    case TransitFires => OnTransit(s)
    case FromPhy(f, error, power) => OnPhy(c, s, f, error, power)
    case DeferFires(txTime) => OnDefer(s, txTime)
    case RecvFires(actions) => OnRecv(c, s, actions)
    case SendFires => OnSend(c, s)
    case AckFires => OnAck(c, s)
  }

  ghost predicate NotPast(t: real, timer: Timer) {
    timer.At? ==> t <= timer.time
  }

  /** Time t is not beyond any timer that is set. */
  ghost predicate NonePast(t: real, s: State) {
    && NotPast(t, s.mac.defer) && NotPast(t, s.mac.send) && NotPast(t, s.mac.ack)
    && NotPast(t, s.rx.recv) && NotPast(t, s.shr.transit)
    && forall k :: 0 <= k < |s.shr.delayed| ==> t <= s.shr.delayed[k].deadline
  }

  ghost predicate GoodActions(actions: seq<Action>) {
    forall k :: 0 <= k < |actions| && actions[k].Submit? ==> 0.0 <= actions[k].packet.delay
  }

  ghost predicate Enabled(s: State, t: real, e: Event) {
    && s.clock <= t && NonePast(t, s)
    && match e
       case Acts(actions) => GoodActions(actions)
       case DelayFires(k) => k < |s.shr.delayed| && s.shr.delayed[k].deadline == t
       case TransitFires => s.shr.transit == At(t)
       case FromPhy(f, _, _) => 0.0 < f.txTime
       case DeferFires(txTime) => s.mac.defer == At(t) && 0.0 < txTime
       case RecvFires(actions) => s.rx.recv == At(t) && GoodActions(actions)
       case SendFires => s.mac.send == At(t)
       case AckFires => s.mac.ack == At(t)
  }

  ghost predicate IsStart(s: State) {
    && s.clock == 0.0 && s.mac.mode == Idle && s.mac.txEnd == 0.0
    && s.mac.defer == Off && s.mac.send == Off && s.mac.ack == Off && s.rx.recv == Off
    && !s.shr.busy && s.shr.transit == Off && s.shr.queue == [] && s.shr.delayed == []
    && s.tally == Tally(0, 0, 0)
  }
}
