/** What every reachable state of SHR over the broadcast MAC satisfies. */
module ShrInvariant {
  import opened ShrStates

  ghost predicate NoTask(s: State) {
    s.shr.transit == Off && s.mac.mode == Idle && s.mac.ack == Off
  }

  /** SHR takes the MAC for busy exactly while one, and only one, of these is
      going on: the transition before the MAC, the MAC deferring or sending,
      the MAC's delayed acknowledgement. */
  ghost predicate OneTask(s: State) {
    && (s.shr.busy <==> !NoTask(s))
    && !(s.shr.transit.At? && s.mac.mode != Idle)
    && !(s.shr.transit.At? && s.mac.ack.At?)
    && !(s.mac.mode != Idle && s.mac.ack.At?)
  }

  /** The MAC's timers go with its mode. */
  ghost predicate MacModes(m: Mac, recv: Timer, now: real) {
    && (m.defer.At? ==> m.mode == Defer)
    && (m.mode == Defer ==> (m.defer.At? <==> recv == Off))
    && (m.mode == Send <==> m.send.At?)
    && (m.send.At? ==> m.send.time == m.txEnd)
    && (m.mode != Send ==> m.txEnd <= now)
    && (m.ack.At? ==> m.ackFlag)
  }

  /** The delay left may be less than nothing, but not by more than the
      interframe space that is added when deferral resumes. */
  ghost predicate MacDelay(c: Config, m: Mac) {
    && (m.mode == Defer ==> 0.0 <= m.delay + c.ifs)
    && (m.defer.At? ==> m.defer.time <= m.deferStart + m.delay + c.ifs)
  }

  ghost predicate Sorted(queue: seq<Packet>) {
    forall i, j :: 0 <= i < j < |queue| ==> queue[i].delay <= queue[j].delay
  }

  /** Every packet submitted is waiting out its delay, queued, in the MAC's
      hands, done with, or dropped. */
  ghost predicate Balanced(s: State) {
    s.tally.submitted ==
      |s.shr.delayed| + |s.shr.queue| + (if s.shr.busy then 1 else 0) + s.tally.done + s.tally.dropped
  }

  ghost predicate Rest(c: Config, s: State) {
    && NonePast(s.clock, s) && MacModes(s.mac, s.rx.recv, s.clock) && MacDelay(c, s.mac)
    && Sorted(s.shr.queue)
  }

  ghost predicate Inv(c: Config, s: State) {
    Rest(c, s) && OneTask(s) && Balanced(s)
  }

  lemma StartKeeps(c: Config, s: State)
    requires IsStart(s)
    ensures Inv(c, s)
  {
  }

  /** Nothing of SHR's changes but its busy flag and its transition. */
  ghost predicate SameQueues(s: State, s': State) {
    s'.shr.queue == s.shr.queue && s'.shr.delayed == s.shr.delayed && s'.tally == s.tally && s'.clock == s.clock
  }

  lemma FromNetworkKeeps(c: Config, s: State, p: Packet)
    requires c.Valid() && Rest(c, s) && NoTask(s) && s.shr.busy
    ensures !Refuses(s)
    ensures var s' := FromNetwork(s, p, 0.0);
      Rest(c, s') && OneTask(s') && s'.shr == s.shr && s'.tally == s.tally && s'.clock == s.clock
  {
    hide Sorted;
  }

  lemma SendToMacKeeps(c: Config, s: State, p: Packet)
    requires c.Valid() && Rest(c, s) && NoTask(s)
    ensures var s' := SendToMac(c, s, p);
      Rest(c, s') && OneTask(s') && s'.shr.busy && SameQueues(s, s')
  {
    hide FromNetwork, Sorted, MacModes, MacDelay;
    if c.transition == 0.0 {
      FromNetworkKeeps(c, s.(shr := s.shr.(busy := true)), p);
    }
  }

  lemma {:induction false} EnqueuedKeeps(queue: seq<Packet>, p: Packet)
    requires Sorted(queue)
    ensures Sorted(Enqueued(queue, p)) && |Enqueued(queue, p)| == |queue| + 1
  {
    if queue != [] && queue[0].delay <= p.delay {
      EnqueuedKeeps(queue[1..], p);
      EnqueuedLeast(queue[1..], p, queue[0].delay);
    }
  }

  /** Where a packet is queued: behind all that are due no later. */
  lemma {:induction false} EnqueuedAt(queue: seq<Packet>, p: Packet, i: int)
    requires 0 <= i <= |queue| && forall j :: 0 <= j < i ==> queue[j].delay <= p.delay
    requires i < |queue| ==> p.delay < queue[i].delay
    ensures Enqueued(queue, p) == queue[..i] + [p] + queue[i..]
  {
    if i > 0 {
      EnqueuedAt(queue[1..], p, i - 1);
      assert queue[1..][..i - 1] == queue[..i][1..] && queue[1..][i - 1..] == queue[i..];
    }
  }

  /** A packet is queued among the others, and nothing else changes. */
  lemma {:induction false} EnqueuedIs(queue: seq<Packet>, p: Packet)
    ensures multiset(Enqueued(queue, p)) == multiset(queue) + multiset{p}
  {
    if queue != [] && queue[0].delay <= p.delay {
      assert queue == [queue[0]] + queue[1..];
      EnqueuedIs(queue[1..], p);
    }
  }

  lemma {:induction false} EnqueuedLeast(queue: seq<Packet>, p: Packet, d: real)
    requires d <= p.delay && forall i :: 0 <= i < |queue| ==> d <= queue[i].delay
    ensures forall i :: 0 <= i < |Enqueued(queue, p)| ==> d <= Enqueued(queue, p)[i].delay
  {
    if queue != [] {
      EnqueuedLeast(queue[1..], p, d);
    }
  }

  /** A packet enters: one more is queued or in the MAC's hands. */
  lemma AssignKeeps(c: Config, s: State, p: Packet)
    requires c.Valid() && Rest(c, s) && OneTask(s)
    ensures var s' := AssignSeqNumber(c, s, p);
      && Rest(c, s') && OneTask(s') && s'.shr.busy && s'.shr.delayed == s.shr.delayed && s'.tally == s.tally
      && |s'.shr.queue| == |s.shr.queue| + (if s.shr.busy then 1 else 0)
      && s'.clock == s.clock
      && (s.shr.busy ==> s'.mac == s.mac && s'.shr.transit == s.shr.transit && s'.rx == s.rx)
  {
    hide SendToMac, Enqueued, MacModes, MacDelay, Sorted;
    if s.shr.busy {
      EnqueuedKeeps(s.shr.queue, Numbered(c, s.shr.seqNumber, p));
    } else {
      var p1 := Numbered(c, s.shr.seqNumber, p);
      var last := if p.newSeq && p.src == c.me then (s.shr.seqNumber + 1) % Wrap32 else s.shr.seqNumber;
      SendToMacKeeps(c, s.(shr := s.shr.(seqNumber := last, active := p1)), p1);
    }
  }

  lemma SendPacketKeeps(c: Config, s: State, p: Packet)
    requires c.Valid() && Rest(c, s) && OneTask(s) && 0.0 <= p.delay
    ensures var s' := SendPacket(c, s, p);
      && Rest(c, s') && OneTask(s') && s'.tally == s.tally && s'.clock == s.clock
      && |s'.shr.delayed| + |s'.shr.queue| + (if s'.shr.busy then 1 else 0)
         == |s.shr.delayed| + |s.shr.queue| + (if s.shr.busy then 1 else 0) + 1
      && (s.shr.busy ==> s'.mac == s.mac && s'.shr.transit == s.shr.transit && s'.shr.busy && s'.rx == s.rx)
  {
    hide AssignSeqNumber, MacModes, MacDelay, Sorted;
    if p.delay == 0.0 {
      AssignKeeps(c, s, p);
    }
  }

  lemma NextPacketKeeps(c: Config, s: State)
    requires c.Valid() && Rest(c, s) && NoTask(s) && s.shr.busy
    ensures var s' := NextPacket(c, s);
      && Rest(c, s') && OneTask(s') && s'.tally == s.tally && s'.shr.delayed == s.shr.delayed
      && |s'.shr.queue| + (if s'.shr.busy then 1 else 0) == |s.shr.queue|
  {
    hide SendToMac, MacModes, MacDelay;
    var q := s.shr.queue;
    if q != [] {
      SendToMacKeeps(c, s.(shr := s.shr.(queue := q[1..], active := q[0])), q[0]);
    }
  }

  /** The MAC has just become idle and tells SHR. */
  lemma FromMacAckKeeps(c: Config, s: State, flag: bool)
    requires c.Valid() && Rest(c, s) && NoTask(s) && s.shr.busy && Balanced(s)
    ensures Inv(c, FromMacAck(c, s, flag))
  {
    hide SendToMac, SendPacket, NextPacket, MacModes, MacDelay, Sorted;
    if !flag && !s.shr.active.isAck {
      if !c.continuous && c.me != s.shr.active.src {
        var again := s.shr.active.(delay := c.slotWidth);
        var s1 := s.(shr := s.shr.(active := again));
        SendWhileBusy(c, s1, again);
        NextPacketKeeps(c, SendPacket(c, s1, again));
      } else {
        var again := s.shr.active.(delay := 0.0);
        SendToMacKeeps(c, s.(shr := s.shr.(active := again)), again);
      }
    } else {
      NextPacketKeeps(c, s.(tally := s.tally.(done := s.tally.done + 1)));
    }
  }

  /** SendPacket while SHR still takes the MAC for busy only queues. */
  lemma SendWhileBusy(c: Config, s: State, p: Packet)
    requires c.Valid() && Rest(c, s) && NoTask(s) && s.shr.busy && 0.0 <= p.delay
    ensures var s' := SendPacket(c, s, p);
      && Rest(c, s') && NoTask(s') && s'.shr.busy && s'.tally == s.tally
      && |s'.shr.delayed| + |s'.shr.queue| == |s.shr.delayed| + |s.shr.queue| + 1
  {
    hide Enqueued, MacModes, MacDelay, Sorted, SendToMac;
    EnqueuedKeeps(s.shr.queue, Numbered(c, s.shr.seqNumber, p));
  }

  lemma SortedWithout(q: seq<Packet>, j: int)
    requires Sorted(q) && 0 <= j < |q|
    ensures Sorted(q[..j] + q[j + 1..])
  {
  }

  lemma CancelKeeps(c: Config, s: State, src: int, number: int)
    requires Inv(c, s)
    ensures Inv(c, CancelPacket(s, src, number)) && CancelPacket(s, src, number).clock == s.clock
  {
    hide Find, FindDelayed, Sorted;
    var j := Find(s.shr.queue, src, number);
    if j < |s.shr.queue| {
      SortedWithout(s.shr.queue, j);
    }
  }

  lemma {:induction false} ActsKeep(c: Config, s: State, actions: seq<Action>)
    requires c.Valid() && Inv(c, s) && GoodActions(actions)
    ensures Inv(c, OnActs(c, s, actions)) && OnActs(c, s, actions).clock == s.clock
  {
    hide SendPacket, CancelPacket, Rest, OneTask;
    if actions != [] {
      var first, a := actions[..|actions| - 1], actions[|actions| - 1];
      ActsKeep(c, s, first);
      var s1 := OnActs(c, s, first);
      match a
      case Submit(p) =>
        var s2 := s1.(tally := s1.tally.(submitted := s1.tally.submitted + 1));
        TallyOnly(c, s1, s2);
        SendPacketKeeps(c, s2, p);
      case Cancel(src, number) => CancelKeeps(c, s1, src, number);
    }
  }

  lemma TallyOnly(c: Config, s: State, s': State)
    requires s' == s.(tally := s'.tally)
    ensures Rest(c, s) ==> Rest(c, s')
    ensures OneTask(s) ==> OneTask(s')
  {
  }

  lemma DelayKeeps(c: Config, s: State, k: nat)
    requires c.Valid() && Inv(c, s) && k < |s.shr.delayed|
    ensures Inv(c, OnDelay(c, s, k))
  {
    hide AssignSeqNumber, MacModes, MacDelay, Sorted;
    var d := s.shr.delayed;
    AssignKeeps(c, s.(shr := s.shr.(delayed := d[..k] + d[k + 1..])), d[k].packet);
  }

  lemma TransitKeeps(c: Config, s: State)
    requires c.Valid() && Inv(c, s) && s.shr.transit.At?
    ensures Inv(c, OnTransit(s)) && !Refuses(s.(shr := s.shr.(transit := Off)))
  {
    hide FromNetwork, MacModes, MacDelay, Sorted;
    FromNetworkKeeps(c, s.(shr := s.shr.(transit := Off)), s.shr.transitPacket);
  }

  lemma PhyKeeps(c: Config, s: State, f: Frame, error: bool, power: real)
    requires c.Valid() && Inv(c, s) && 0.0 < f.txTime
    ensures Inv(c, OnPhy(c, s, f, error, power))
  {
    hide Captures, Sorted;
  }

  lemma DeferKeeps(c: Config, s: State, txTime: real)
    requires Inv(c, s) && s.mac.defer.At? && 0.0 < txTime
    ensures Inv(c, OnDefer(s, txTime))
  {
    hide Sorted;
  }

  lemma ResumeKeeps(c: Config, s: State)
    requires c.Valid() && Inv(c, s) && s.rx.recv == At(s.clock)
    ensures Inv(c, ResumeDefer(c, s.(rx := s.rx.(recv := Off))))
    ensures ResumeDefer(c, s.(rx := s.rx.(recv := Off))).clock == s.clock
  {
    hide Sorted;
  }

  lemma RecvKeeps(c: Config, s: State, actions: seq<Action>)
    requires c.Valid() && Inv(c, s) && s.rx.recv == At(s.clock) && GoodActions(actions)
    ensures Inv(c, OnRecv(c, s, actions))
  {
    hide ResumeDefer, OnActs, OneTask, Balanced, Rest;
    var s1 := ResumeDefer(c, s.(rx := s.rx.(recv := Off)));
    var p := s.rx.frame;
    ResumeKeeps(c, s);
    CacheOnly(c, s1, s1.(rx := s1.rx.(cache := s1.rx.cache[p.sa := p.seqNo])));
    ActsKeep(c, s1.(rx := s1.rx.(cache := s1.rx.cache[p.sa := p.seqNo])), actions);
    SameFrame(c, s.(rx := s.rx.(recv := Off)));
  }

  lemma SameFrame(c: Config, s: State)
    ensures ResumeDefer(c, s).rx == s.rx
  {
  }

  lemma CacheOnly(c: Config, s: State, s': State)
    requires Inv(c, s) && s' == s.(rx := s.rx.(cache := s'.rx.cache))
    ensures Inv(c, s')
  {
    hide Sorted;
  }

  lemma SendKeeps(c: Config, s: State)
    requires c.Valid() && Inv(c, s) && s.mac.send == At(s.clock)
    ensures Inv(c, OnSend(c, s))
  {
    hide FromMacAck, Sorted;
    FromMacAckKeeps(c, s.(mac := s.mac.(send := Off, mode := Idle)), !s.rx.srCollision);
  }

  lemma AckKeeps(c: Config, s: State)
    requires c.Valid() && Inv(c, s) && s.mac.ack == At(s.clock)
    ensures Inv(c, OnAck(c, s))
  {
    hide FromMacAck, Sorted;
    FromMacAckKeeps(c, s.(mac := s.mac.(ack := Off, mode := Idle)), s.mac.ackFlag);
  }

  lemma TimePasses(c: Config, s: State, t: real)
    requires Inv(c, s) && s.clock <= t && NonePast(t, s)
    ensures Inv(c, s.(clock := t)) && NonePast(t, s.(clock := t))
  {
  }

  /** Every step keeps the invariant. */
  lemma StepKeeps(c: Config, s: State, t: real, e: Event)
    requires c.Valid() && Inv(c, s) && Enabled(s, t, e)
    ensures Inv(c, Step(c, s, t, e))
  {
    hide Inv, OnActs, OnDelay, OnTransit, OnPhy, OnDefer, OnRecv, OnSend, OnAck;
    var s1 := s.(clock := t);
    TimePasses(c, s, t);
    match e
    case Acts(actions) => ActsKeep(c, s1, actions);
    case DelayFires(k) => DelayKeeps(c, s1, k);
    case TransitFires => TransitKeeps(c, s1);
    case FromPhy(f, error, power) => PhyKeeps(c, s1, f, error, power);
    case DeferFires(txTime) => DeferKeeps(c, s1, txTime);
    case RecvFires(actions) => RecvKeeps(c, s1, actions);
    case SendFires => SendKeeps(c, s1);
    case AckFires => AckKeeps(c, s1);
  }

  datatype Happening = Happening(time: real, event: Event)

  /** Some sequence of events leads from s to s'. */
  ghost predicate Leads(c: Config, s: State, hs: seq<Happening>, s': State)
    decreases |hs|
  {
    if hs == [] then s' == s
    else
      var h := hs[0];
      Enabled(s, h.time, h.event) && Leads(c, Step(c, s, h.time, h.event), hs[1..], s')
  }

  /** In every run, busy means exactly one task, no request of SHR is refused
      by the MAC (a pending acknowledgement is never a refusal), no deadline
      lies in the past, and no packet is lost. */
  lemma {:induction false} RunKeeps(c: Config, s: State, hs: seq<Happening>, s': State)
    requires c.Valid() && Inv(c, s) && Leads(c, s, hs, s')
    ensures Inv(c, s')
    decreases |hs|
  {
    hide Inv, Step;
    if hs != [] {
      StepKeeps(c, s, hs[0].time, hs[0].event);
      RunKeeps(c, Step(c, s, hs[0].time, hs[0].event), hs[1..], s');
    }
  }
}
