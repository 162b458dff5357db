/** What SHR hears of its packets from the broadcast MAC, and what becomes of
    them, over whole runs. */
module ShrLaws {
  import opened ShrStates
  import opened ShrInvariant

  /** A happening that cannot happen changes nothing. */
  ghost function Go(c: Config, s: State, h: Happening): State {
    if Enabled(s, h.time, h.event) then Step(c, s, h.time, h.event) else s
  }

  ghost function Run(c: Config, s: State, hs: seq<Happening>): State {
    if hs == [] then s else Go(c, Run(c, s, hs[..|hs| - 1]), hs[|hs| - 1])
  }

  lemma {:induction false} RunKeepsInv(c: Config, s: State, hs: seq<Happening>)
    requires c.Valid() && IsStart(s)
    ensures Inv(c, Run(c, s, hs))
  {
    hide Inv, Step, Enabled;
    if hs == [] {
      StartKeeps(c, s);
    } else {
      var first, h := hs[..|hs| - 1], hs[|hs| - 1];
      RunKeepsInv(c, s, first);
      if Enabled(Run(c, s, first), h.time, h.event) {
        StepKeeps(c, Run(c, s, first), h.time, h.event);
      }
    }
  }

  /** A reception has begun since the last transmission did. */
  ghost predicate HeardSince(c: Config, s: State, hs: seq<Happening>) {
    hs != [] &&
    var first, h := hs[..|hs| - 1], hs[|hs| - 1];
    if Enabled(Run(c, s, first), h.time, h.event) && h.event.FromPhy? then true
    else if Enabled(Run(c, s, first), h.time, h.event) && h.event.DeferFires? then false
    else HeardSince(c, s, first)
  }

  /** One packet, whatever its delay and whether or not it was cancelled. */
  ghost predicate SamePacket(p: Packet, q: Packet) {
    p.src == q.src && p.number == q.number && p.isAck == q.isAck
  }

  /** The MAC works on the active packet of SHR. */
  ghost predicate Carries(s: State) {
    && (s.mac.mode != Idle ==> SamePacket(s.mac.payload, s.shr.active))
    && (s.shr.transit.At? ==> SamePacket(s.shr.transitPacket, s.shr.active))
    && (s.shr.busy ==> !s.shr.active.newSeq)
    && forall i :: 0 <= i < |s.shr.queue| ==> !s.shr.queue[i].newSeq
  }

  /** A packet has just set out: in transition, or deferring without backoff. */
  ghost predicate UnderWay(c: Config, s: State, p: Packet) {
    && s.shr.busy && SamePacket(s.shr.active, p)
    && if c.transition != 0.0 then
         s.shr.transit == At(s.clock + c.transition) && SamePacket(s.shr.transitPacket, p)
       else
         && s.mac.mode == Defer && SamePacket(s.mac.payload, p) && s.mac.delay == 0.0
         && (s.rx.recv == Off ==> s.mac.defer == At(s.clock))
  }

  lemma SendToMacCarries(c: Config, s: State, p: Packet)
    requires c.Valid() && Rest(c, s) && NoTask(s) && SamePacket(p, s.shr.active)
    requires !s.shr.active.newSeq && forall i :: 0 <= i < |s.shr.queue| ==> !s.shr.queue[i].newSeq
    ensures var s' := SendToMac(c, s, p);
      && Carries(s') && UnderWay(c, s', p) && s'.shr.active == s.shr.active && SameQueues(s, s')
      && s'.rx.srCollision == s.rx.srCollision && s'.shr.seqNumber == s.shr.seqNumber
      && s'.mac.mode != Send
  {
  }

  /** The next packet, if there is one, is the first of the queue. */
  ghost predicate NextGoes(c: Config, s: State, s': State) {
    if s.shr.queue == [] then !s'.shr.busy && s'.shr.queue == []
    else UnderWay(c, s', s.shr.queue[0]) && s'.shr.active == s.shr.queue[0] && s'.shr.queue == s.shr.queue[1..]
  }

  lemma NextPacketGoes(c: Config, s: State)
    requires c.Valid() && Rest(c, s) && NoTask(s)
    requires forall i :: 0 <= i < |s.shr.queue| ==> !s.shr.queue[i].newSeq
    ensures var s' := NextPacket(c, s);
      && NextGoes(c, s, s') && Carries(s') && s'.mac.mode != Send
      && s'.shr.delayed == s.shr.delayed && s'.tally == s.tally && s'.shr.seqNumber == s.shr.seqNumber
  {
    var q := s.shr.queue;
    if q != [] {
      SendToMacCarries(c, s.(shr := s.shr.(queue := q[1..], active := q[0])), q[0]);
    }
  }

  /** The packet goes again: at once from its source or with continuous backoff,
      a slot later otherwise; a slot of no width only puts it in the queue. */
  ghost predicate Resent(c: Config, s: State, s': State) {
    var p := s.shr.active;
    if c.continuous || c.me == p.src then
      UnderWay(c, s', p) && s'.shr.active == p.(delay := 0.0)
      && s'.shr.queue == s.shr.queue && s'.shr.delayed == s.shr.delayed
    else if c.slotWidth > 0.0 then
      NextGoes(c, s, s') && s'.shr.delayed == s.shr.delayed + [Delayed(p.(delay := c.slotWidth), s.clock + c.slotWidth)]
    else
      && s'.shr.delayed == s.shr.delayed && UnderWay(c, s', s'.shr.active)
      && multiset([s'.shr.active] + s'.shr.queue) ==
         multiset(s.shr.queue) + multiset{p.(delay := 0.0, canceled := false)}
  }

  /** What SHR does about the outcome of a sending. */
  lemma FromMacAckSays(c: Config, s: State, flag: bool)
    requires c.Valid() && Rest(c, s) && NoTask(s) && s.shr.busy && !s.shr.active.newSeq
    requires forall i :: 0 <= i < |s.shr.queue| ==> !s.shr.queue[i].newSeq
    ensures var s' := FromMacAck(c, s, flag);
      && Carries(s') && s'.mac.mode != Send
      && (flag || s.shr.active.isAck ==>
            && s'.tally == s.tally.(done := s.tally.done + 1)
            && NextGoes(c, s, s') && s'.shr.delayed == s.shr.delayed)
      && (!flag && !s.shr.active.isAck ==> s'.tally == s.tally && Resent(c, s, s'))
  {
    hide *;
    if flag || s.shr.active.isAck {
      FinishedSays(c, s, flag);
    } else {
      AgainSays(c, s);
    }
  }

  lemma FinishedSays(c: Config, s: State, flag: bool)
    requires c.Valid() && Rest(c, s) && NoTask(s) && s.shr.busy && (flag || s.shr.active.isAck)
    requires forall i :: 0 <= i < |s.shr.queue| ==> !s.shr.queue[i].newSeq
    ensures var s' := FromMacAck(c, s, flag);
      && Carries(s') && s'.mac.mode != Send && s'.tally == s.tally.(done := s.tally.done + 1)
      && NextGoes(c, s, s') && s'.shr.delayed == s.shr.delayed
  {
    hide Rest, NextPacket;
    var s1 := s.(tally := s.tally.(done := s.tally.done + 1));
    TallyOnly(c, s, s1);
    NextPacketGoes(c, s1);
  }

  lemma AgainSays(c: Config, s: State)
    requires c.Valid() && Rest(c, s) && NoTask(s) && s.shr.busy && !s.shr.active.isAck && !s.shr.active.newSeq
    requires forall i :: 0 <= i < |s.shr.queue| ==> !s.shr.queue[i].newSeq
    ensures var s' := FromMacAck(c, s, false);
      Carries(s') && s'.mac.mode != Send && s'.tally == s.tally && Resent(c, s, s')
  {
    hide Rest, NextPacket;
    var p := s.shr.active;
    if c.continuous || c.me == p.src {
      var again := p.(delay := 0.0);
      var s1 := s.(shr := s.shr.(active := again));
      RestActive(c, s, again);
      SendToMacCarries(c, s1, again);
    } else {
      var again := p.(delay := c.slotWidth);
      var s1 := s.(shr := s.shr.(active := again));
      RestActive(c, s, again);
      SendWhileBusy(c, s1, again);
      QueueMore(s.shr.queue, again.(canceled := false));
      NextPacketGoes(c, SendPacket(c, s1, again));
      if c.slotWidth == 0.0 {
        var q := Enqueued(s.shr.queue, again.(canceled := false));
        EnqueuedIs(s.shr.queue, again.(canceled := false));
        assert q == [q[0]] + q[1..];
      }
    }
  }

  lemma RestActive(c: Config, s: State, p: Packet)
    ensures Rest(c, s) ==> Rest(c, s.(shr := s.shr.(active := p)))
  {
  }

  /** Queueing a packet that needs no number. */
  lemma {:induction false} QueueMore(queue: seq<Packet>, p: Packet)
    requires !p.newSeq && forall i :: 0 <= i < |queue| ==> !queue[i].newSeq
    ensures Enqueued(queue, p) != []
    ensures forall i :: 0 <= i < |Enqueued(queue, p)| ==> !Enqueued(queue, p)[i].newSeq
  {
    EnqueuedIs(queue, p);
    var q := Enqueued(queue, p);
    forall i | 0 <= i < |q|
      ensures !q[i].newSeq
    {
      assert q[i] in multiset(queue) + multiset{p};
    }
  }

  /** The MAC, its sending and what it has heard are as they were; but the MAC
      may have got a packet to send, or lost one it had not begun to send. */
  ghost predicate SameSending(s: State, s': State) {
    s'.rx.srCollision == s.rx.srCollision && (s'.mac.mode == Send <==> s.mac.mode == Send)
  }

  lemma AssignCarries(c: Config, s: State, p: Packet)
    requires c.Valid() && Rest(c, s) && OneTask(s) && Carries(s)
    ensures Carries(AssignSeqNumber(c, s, p)) && SameSending(s, AssignSeqNumber(c, s, p))
  {
    var p1 := Numbered(c, s.shr.seqNumber, p);
    var last := if p.newSeq && p.src == c.me then (s.shr.seqNumber + 1) % Wrap32 else s.shr.seqNumber;
    if s.shr.busy {
      QueueMore(s.shr.queue, p1);
    } else {
      var s1 := s.(shr := s.shr.(seqNumber := last, active := p1));
      hide Rest;
      RestNumber(c, s, last, p1);
      SendToMacCarries(c, s1, p1);
    }
  }

  lemma RestNumber(c: Config, s: State, n: int, p: Packet)
    ensures Rest(c, s) ==> Rest(c, s.(shr := s.shr.(seqNumber := n, active := p)))
  {
  }

  lemma CancelCarries(s: State, src: int, number: int)
    requires Carries(s)
    ensures Carries(CancelPacket(s, src, number)) && SameSending(s, CancelPacket(s, src, number))
  {
  }

  lemma ActionCarries(c: Config, s: State, a: Action)
    requires c.Valid() && Inv(c, s) && Carries(s)
    ensures Carries(OnAction(c, s, a)) && SameSending(s, OnAction(c, s, a))
  {
    match a
    case Submit(p) =>
      var s1 := s.(tally := s.tally.(submitted := s.tally.submitted + 1));
      hide Rest, OneTask;
      TallyOnly(c, s, s1);
      if p.delay == 0.0 {
        AssignCarries(c, s1, p);
      }
    case Cancel(src, number) =>
      hide Inv, Rest, OneTask;
      CancelCarries(s, src, number);
  }

  lemma {:induction false} ActsCarry(c: Config, s: State, actions: seq<Action>)
    requires c.Valid() && Inv(c, s) && GoodActions(actions) && Carries(s)
    ensures Carries(OnActs(c, s, actions)) && SameSending(s, OnActs(c, s, actions))
  {
    hide Carries, OnAction, Inv;
    if actions != [] {
      var first := actions[..|actions| - 1];
      assert GoodActions(first);
      ActsCarry(c, s, first);
      ActsKeep(c, s, first);
      ActionCarries(c, OnActs(c, s, first), actions[|actions| - 1]);
    }
  }

  /** Step by step: the MAC carries the active packet, and notes every reception
      that begins while it sends. */
  lemma StepCarries(c: Config, s: State, t: real, e: Event)
    requires c.Valid() && Inv(c, s) && Enabled(s, t, e) && Carries(s)
    ensures var s' := Step(c, s, t, e);
      && Carries(s')
      && (s'.mac.mode == Send && !e.DeferFires? ==> s.mac.mode == Send)
      && (s'.mac.mode == Send ==>
            (s'.rx.srCollision <==> e.FromPhy? || (!e.DeferFires? && s.rx.srCollision)))
  {
    var s1 := s.(clock := t);
    TimePasses(c, s, t);
    Ready(c, s1);
    match e
    case Acts(actions) => ActsCarry(c, s1, actions);
    case DelayFires(k) => DelayCarries(c, s1, k);
    case TransitFires => TransitKeeps(c, s1);
    case FromPhy(f, error, power) =>
    case DeferFires(txTime) =>
    case RecvFires(actions) => RecvCarries(c, s1, actions);
    case SendFires => FromMacAckSays(c, s1.(mac := s1.mac.(send := Off, mode := Idle)), !s1.rx.srCollision);
    case AckFires => FromMacAckSays(c, s1.(mac := s1.mac.(ack := Off, mode := Idle)), s1.mac.ackFlag);
  }

  /** What the MAC's timers tell about it. */
  lemma Ready(c: Config, s: State)
    requires Inv(c, s)
    ensures Rest(c, s) && OneTask(s)
    ensures s.mac.send.At? ==> s.shr.busy && s.mac.mode == Send
    ensures s.mac.ack.At? ==> s.shr.busy && s.mac.mode == Idle && s.mac.ackFlag
    ensures s.mac.send == At(s.clock) ==> var m := s.mac.(send := Off, mode := Idle);
      Rest(c, s.(mac := m)) && NoTask(s.(mac := m))
    ensures s.mac.ack.At? ==> var m := s.mac.(ack := Off, mode := Idle);
      Rest(c, s.(mac := m)) && NoTask(s.(mac := m))
  {
  }

  lemma DelayCarries(c: Config, s: State, k: nat)
    requires c.Valid() && Inv(c, s) && Carries(s) && k < |s.shr.delayed|
    ensures Carries(OnDelay(c, s, k)) && SameSending(s, OnDelay(c, s, k))
  {
    var d := s.shr.delayed;
    var s1 := s.(shr := s.shr.(delayed := d[..k] + d[k + 1..]));
    assert Rest(c, s1) && OneTask(s1);
    hide Rest, OneTask;
    AssignCarries(c, s1, d[k].packet);
  }

  lemma RecvCarries(c: Config, s: State, actions: seq<Action>)
    requires c.Valid() && Inv(c, s) && s.rx.recv == At(s.clock) && GoodActions(actions) && Carries(s)
    ensures Carries(OnRecv(c, s, actions)) && SameSending(s, OnRecv(c, s, actions))
  {
    var s1 := ResumeDefer(c, s.(rx := s.rx.(recv := Off)));
    ResumeKeeps(c, s);
    var p := s.rx.frame;
    assert Carries(s1) && SameSending(s, s1);
    var s2 := s1.(rx := s1.rx.(cache := s1.rx.cache[p.sa := p.seqNo]));
    CacheOnly(c, s1, s2);
    hide Inv;
    ActsCarry(c, s2, actions);
  }

  /** In every run the MAC carries the active packet and knows whether it heard
      anything while it was sending. */
  lemma {:induction false} RunCarries(c: Config, s: State, hs: seq<Happening>)
    requires c.Valid() && IsStart(s)
    ensures Carries(Run(c, s, hs))
    ensures Run(c, s, hs).mac.mode == Send ==> (Run(c, s, hs).rx.srCollision <==> HeardSince(c, s, hs))
  {
    hide Inv, Step, Enabled, Carries;
    if hs == [] {
      StartCarries(s);
    } else {
      var first, h := hs[..|hs| - 1], hs[|hs| - 1];
      RunCarries(c, s, first);
      RunKeepsInv(c, s, first);
      if Enabled(Run(c, s, first), h.time, h.event) {
        StepCarries(c, Run(c, s, first), h.time, h.event);
      }
    }
  }

  lemma StartCarries(s: State)
    requires IsStart(s)
    ensures Carries(s)
  {
  }

  /** The active packet is done with, and the next one goes. */
  ghost predicate Done(c: Config, s: State, s': State) {
    s'.tally == s.tally.(done := s.tally.done + 1) && s'.shr.delayed == s.shr.delayed && NextGoes(c, s, s')
  }

  lemma OneMore(c: Config, s: State, hs: seq<Happening>, h: Happening)
    requires c.Valid() && IsStart(s) && Enabled(Run(c, s, hs), h.time, h.event)
    ensures Run(c, s, hs + [h]) == Step(c, Run(c, s, hs), h.time, h.event)
    ensures Inv(c, Run(c, s, hs)) && Carries(Run(c, s, hs))
    ensures NonePast(h.time, Run(c, s, hs)) && Run(c, s, hs).clock <= h.time
  {
    assert (hs + [h])[..|hs|] == hs;
    RunKeepsInv(c, s, hs);
    RunCarries(c, s, hs);
  }

  /** A packet that was sent while nothing was heard, and an acknowledgement in
      any case, is done with; another one that was sent while something was
      heard goes again. */
  lemma SendingSays(c: Config, s: State, hs: seq<Happening>, t: real)
    requires c.Valid() && IsStart(s) && Enabled(Run(c, s, hs), t, SendFires)
    ensures var before, after := Run(c, s, hs), Run(c, s, hs + [Happening(t, SendFires)]);
      && SamePacket(before.mac.payload, before.shr.active)
      && (!HeardSince(c, s, hs) || before.shr.active.isAck ==> Done(c, before, after))
      && (HeardSince(c, s, hs) && !before.shr.active.isAck ==>
            after.tally == before.tally && Resent(c, before.(clock := t), after))
  {
    hide *;
    OneMore(c, s, hs, Happening(t, SendFires));
    RunCarries(c, s, hs);
    SendStep(c, Run(c, s, hs), t);
  }

  lemma SendStep(c: Config, s: State, t: real)
    requires c.Valid() && Inv(c, s) && Carries(s) && Enabled(s, t, SendFires)
    ensures var s' := Step(c, s, t, SendFires);
      && s.mac.mode == Send && SamePacket(s.mac.payload, s.shr.active)
      && (!s.rx.srCollision || s.shr.active.isAck ==> Done(c, s, s'))
      && (s.rx.srCollision && !s.shr.active.isAck ==> s'.tally == s.tally && Resent(c, s.(clock := t), s'))
  {
    var s1 := s.(clock := t);
    TimePasses(c, s, t);
    Ready(c, s1);
    hide Inv, Rest, NoTask, OneTask, NonePast, MacDelay, Resent, NextGoes, FromMacAck;
    FromMacAckSays(c, s1.(mac := s1.mac.(send := Off, mode := Idle)), !s1.rx.srCollision);
  }

  /** A packet whose deferral was cancelled is done with. */
  lemma CancelledIsDone(c: Config, s: State, hs: seq<Happening>, t: real)
    requires c.Valid() && IsStart(s) && Enabled(Run(c, s, hs), t, AckFires)
    ensures Done(c, Run(c, s, hs), Run(c, s, hs + [Happening(t, AckFires)]))
  {
    var s1 := Run(c, s, hs).(clock := t);
    OneMore(c, s, hs, Happening(t, AckFires));
    TimePasses(c, Run(c, s, hs), t);
    Ready(c, s1);
    hide Inv, Run, Rest, NoTask, OneTask, NonePast, NextGoes;
    FromMacAckSays(c, s1.(mac := s1.mac.(ack := Off, mode := Idle)), s1.mac.ackFlag);
  }

  /** Packet i of ps is the first one of a source and number. */
  ghost predicate IsFirst(ps: seq<Packet>, src: int, number: int, i: int) {
    0 <= i < |ps| && Is(ps[i], src, number) && forall j :: 0 <= j < i ==> !Is(ps[j], src, number)
  }

  ghost function Packets(ds: seq<Delayed>): seq<Packet> {
    seq(|ds|, i requires 0 <= i < |ds| => ds[i].packet)
  }

  lemma FirstFound(ds: seq<Delayed>, q: seq<Packet>, src: int, number: int, i: int)
    ensures IsFirst(Packets(ds), src, number, i) ==> FindDelayed(ds, src, number) == i < |ds|
    ensures IsFirst(q, src, number, i) ==> Find(q, src, number) == i < |q|
    ensures |Packets(ds)| == |ds|
    ensures FindDelayed(ds, src, number) < |ds| ==> exists d :: d in ds && Is(d.packet, src, number)
  {
    var j, k := FindDelayed(ds, src, number), Find(q, src, number);
    assert forall x :: 0 <= x < |ds| ==> Packets(ds)[x] == ds[x].packet;
    if j < |ds| {
      assert ds[j] in ds;
    }
  }

  /** Cancelling the active packet, unless it is an acknowledgement: it stops
      deferring, to be done with at once, or goes on if it is past that. */
  lemma CancelActive(s: State, src: int, number: int)
    requires s.shr.busy && Is(s.shr.active, src, number) && !s.shr.active.isAck
    ensures var s' := CancelPacket(s, src, number);
      && s'.shr == s.shr.(active := s.shr.active.(canceled := true)) && s'.tally == s.tally && s'.rx == s.rx
      && s'.mac == if s.mac.mode == Defer
                   then s.mac.(mode := Idle, defer := Off, ack := At(s.clock), ackFlag := true) else s.mac
  {
  }

  /** Otherwise the first such packet that waits out its delay is dropped, or
      else the first in the queue, unless that is an acknowledgement. */
  lemma CancelWaiting(s: State, src: int, number: int, i: int)
    requires !(s.shr.busy && Is(s.shr.active, src, number) && !s.shr.active.isAck)
    ensures var s', ds, q := CancelPacket(s, src, number), s.shr.delayed, s.shr.queue;
      var dropped := s.tally.(dropped := s.tally.dropped + 1);
      && (IsFirst(Packets(ds), src, number, i) ==>
            s' == s.(shr := s.shr.(delayed := ds[..i] + ds[i + 1..]), tally := dropped))
      && ((forall d :: d in ds ==> !Is(d.packet, src, number)) ==>
            && (IsFirst(q, src, number, i) ==>
                  s' == if q[i].isAck then s
                        else s.(shr := s.shr.(queue := q[..i] + q[i + 1..]), tally := dropped))
            && ((forall p :: p in q ==> !Is(p, src, number)) ==> s' == s))
  {
    FirstFound(s.shr.delayed, s.shr.queue, src, number, i);
  }

  /** A packet as it leaves SHR: the node's own new packets get the number after
      the last one, all others keep theirs. */
  ghost predicate NumberedAs(c: Config, r: Shr, r': Shr, p: Packet, p': Packet) {
    var own := p.newSeq && p.src == c.me;
    && p'.src == p.src && p'.isAck == p.isAck && p'.delay == p.delay && !p'.newSeq && !p'.canceled
    && p'.number == (if own then (r.seqNumber + 1) % Wrap32 else p.number)
    && r'.seqNumber == if own then (r.seqNumber + 1) % Wrap32 else r.seqNumber
  }

  /** Packet p is queued at place i, behind those due no later. */
  ghost predicate QueuedAt(queue: seq<Packet>, queue': seq<Packet>, p: Packet, i: int) {
    && 0 <= i <= |queue| && queue' == queue[..i] + [p] + queue[i..]
    && (forall j :: 0 <= j < i ==> queue[j].delay <= p.delay)
    && (i < |queue| ==> p.delay < queue[i].delay)
  }

  /** SHR was r over MAC m; now p has entered as p': it is on its way to the air
      if the MAC was not busy, else it is queued. */
  ghost predicate EnteredAs(c: Config, m: Mac, r: Shr, s': State, p: Packet, p': Packet) {
    && NumberedAs(c, r, s'.shr, p, p')
    && (!r.busy ==> UnderWay(c, s', p') && s'.shr.active == p' && s'.shr.queue == r.queue)
    && (r.busy ==>
          && s'.mac == m && s'.shr.active == r.active && s'.shr.transit == r.transit && s'.shr.busy
          && exists i :: QueuedAt(r.queue, s'.shr.queue, p', i))
  }

  ghost predicate Entered(c: Config, s: State, s': State, p: Packet) {
    exists p' :: EnteredAs(c, s.mac, s.shr, s', p, p')
  }

  /** The place of a packet in the queue. */
  lemma {:induction false} PlaceInQueue(queue: seq<Packet>, p: Packet) returns (i: nat)
    ensures i <= |queue| && (forall j :: 0 <= j < i ==> queue[j].delay <= p.delay)
    ensures i < |queue| ==> p.delay < queue[i].delay
  {
    if queue == [] || p.delay < queue[0].delay {
      i := 0;
    } else {
      var k := PlaceInQueue(queue[1..], p);
      i := k + 1;
    }
  }

  lemma AssignSays(c: Config, s: State, p: Packet)
    requires c.Valid() && Rest(c, s) && OneTask(s) && Carries(s)
    ensures Entered(c, s, AssignSeqNumber(c, s, p), p)
    ensures AssignSeqNumber(c, s, p).shr.delayed == s.shr.delayed
    ensures AssignSeqNumber(c, s, p).tally == s.tally
  {
    var p1 := Numbered(c, s.shr.seqNumber, p);
    var last := if p.newSeq && p.src == c.me then (s.shr.seqNumber + 1) % Wrap32 else s.shr.seqNumber;
    var s' := AssignSeqNumber(c, s, p);
    if s.shr.busy {
      var i := PlaceInQueue(s.shr.queue, p1);
      EnqueuedAt(s.shr.queue, p1, i);
      assert QueuedAt(s.shr.queue, s'.shr.queue, p1, i);
    } else {
      hide Rest;
      RestNumber(c, s, last, p1);
      SendToMacCarries(c, s.(shr := s.shr.(seqNumber := last, active := p1)), p1);
    }
    assert EnteredAs(c, s.mac, s.shr, s', p, p1);
  }

  /** A packet that SHR submits waits out its delay, if it has one, or enters. */
  lemma SubmitSays(c: Config, s: State, p: Packet)
    requires c.Valid() && Inv(c, s) && Carries(s)
    ensures var s' := OnAction(c, s, Submit(p));
      && s'.tally == s.tally.(submitted := s.tally.submitted + 1)
      && (p.delay != 0.0 ==>
            && s'.shr == s.shr.(delayed := s.shr.delayed + [Delayed(p, s.clock + p.delay)])
            && s'.mac == s.mac && s'.rx == s.rx)
      && (p.delay == 0.0 ==> Entered(c, s, s', p) && s'.shr.delayed == s.shr.delayed)
  {
    var s1 := s.(tally := s.tally.(submitted := s.tally.submitted + 1));
    TallyOnly(c, s, s1);
    hide Rest, OneTask, Entered;
    if p.delay == 0.0 {
      AssignSays(c, s1, p);
      EnteredTally(c, s, s1, AssignSeqNumber(c, s1, p), p);
    }
  }

  /** It does not matter what else is waiting out its delay. */
  lemma EnteredTally(c: Config, s: State, s1: State, s': State, p: Packet)
    requires s1.mac == s.mac && s1.shr.(delayed := s.shr.delayed) == s.shr && Entered(c, s1, s', p)
    ensures Entered(c, s, s', p)
  {
    var p' :| EnteredAs(c, s1.mac, s1.shr, s', p, p');
    assert EnteredAs(c, s.mac, s.shr, s', p, p');
  }

  /** When its delay is over it leaves the list and enters. */
  lemma DelaySays(c: Config, s: State, hs: seq<Happening>, t: real, k: nat)
    requires c.Valid() && IsStart(s) && Enabled(Run(c, s, hs), t, DelayFires(k))
    ensures var before, after := Run(c, s, hs), Run(c, s, hs + [Happening(t, DelayFires(k))]);
      var d := before.shr.delayed;
      && t == d[k].deadline && after.shr.delayed == d[..k] + d[k + 1..] && after.tally == before.tally
      && Entered(c, before, after, d[k].packet)
  {
    OneMore(c, s, hs, Happening(t, DelayFires(k)));
    var s1 := Run(c, s, hs).(clock := t);
    TimePasses(c, Run(c, s, hs), t);
    var d := s1.shr.delayed;
    var s2 := s1.(shr := s1.shr.(delayed := d[..k] + d[k + 1..]));
    hide Run, Entered;
    assert Rest(c, s2) && OneTask(s2) && Carries(s2);
    hide Rest, OneTask, Inv;
    AssignSays(c, s2, d[k].packet);
    EnteredTally(c, Run(c, s, hs), s2, AssignSeqNumber(c, s2, d[k].packet), d[k].packet);
  }

  /** When the transition is over the packet is with the MAC, to be deferred
      without backoff under the next sequence number. */
  lemma TransitSays(c: Config, s: State, hs: seq<Happening>, t: real)
    requires c.Valid() && IsStart(s) && Enabled(Run(c, s, hs), t, TransitFires)
    ensures var before, after := Run(c, s, hs), Run(c, s, hs + [Happening(t, TransitFires)]);
      && after.mac.mode == Defer && after.mac.payload == before.shr.transitPacket && after.mac.delay == 0.0
      && (after.rx.recv == Off ==> after.mac.defer == At(t))
      && after.rx == before.rx.(seqNo := (before.rx.seqNo + 1) % Wrap16)
      && after.shr == before.shr.(transit := Off) && after.tally == before.tally
  {
    OneMore(c, s, hs, Happening(t, TransitFires));
    TimePasses(c, Run(c, s, hs), t);
    hide Run;
    TransitKeeps(c, Run(c, s, hs).(clock := t));
  }

  /** When the deferral is over the packet goes on the air, for as long as it
      takes. */
  lemma DeferSays(c: Config, s: State, hs: seq<Happening>, t: real, txTime: real)
    requires c.Valid() && IsStart(s) && Enabled(Run(c, s, hs), t, DeferFires(txTime))
    ensures var before, after := Run(c, s, hs), Run(c, s, hs + [Happening(t, DeferFires(txTime))]);
      && SamePacket(before.mac.payload, before.shr.active)
      && after.mac == before.mac.(mode := Send, defer := Off, send := At(t + txTime), txEnd := t + txTime)
      && after.shr == before.shr && after.tally == before.tally
  {
    OneMore(c, s, hs, Happening(t, DeferFires(txTime)));
    var r := Run(c, s, hs);
    hide Run;
    assert r.mac.mode == Defer;
  }
}
