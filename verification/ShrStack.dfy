/** The handlers of SHR and of the broadcast MAC, in place.  The two components
    call each other synchronously, so one class holds the fields of both; every
    method is proved to do what the state machine says, and the assertions of
    the source are asserted where the source has them. */
module ShrStack {
  import opened ShrStates
  import opened ShrInvariant

  class Stack {
    const cfg: Config

    var clock: real           // what SimTime() gives
    var mac: Mac
    var rx: Reception
    var shr: Shr
    ghost var tally: Tally

    ghost function State(): ShrStates.State
      reads this
    {
      ShrStates.State.State(clock, mac, rx, shr, tally)
    }

    ghost predicate Valid()
      reads this
    {
      cfg.Valid() && Inv(cfg, State())
    }

    constructor (c: Config, m: Mac, r: Reception, s: Shr)
      requires c.Valid()
      ensures Valid() && cfg == c && IsStart(State())
    {
      cfg := c;
      clock := 0.0;
      mac := m.(mode := Idle, txEnd := 0.0, defer := Off, send := Off, ack := Off);
      rx := r.(recv := Off, seqNo := 0, cache := map[]);
      shr := s.(busy := false, transit := Off, queue := [], delayed := []);
      tally := Tally(0, 0, 0);
      new;
      StartKeeps(cfg, State());
    }

    // The MAC.

    method FromNetwork(p: Packet, backoff: real)
      requires mac.mode == Idle ==> mac.defer == Off
      requires Refuses(State()) ==> mac.ack == Off
      modifies this`mac, this`rx
      ensures State() == ShrStates.FromNetwork(old(State()), p, backoff)
    {
      if mac.mode != Idle || mac.txEnd > clock {
        assert mac.ack == Off;
        mac := mac.(ack := At(clock), ackFlag := false);
        return;
      }
      mac := mac.(payload := p, delay := backoff);
      rx := rx.(seqNo := (rx.seqNo + 1) % Wrap16);
      StartDefer();
    }

    method StartDefer()
      requires mac.mode == Idle && mac.defer == Off
      modifies this`mac
      ensures State() == ShrStates.StartDefer(old(State()))
    {
      if !rx.recv.At? {
        mac := mac.(deferStart := clock);
        mac := mac.(defer := At(mac.deferStart + mac.delay));
      }
      mac := mac.(mode := Defer);
    }

    method ResumeDefer()
      requires mac.mode == Defer ==> mac.defer == Off
      modifies this`mac
      ensures State() == ShrStates.ResumeDefer(cfg, old(State()))
    {
      if mac.mode != Defer {
        return;
      }
      mac := mac.(deferStart := clock);
      mac := mac.(defer := At(mac.deferStart + mac.delay + cfg.ifs));
    }

    method MacCancel()
      requires mac.mode == Defer ==> mac.ack == Off
      modifies this`mac
      ensures State() == ShrStates.MacCancel(old(State()))
    {
      if mac.mode == Defer {
        mac := mac.(defer := Off);
        mac := mac.(mode := Idle);
        assert mac.ack == Off;
        mac := mac.(ack := At(clock), ackFlag := true);
      }
    }

    method DeferFires(t: real, txTime: real)
      requires Valid() && Enabled(State(), t, Event.DeferFires(txTime))
      modifies this
      ensures Valid() && State() == OnDefer(old(State()).(clock := t), txTime)
    {
      hide Inv, NonePast;
      EnabledNow(cfg, State(), t, Event.DeferFires(txTime));
      DeferKeeps(cfg, State().(clock := t), txTime);
      clock := t;
      mac := mac.(defer := Off);
      assert mac.mode == Defer;
      mac := mac.(txEnd := clock + txTime);
      rx := rx.(srCollision := false);
      mac := mac.(send := At(mac.txEnd));
      mac := mac.(mode := Send);
    }

    method FromPhy(t: real, f: Frame, error: bool, power: real)
      requires Valid() && Enabled(State(), t, Event.FromPhy(f, error, power))
      modifies this
      ensures Valid() && State() == OnPhy(cfg, old(State()).(clock := t), f, error, power)
    {
      hide Inv, NonePast, Captures;
      EnabledNow(cfg, State(), t, Event.FromPhy(f, error, power));
      PhyKeeps(cfg, State().(clock := t), f, error, power);
      clock := t;
      rx := rx.(srCollision := true);
      var endTime := clock + f.txTime;
      if rx.recv.At? {
        if Captures(power, rx.power, cfg.cpThreshold) {
          rx := rx.(frame := f, error := error, power := power, recv := At(endTime));
        } else if Captures(rx.power, power, cfg.cpThreshold) {
        } else {
          if endTime > rx.recv.time {
            rx := rx.(recv := At(endTime));
            rx := rx.(frame := f, error := error, power := power);
          }
          rx := rx.(error := true);
        }
      } else {
        rx := rx.(frame := f, error := error, power := power);
        rx := rx.(recv := At(endTime));
        if mac.mode == Defer {
          assert mac.defer.At?;
          mac := mac.(defer := Off);
          mac := mac.(delay := mac.delay - (clock - mac.deferStart));
        }
      }
    }

    method RecvFires(t: real, actions: seq<Action>)
      requires Valid() && Enabled(State(), t, Event.RecvFires(actions))
      modifies this
      ensures Valid() && State() == OnRecv(cfg, old(State()).(clock := t), actions)
    {
      hide Inv, NonePast, OnActs, ShrStates.ResumeDefer;
      EnabledNow(cfg, State(), t, Event.RecvFires(actions));
      RecvKeeps(cfg, State().(clock := t), actions);
      ResumeKeeps(cfg, State().(clock := t));
      SameFrame(cfg, State().(clock := t, rx := rx.(recv := Off)));
      clock := t;
      rx := rx.(recv := Off);
      var p := rx.frame;
      var sound := !rx.error && !(clock - p.txTime < mac.txEnd);
      ResumeDefer();
      if !sound {
        return;
      }
      if p.sa in rx.cache {
        if rx.cache[p.sa] == p.seqNo {
          return;
        }
      }
      CacheOnly(cfg, State(), State().(rx := rx.(cache := rx.cache[p.sa := p.seqNo])));
      rx := rx.(cache := rx.cache[p.sa := p.seqNo]);
      Perform(actions);
    }

    method SendFires(t: real)
      requires Valid() && Enabled(State(), t, Event.SendFires)
      modifies this
      ensures Valid() && State() == OnSend(cfg, old(State()).(clock := t))
    {
      hide Inv, NonePast, ShrStates.FromMacAck;
      EnabledNow(cfg, State(), t, Event.SendFires);
      SendKeeps(cfg, State().(clock := t));
      clock := t;
      mac := mac.(send := Off, mode := Idle);
      FromMacAck(!rx.srCollision);
    }

    method AckFires(t: real)
      requires Valid() && Enabled(State(), t, Event.AckFires)
      modifies this
      ensures Valid() && State() == OnAck(cfg, old(State()).(clock := t))
    {
      hide Inv, NonePast, ShrStates.FromMacAck;
      EnabledNow(cfg, State(), t, Event.AckFires);
      AckKeeps(cfg, State().(clock := t));
      clock := t;
      mac := mac.(ack := Off, mode := Idle);
      FromMacAck(mac.ackFlag);
    }

    // SHR.

    method SendToMac(p: Packet)
      requires mac.mode == Idle && mac.defer == Off && mac.ack == Off
      modifies this
      ensures State() == ShrStates.SendToMac(cfg, old(State()), p)
    {
      hide ShrStates.FromNetwork;
      shr := shr.(busy := true);
      if cfg.transition != 0.0 {
        shr := shr.(transit := At(clock + cfg.transition), transitPacket := p);
      } else {
        FromNetwork(p, 0.0);
      }
    }

    method TransitFires(t: real)
      requires Valid() && Enabled(State(), t, Event.TransitFires)
      modifies this
      ensures Valid() && State() == OnTransit(old(State()).(clock := t))
    {
      hide Inv, NonePast, ShrStates.FromNetwork;
      EnabledNow(cfg, State(), t, Event.TransitFires);
      TransitKeeps(cfg, State().(clock := t));
      clock := t;
      shr := shr.(transit := Off);
      FromNetwork(shr.transitPacket, 0.0);
    }

    /** The walk of AddToSendQueue. */
    method AddToSendQueue(p: Packet)
      modifies this`shr
      ensures shr == old(shr).(queue := Enqueued(old(shr.queue), p))
    {
      var i := 0;
      while i < |shr.queue| && shr.queue[i].delay <= p.delay
        invariant 0 <= i <= |shr.queue| && shr == old(shr)
        invariant forall j :: 0 <= j < i ==> shr.queue[j].delay <= p.delay
      {
        i := i + 1;
      }
      EnqueuedAt(shr.queue, p, i);
      shr := shr.(queue := shr.queue[..i] + [p] + shr.queue[i..]);
    }

    method AssignSeqNumber(pkt: Packet)
      requires !shr.busy ==> mac.mode == Idle && mac.defer == Off && mac.ack == Off
      modifies this
      ensures State() == ShrStates.AssignSeqNumber(cfg, old(State()), pkt)
    {
      hide ShrStates.SendToMac, Enqueued;
      var p := pkt.(canceled := false);
      if p.newSeq && p.src == cfg.me {
        shr := shr.(seqNumber := (shr.seqNumber + 1) % Wrap32);
        p := p.(number := shr.seqNumber);
      }
      p := p.(newSeq := false);
      if !shr.busy {
        shr := shr.(active := p);
        SendToMac(p);
      } else {
        AddToSendQueue(p);
      }
    }

    method SendPacket(p: Packet)
      requires !shr.busy ==> mac.mode == Idle && mac.defer == Off && mac.ack == Off
      modifies this
      ensures State() == ShrStates.SendPacket(cfg, old(State()), p)
    {
      hide ShrStates.AssignSeqNumber;
      if p.delay == 0.0 {
        AssignSeqNumber(p);
      } else {
        shr := shr.(delayed := shr.delayed + [Delayed(p, clock + p.delay)]);
      }
    }

    method DelayFires(t: real, k: nat)
      requires Valid() && Enabled(State(), t, Event.DelayFires(k))
      modifies this
      ensures k < |old(shr.delayed)| && Valid() && State() == OnDelay(cfg, old(State()).(clock := t), k)
    {
      hide Inv, ShrStates.AssignSeqNumber;
      EnabledNow(cfg, State(), t, Event.DelayFires(k));
      DelayKeeps(cfg, State().(clock := t), k);
      clock := t;
      var p := shr.delayed[k].packet;
      shr := shr.(delayed := shr.delayed[..k] + shr.delayed[k + 1..]);
      AssignSeqNumber(p);
    }

    method CancelPacket(src: int, number: int)
      requires mac.mode == Defer ==> mac.ack == Off
      modifies this
      ensures State() == ShrStates.CancelPacket(old(State()), src, number)
    {
      hide ShrStates.MacCancel;
      if shr.busy && Is(shr.active, src, number) && !shr.active.isAck {
        shr := shr.(active := shr.active.(canceled := true));
        MacCancel();
        return;
      }
      var i := FindDelayed(shr.delayed, src, number);
      if i != |shr.delayed| {
        shr := shr.(delayed := shr.delayed[..i] + shr.delayed[i + 1..]);
        tally := tally.(dropped := tally.dropped + 1);
        return;
      }
      var j := Find(shr.queue, src, number);
      if j == |shr.queue| {
        return;
      }
      if !shr.queue[j].isAck {
        shr := shr.(queue := shr.queue[..j] + shr.queue[j + 1..]);
        tally := tally.(dropped := tally.dropped + 1);
      }
    }

    method FromMacAck(flag: bool)
      requires shr.busy && mac.mode == Idle && mac.defer == Off && mac.ack == Off
      modifies this
      ensures State() == ShrStates.FromMacAck(cfg, old(State()), flag)
    {
      hide ShrStates.SendToMac, ShrStates.NextPacket;
      var testQueue := true;
      var slotted := !cfg.continuous && cfg.me != shr.active.src;
      if !flag && !shr.active.isAck {
        if slotted {
          shr := shr.(active := shr.active.(delay := cfg.slotWidth));
          SendPacket(shr.active);
        } else {
          shr := shr.(active := shr.active.(delay := 0.0));
          SendToMac(shr.active);
          testQueue := false;
        }
      } else {
        tally := tally.(done := tally.done + 1);
      }
      if testQueue {
        NextPacket();
      }
    }

    method NextPacket()
      requires mac.mode == Idle && mac.defer == Off && mac.ack == Off
      modifies this
      ensures State() == ShrStates.NextPacket(cfg, old(State()))
    {
      hide ShrStates.SendToMac;
      if |shr.queue| > 0 {
        var packet := shr.queue[0];
        shr := shr.(queue := shr.queue[1..]);
        shr := shr.(active := packet);
        SendToMac(packet);
      } else {
        shr := shr.(busy := false);
      }
    }

    /** The calls that SHR's own logic makes, one after the other. */
    method Perform(actions: seq<Action>)
      requires Valid() && GoodActions(actions)
      modifies this
      ensures Valid() && State() == OnActs(cfg, old(State()), actions)
    {
      hide Inv, ShrStates.SendPacket, ShrStates.CancelPacket;
      for i := 0 to |actions|
        invariant Valid() && State() == OnActs(cfg, old(State()), actions[..i])
      {
        assert actions[..i + 1][..i] == actions[..i];
        ActsKeep(cfg, old(State()), actions[..i + 1]);
        Ready(cfg, State());
        match actions[i]
        case Submit(p) =>
          tally := tally.(submitted := tally.submitted + 1);
          SendPacket(p);
        case Cancel(src, number) =>
          CancelPacket(src, number);
      }
      assert actions[..|actions|] == actions;
    }

    method Acts(t: real, actions: seq<Action>)
      requires Valid() && Enabled(State(), t, Event.Acts(actions))
      modifies this
      ensures Valid() && State() == OnActs(cfg, old(State()).(clock := t), actions)
    {
      hide Inv, OnActs, NonePast;
      EnabledNow(cfg, State(), t, Event.Acts(actions));
      clock := t;
      Perform(actions);
    }
  }

  /** What the handlers need from the invariant. */
  lemma Ready(c: Config, s: State)
    requires Inv(c, s)
    ensures s.mac.mode == Idle ==> s.mac.defer == Off
    ensures s.mac.mode == Defer ==> s.mac.ack == Off && (s.rx.recv == Off <==> s.mac.defer.At?)
    ensures !s.shr.busy ==> s.mac.mode == Idle && s.mac.defer == Off && s.mac.ack == Off
    ensures s.mac.send.At? ==> s.mac.mode == Send && s.mac.defer == Off && s.mac.ack == Off && s.shr.busy
    ensures s.mac.ack.At? ==> s.mac.mode == Idle && s.mac.defer == Off && s.shr.busy
    ensures s.mac.defer.At? ==> s.mac.mode == Defer
    ensures s.shr.transit.At? ==> s.mac.mode == Idle && s.mac.defer == Off && s.mac.ack == Off
  {
  }

  lemma EnabledNow(c: Config, s: State, t: real, e: Event)
    requires c.Valid() && Inv(c, s) && Enabled(s, t, e)
    ensures Inv(c, s.(clock := t))
    ensures s.mac.mode == Idle ==> s.mac.defer == Off
    ensures s.mac.mode == Defer ==> s.mac.ack == Off && (s.rx.recv == Off <==> s.mac.defer.At?)
    ensures !s.shr.busy ==> s.mac.mode == Idle && s.mac.defer == Off && s.mac.ack == Off
    ensures s.mac.send.At? ==> s.mac.mode == Send && s.mac.defer == Off && s.mac.ack == Off && s.shr.busy
    ensures s.mac.ack.At? ==> s.mac.mode == Idle && s.mac.defer == Off && s.shr.busy
    ensures s.mac.defer.At? ==> s.mac.mode == Defer
    ensures s.shr.transit.At? ==> s.mac.mode == Idle && s.mac.defer == Off && s.mac.ack == Off
  {
    TimePasses(c, s, t);
    Ready(c, s);
  }
}
