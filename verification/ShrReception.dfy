/** What the broadcast MAC receives, what of it SHR gets to hear, and how long
    the MAC defers, over whole runs. */
module ShrReception {
  import opened ShrStates
  import opened ShrInvariant
  import opened ShrLaws

  /** At happening k the start of a frame is heard. */
  ghost predicate Begins(c: Config, s: State, hs: seq<Happening>, k: int) {
    0 <= k < |hs| && hs[k].event.FromPhy? && Enabled(Run(c, s, hs[..k]), hs[k].time, hs[k].event)
  }

  ghost predicate Ends(c: Config, s: State, hs: seq<Happening>, k: int) {
    0 <= k < |hs| && hs[k].event.RecvFires? && Enabled(Run(c, s, hs[..k]), hs[k].time, hs[k].event)
  }

  /** A signal of power new takes the reception over from one of power old. */
  ghost predicate TakesOver(c: Config, new_: real, old_: real) {
    new_ > old_ * c.cpThreshold
  }

  /** It is drowned by it. */
  ghost predicate Drowned(c: Config, new_: real, old_: real) {
    !TakesOver(c, new_, old_) && old_ > new_ * c.cpThreshold
  }

  /** The frame whose start is heard at k comes without error, takes over any
      reception under way, and drowns all that start later. */
  ghost predicate Clear(c: Config, s: State, hs: seq<Happening>, k: int) {
    && Begins(c, s, hs, k) && !hs[k].event.error
    && (var before := Run(c, s, hs[..k]).rx; before.recv.At? ==> TakesOver(c, hs[k].event.power, before.power))
    && forall j :: k < j && Begins(c, s, hs, j) ==> Drowned(c, hs[j].event.power, hs[k].event.power)
  }

  /** The frame being received started at k, and there is no error exactly if
      it came clear. */
  ghost predicate Receives(c: Config, s: State, hs: seq<Happening>, k: int) {
    && Begins(c, s, hs, k)
    && (var r := Run(c, s, hs).rx;
        && r.frame == hs[k].event.frame && r.power == hs[k].event.power
        && r.recv == At(hs[k].time + hs[k].event.frame.txTime)
        && (!r.error <==> Clear(c, s, hs, k)))
  }

  lemma Prefix(c: Config, s: State, hs: seq<Happening>, h: Happening, k: int)
    requires 0 <= k < |hs|
    ensures (hs + [h])[..k] == hs[..k] && (hs + [h])[k] == hs[k]
    ensures Begins(c, s, hs + [h], k) == Begins(c, s, hs, k)
    ensures Ends(c, s, hs + [h], k) == Ends(c, s, hs, k)
  {
  }

  lemma LastOne(c: Config, s: State, hs: seq<Happening>, h: Happening)
    ensures (hs + [h])[..|hs|] == hs && (hs + [h])[|hs|] == h
    ensures Run(c, s, hs + [h]) == Go(c, Run(c, s, hs), h)
    ensures Begins(c, s, hs + [h], |hs|) <==> h.event.FromPhy? && Enabled(Run(c, s, hs), h.time, h.event)
    ensures Ends(c, s, hs + [h], |hs|) <==> h.event.RecvFires? && Enabled(Run(c, s, hs), h.time, h.event)
  {
    assert (hs + [h])[..|hs|] == hs;
  }

  /** One more happening that is not the start of a frame. */
  lemma ClearStays(c: Config, s: State, hs: seq<Happening>, h: Happening, k: int)
    requires 0 <= k < |hs|
    ensures Clear(c, s, hs + [h], k) <==>
      Clear(c, s, hs, k) && (Begins(c, s, hs + [h], |hs|) ==> Drowned(c, h.event.power, hs[k].event.power))
  {
    var hs' := hs + [h];
    hide Run, Enabled, Drowned, TakesOver;
    Prefix(c, s, hs, h, k);
    forall j
      ensures k < j && Begins(c, s, hs', j) <==>
        (k < j < |hs| && Begins(c, s, hs, j)) || (j == |hs| && Begins(c, s, hs', |hs|))
      ensures 0 <= j < |hs| ==> hs'[j] == hs[j]
    {
      if 0 <= j < |hs| {
        Prefix(c, s, hs, h, j);
      }
    }
    assert hs'[|hs|] == h;
  }

  ghost predicate SameReception(r: Reception, r': Reception) {
    r'.recv == r.recv && r'.frame == r.frame && r'.error == r.error && r'.power == r.power && r'.cache == r.cache
  }

  lemma SendingDoesNot(c: Config, s: State, p: Packet)
    ensures SameReception(s.rx, SendToMac(c, s, p).rx) && SameReception(s.rx, FromNetwork(s, p, 0.0).rx)
  {
  }

  lemma AssigningDoesNot(c: Config, s: State, p: Packet)
    ensures SameReception(s.rx, AssignSeqNumber(c, s, p).rx) && SameReception(s.rx, SendPacket(c, s, p).rx)
  {
    hide SendToMac;
    var last := if p.newSeq && p.src == c.me then (s.shr.seqNumber + 1) % Wrap32 else s.shr.seqNumber;
    var p1 := Numbered(c, s.shr.seqNumber, p);
    SendingDoesNot(c, s.(shr := s.shr.(seqNumber := last, active := p1)), p1);
  }

  lemma NextDoesNot(c: Config, s: State)
    ensures SameReception(s.rx, NextPacket(c, s).rx)
  {
    hide SendToMac;
    var q := s.shr.queue;
    if q != [] {
      SendingDoesNot(c, s.(shr := s.shr.(queue := q[1..], active := q[0])), q[0]);
    }
  }

  lemma AckDoesNot(c: Config, s: State, flag: bool)
    ensures SameReception(s.rx, FromMacAck(c, s, flag).rx)
  {
    hide SendToMac, SendPacket, NextPacket;
    var p := s.shr.active;
    if flag || p.isAck {
      NextDoesNot(c, s.(tally := s.tally.(done := s.tally.done + 1)));
    } else if !c.continuous && c.me != p.src {
      var s1 := s.(shr := s.shr.(active := p.(delay := c.slotWidth)));
      AssigningDoesNot(c, s1, p.(delay := c.slotWidth));
      NextDoesNot(c, SendPacket(c, s1, p.(delay := c.slotWidth)));
    } else {
      SendingDoesNot(c, s.(shr := s.shr.(active := p.(delay := 0.0))), p.(delay := 0.0));
    }
  }

  lemma {:induction false} ActsDoNot(c: Config, s: State, actions: seq<Action>)
    ensures SameReception(s.rx, OnActs(c, s, actions).rx)
  {
    hide SendPacket;
    if actions != [] {
      var s1, a := OnActs(c, s, actions[..|actions| - 1]), actions[|actions| - 1];
      ActsDoNot(c, s, actions[..|actions| - 1]);
      if a.Submit? {
        AssigningDoesNot(c, s1.(tally := s1.tally.(submitted := s1.tally.submitted + 1)), a.packet);
      }
    }
  }

  /** Only the start and the end of a frame touch what is being received. */
  lemma OthersDoNot(c: Config, s: State, t: real, e: Event)
    requires Enabled(s, t, e) && !e.FromPhy? && !e.RecvFires?
    ensures SameReception(s.rx, Step(c, s, t, e).rx)
  {
    hide OnActs, AssignSeqNumber, FromNetwork, FromMacAck, NonePast;
    var s1 := s.(clock := t);
    match e
    case Acts(actions) => ActsDoNot(c, s1, actions);
    case DelayFires(k) =>
      var d := s.shr.delayed;
      AssigningDoesNot(c, s1.(shr := s1.shr.(delayed := d[..k] + d[k + 1..])), d[k].packet);
    case TransitFires => SendingDoesNot(c, s1.(shr := s1.shr.(transit := Off)), s1.shr.transitPacket);
    case SendFires => AckDoesNot(c, s1.(mac := s1.mac.(send := Off, mode := Idle)), !s1.rx.srCollision);
    case AckFires => AckDoesNot(c, s1.(mac := s1.mac.(ack := Off, mode := Idle)), s1.mac.ackFlag);
    case DeferFires(_) =>
  }

  lemma EndOff(c: Config, s: State, t: real, actions: seq<Action>)
    requires c.Valid() && Enabled(s, t, RecvFires(actions))
    ensures Step(c, s, t, RecvFires(actions)).rx.recv == Off
  {
    var s1 := ResumeDefer(c, s.(clock := t, rx := s.rx.(recv := Off)));
    var p := s.rx.frame;
    ActsDoNot(c, s1.(rx := s1.rx.(cache := s1.rx.cache[p.sa := p.seqNo])), actions);
  }

  /** The start of a frame, in terms of powers. */
  lemma StartSays(c: Config, s: State, t: real, f: Frame, error: bool, power: real)
    requires c.Valid() && Enabled(s, t, FromPhy(f, error, power))
    ensures var r, r' := s.rx, Step(c, s, t, FromPhy(f, error, power)).rx;
      var mine := r'.frame == f && r'.power == power && r'.recv == At(t + f.txTime);
      && (r.recv == Off || TakesOver(c, power, r.power) ==> mine && r'.error == error)
      && (r.recv.At? && Drowned(c, power, r.power) ==> SameReception(r, r'))
      && (r.recv.At? && !TakesOver(c, power, r.power) && !Drowned(c, power, r.power) ==>
            && r'.error
            && if t + f.txTime > r.recv.time then mine
               else r'.frame == r.frame && r'.power == r.power && r'.recv == r.recv)
  {
  }

  /** In every run, what is being received is a frame whose start was heard, and
      it is without error exactly if that frame came clear. */
  lemma {:induction false} ReceptionIs(c: Config, s: State, hs: seq<Happening>)
    requires c.Valid() && IsStart(s) && Run(c, s, hs).rx.recv.At?
    ensures exists k :: Receives(c, s, hs, k)
  {
    hide Run, Enabled, Step, Drowned, TakesOver, Clear;
    if hs == [] {
      NothingYet(c, s);
    } else {
      var first, h := hs[..|hs| - 1], hs[|hs| - 1];
      assert hs == first + [h];
      LastOne(c, s, first, h);
      var before := Run(c, s, first);
      if !Enabled(before, h.time, h.event) {
        ReceptionIs(c, s, first);
        var k :| Receives(c, s, first, k);
        Prefix(c, s, first, h, k);
        ClearStays(c, s, first, h, k);
        assert Receives(c, s, hs, k);
      } else if h.event.RecvFires? {
        EndOff(c, before, h.time, h.event.actions);
        assert false;
      } else if h.event.FromPhy? {
        StartSays(c, before, h.time, h.event.frame, h.event.error, h.event.power);
        ClearNow(c, s, first, h);
        if before.rx.recv.At? {
          ReceptionIs(c, s, first);
          var k :| Receives(c, s, first, k);
          Prefix(c, s, first, h, k);
          ClearStays(c, s, first, h, k);
          assert Receives(c, s, hs, k) || Receives(c, s, hs, |first|);
        } else {
          assert Receives(c, s, hs, |first|);
        }
      } else {
        OthersDoNot(c, before, h.time, h.event);
        ReceptionIs(c, s, first);
        var k :| Receives(c, s, first, k);
        Prefix(c, s, first, h, k);
        ClearStays(c, s, first, h, k);
        assert Receives(c, s, hs, k);
      }
    }
  }

  lemma NothingYet(c: Config, s: State)
    requires IsStart(s)
    ensures Run(c, s, []).rx.recv == Off
  {
  }

  /** A frame whose start has just been heard. */
  lemma ClearNow(c: Config, s: State, hs: seq<Happening>, h: Happening)
    requires h.event.FromPhy? && Enabled(Run(c, s, hs), h.time, h.event)
    ensures var r := Run(c, s, hs).rx;
      Clear(c, s, hs + [h], |hs|) <==> !h.event.error && (r.recv.At? ==> TakesOver(c, h.event.power, r.power))
  {
    hide Run, Enabled, Drowned, TakesOver;
    LastOne(c, s, hs, h);
  }

  lemma ClearBegins(c: Config, s: State, hs: seq<Happening>, k: int)
    requires Clear(c, s, hs, k)
    ensures Begins(c, s, hs, k)
  {
  }

  /** A frame that comes clear is what is being received until it ends. */
  lemma {:induction false} ClearIsReceived(c: Config, s: State, hs: seq<Happening>, k: int)
    requires c.Valid() && IsStart(s) && Clear(c, s, hs, k) && forall j :: k < j ==> !Ends(c, s, hs, j)
    ensures Receives(c, s, hs, k)
    decreases |hs|
  {
    var first, h := hs[..|hs| - 1], hs[|hs| - 1];
    assert hs == first + [h];
    LastOne(c, s, first, h);
    var before := Run(c, s, first);
    hide Run, Enabled, Step, Drowned, TakesOver, Clear;
    ClearBegins(c, s, hs, k);
    if k == |first| {
      StartSays(c, before, h.time, h.event.frame, h.event.error, h.event.power);
      ClearNow(c, s, first, h);
    } else {
      Prefix(c, s, first, h, k);
      ClearStays(c, s, first, h, k);
      forall j | k < j
        ensures !Ends(c, s, first, j)
      {
        if 0 <= j < |first| {
          Prefix(c, s, first, h, j);
          assert !Ends(c, s, hs, j);
        }
      }
      ClearIsReceived(c, s, first, k);
      assert !Ends(c, s, hs, |first|);
      if Enabled(before, h.time, h.event) {
        if h.event.FromPhy? {
          StartSays(c, before, h.time, h.event.frame, h.event.error, h.event.power);
        } else {
          OthersDoNot(c, before, h.time, h.event);
        }
      }
    }
  }

  datatype Heard = Nothing | Number(seqNo: nat)

  /** The frame is taken: it is without error, and the node sent nothing itself
      since it began. */
  ghost predicate Taken(s: State, t: real) {
    !s.rx.error && s.mac.txEnd <= t - s.rx.frame.txTime
  }

  /** The number of the frame that was last taken from a node. */
  ghost function LastTaken(c: Config, s: State, hs: seq<Happening>, sa: int): Heard {
    if hs == [] then Nothing
    else
      var first, h := hs[..|hs| - 1], hs[|hs| - 1];
      var before := Run(c, s, first);
      if Ends(c, s, hs, |first|) && Taken(before, h.time) && before.rx.frame.sa == sa then Number(before.rx.frame.seqNo)
      else LastTaken(c, s, first, sa)
  }

  /** After a reception the MAC goes on deferring, and SHR is as it was. */
  ghost predicate Resumed(c: Config, s: State, t: real, s': State) {
    && s'.clock == t && s'.shr == s.shr && s'.tally == s.tally && s'.rx.recv == Off
    && s'.mac == if s.mac.mode == Defer then s.mac.(deferStart := t, defer := At(t + s.mac.delay + c.ifs)) else s.mac
  }

  /** The end of a frame: SHR does something about it exactly if it is taken and
      its number is not that of the frame last taken from its sender. */
  lemma EndSays(c: Config, s: State, t: real, actions: seq<Action>)
    requires Enabled(s, t, RecvFires(actions))
    ensures var s', p := Step(c, s, t, RecvFires(actions)), s.rx.frame;
      var known := p.sa in s.rx.cache && s.rx.cache[p.sa] == p.seqNo;
      && s'.rx.cache == (if Taken(s, t) then s.rx.cache[p.sa := p.seqNo] else s.rx.cache)
      && exists mid :: Resumed(c, s, t, mid) && s' == if Taken(s, t) && !known then OnActs(c, mid, actions) else mid
  {
    var p := s.rx.frame;
    var s1 := ResumeDefer(c, s.(clock := t, rx := s.rx.(recv := Off)));
    var s2 := s1.(rx := s1.rx.(cache := s1.rx.cache[p.sa := p.seqNo]));
    hide OnActs, NonePast;
    ActsDoNot(c, s2, actions);
    assert Resumed(c, s, t, s1) && Resumed(c, s, t, s2);
    assert p.sa in s.rx.cache && s.rx.cache[p.sa] == p.seqNo ==> s.rx.cache[p.sa := p.seqNo] == s.rx.cache;
  }

  lemma {:induction false} CacheIs(c: Config, s: State, hs: seq<Happening>, sa: int)
    requires c.Valid() && IsStart(s) && s.rx.cache == map[]
    ensures var cache := Run(c, s, hs).rx.cache;
      LastTaken(c, s, hs, sa) == if sa in cache then Number(cache[sa]) else Nothing
  {
    hide Enabled, Step, Taken;
    if hs != [] {
      var first, h := hs[..|hs| - 1], hs[|hs| - 1];
      assert hs == first + [h];
      CacheIs(c, s, first, sa);
      LastOne(c, s, first, h);
      var before := Run(c, s, first);
      if Enabled(before, h.time, h.event) {
        match h.event
        case RecvFires(actions) => EndSays(c, before, h.time, actions);
        case FromPhy(f, error, power) => StartCache(c, before, h.time, f, error, power);
        case _ => OthersDoNot(c, before, h.time, h.event);
      }
    }
  }

  lemma StartCache(c: Config, s: State, t: real, f: Frame, error: bool, power: real)
    requires Enabled(s, t, FromPhy(f, error, power))
    ensures Step(c, s, t, FromPhy(f, error, power)).rx.cache == s.rx.cache
  {
  }

  /** In every run SHR hears of a frame at its end exactly if it came clear, the
      node sent nothing since it began, and its number differs from that of the
      frame taken last from its sender. */
  lemma HearsSays(c: Config, s: State, hs: seq<Happening>, t: real, actions: seq<Action>)
    requires c.Valid() && IsStart(s) && s.rx.cache == map[] && Enabled(Run(c, s, hs), t, RecvFires(actions))
    ensures exists k :: Receives(c, s, hs, k)
    ensures forall k :: Receives(c, s, hs, k) ==>
      var before, after := Run(c, s, hs), Run(c, s, hs + [Happening(t, RecvFires(actions))]);
      var p := hs[k].event.frame;
      var hears := Clear(c, s, hs, k) && before.mac.txEnd <= hs[k].time && LastTaken(c, s, hs, p.sa) != Number(p.seqNo);
      exists mid :: Resumed(c, before, t, mid) && after == if hears then OnActs(c, mid, actions) else mid
  {
    var h := Happening(t, RecvFires(actions));
    ReceptionIs(c, s, hs);
    LastOne(c, s, hs, h);
    EndSays(c, Run(c, s, hs), t, actions);
    forall k | Receives(c, s, hs, k)
      ensures var before, after, p := Run(c, s, hs), Run(c, s, hs + [h]), hs[k].event.frame;
        var hears := Clear(c, s, hs, k) && before.mac.txEnd <= hs[k].time && LastTaken(c, s, hs, p.sa) != Number(p.seqNo);
        exists mid :: Resumed(c, before, t, mid) && after == if hears then OnActs(c, mid, actions) else mid
    {
      hide Run, Step, Resumed, Clear, LastTaken, OnActs;
      CacheIs(c, s, hs, hs[k].event.frame.sa);
    }
  }

  /** A deferral that has just begun: SHR always asks for no backoff. */
  ghost predicate NewDeferral(s: State) {
    && s.mac.mode == Defer && s.mac.delay == 0.0
    && (s.rx.recv == Off ==> s.mac.deferStart == s.clock && s.mac.defer == At(s.clock))
  }

  /** From s to s' the MAC's deferral is the same, or has been cancelled, or is
      a new one where there was none. */
  ghost predicate Defers(s: State, s': State) {
    && s'.clock == s.clock && s'.rx.recv == s.rx.recv
    && (s'.mac == s.mac
        || (s'.mac.mode != Defer && (s.mac.mode == Defer ==> s'.mac.ack.At?))
        || (s.mac.mode != Defer && NewDeferral(s')))
  }

  lemma SendToMacDefers(c: Config, s: State, p: Packet)
    requires s.mac.mode != Defer
    ensures Defers(s, SendToMac(c, s, p))
  {
  }

  lemma SubmitDefers(c: Config, s: State, p: Packet)
    requires OneTask(s)
    ensures Defers(s, SendPacket(c, s, p)) && (s.shr.busy ==> SendPacket(c, s, p).mac == s.mac)
  {
    var p1 := Numbered(c, s.shr.seqNumber, p);
    var last := if p.newSeq && p.src == c.me then (s.shr.seqNumber + 1) % Wrap32 else s.shr.seqNumber;
    if p.delay == 0.0 && !s.shr.busy {
      SendToMacDefers(c, s.(shr := s.shr.(seqNumber := last, active := p1)), p1);
    }
  }

  lemma {:induction false} ActsDefer(c: Config, s: State, actions: seq<Action>)
    requires c.Valid() && Inv(c, s) && GoodActions(actions)
    ensures Defers(s, OnActs(c, s, actions))
  {
    if actions != [] {
      var first, a := actions[..|actions| - 1], actions[|actions| - 1];
      assert GoodActions(first);
      ActsDefer(c, s, first);
      ActsKeep(c, s, first);
      var s1 := OnActs(c, s, first);
      assert OneTask(s1);
      hide OnActs, Inv, SendPacket;
      if a.Submit? {
        var s2 := s1.(tally := s1.tally.(submitted := s1.tally.submitted + 1));
        SubmitDefers(c, s2, a.packet);
      }
    }
  }

  lemma AckDefers(c: Config, s: State, flag: bool)
    requires c.Valid() && Rest(c, s) && NoTask(s) && s.shr.busy && 0.0 <= c.slotWidth
    ensures FromMacAck(c, s, flag).mac.mode != Defer || NewDeferral(FromMacAck(c, s, flag))
  {
    hide Rest;
    var p := s.shr.active;
    var q := s.shr.queue;
    if !flag && !p.isAck && !c.continuous && c.me != p.src {
      var s1 := s.(shr := s.shr.(active := p.(delay := c.slotWidth)));
      RestActive(c, s, p.(delay := c.slotWidth));
      SendWhileBusy(c, s1, p.(delay := c.slotWidth));
    }
  }

  /** How one step changes a deferral. */
  lemma StepDefers(c: Config, s: State, t: real, e: Event)
    requires c.Valid() && Inv(c, s) && Enabled(s, t, e)
    ensures var s' := Step(c, s, t, e);
      && (s.mac.mode != Defer && s'.mac.mode == Defer ==> NewDeferral(s'))
      && (s.mac.mode == Defer && s'.mac.mode == Defer ==>
            && s'.mac.payload == s.mac.payload
            && if e.FromPhy? && s.rx.recv == Off then
                 s'.mac.defer == Off && s'.mac.delay == s.mac.delay - (t - s.mac.deferStart)
               else if e.RecvFires? then
                 s'.mac.deferStart == t && s'.mac.delay == s.mac.delay && s'.mac.defer == At(t + s.mac.delay + c.ifs)
               else s'.mac == s.mac)
      && (e.FromPhy? ==> s'.rx.recv.At?) && (!e.FromPhy? && !e.RecvFires? ==> s'.rx.recv == s.rx.recv)
      && (e.RecvFires? ==> s.rx.recv.At? && s'.rx.recv == Off)
  {
    var s1 := s.(clock := t);
    TimePasses(c, s, t);
    ShrLaws.Ready(c, s1);
    match e
    case Acts(actions) => ActsDefer(c, s1, actions);
    case DelayFires(k) =>
      OthersDoNot(c, s, t, e);
      DelayDefers(c, s1, k);
    case TransitFires =>
      OthersDoNot(c, s, t, e);
      TransitKeeps(c, s1);
    case FromPhy(f, error, power) =>
    case DeferFires(txTime) =>
    case RecvFires(actions) =>
      EndOff(c, s, t, actions);
      RecvDefers(c, s1, actions);
    case SendFires =>
      OthersDoNot(c, s, t, e);
      AckDefers(c, s1.(mac := s1.mac.(send := Off, mode := Idle)), !s1.rx.srCollision);
    case AckFires =>
      OthersDoNot(c, s, t, e);
      AckDefers(c, s1.(mac := s1.mac.(ack := Off, mode := Idle)), s1.mac.ackFlag);
  }

  lemma DelayDefers(c: Config, s: State, k: nat)
    requires Inv(c, s) && k < |s.shr.delayed|
    ensures Defers(s, OnDelay(c, s, k)) && (s.shr.busy ==> OnDelay(c, s, k).mac == s.mac)
  {
    var d := s.shr.delayed;
    var s1 := s.(shr := s.shr.(delayed := d[..k] + d[k + 1..]));
    var p := d[k].packet;
    var p1 := Numbered(c, s.shr.seqNumber, p);
    var last := if p.newSeq && p.src == c.me then (s.shr.seqNumber + 1) % Wrap32 else s.shr.seqNumber;
    if !s.shr.busy {
      SendToMacDefers(c, s1.(shr := s1.shr.(seqNumber := last, active := p1)), p1);
    }
  }

  lemma RecvDefers(c: Config, s: State, actions: seq<Action>)
    requires c.Valid() && Inv(c, s) && s.rx.recv == At(s.clock) && GoodActions(actions)
    ensures var s' := OnRecv(c, s, actions);
      && (s.mac.mode != Defer && s'.mac.mode == Defer ==> NewDeferral(s'))
      && (s.mac.mode == Defer && s'.mac.mode == Defer ==>
            s'.mac == s.mac.(deferStart := s.clock, defer := At(s.clock + s.mac.delay + c.ifs)))
  {
    var s1 := ResumeDefer(c, s.(rx := s.rx.(recv := Off)));
    ResumeKeeps(c, s);
    var p := s.rx.frame;
    var s2 := s1.(rx := s1.rx.(cache := s1.rx.cache[p.sa := p.seqNo]));
    CacheOnly(c, s1, s2);
    hide Inv, OnActs;
    ActsDefer(c, s2, actions);
  }

  /** The time spent deferring since the MAC got its packet, without the
      deferral that is going on. */
  ghost function Spent(c: Config, s: State, hs: seq<Happening>): real {
    if hs == [] then 0.0
    else
      var first, h := hs[..|hs| - 1], hs[|hs| - 1];
      var before := Run(c, s, first);
      if before.mac.mode != Defer then 0.0
      else if Begins(c, s, hs, |first|) && before.rx.recv == Off then
        Spent(c, s, first) + (h.time - before.mac.deferStart)
      else Spent(c, s, first)
  }

  /** Something has been received since. */
  ghost predicate Paused(c: Config, s: State, hs: seq<Happening>) {
    hs != [] &&
    var first := hs[..|hs| - 1];
    if Run(c, s, first).mac.mode != Defer then Run(c, s, hs).rx.recv.At?
    else Paused(c, s, first) || Begins(c, s, hs, |first|)
  }

  /** In every run a deferral ends when the backoff of zero, less the time spent
      deferring before, is over, with IFS on top if anything was received. */
  lemma {:induction false} DeferralIs(c: Config, s: State, hs: seq<Happening>)
    requires c.Valid() && IsStart(s) && Run(c, s, hs).mac.mode == Defer
    ensures var m := Run(c, s, hs).mac;
      && m.delay == 0.0 - Spent(c, s, hs)
      && (Run(c, s, hs).rx.recv.At? ==> Paused(c, s, hs))
      && (m.defer.At? ==> m.defer.time == m.deferStart + m.delay + if Paused(c, s, hs) then c.ifs else 0.0)
  {
    hide Enabled, Step, Inv;
    if hs == [] {
      StartIdle(c, s);
    } else {
      var first, h := hs[..|hs| - 1], hs[|hs| - 1];
      assert hs == first + [h];
      LastOne(c, s, first, h);
      RunKeepsInv(c, s, first);
      var before := Run(c, s, first);
      if before.mac.mode == Defer {
        DeferralIs(c, s, first);
      }
      if Enabled(before, h.time, h.event) {
        StepDefers(c, before, h.time, h.event);
      }
      DeferModes(c, s, first);
      DeferModes(c, s, hs);
    }
  }

  lemma StartIdle(c: Config, s: State)
    requires IsStart(s)
    ensures Run(c, s, []).mac.mode == Idle
  {
  }

  lemma DeferModes(c: Config, s: State, hs: seq<Happening>)
    requires c.Valid() && IsStart(s)
    ensures var r := Run(c, s, hs); r.mac.mode == Defer ==> (r.mac.defer.At? <==> r.rx.recv == Off)
  {
    RunKeepsInv(c, s, hs);
  }
}
