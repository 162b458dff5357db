/** The 802.11 MAC behind the buffering queue of fifo_ack.h: the queue hands
    the MAC one request at a time and waits for its acknowledgement. */
module MacStation {
  import opened MacStates
  import opened MacInvariant
  import opened MacRuns

  datatype Fifo = Fifo(busy: bool, queue: seq<Request>)
  {
    /** The inport in. */
    function In(r: Request): Fifo {
      if busy then this.(queue := queue + [r]) else this.(busy := true)
    }

    /** The inport next. */
    function Next(): Fifo {
      if queue == [] then this.(busy := false) else this.(queue := queue[1..])
    }
  }

  /** A call of an outport, if there is one. */
  datatype Call<T> = NoCall | Call(arg: T)

  /** FIFOACK3 of fifo_ack.h. */
  class FifoAck {
    const noBuffer: bool
    var busy: bool
    var queue: seq<Request>

    function State(): Fifo
      reads this
    {
      Fifo(busy, queue)
    }

    constructor (noBuffer: bool)
      ensures this.noBuffer == noBuffer && State() == Fifo(false, [])
    {
      this.noBuffer := noBuffer;
      busy, queue := false, [];
    }

    /** Passes a request through or keeps it; the sender is told at once that
        all is well, unless requests are not kept. */
    method In(r: Request) returns (out: Call<Request>, ack: Call<bool>)
      modifies this
      ensures noBuffer ==> State() == old(State()) && out == Call(r) && ack == NoCall
      ensures !noBuffer ==> State() == old(State()).In(r) && ack == Call(true)
      ensures !noBuffer ==> out == if old(busy) then NoCall else Call(r)
    {
      out, ack := NoCall, NoCall;
      if !noBuffer {
        if !busy {
          busy := true;
          out := Call(r);
        } else {
          queue := queue + [r];
        }
        ack := Call(true);
      } else {
        out := Call(r);
      }
    }

    /** The server is free: it gets the oldest request kept. */
    method Next(flag: bool) returns (out: Call<Request>, ack: Call<bool>)
      modifies this
      ensures noBuffer ==> State() == old(State()) && out == NoCall && ack == Call(flag)
      ensures !noBuffer ==> State() == old(State()).Next() && ack == NoCall
      ensures !noBuffer ==> out == if old(queue) == [] then NoCall else Call(old(queue)[0])
    {
      out, ack := NoCall, NoCall;
      if !noBuffer {
        if |queue| > 0 {
          out := Call(queue[0]);
          queue := queue[1..];
        } else {
          busy := false;
        }
      } else {
        ack := Call(flag);
      }
    }
  }

  /** arrived is every request that the upper layer has handed to the queue. */
  datatype Station = Station(fifo: Fifo, mac: State, arrived: seq<Request>)

  datatype StationEvent =
    | Arrival(request: Request, draw: real)
    | OfMac(event: Event, spare: real)   // spare: the draw if the step ends with a new request

  /** The queue's inport next, which the MAC calls with every acknowledgement.
      A refused request is acknowledged at once, and next is called again. */
  ghost function Next(c: Config, st: Station, draw: real): Station
    requires c.Valid()
    decreases |st.fifo.queue|, 0
  {
    if st.fifo.queue == [] then st.(fifo := st.fifo.Next())
    else Hand(c, st.(fifo := st.fifo.Next()), st.fifo.queue[0], draw)
  }

  ghost function Hand(c: Config, st: Station, r: Request, draw: real): Station
    requires c.Valid()
    decreases |st.fifo.queue|, 1
  {
    var st' := st.(mac := OnNetwork(c, st.mac, r, draw));
    if st.mac.job.mode == Idle then st' else Next(c, st', draw)
  }

  ghost function StationStep(c: Config, st: Station, t: real, e: StationEvent): Station
    requires c.Valid()
  {
    match e
    case Arrival(r, draw) =>
      var st1 := Station(st.fifo.In(r), st.mac.(clock := t), st.arrived + [r]);
      if st.fifo.busy then st1 else Hand(c, st1, r, draw)
    case OfMac(e1, spare) =>
      var st1 := st.(mac := Step(c, st.mac, t, e1));
      if Acks(st1.mac.acts) == Acks(st.mac.acts) then st1 else Next(c, st1, spare)
  }

  ghost predicate StationEnabled(st: Station, t: real, e: StationEvent) {
    match e
    case Arrival(r, draw) => Enabled(st.mac, t, FromNetwork(r, draw))
    case OfMac(e1, spare) => Enabled(st.mac, t, e1) && !e1.FromNetwork? && IsDraw(spare)
  }

  /** The requests that the MAC took on, in order. */
  ghost function Accepted(acts: seq<Act>): seq<Request> {
    if acts == [] then []
    else
      var a := acts[|acts| - 1];
      if a.Accept? then Accepted(acts[..|acts| - 1]) + [a.request] else Accepted(acts[..|acts| - 1])
  }

  /** Every request accepted was acknowledged before the next was accepted,
      and the last one has been acknowledged exactly if open is false. */
  ghost predicate Alternates(acts: seq<Act>, open: bool) {
    if acts == [] then !open
    else
      var first := acts[..|acts| - 1];
      match acts[|acts| - 1]
      case Accept(_) => open && Alternates(first, false)
      case NetworkAck(_) => !open && Alternates(first, true)
      case _ => Alternates(first, open)
  }

  ghost predicate StationInv(c: Config, st: Station) {
    && Inv(c, st.mac)
    && Pending(st.mac) == (if st.fifo.busy then 1 else 0)
    && (!st.fifo.busy ==> st.fifo.queue == [])
    && st.arrived == Accepted(st.mac.acts) + st.fifo.queue
    && Alternates(st.mac.acts, st.fifo.busy)
  }

  lemma {:induction false} AddsKeeps(a: seq<Act>, a': seq<Act>, open: bool)
    requires Adds(a, a') && Alternates(a, open)
    ensures Accepted(a') == Accepted(a)
    ensures Acks(a) <= Acks(a') <= Acks(a) + 1
    ensures Acks(a') == Acks(a) ==> Alternates(a', open)
    ensures Acks(a') != Acks(a) && open ==> Alternates(a', false)
    decreases |a'|
  {
    if |a| < |a'| {
      var first := a'[..|a'| - 1];
      assert first[..|a|] == a;
      if a'[|a'| - 1].NetworkAck? {
        NoAckAdded(a, first);
      }
      AddsKeeps(a, first, open);
    } else {
      assert a' == a;
    }
  }

  lemma {:induction false} NoAckAdded(a: seq<Act>, a': seq<Act>)
    requires |a| <= |a'| && a'[..|a|] == a && forall i :: |a| <= i < |a'| ==> !a'[i].NetworkAck?
    ensures Acks(a') == Acks(a)
    decreases |a'|
  {
    if |a| < |a'| {
      assert a'[..|a'| - 1][..|a|] == a;
      NoAckAdded(a, a'[..|a'| - 1]);
    } else {
      assert a' == a;
    }
  }

  lemma AcceptAdds(c: Config, s: State, r: Request, draw: real)
    requires c.Valid() && s.job.mode == Idle && Alternates(s.acts, false)
    ensures var a := OnNetwork(c, s, r, draw).acts;
      Accepted(a) == Accepted(s.acts) + [r] && Alternates(a, true)
  {
    hide StartDefer;
    StartDeferSends(c, Log(s.(job := NewJob(c, s.job, r)), Accept(r)), false, draw);
    assert (s.acts + [Accept(r)])[..|s.acts|] == s.acts;
  }

  /** Handing a request to an idle MAC. */
  lemma HandKeeps(c: Config, st: Station, r: Request, draw: real)
    requires c.Valid() && IsDraw(draw) && Inv(c, st.mac) && Pending(st.mac) == 0 && st.fifo.busy
    requires st.arrived == Accepted(st.mac.acts) + [r] + st.fifo.queue && Alternates(st.mac.acts, false)
    ensures StationInv(c, Hand(c, st, r, draw)) && Hand(c, st, r, draw).arrived == st.arrived
    ensures Hand(c, st, r, draw).fifo == st.fifo
  {
    hide Inv, OnNetwork, Accepted, Alternates;
    AcceptAdds(c, st.mac, r, draw);
    NetworkKeeps(c, st.mac, r, draw);
    AcceptPends(c, st.mac, r, draw);
  }

  lemma AcceptPends(c: Config, s: State, r: Request, draw: real)
    requires c.Valid() && Pending(s) == 0
    ensures Pending(OnNetwork(c, s, r, draw)) == 1
  {
    hide Air, Drawn;
  }

  lemma NextKeeps(c: Config, st: Station, draw: real)
    requires c.Valid() && IsDraw(draw) && Inv(c, st.mac) && Pending(st.mac) == 0 && st.fifo.busy
    requires st.arrived == Accepted(st.mac.acts) + st.fifo.queue && Alternates(st.mac.acts, false)
    ensures StationInv(c, Next(c, st, draw)) && Next(c, st, draw).arrived == st.arrived
  {
    hide Inv, Accepted, Alternates, Hand, Pending;
    if st.fifo.queue != [] {
      var r := st.fifo.queue[0];
      assert st.fifo.queue == [r] + st.fifo.queue[1..];
      assert st.arrived == Accepted(st.mac.acts) + [r] + st.fifo.queue[1..];
      HandKeeps(c, st.(fifo := st.fifo.Next()), r, draw);
    }
  }

  /** The queue never has a request refused: it is busy exactly while the MAC
      has one that is not acknowledged, and requests are accepted in the order
      in which they arrived. */
  lemma StationKeeps(c: Config, st: Station, t: real, e: StationEvent)
    requires c.Valid() && StationInv(c, st) && StationEnabled(st, t, e)
    ensures StationInv(c, StationStep(c, st, t, e))
  {
    hide Inv, Accepted, Alternates, Hand, Next, Pending, Step, Adds, Acks;
    match e
    case Arrival(r, draw) =>
      TimePasses(c, st.mac, t);
      SamePending(st.mac, t);
      if !st.fifo.busy {
        HandKeeps(c, Station(st.fifo.In(r), st.mac.(clock := t), st.arrived + [r]), r, draw);
      }
    case OfMac(e1, spare) =>
      StepKeeps(c, st.mac, t, e1);
      StepAdds(c, st.mac, t, e1);
      var st1 := st.(mac := Step(c, st.mac, t, e1));
      AddsKeeps(st.mac.acts, st1.mac.acts, st.fifo.busy);
      if Acks(st1.mac.acts) != Acks(st.mac.acts) {
        NextKeeps(c, st1, spare);
      }
  }

  lemma SamePending(s: State, t: real)
    ensures Pending(s.(clock := t)) == Pending(s)
  {
  }

  datatype StationHappening = StationHappening(time: real, event: StationEvent)

  ghost function StationRun(c: Config, st: Station, hs: seq<StationHappening>): Station
    requires c.Valid()
  {
    if hs == [] then st
    else
      var h := hs[|hs| - 1];
      StationStep(c, StationRun(c, st, hs[..|hs| - 1]), h.time, h.event)
  }

  ghost predicate StationLegal(c: Config, st: Station, hs: seq<StationHappening>)
    requires c.Valid()
  {
    hs != [] ==>
      var first, h := hs[..|hs| - 1], hs[|hs| - 1];
      StationLegal(c, st, first) && StationEnabled(StationRun(c, st, first), h.time, h.event)
  }

  ghost predicate StationStarts(st: Station) {
    IsStart(st.mac) && st.fifo == Fifo(false, []) && st.arrived == []
  }

  lemma {:induction false} StationRunKeeps(c: Config, st: Station, hs: seq<StationHappening>)
    requires c.Valid() && StationStarts(st) && StationLegal(c, st, hs)
    ensures StationInv(c, StationRun(c, st, hs))
  {
    hide StationStep, StationEnabled;
    if hs == [] {
      StartKeeps(c, st.mac);
    } else {
      hide StationInv;
      var first, h := hs[..|hs| - 1], hs[|hs| - 1];
      StationRunKeeps(c, st, first);
      StationKeeps(c, StationRun(c, st, first), h.time, h.event);
    }
  }

  /** Nothing is ever refused: as many acknowledgements as requests taken on,
      but for one that may be under way. */
  lemma {:induction false} NoneRefused(acts: seq<Act>, open: bool)
    requires Alternates(acts, open)
    ensures |Accepted(acts)| == Acks(acts) + if open then 1 else 0
  {
    if acts != [] {
      var first, a := acts[..|acts| - 1], acts[|acts| - 1];
      NoneRefused(first, if a.Accept? then false else if a.NetworkAck? then true else open);
    }
  }

  lemma {:induction false} CarriesAt(acts: seq<Act>, i: int)
    requires Carries(acts) && 0 <= i < |acts| && acts[i].OnAir? && acts[i].frame.kind.Data?
    ensures Accepted(acts[..i]) != [] && acts[i].frame.payload == Accepted(acts[..i])[|Accepted(acts[..i])| - 1].payload
  {
    var first := acts[..|acts| - 1];
    if i < |first| {
      CarriesAt(first, i);
      assert first[..i] == acts[..i];
    } else {
      var r :| LastAccepted(first, r) && r.payload == acts[i].frame.payload;
      LastIsLast(first, r);
    }
  }

  lemma {:induction false} LastIsLast(acts: seq<Act>, r: Request)
    requires LastAccepted(acts, r)
    ensures Accepted(acts) != [] && Accepted(acts)[|Accepted(acts)| - 1] == r
  {
    if !acts[|acts| - 1].Accept? {
      LastIsLast(acts[..|acts| - 1], r);
    }
  }

  lemma {:induction false} AcceptedGrows(acts: seq<Act>, i: int, j: int)
    requires 0 <= i <= j <= |acts|
    ensures Accepted(acts[..i]) <= Accepted(acts[..j])
    decreases j
  {
    if i < j {
      AcceptedGrows(acts, i, j - 1);
      assert acts[..j][..j - 1] == acts[..j - 1];
    }
  }

  /** Payloads go on the air in the order in which the upper layer handed them
      to the queue: a later data frame never carries an earlier arrival. */
  lemma PayloadsInOrder(c: Config, st: Station, hs: seq<StationHappening>, i: int, j: int)
    requires c.Valid() && StationStarts(st) && StationLegal(c, st, hs)
    requires 0 <= i < j < |StationRun(c, st, hs).mac.acts|
    requires StationRun(c, st, hs).mac.acts[i].OnAir? && StationRun(c, st, hs).mac.acts[i].frame.kind.Data?
    requires StationRun(c, st, hs).mac.acts[j].OnAir? && StationRun(c, st, hs).mac.acts[j].frame.kind.Data?
    ensures var end := StationRun(c, st, hs);
      exists m, n :: 0 <= m <= n < |end.arrived| && end.mac.acts[i].frame.payload == end.arrived[m].payload
        && end.mac.acts[j].frame.payload == end.arrived[n].payload
  {
    StationRunKeeps(c, st, hs);
    var end := StationRun(c, st, hs);
    var acts := end.mac.acts;
    CarriesAt(acts, i);
    CarriesAt(acts, j);
    AcceptedGrows(acts, i, j);
    AcceptedGrows(acts, j, |acts|);
    assert acts[..|acts|] == acts;
    var m, n := |Accepted(acts[..i])| - 1, |Accepted(acts[..j])| - 1;
    assert acts[i].frame.payload == end.arrived[m].payload && acts[j].frame.payload == end.arrived[n].payload;
  }
}
