/** Any number of nodes running flooding.h, with frames lost, delayed,
    overtaken and repeated at will. */
module FloodNetwork {
  import opened SeqWindows

  type Address = int
  const Broadcast: Address := -1

  datatype Packet = Packet(src: Address, dst: Address, number: int)

  /** m_mac_busy, m_seq_number and m_seq_cache. */
  datatype Node = Node(busy: bool, last: int, cache: map<Address, Window>)

  datatype Sent = Sent(from: Address, packet: Packet)

  /** All that was ever transmitted and delivered, in order. */
  datatype Net = Net(nodes: map<Address, Node>, air: seq<Sent>, delivered: seq<Sent>)

  datatype Event =
    | FromTransport(at: Address, dst: Address)
    | FromMac(at: Address, k: nat)
    | BusyChanges(at: Address, busy: bool)     // a delayed packet departs, or the MAC acknowledges

  ghost function Cached(n: Node, src: Address): Window {
    if src in n.cache then n.cache[src] else Window(0, Cleared())
  }

  ghost predicate GoodNode(n: Node) {
    forall src :: src in n.cache ==> IsWindow(n.cache[src])
  }

  /** The node's window says that this number from this source was seen. */
  ghost predicate Seen(n: Node, src: Address, number: int, span: nat)
    requires GoodNode(n) && span <= Width
  {
    Answer(Cached(n, src), number, span)
  }

  ghost function Checked(n: Node, src: Address, number: int, span: nat): Node
    requires GoodNode(n) && span <= Width
  {
    n.(cache := n.cache[src := After(Cached(n, src), number, span)])
  }

  /** What a step leaves behind, transmits and hands up. */
  datatype Outcome = Outcome(node: Node, sent: seq<Packet>, up: seq<Packet>)

  ghost function OnTransport(me: Address, n: Node, dst: Address, span: nat): Outcome
    requires GoodNode(n) && span <= Width
  {
    if n.busy then Outcome(n, [], [])
    else
      var number := n.last + 1;
      Outcome(Checked(n, me, number, span).(last := number, busy := true), [Packet(me, dst, number)], [])
  }

  /** A packet is new if its source's window does not know it; then it is handed
      up here, or sent on unless the MAC is busy. */
  ghost function OnMacData(me: Address, n: Node, p: Packet, span: nat): Outcome
    requires GoodNode(n) && span <= Width
  {
    var n' := Checked(n, p.src, p.number, span);
    if Seen(n, p.src, p.number, span) then Outcome(n', [], [])
    else if p.dst == me || p.dst == Broadcast then Outcome(n', [], [p])
    else Outcome(n', if n.busy then [] else [p], [])
  }

  /** The component Flooding of flooding.h. */
  class Flooding {
    const me: Address
    const span: nat
    var macBusy: bool
    var seqNumber: int
    var seqCache: map<Address, Window>

    ghost function State(): Node
      reads this
    {
      Node(macBusy, seqNumber, seqCache)
    }

    constructor (me: Address, span: nat)
      requires span <= Width
      ensures this.me == me && this.span == span && State() == Node(false, 1, map[me := Window(0, Cleared())])
      ensures GoodNode(State())
    {
      this.me, this.span := me, span;
      macBusy, seqNumber, seqCache := false, 1, map[me := Window(0, Cleared())];
    }

    /** The check of one source's window, which is made if it is not there. */
    method Check(src: Address, number: int) returns (seen: bool)
      requires GoodNode(State()) && span <= Width
      modifies this`seqCache
      ensures GoodNode(State()) && State() == Checked(old(State()), src, number, span)
      ensures seen == Seen(old(State()), src, number, span)
    {
      hide Answer, After;
      if src !in seqCache {
        seqCache := seqCache[src := Window(0, Cleared())];
      }
      var sequence := new SeqNumber.Of(span, seqCache[src]);
      seen := sequence.Check(number);
      seqCache := seqCache[src := sequence.State()];
      assert seqCache == Checked(old(State()), src, number, span).cache;
    }

    method FromTransport(dst: Address) returns (sent: seq<Packet>)
      requires GoodNode(State()) && span <= Width
      modifies this
      ensures GoodNode(State()) && Outcome(State(), sent, []) == OnTransport(me, old(State()), dst, span)
    {
      sent := [];
      if macBusy {
        return;
      }
      seqNumber := seqNumber + 1;
      var seen := Check(me, seqNumber);
      macBusy := true;
      sent := [Packet(me, dst, seqNumber)];
    }

    method FromMacData(p: Packet) returns (sent: seq<Packet>, up: seq<Packet>)
      requires GoodNode(State()) && span <= Width
      modifies this
      ensures GoodNode(State()) && Outcome(State(), sent, up) == OnMacData(me, old(State()), p, span)
    {
      sent, up := [], [];
      var seen := Check(p.src, p.number);
      if !seen {
        if p.dst == me || p.dst == Broadcast {
          up := [p];
        } else if !macBusy {
          sent := [p];
        }
      }
    }

    method FromMacAck()
      modifies this`macBusy
      ensures State() == old(State()).(busy := false)
    {
      macBusy := false;
    }

    /** A packet whose forwarding was put off goes to the MAC. */
    method Depart()
      modifies this`macBusy
      ensures State() == old(State()).(busy := true)
    {
      macBusy := true;
    }
  }

  ghost predicate Enabled(net: Net, e: Event) {
    e.at in net.nodes && (e.FromMac? ==> e.k < |net.air|)
  }

  ghost function Stamped(from: Address, ps: seq<Packet>): seq<Sent> {
    if ps == [] then [] else [Sent(from, ps[0])] + Stamped(from, ps[1..])
  }

  lemma StampedOne(from: Address, p: Packet)
    ensures Stamped(from, [p]) == [Sent(from, p)]
  {
    assert [p][1..] == [];
  }

  ghost function Apply(net: Net, at: Address, out: Outcome): Net {
    Net(net.nodes[at := out.node], net.air + Stamped(at, out.sent), net.delivered + Stamped(at, out.up))
  }

  ghost function Step(net: Net, e: Event, span: nat): Net
    requires Enabled(net, e) && GoodNode(net.nodes[e.at]) && span <= Width
  {
    var n := net.nodes[e.at];
    match e
    case FromTransport(at, dst) => Apply(net, at, OnTransport(at, n, dst, span))
    case FromMac(at, k) => Apply(net, at, OnMacData(at, n, net.air[k].packet, span))
    case BusyChanges(at, busy) => Apply(net, at, Outcome(n.(busy := busy), [], []))
  }

  ghost predicate Same(s: Sent, t: Sent) {
    s.from == t.from && s.packet.src == t.packet.src && s.packet.number == t.packet.number
  }

  ghost predicate AllDifferent(log: seq<Sent>) {
    forall i, j :: 0 <= i < j < |log| ==> !Same(log[i], log[j])
  }

  /** Whoever transmitted or delivered a packet has seen it, and nobody has
      numbered a packet that its source has not got to. */
  ghost predicate Known(net: Net, s: Sent, span: nat)
    requires span <= Width
  {
    && s.from in net.nodes && GoodNode(net.nodes[s.from]) && Seen(net.nodes[s.from], s.packet.src, s.packet.number, span)
    && s.packet.src in net.nodes && s.packet.number <= net.nodes[s.packet.src].last
  }

  ghost predicate Inv(net: Net, span: nat)
    requires span <= Width
  {
    && (forall a :: a in net.nodes ==> GoodNode(net.nodes[a]))
    && (forall i :: 0 <= i < |net.air| ==> Known(net, net.air[i], span))
    && (forall i :: 0 <= i < |net.delivered| ==> Known(net, net.delivered[i], span))
    && AllDifferent(net.air) && AllDifferent(net.delivered)
  }

  /** What was seen stays seen, and what was just checked is seen. */
  lemma SeenStays(w: Window, n: int, m: int, span: nat)
    requires IsWindow(w) && 0 < span <= Width && (Answer(w, m, span) || m == n)
    ensures Answer(After(w, n, span), m, span)
  {
  }

  lemma KnownStays(net: Net, net': Net, s: Sent, at: Address, src: Address, number: int, span: nat)
    requires 0 < span <= Width && Known(net, s, span) && at in net.nodes && GoodNode(net.nodes[at])
    requires at in net'.nodes && net'.nodes == net.nodes[at := net'.nodes[at]]
    requires net'.nodes[at].cache == Checked(net.nodes[at], src, number, span).cache
    requires net.nodes[at].last <= net'.nodes[at].last
    ensures Known(net', s, span)
  {
    if s.from == at {
      if Answer(Cached(net.nodes[at], src), s.packet.number, span) {
        SeenStays(Cached(net.nodes[at], src), number, s.packet.number, span);
      }
    }
  }

  lemma Appended(log: seq<Sent>, s: Sent)
    requires AllDifferent(log) && forall i :: 0 <= i < |log| ==> !Same(log[i], s)
    ensures AllDifferent(log + [s])
  {
  }

  lemma StepKeeps(net: Net, e: Event, span: nat)
    requires 0 < span <= Width && Inv(net, span) && Enabled(net, e)
    ensures Inv(Step(net, e, span), span)
  {
    hide Answer, After, Same;
    var n := net.nodes[e.at];
    match e
    case FromTransport(at, dst) =>
      if !n.busy {
        SendKeeps(net, at, dst, span);
      }
    case FromMac(at, k) => HearKeeps(net, at, k, span);
    case BusyChanges(at, busy) => BusyKeeps(net, at, busy, span);
  }

  /** Whether the MAC is taken for busy matters for what is dropped, but not for
      what has been seen, sent or handed up. */
  lemma BusyKeeps(net: Net, at: Address, busy: bool, span: nat)
    requires 0 < span <= Width && Inv(net, span) && at in net.nodes
    ensures var net' := Step(net, BusyChanges(at, busy), span);
      && Inv(net', span) && net'.air == net.air && net'.delivered == net.delivered
      && forall src, number :: Seen(net'.nodes[at], src, number, span) == Seen(net.nodes[at], src, number, span)
  {
    hide Answer, After, Same;
    var net' := Step(net, BusyChanges(at, busy), span);
    forall s | Known(net, s, span)
      ensures Known(net', s, span)
    {
    }
  }

  lemma SendKeeps(net: Net, at: Address, dst: Address, span: nat)
    requires 0 < span <= Width && Inv(net, span) && at in net.nodes && !net.nodes[at].busy
    ensures Inv(Step(net, FromTransport(at, dst), span), span)
  {
    hide Answer, After;
    var n := net.nodes[at];
    var net' := Step(net, FromTransport(at, dst), span);
    var s := Sent(at, Packet(at, dst, n.last + 1));
    SeenStays(Cached(n, at), n.last + 1, n.last + 1, span);
    forall t | Known(net, t, span)
      ensures Known(net', t, span)
    {
      KnownStays(net, net', t, at, at, n.last + 1, span);
    }
    StampedOne(at, s.packet);
    Appended(net.air, s);
  }

  lemma HearKeeps(net: Net, at: Address, k: nat, span: nat)
    requires 0 < span <= Width && Inv(net, span) && at in net.nodes && k < |net.air|
    ensures Inv(Step(net, FromMac(at, k), span), span)
  {
    hide Answer, After;
    var n, p := net.nodes[at], net.air[k].packet;
    var net' := Step(net, FromMac(at, k), span);
    var s := Sent(at, p);
    assert Known(net, net.air[k], span);
    SeenStays(Cached(n, p.src), p.number, p.number, span);
    forall t | Known(net, t, span)
      ensures Known(net', t, span)
    {
      KnownStays(net, net', t, at, p.src, p.number, span);
    }
    if !Seen(n, p.src, p.number, span) {
      forall t | Known(net, t, span)
        ensures !Same(t, s)
      {
      }
      StampedOne(at, p);
      Appended(net.air, s);
      Appended(net.delivered, s);
    }
  }

  ghost function Run(start: Net, es: seq<Event>, span: nat): Net
    requires 0 < span <= Width
  {
    if es == [] then start
    else
      var net, e := Run(start, es[..|es| - 1], span), es[|es| - 1];
      if Enabled(net, e) && GoodNode(net.nodes[e.at]) then Step(net, e, span) else net
  }

  ghost predicate Starts(net: Net) {
    && net.air == [] && net.delivered == []
    && forall a :: a in net.nodes ==> net.nodes[a] == Node(false, 1, map[a := Window(0, Cleared())])
  }

  lemma {:induction false} RunKeeps(start: Net, es: seq<Event>, span: nat)
    requires 0 < span <= Width && Starts(start)
    ensures Inv(Run(start, es, span), span)
  {
    hide Step;
    if es != [] {
      var first, e := es[..|es| - 1], es[|es| - 1];
      RunKeeps(start, first, span);
      var net := Run(start, first, span);
      if Enabled(net, e) {
        StepKeeps(net, e, span);
      }
    }
  }

  /** In every network, each node transmits each packet at most once and
      delivers it at most once. */
  lemma AtMostOnce(start: Net, es: seq<Event>, span: nat, i: int, j: int)
    requires 0 < span <= Width && Starts(start) && 0 <= i < j
    ensures j < |Run(start, es, span).air| ==> !Same(Run(start, es, span).air[i], Run(start, es, span).air[j])
    ensures j < |Run(start, es, span).delivered| ==>
      !Same(Run(start, es, span).delivered[i], Run(start, es, span).delivered[j])
  {
    RunKeeps(start, es, span);
  }
}
