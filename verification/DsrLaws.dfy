/** What dynamic source routing achieves: requests find their destination and
    replies their way back, and data stays what it was. */
module DsrLaws {
  import opened DsrNodes
  import opened DsrNetwork

  /** A step that can happen happens. */
  lemma StepIs(links: Links, net: Net, e: Event)
    requires NetInv(links, net) && Enabled(links, net, e)
    ensures AssertsHold(net, e) && NetInv(links, Step(links, net, e))
    ensures Step(links, net, e) ==
      match e
      case Send(at, payload, dst) => After(net, at, FromTransport(at, net.nodes[at], payload, dst))
      case Hear(at, k) => After(net, at, Receive(at, net.nodes[at], net.air[k].frame.packet))
  {
    hide NetInv, After;
    StepKeeps(links, net, e);
  }

  /** No node has seen a request that its source has not made yet. */
  ghost predicate NoneAhead(net: Net) {
    forall a, s :: a in net.nodes && s in net.nodes ==> SeenLast(net.nodes[a], s) <= net.nodes[s].lastId
  }

  /** What hearing a packet does to the request table. */
  lemma HeardSeen(me: Address, n: Node, p: Packet)
    requires Sound(me, n, p)
    ensures var n' := Receive(me, n, p).node;
      && n'.lastId == n.lastId
      && forall s :: SeenLast(n', s) == if p.Rreq? && s == p.src && me !in p.route && SeenLast(n, s) < p.id
                                        then p.id else SeenLast(n, s)
  {
  }

  lemma StepKeepsNoneAhead(links: Links, net: Net, e: Event)
    requires NetInv(links, net) && NoneAhead(net)
    ensures NoneAhead(Step(links, net, e))
  {
    if Enabled(links, net, e) {
      StepIs(links, net, e);
      match e
      case Send(at, _, _) =>
        assert GoodNode(links, net.nodes.Keys, at, net.nodes[at]);
      case Hear(at, k) =>
        assert GoodFrame(links, net, net.air[k]);
        hide NetInv, Receive, Sound, SeenLast, Leads, Way;
        HeardSeen(at, net.nodes[at], net.air[k].frame.packet);
    }
  }

  lemma {:induction false} RunKeepsNoneAhead(links: Links, start: Net, es: seq<Event>)
    requires Starts(start)
    ensures NoneAhead(Run(links, start, es))
  {
    hide Step, NetInv, NoneAhead;
    if es == [] {
      NothingAhead(start);
    } else {
      var first := es[..|es| - 1];
      RunKeepsNoneAhead(links, start, first);
      RunKeeps(links, start, first);
      StepKeepsNoneAhead(links, Run(links, start, first), es[|es| - 1]);
    }
  }

  lemma NothingAhead(start: Net)
    requires Starts(start)
    ensures NoneAhead(start)
  {
  }

  /** A way that can be gone in both directions. */
  ghost predicate RoundWay(links: Links, net: Net, w: seq<Address>) {
    && 2 <= |w| <= TimeToLive + 1 && Way(links, net.nodes.Keys, w)
    && forall i :: 0 < i < |w| ==> (w[i], w[i - 1]) in links
  }

  ghost function Last(w: seq<Address>): Address
    requires w != []
  {
    w[|w| - 1]
  }

  /** Node w[j] hears the reply that is frame k, and after it all nodes before
      it on the way, each the reply that the one behind it passed on. */
  ghost function Back(links: Links, net: Net, w: seq<Address>, j: nat, k: nat): seq<Event>
    requires j < |w|
    decreases j
  {
    var e := Hear(w[j], k);
    if j == 0 then [e] else [e] + Back(links, Step(links, net, e), w, j - 1, |net.air|)
  }

  /** Node w[j] hears the request that is frame k, and after it all nodes behind
      it on the way; then the reply goes back. */
  ghost function Forth(links: Links, net: Net, w: seq<Address>, j: nat, k: nat): seq<Event>
    requires 0 < j < |w|
    decreases |w| - j
  {
    var e := Hear(w[j], k);
    var net' := Step(links, net, e);
    [e] + if j < |w| - 1 then Forth(links, net', w, j + 1, |net.air|) else Back(links, net', w, j - 1, |net.air|)
  }

  /** A node sends to the end of a way, and what it sends is heard along it. */
  ghost function Discovery(links: Links, net: Net, w: seq<Address>, payload: nat): seq<Event>
    requires 2 <= |w|
  {
    var e := Send(w[0], payload, Last(w));
    [e] + Forth(links, Step(links, net, e), w, 1, |net.air|)
  }

  /** From net to net' the first node of the way has learnt the way to the last
      and sent all data that waited for it. */
  ghost predicate Learnt(net: Net, net': Net, w: seq<Address>)
    requires 2 <= |w|
  {
    var path := w[1..] + [0];
    && w[0] in net.nodes && w[0] in net'.nodes && net.air <= net'.air
    && Last(w) in net'.nodes[w[0]].cache && net'.nodes[w[0]].cache[Last(w)] == path
    && (forall q :: q in net.nodes[w[0]].waiting && q.Data? && q.dst == Last(w) ==>
          Sent(w[0], Frame(w[1], Data(q.src, q.dst, path, q.payload))) in net'.air)
    && (forall q :: q in net'.nodes[w[0]].waiting ==> q.Data? && q.dst != Last(w))
  }

  lemma RunOn(links: Links, net: Net, e: Event, es: seq<Event>)
    ensures Run(links, net, [e] + es) == Run(links, Step(links, net, e), es)
    decreases |es|
  {
    if es == [] {
      assert [e][..0] == [];
      assert [e] + es == [e];
    } else {
      var first := es[..|es| - 1];
      RunOn(links, net, e, first);
      assert ([e] + es)[..|es|] == [e] + first;
    }
  }

  lemma PositionOn(links: Links, nodes: set<Address>, w: seq<Address>, j: nat)
    requires Way(links, nodes, w) && j < |w|
    ensures w[j] in w && Position(w, w[j]) == j && w[j] in nodes
    ensures w[j] !in w[..j]
  {
  }

  /** What the first node of a way does with the reply. */
  lemma ReplyReleases(me: Address, n: Node, p: Packet)
    requires Sound(me, n, p) && p.Rrep? && me == p.dst && p.src !in n.cache
    ensures var path := Truncated(p.route, Position(p.route, me), 0);
      var out := ReceiveRrep(me, n, p);
      && p.src in out.node.cache && out.node.cache[p.src] == path
      && (forall q :: q in n.waiting && q.dst == p.src ==> Frame(path[0], Data(q.src, q.dst, path, q.payload)) in out.frames)
      && (forall q :: q in out.node.waiting ==> q.Data? && q.dst != p.src)
  {
    var path := Truncated(p.route, Position(p.route, me), 0);
    StillWaitingAre(n.waiting, p.src);
    ReleasedHas(n.waiting, p.src, path);
  }

  /** Whatever waits for a destination is released. */
  lemma {:induction false} ReleasedHas(waiting: seq<Packet>, dst: Address, route: seq<Address>)
    requires route != [] && forall i :: 0 <= i < |waiting| ==> waiting[i].Data?
    ensures forall q :: q in waiting && q.dst == dst ==>
      Frame(route[0], Data(q.src, q.dst, route, q.payload)) in Released(waiting, dst, route)
  {
    if waiting != [] {
      ReleasedHas(waiting[1..], dst, route);
      assert forall q :: q in waiting <==> q == waiting[0] || q in waiting[1..];
    }
  }

  lemma StampedHas(from: Address, frames: seq<Frame>)
    ensures |Stamped(from, frames)| == |frames|
    ensures forall f :: f in frames ==> Sent(from, f) in Stamped(from, frames)
    ensures forall i :: 0 <= i < |frames| ==> Stamped(from, frames)[i] == Sent(from, frames[i])
  {
    forall f | f in frames
      ensures Sent(from, f) in Stamped(from, frames)
    {
      var i :| 0 <= i < |frames| && frames[i] == f;
      assert Stamped(from, frames)[i] == Sent(from, f);
    }
  }

  ghost predicate ReplyAt(net: Net, w: seq<Address>, j: nat, k: nat)
    requires j + 1 < |w|
  {
    k < |net.air| && net.air[k] == Sent(w[j + 1], Frame(w[j], Rrep(Last(w), w[0], w)))
  }

  lemma BackStep(links: Links, net: Net, w: seq<Address>, j: nat, k: nat)
    requires NetInv(links, net) && RoundWay(links, net, w) && j + 1 < |w| && ReplyAt(net, w, j, k)
    requires Last(w) !in net.nodes[w[0]].cache
    ensures var net' := Step(links, net, Hear(w[j], k));
      && NetInv(links, net') && net'.nodes.Keys == net.nodes.Keys && net.air <= net'.air
      && (j > 0 ==> net'.nodes[w[0]] == net.nodes[w[0]] && ReplyAt(net', w, j - 1, |net.air|))
      && (j == 0 ==> Learnt(net, net', w))
  {
    var p, at := net.air[k].frame.packet, w[j];
    PositionOn(links, net.nodes.Keys, w, j);
    StepIs(links, net, Hear(at, k));
    hide NetInv, Position;
    var out := ReceiveRrep(at, net.nodes[at], p);
    StampedHas(at, out.frames);
    if j > 0 {
      assert out.frames[0] == Frame(w[j - 1], p);
      assert Step(links, net, Hear(at, k)).air[|net.air|] == Stamped(at, out.frames)[0];
    } else {
      ReplyReleases(at, net.nodes[at], p);
    }
  }

  /** A reply that has started gets back to the first node. */
  lemma {:induction false} BackArrives(links: Links, net: Net, w: seq<Address>, j: nat, k: nat)
    requires NetInv(links, net) && RoundWay(links, net, w) && j + 1 < |w| && ReplyAt(net, w, j, k)
    requires Last(w) !in net.nodes[w[0]].cache
    ensures Learnt(net, Run(links, net, Back(links, net, w, j, k)), w)
    decreases j
  {
    hide NetInv, Step, Learnt, ReplyAt;
    var e := Hear(w[j], k);
    var net' := Step(links, net, e);
    BackStep(links, net, w, j, k);
    if j == 0 {
      RunOn(links, net, e, []);
      assert [e] + [] == [e];
    } else {
      BackArrives(links, net', w, j - 1, |net.air|);
      RunOn(links, net, e, Back(links, net', w, j - 1, |net.air|));
      LearntFrom(net, net', Run(links, net', Back(links, net', w, j - 1, |net.air|)), w);
    }
  }

  lemma LearntFrom(net: Net, net': Net, net'': Net, w: seq<Address>)
    requires 2 <= |w| && Learnt(net', net'', w) && net.air <= net'.air
    requires w[0] in net.nodes && w[0] in net'.nodes && net'.nodes[w[0]].waiting == net.nodes[w[0]].waiting
    ensures Learnt(net, net'', w)
  {
  }

  /** The request has come as far as node w[j - 1], and is new to all behind it. */
  ghost predicate RequestAt(net: Net, w: seq<Address>, j: nat, k: nat, id: int)
    requires 0 < j < |w| <= TimeToLive + 1
  {
    && k < |net.air|
    && net.air[k] == Sent(w[j - 1], Frame(Broadcast, Rreq(TimeToLive - j, w[0], Last(w), id, w[..j])))
    && forall i :: j <= i < |w| ==> w[i] in net.nodes && SeenLast(net.nodes[w[i]], w[0]) < id
  }

  /** What a node does with a request that is new to it. */
  lemma NewRequest(me: Address, n: Node, p: Packet)
    requires Sound(me, n, p) && p.Rreq? && SeenLast(n, p.src) < p.id && me !in p.route && (p.dst == me || 0 < p.ttl)
    ensures Receive(me, n, p).frames ==
      [if p.dst == me then Frame(p.route[|p.route| - 1], Rrep(me, p.src, p.route + [me]))
       else Frame(Broadcast, Rreq(p.ttl - 1, p.src, p.dst, p.id, p.route + [me]))]
  {
  }

  lemma ForthStep(links: Links, net: Net, w: seq<Address>, j: nat, k: nat, id: int)
    requires NetInv(links, net) && RoundWay(links, net, w) && 0 < j < |w| && RequestAt(net, w, j, k, id)
    ensures var net' := Step(links, net, Hear(w[j], k));
      && NetInv(links, net') && net'.nodes.Keys == net.nodes.Keys && net.air <= net'.air
      && net'.nodes[w[0]] == net.nodes[w[0]]
      && (j + 1 < |w| ==> RequestAt(net', w, j + 1, |net.air|, id))
      && (j + 1 == |w| ==> ReplyAt(net', w, j - 1, |net.air|))
  {
    var p, at := net.air[k].frame.packet, w[j];
    var net' := Step(links, net, Hear(at, k));
    PositionOn(links, net.nodes.Keys, w, j);
    StepIs(links, net, Hear(at, k));
    hide NetInv, Position, Receive;
    assert at in net.nodes && w[..j] + [at] == w[..j + 1];
    var out := Receive(at, net.nodes[at], p);
    NewRequest(at, net.nodes[at], p);
    StampedHas(at, out.frames);
    assert net'.air[|net.air|] == Stamped(at, out.frames)[0];
    if j + 1 == |w| {
      assert w[..j + 1] == w && p.route[|p.route| - 1] == w[j - 1];
    }
  }

  lemma {:induction false} ForthArrives(links: Links, net: Net, w: seq<Address>, j: nat, k: nat, id: int)
    requires NetInv(links, net) && RoundWay(links, net, w) && 0 < j < |w| && RequestAt(net, w, j, k, id)
    requires Last(w) !in net.nodes[w[0]].cache
    ensures Learnt(net, Run(links, net, Forth(links, net, w, j, k)), w)
    decreases |w| - j
  {
    hide NetInv, Step, Learnt, ReplyAt, RequestAt;
    var e := Hear(w[j], k);
    var net' := Step(links, net, e);
    ForthStep(links, net, w, j, k, id);
    if j + 1 < |w| {
      ForthArrives(links, net', w, j + 1, |net.air|, id);
      RunOn(links, net, e, Forth(links, net', w, j + 1, |net.air|));
      LearntFrom(net, net', Run(links, net', Forth(links, net', w, j + 1, |net.air|)), w);
    } else {
      BackArrives(links, net', w, j - 1, |net.air|);
      RunOn(links, net, e, Back(links, net', w, j - 1, |net.air|));
      LearntFrom(net, net', Run(links, net', Back(links, net', w, j - 1, |net.air|)), w);
    }
  }

  /** A send without a known route puts the data by and a new request on the air. */
  lemma SendStarts(links: Links, net: Net, w: seq<Address>, payload: nat)
    requires NetInv(links, net) && NoneAhead(net) && RoundWay(links, net, w)
    requires Last(w) !in net.nodes[w[0]].cache
    ensures var net' := Step(links, net, Send(w[0], payload, Last(w)));
      && NetInv(links, net') && net'.nodes.Keys == net.nodes.Keys && net.air <= net'.air
      && RequestAt(net', w, 1, |net.air|, net.nodes[w[0]].lastId + 1)
      && net'.nodes[w[0]].cache == net.nodes[w[0]].cache
      && net'.nodes[w[0]].waiting == net.nodes[w[0]].waiting + [Data(w[0], Last(w), [], payload)]
  {
    var e := Send(w[0], payload, Last(w));
    PositionOn(links, net.nodes.Keys, w, 0);
    PositionOn(links, net.nodes.Keys, w, |w| - 1);
    assert GoodNode(links, net.nodes.Keys, Last(w), net.nodes[Last(w)]);
    StepIs(links, net, e);
    hide NetInv, Position;
    var out := FromTransport(w[0], net.nodes[w[0]], payload, Last(w));
    StampedHas(w[0], out.frames);
    assert w[..1] == [w[0]];
  }

  /** Route discovery works: in any reachable network, if a node that knows no
      route sends to the end of a way of at most ten hops, and what is sent is
      heard along the way and back, then the node learns the way, and its data,
      old and new, is on the air along it. */
  lemma Discovers(links: Links, start: Net, es: seq<Event>, w: seq<Address>, payload: nat)
    requires Starts(start) && RoundWay(links, Run(links, start, es), w)
    requires Last(w) !in Run(links, start, es).nodes[w[0]].cache
    ensures var net := Run(links, start, es);
      var net' := Run(links, net, Discovery(links, net, w, payload));
      && Learnt(net, net', w)
      && Sent(w[0], Frame(w[1], Data(w[0], Last(w), w[1..] + [0], payload))) in net'.air
  {
    var net := Run(links, start, es);
    RunKeeps(links, start, es);
    RunKeepsNoneAhead(links, start, es);
    SendStarts(links, net, w, payload);
    hide NetInv, NoneAhead, Step, RequestAt, Run;
    var e := Send(w[0], payload, Last(w));
    var sent := Step(links, net, e);
    ForthArrives(links, sent, w, 1, |net.air|, net.nodes[w[0]].lastId + 1);
    RunOn(links, net, e, Forth(links, sent, w, 1, |net.air|));
    var waiting := sent.nodes[w[0]].waiting;
    assert waiting[|waiting| - 1] == Data(w[0], Last(w), [], payload);
  }

  /** The triple of source, destination and payload of a data packet is one of
      those in sends. */
  ghost predicate Handed(p: Packet, sends: seq<Event>) {
    p.Data? ==> Send(p.src, p.payload, p.dst) in sends
  }

  ghost predicate AllHanded(net: Net, sends: seq<Event>) {
    && (forall i :: 0 <= i < |net.air| ==> Handed(net.air[i].frame.packet, sends))
    && forall a :: a in net.nodes ==> WaitingHanded(net.nodes[a].waiting, sends)
  }

  ghost predicate WaitingHanded(waiting: seq<Packet>, sends: seq<Event>) {
    forall q :: q in waiting ==> Handed(q, sends)
  }

  /** Released packets are waiting packets with a route. */
  lemma {:induction false} ReleasedAreWaiting(waiting: seq<Packet>, dst: Address, route: seq<Address>, sends: seq<Event>)
    requires route != [] && (forall i :: 0 <= i < |waiting| ==> waiting[i].Data?) && WaitingHanded(waiting, sends)
    ensures forall f :: f in Released(waiting, dst, route) ==> Handed(f.packet, sends)
  {
    if waiting != [] {
      assert waiting[0] in waiting && forall q :: q in waiting[1..] ==> q in waiting;
      ReleasedAreWaiting(waiting[1..], dst, route, sends);
    }
  }

  lemma HeardKeepsHanded(me: Address, n: Node, p: Packet, sends: seq<Event>)
    requires Sound(me, n, p) && Handed(p, sends) && WaitingHanded(n.waiting, sends)
    ensures WaitingHanded(Receive(me, n, p).node.waiting, sends)
    ensures forall f :: f in Receive(me, n, p).frames ==> Handed(f.packet, sends)
  {
    if p.Rrep? {
      var path := Truncated(p.route, Position(p.route, me), 0);
      StillWaitingAre(n.waiting, p.src);
      ReleasedAreWaiting(n.waiting, p.src, path, sends);
    }
  }

  lemma StepKeepsHanded(links: Links, net: Net, e: Event, sends: seq<Event>)
    requires NetInv(links, net) && AllHanded(net, sends)
    ensures AllHanded(Step(links, net, e), sends + [e])
  {
    assert forall x :: x in sends ==> x in sends + [e];
    assert e in sends + [e];
    if Enabled(links, net, e) {
      StepIs(links, net, e);
      hide NetInv, Receive, Enabled, Sound;
      match e
      case Send(at, payload, dst) =>
        StampedHas(at, FromTransport(at, net.nodes[at], payload, dst).frames);
      case Hear(at, k) =>
        HeardKeepsHanded(at, net.nodes[at], net.air[k].frame.packet, sends + [e]);
        StampedHas(at, Receive(at, net.nodes[at], net.air[k].frame.packet).frames);
    }
  }

  /** In every run, every data packet on the air or waiting carries a payload
      that its source was given for its destination. */
  lemma {:induction false} DataIsHanded(links: Links, start: Net, es: seq<Event>)
    requires Starts(start)
    ensures AllHanded(Run(links, start, es), es)
  {
    hide Step, NetInv, AllHanded;
    if es == [] {
      NothingHanded(start);
    } else {
      var first := es[..|es| - 1];
      DataIsHanded(links, start, first);
      RunKeeps(links, start, first);
      StepKeepsHanded(links, Run(links, start, first), es[|es| - 1], first);
      assert first + [es[|es| - 1]] == es;
    }
  }

  lemma NothingHanded(start: Net)
    requires Starts(start)
    ensures AllHanded(start, [])
  {
  }

  /** A node that hears data on its way sends it on with everything but the
      first hop, and at its destination sends nothing. */
  lemma HopKeeps(links: Links, net: Net, at: Address, k: nat)
    requires NetInv(links, net) && Enabled(links, net, Hear(at, k)) && net.air[k].frame.packet.Data?
    ensures var net', p := Step(links, net, Hear(at, k)), net.air[k].frame.packet;
      && net'.nodes == net.nodes && (at != p.dst ==> 2 <= |p.route|)
      && net'.air == net.air + if at == p.dst then []
           else [Sent(at, Frame(p.route[1], Data(p.src, p.dst, p.route[1..], p.payload)))]
  {
    var p := net.air[k].frame.packet;
    StepIs(links, net, Hear(at, k));
    hide NetInv;
    StampedHas(at, ReceiveData(at, net.nodes[at], p).frames);
    assert net.nodes[at := net.nodes[at]] == net.nodes;
  }

  /** A node that hears a reply knows a route to its origin afterwards that is
      no longer than the one it heard of, nor than the one it knew. */
  lemma ReplyTeaches(links: Links, net: Net, at: Address, k: nat)
    requires NetInv(links, net) && Enabled(links, net, Hear(at, k)) && net.air[k].frame.packet.Rrep?
    ensures var net', p := Step(links, net, Hear(at, k)), net.air[k].frame.packet;
      var known, knows, heard := net.nodes[at].cache, net'.nodes[at].cache, p.route[Position(p.route, at) + 1..] + [0];
      && p.src in knows && (knows[p.src] == heard || (p.src in known && knows[p.src] == known[p.src]))
      && |knows[p.src]| <= |heard| && (p.src in known ==> |knows[p.src]| <= |known[p.src]|)
      && (forall d :: d != p.src ==> (d in knows <==> d in known) && (d in known ==> knows[d] == known[d]))
  {
    StepIs(links, net, Hear(at, k));
    hide NetInv, Position;
    assert Sound(at, net.nodes[at], net.air[k].frame.packet);
  }

  /** Routes are forgotten by nobody, and only ever replaced by shorter ones. */
  lemma RoutesShrink(links: Links, net: Net, e: Event, a: Address, d: Address)
    requires NetInv(links, net) && a in net.nodes && d in net.nodes[a].cache
    ensures var net' := Step(links, net, e);
      && a in net'.nodes && d in net'.nodes[a].cache
      && (net'.nodes[a].cache[d] == net.nodes[a].cache[d] || |net'.nodes[a].cache[d]| < |net.nodes[a].cache[d]|)
  {
    if Enabled(links, net, e) {
      StepIs(links, net, e);
      hide NetInv, Receive, Sound;
      if e.Hear? && e.at == a {
        HeardRoutes(a, net.nodes[a], net.air[e.k].frame.packet, d);
      }
    }
  }

  lemma HeardRoutes(me: Address, n: Node, p: Packet, d: Address)
    requires Sound(me, n, p) && d in n.cache
    ensures var n' := Receive(me, n, p).node;
      d in n'.cache && (n'.cache[d] == n.cache[d] || |n'.cache[d]| < |n.cache[d]|)
  {
    hide Released, StillWaiting, Position;
  }

  /** With a known route data goes out at once, along it. */
  lemma SendsAlong(links: Links, net: Net, at: Address, payload: nat, dst: Address)
    requires NetInv(links, net) && Enabled(links, net, Send(at, payload, dst)) && dst in net.nodes[at].cache
    ensures var net', route := Step(links, net, Send(at, payload, dst)), net.nodes[at].cache[dst];
      && net'.nodes == net.nodes && route != []
      && net'.air == net.air + [Sent(at, Frame(route[0], Data(at, dst, route, payload)))]
  {
    StepIs(links, net, Send(at, payload, dst));
    hide NetInv;
    StampedHas(at, FromTransport(at, net.nodes[at], payload, dst).frames);
    assert net.nodes[at := net.nodes[at]] == net.nodes;
  }

  /** A request that was heard before, or that has come through this node, or
      that has come too far, is not answered or passed on. */
  lemma StaleRequest(links: Links, net: Net, at: Address, k: nat)
    requires NetInv(links, net) && Enabled(links, net, Hear(at, k)) && net.air[k].frame.packet.Rreq?
    ensures var net', p := Step(links, net, Hear(at, k)), net.air[k].frame.packet;
      net'.air == net.air <==> SeenLast(net.nodes[at], p.src) >= p.id || at in p.route || (at != p.dst && p.ttl == 0)
  {
    StepIs(links, net, Hear(at, k));
    assert GoodFrame(links, net, net.air[k]);
    hide NetInv, Position;
    StampedHas(at, ReceiveRreq(at, net.nodes[at], net.air[k].frame.packet).frames);
  }
}
