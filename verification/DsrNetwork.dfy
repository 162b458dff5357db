/** Any number of nodes running dynamic source routing over any topology, with
    frames lost, delayed, overtaken and repeated at will. */
module DsrNetwork {
  import opened DsrNodes

  type Links = set<(Address, Address)>

  /** A frame that was put on the air; it may be received any number of times. */
  datatype Sent = Sent(from: Address, frame: Frame)

  datatype Net = Net(nodes: map<Address, Node>, air: seq<Sent>)

  datatype Event =
    | Send(at: Address, payload: nat, dst: Address)
    | Hear(at: Address, k: nat)

  ghost function Stamped(from: Address, frames: seq<Frame>): seq<Sent> {
    seq(|frames|, i requires 0 <= i < |frames| => Sent(from, frames[i]))
  }

  ghost predicate Enabled(links: Links, net: Net, e: Event) {
    && e.at in net.nodes
    && match e
       case Send(_, _, dst) => dst != Broadcast
       case Hear(at, k) =>
         && k < |net.air| && (net.air[k].from, at) in links
         && (net.air[k].frame.to == at || net.air[k].frame.to == Broadcast)
  }

  ghost function After(net: Net, at: Address, out: Outcome): Net
    requires at in net.nodes
  {
    Net(net.nodes[at := out.node], net.air + Stamped(at, out.frames))
  }

  /** An event that cannot happen changes nothing; nor does one in which an
      assertion of the source would fail, of which there are none. */
  ghost function Step(links: Links, net: Net, e: Event): Net {
    if !Enabled(links, net, e) || !AssertsHold(net, e) then net
    else
      match e
      case Send(at, payload, dst) => After(net, at, FromTransport(at, net.nodes[at], payload, dst))
      case Hear(at, k) => After(net, at, Receive(at, net.nodes[at], net.air[k].frame.packet))
  }

  ghost predicate AssertsHold(net: Net, e: Event)
    requires e.at in net.nodes && (e.Hear? ==> e.k < |net.air|)
  {
    match e
    case Send(at, _, dst) => dst in net.nodes[at].cache ==> 1 <= |net.nodes[at].cache[dst]| <= TimeToLive + 1
    case Hear(at, k) => Sound(at, net.nodes[at], net.air[k].frame.packet)
  }

  ghost function Run(links: Links, start: Net, es: seq<Event>): Net {
    if es == [] then start else Step(links, Run(links, start, es[..|es| - 1]), es[|es| - 1])
  }

  /** A loop-free way through the topology. */
  ghost predicate Way(links: Links, nodes: set<Address>, s: seq<Address>) {
    && s != []
    && (forall i, j :: 0 <= i < j < |s| ==> s[i] != s[j])
    && (forall i :: 0 <= i < |s| ==> s[i] in nodes)
    && (forall i :: 0 < i < |s| ==> (s[i - 1], s[i]) in links)
  }

  /** A stored route leads from a to d; its last slot is not part of it. */
  ghost predicate Leads(links: Links, nodes: set<Address>, a: Address, d: Address, route: seq<Address>) {
    && 2 <= |route| <= TimeToLive + 1
    && route[|route| - 2] == d
    && Way(links, nodes, [a] + route[..|route| - 1])
  }

  ghost predicate GoodRequest(links: Links, net: Net, s: Sent)
    requires s.frame.packet.Rreq?
  {
    var p := s.frame.packet;
    && s.frame.to == Broadcast
    && Way(links, net.nodes.Keys, p.route) && p.route[0] == p.src && p.route[|p.route| - 1] == s.from
    && 0 <= p.ttl && p.ttl + |p.route| == TimeToLive
    && 1 <= p.id && p.src in net.nodes && p.id <= net.nodes[p.src].lastId
    && s.from in net.nodes && p.id <= SeenLast(net.nodes[s.from], p.src)
  }

  /** A reply is on its way back along its route. */
  ghost predicate GoodReply(links: Links, net: Net, s: Sent)
    requires s.frame.packet.Rrep?
  {
    var p := s.frame.packet;
    && Way(links, net.nodes.Keys, p.route) && |p.route| <= TimeToLive + 1
    && p.route[0] == p.dst && p.route[|p.route| - 1] == p.src
    && exists k :: 0 < k < |p.route| && s.from == p.route[k] && s.frame.to == p.route[k - 1]
  }

  ghost predicate GoodData(links: Links, net: Net, s: Sent)
    requires s.frame.packet.Data?
  {
    var p := s.frame.packet;
    Leads(links, net.nodes.Keys, s.from, p.dst, p.route) && s.frame.to == p.route[0]
  }

  ghost predicate GoodFrame(links: Links, net: Net, s: Sent) {
    match s.frame.packet
    case Rreq(_, _, _, _, _) => GoodRequest(links, net, s)
    case Rrep(_, _, _) => GoodReply(links, net, s)
    case Data(_, _, _, _) => GoodData(links, net, s)
  }

  ghost predicate GoodNode(links: Links, nodes: set<Address>, a: Address, n: Node) {
    && a != Broadcast && 0 <= n.lastId && SeenLast(n, a) == n.lastId
    && (forall d :: d in n.cache ==> Leads(links, nodes, a, d, n.cache[d]))
    && (forall i :: 0 <= i < |n.waiting| ==>
          n.waiting[i].Data? && n.waiting[i].src == a && n.waiting[i].dst !in n.cache)
  }

  /** Two requests from one node with the same source and number. */
  ghost predicate SameRequest(s: Sent, t: Sent) {
    && s.frame.packet.Rreq? && t.frame.packet.Rreq? && s.from == t.from
    && s.frame.packet.src == t.frame.packet.src && s.frame.packet.id == t.frame.packet.id
  }

  ghost predicate NetInv(links: Links, net: Net) {
    && (forall i :: 0 <= i < |net.air| ==> GoodFrame(links, net, net.air[i]))
    && (forall a :: a in net.nodes ==> GoodNode(links, net.nodes.Keys, a, net.nodes[a]))
    && (forall i, j :: 0 <= i < j < |net.air| ==> !SameRequest(net.air[i], net.air[j]))
  }

  lemma HeardIsSound(links: Links, net: Net, at: Address, k: nat)
    requires NetInv(links, net) && Enabled(links, net, Hear(at, k))
    ensures Sound(at, net.nodes[at], net.air[k].frame.packet)
  {
    var s := net.air[k];
    assert GoodFrame(links, net, s) && GoodNode(links, net.nodes.Keys, at, net.nodes[at]);
  }

  /** What a step must do to keep the invariant. */
  ghost predicate GoodOutcome(links: Links, net: Net, at: Address, out: Outcome)
    requires at in net.nodes
  {
    var before := net.nodes[at];
    && GoodNode(links, net.nodes.Keys, at, out.node)
    && before.lastId <= out.node.lastId
    && (forall src :: SeenLast(before, src) <= SeenLast(out.node, src))
    && (forall i :: 0 <= i < |out.frames| ==>
          GoodFrame(links, net.(nodes := net.nodes[at := out.node]), Sent(at, out.frames[i])))
    && (forall i :: 0 <= i < |out.frames| && out.frames[i].packet.Rreq? ==>
          |out.frames| == 1 && SeenLast(before, out.frames[i].packet.src) < out.frames[i].packet.id)
  }

  lemma FrameStays(links: Links, net: Net, net': Net, s: Sent)
    requires GoodFrame(links, net, s) && net'.nodes.Keys == net.nodes.Keys
    requires forall a :: a in net.nodes ==> net.nodes[a].lastId <= net'.nodes[a].lastId
    requires forall a, src :: a in net.nodes ==> SeenLast(net.nodes[a], src) <= SeenLast(net'.nodes[a], src)
    ensures GoodFrame(links, net', s)
  {
  }

  lemma OutcomeKeeps(links: Links, net: Net, at: Address, out: Outcome)
    requires NetInv(links, net) && at in net.nodes && GoodOutcome(links, net, at, out)
    ensures NetInv(links, After(net, at, out))
  {
    var net' := After(net, at, out);
    assert net'.nodes.Keys == net.nodes.Keys;
    forall i | 0 <= i < |net'.air|
      ensures GoodFrame(links, net', net'.air[i])
    {
      if i < |net.air| {
        FrameStays(links, net, net', net.air[i]);
      } else {
        var s := Sent(at, out.frames[i - |net.air|]);
        assert net'.air[i] == s;
        FrameStays(links, net.(nodes := net.nodes[at := out.node]), net', s);
      }
    }
    forall i, j | 0 <= i < j < |net'.air|
      ensures !SameRequest(net'.air[i], net'.air[j])
    {
      if |net.air| <= j {
        assert net'.air[j] == Sent(at, out.frames[j - |net.air|]);
        if i < |net.air| {
          assert GoodFrame(links, net, net.air[i]);
        } else {
          assert net'.air[i] == Sent(at, out.frames[i - |net.air|]);
        }
      }
    }
  }

  lemma SendIsGood(links: Links, net: Net, at: Address, payload: nat, dst: Address)
    requires NetInv(links, net) && at in net.nodes && dst != Broadcast
    ensures dst in net.nodes[at].cache ==> 1 <= |net.nodes[at].cache[dst]| <= TimeToLive + 1
    ensures GoodOutcome(links, net, at, FromTransport(at, net.nodes[at], payload, dst))
  {
    assert GoodNode(links, net.nodes.Keys, at, net.nodes[at]);
  }

  lemma WayExtended(links: Links, nodes: set<Address>, s: seq<Address>, a: Address)
    requires Way(links, nodes, s) && a in nodes && a !in s && (s[|s| - 1], a) in links
    ensures Way(links, nodes, s + [a])
  {
  }

  lemma RreqIsGood(links: Links, net: Net, at: Address, k: nat)
    requires NetInv(links, net) && Enabled(links, net, Hear(at, k)) && net.air[k].frame.packet.Rreq?
    ensures net.air[k].frame.packet.route != []
    ensures GoodOutcome(links, net, at, ReceiveRreq(at, net.nodes[at], net.air[k].frame.packet))
  {
    hide Leads, Way;
    var s := net.air[k];
    var p, n := s.frame.packet, net.nodes[at];
    assert GoodFrame(links, net, s) && GoodNode(links, net.nodes.Keys, at, n);
    NotEmpty(links, net.nodes.Keys, p.route);
    if SeenLast(n, p.src) < p.id && at !in p.route {
      WayExtended(links, net.nodes.Keys, p.route, at);
      var route := p.route + [at];
      assert route[0] == p.src && p.src in p.route && route[|p.route|] == at;
      assert route[|p.route| - 1] == s.from;
    }
    assert net.nodes[at := ReceiveRreq(at, n, p).node].Keys == net.nodes.Keys;
  }

  lemma NotEmpty(links: Links, nodes: set<Address>, s: seq<Address>)
    requires Way(links, nodes, s)
    ensures s != []
  {
  }

  lemma WaySuffix(links: Links, nodes: set<Address>, s: seq<Address>, i: int)
    requires Way(links, nodes, s) && 0 <= i < |s|
    ensures Way(links, nodes, s[i..])
  {
    var t := s[i..];
    forall j | 0 < j < |t|
      ensures (t[j - 1], t[j]) in links
    {
      assert t[j - 1] == s[i + j - 1] && t[j] == s[i + j];
    }
  }

  lemma {:induction false} ReleasedAre(waiting: seq<Packet>, dst: Address, route: seq<Address>)
    requires route != [] && forall i :: 0 <= i < |waiting| ==> waiting[i].Data?
    ensures forall i :: 0 <= i < |Released(waiting, dst, route)| ==>
      var f := Released(waiting, dst, route)[i];
      f.to == route[0] && f.packet.Data? && f.packet.dst == dst && f.packet.route == route
  {
    if waiting != [] {
      ReleasedAre(waiting[1..], dst, route);
    }
  }

  lemma {:induction false} StillWaitingAre(waiting: seq<Packet>, dst: Address)
    requires forall i :: 0 <= i < |waiting| ==> waiting[i].Data?
    ensures forall p :: p in StillWaiting(waiting, dst) <==> p in waiting && p.dst != dst
  {
    if waiting != [] {
      StillWaitingAre(waiting[1..], dst);
      assert waiting == [waiting[0]] + waiting[1..];
    }
  }

  /** The part of a reply's route behind the node that hears it is a route. */
  lemma ReplyLeads(links: Links, nodes: set<Address>, route: seq<Address>, i: int)
    requires Way(links, nodes, route) && |route| <= TimeToLive + 1 && 0 <= i < |route| - 1
    ensures Leads(links, nodes, route[i], route[|route| - 1], Truncated(route, i, 0))
  {
    WaySuffix(links, nodes, route, i);
    var path := Truncated(route, i, 0);
    assert [route[i]] + path[..|path| - 1] == route[i..];
  }

  /** A reply sets the route for its origin and lets the waiting data go. */
  lemma RrepNodeIsGood(links: Links, nodes: set<Address>, at: Address, n: Node, p: Packet)
    requires GoodNode(links, nodes, at, n) && p.Rrep? && at in p.route
    requires at != p.dst ==> p.route[0] != at
    requires Leads(links, nodes, at, p.src, Truncated(p.route, Position(p.route, at), 0))
    ensures GoodNode(links, nodes, at, ReceiveRrep(at, n, p).node)
  {
    hide Leads;
    StillWaitingAre(n.waiting, p.src);
    var n' := ReceiveRrep(at, n, p).node;
    forall i | 0 <= i < |n'.waiting|
      ensures n'.waiting[i].Data? && n'.waiting[i].src == at && n'.waiting[i].dst !in n'.cache
    {
      assert n'.waiting[i] in n.waiting;
    }
  }

  /** A node that hears a reply addressed to it is on the way, before the end. */
  lemma ReplyHeard(links: Links, net: Net, at: Address, k: nat)
    requires NetInv(links, net) && Enabled(links, net, Hear(at, k)) && net.air[k].frame.packet.Rrep?
    ensures GoodNode(links, net.nodes.Keys, at, net.nodes[at])
    ensures var p := net.air[k].frame.packet;
      && Sound(at, net.nodes[at], p) && Way(links, net.nodes.Keys, p.route) && |p.route| <= TimeToLive + 1
      && p.route[0] == p.dst && p.route[|p.route| - 1] == p.src
      && 0 <= Position(p.route, at) < |p.route| - 1
  {
    var s := net.air[k];
    var p := s.frame.packet;
    assert GoodFrame(links, net, s) && GoodNode(links, net.nodes.Keys, at, net.nodes[at]);
    var m :| 0 < m < |p.route| && s.from == p.route[m] && s.frame.to == p.route[m - 1];
    assert GoodNode(links, net.nodes.Keys, p.route[m - 1], net.nodes[p.route[m - 1]]);
    assert Position(p.route, at) == m - 1;
  }

  lemma RrepIsGood(links: Links, net: Net, at: Address, k: nat)
    requires NetInv(links, net) && Enabled(links, net, Hear(at, k)) && net.air[k].frame.packet.Rrep?
    ensures Sound(at, net.nodes[at], net.air[k].frame.packet)
    ensures GoodOutcome(links, net, at, ReceiveRrep(at, net.nodes[at], net.air[k].frame.packet))
  {
    hide Leads, Way, ReceiveRrep, NetInv, GoodNode, GoodFrame;
    var p, n := net.air[k].frame.packet, net.nodes[at];
    ReplyHeard(links, net, at, k);
    ReplyLeads(links, net.nodes.Keys, p.route, Position(p.route, at));
    RrepNodeIsGood(links, net.nodes.Keys, at, n, p);
    var net' := net.(nodes := net.nodes[at := ReceiveRrep(at, n, p).node]);
    assert net'.nodes.Keys == net.nodes.Keys;
    RrepFrames(links, net', at, n, p);
  }

  lemma RrepFrames(links: Links, net: Net, at: Address, n: Node, p: Packet)
    requires Sound(at, n, p) && p.Rrep?
    requires Way(links, net.nodes.Keys, p.route) && |p.route| <= TimeToLive + 1
    requires p.route[0] == p.dst && p.route[|p.route| - 1] == p.src
    requires Leads(links, net.nodes.Keys, at, p.src, Truncated(p.route, Position(p.route, at), 0))
    ensures var out := ReceiveRrep(at, n, p);
      && (forall j :: 0 <= j < |out.frames| ==>
            GoodFrame(links, net, Sent(at, out.frames[j])) && !out.frames[j].packet.Rreq?)
      && out.node.seen == n.seen && out.node.lastId == n.lastId
  {
    hide Leads, Way;
    var i := Position(p.route, at);
    ReleasedAre(n.waiting, p.src, Truncated(p.route, i, 0));
    if at != p.dst {
      assert 0 < i < |p.route| && at == p.route[i];
      assert GoodReply(links, net, Sent(at, Frame(p.route[i - 1], p)));
    }
  }

  lemma DataIsGood(links: Links, net: Net, at: Address, k: nat)
    requires NetInv(links, net) && Enabled(links, net, Hear(at, k)) && net.air[k].frame.packet.Data?
    ensures Sound(at, net.nodes[at], net.air[k].frame.packet)
    ensures GoodOutcome(links, net, at, ReceiveData(at, net.nodes[at], net.air[k].frame.packet))
  {
    var s := net.air[k];
    var p, n := s.frame.packet, net.nodes[at];
    assert GoodFrame(links, net, s) && GoodNode(links, net.nodes.Keys, at, n);
    assert ([s.from] + p.route[..|p.route| - 1])[1] == p.route[0];
    assert GoodNode(links, net.nodes.Keys, p.route[0], net.nodes[p.route[0]]);
    if p.dst != at {
      DataGoesOn(links, net.nodes.Keys, s.from, p.dst, p.route);
    }
  }

  /** Dropping the first hop of a route that has not arrived leaves a route. */
  lemma DataGoesOn(links: Links, nodes: set<Address>, a: Address, d: Address, route: seq<Address>)
    requires Leads(links, nodes, a, d, route) && route[0] != d
    ensures Leads(links, nodes, route[0], d, route[1..])
  {
    var way := [a] + route[..|route| - 1];
    WaySuffix(links, nodes, way, 1);
    assert way[1..] == [route[0]] + route[1..][..|route| - 2];
  }

  lemma StepKeeps(links: Links, net: Net, e: Event)
    requires NetInv(links, net)
    ensures NetInv(links, Step(links, net, e))
    ensures Enabled(links, net, e) ==> AssertsHold(net, e)
  {
    hide NetInv, GoodOutcome, FromTransport, ReceiveRreq, ReceiveRrep, ReceiveData, After;
    if Enabled(links, net, e) {
      match e
      case Send(at, payload, dst) =>
        SendIsGood(links, net, at, payload, dst);
        OutcomeKeeps(links, net, at, FromTransport(at, net.nodes[at], payload, dst));
      case Hear(at, k) =>
        HeardIsSound(links, net, at, k);
        var p := net.air[k].frame.packet;
        if p.Rreq? {
          RreqIsGood(links, net, at, k);
        } else if p.Rrep? {
          RrepIsGood(links, net, at, k);
        } else {
          DataIsGood(links, net, at, k);
        }
        OutcomeKeeps(links, net, at, Receive(at, net.nodes[at], p));
    }
  }

  /** A network in which nothing has happened yet. */
  ghost predicate Starts(net: Net) {
    net.air == [] && forall a :: a in net.nodes ==> a != Broadcast && net.nodes[a] == Node(map[], map[], [], 0)
  }

  lemma {:induction false} RunKeeps(links: Links, start: Net, es: seq<Event>)
    requires Starts(start)
    ensures NetInv(links, Run(links, start, es))
  {
    hide Step;
    if es != [] {
      RunKeeps(links, start, es[..|es| - 1]);
      StepKeeps(links, Run(links, start, es[..|es| - 1]), es[|es| - 1]);
    }
  }

  /** No assertion of the source fails in any run: no route outgrows its array,
      replies find their nodes on the way, data never runs out of route. */
  lemma NoAssertFails(links: Links, start: Net, es: seq<Event>, e: Event)
    requires Starts(start) && Enabled(links, Run(links, start, es), e)
    ensures AssertsHold(Run(links, start, es), e)
  {
    RunKeeps(links, start, es);
    StepKeeps(links, Run(links, start, es), e);
  }

  /** Every request on the air has come a loop-free way from its source, and
      its hops and its time to live add up. */
  lemma RequestsInRuns(links: Links, start: Net, es: seq<Event>, i: int)
    requires Starts(start) && 0 <= i < |Run(links, start, es).air| && Run(links, start, es).air[i].frame.packet.Rreq?
    ensures var net := Run(links, start, es); var s := net.air[i]; var p := s.frame.packet;
      && Way(links, net.nodes.Keys, p.route) && p.route[0] == p.src && p.route[|p.route| - 1] == s.from
      && p.ttl + |p.route| == TimeToLive && |p.route| <= TimeToLive
  {
    RunKeeps(links, start, es);
    assert GoodFrame(links, Run(links, start, es), Run(links, start, es).air[i]);
  }

  /** No node puts one request on the air twice. */
  lemma ForwardedOnce(links: Links, start: Net, es: seq<Event>, i: int, j: int)
    requires Starts(start) && 0 <= i < j < |Run(links, start, es).air|
    ensures !SameRequest(Run(links, start, es).air[i], Run(links, start, es).air[j])
  {
    RunKeeps(links, start, es);
  }

  /** No data waits at a node that knows a way to its destination. */
  lemma NothingWaitsInVain(links: Links, start: Net, es: seq<Event>, a: Address, i: int)
    requires Starts(start) && a in Run(links, start, es).nodes && 0 <= i < |Run(links, start, es).nodes[a].waiting|
    ensures var n := Run(links, start, es).nodes[a]; n.waiting[i].Data? && n.waiting[i].dst !in n.cache
  {
    RunKeeps(links, start, es);
    assert GoodNode(links, Run(links, start, es).nodes.Keys, a, Run(links, start, es).nodes[a]);
  }

  /** The nodes that a data packet visits, each doing what ReceiveData does,
      if nothing is lost. */
  ghost function Travel(to: Address, p: Packet): seq<Address>
    requires p.Data?
    decreases |p.route|
  {
    if to == p.dst || |p.route| < 2 then [to]
    else
      var next := ReceiveData(to, Node(map[], map[], [], 0), p).frames[0];
      [to] + Travel(next.to, next.packet)
  }

  lemma {:induction false} TravelFollows(links: Links, nodes: set<Address>, a: Address, p: Packet)
    requires p.Data? && Leads(links, nodes, a, p.dst, p.route)
    ensures Travel(p.route[0], p) == p.route[..|p.route| - 1]
    decreases |p.route|
  {
    if p.route[0] == p.dst {
      var way := [a] + p.route[..|p.route| - 1];
      assert way[1] == p.dst && way[|p.route| - 1] == p.dst;
      assert |p.route| == 2;
    } else {
      DataGoesOn(links, nodes, a, p.dst, p.route);
      TravelFollows(links, nodes, p.route[0], Data(p.src, p.dst, p.route[1..], p.payload));
      assert p.route[..|p.route| - 1] == [p.route[0]] + p.route[1..][..|p.route| - 2];
    }
  }

  /** Data packets follow a loop-free way of the topology to their destination,
      in at most ten hops. */
  lemma DataArrives(links: Links, start: Net, es: seq<Event>, i: int)
    requires Starts(start) && 0 <= i < |Run(links, start, es).air| && Run(links, start, es).air[i].frame.packet.Data?
    ensures var net := Run(links, start, es); var s := net.air[i];
      var t := Travel(s.frame.to, s.frame.packet);
      && 1 <= |t| <= TimeToLive && t[|t| - 1] == s.frame.packet.dst
      && Way(links, net.nodes.Keys, [s.from] + t)
  {
    RunKeeps(links, start, es);
    var net := Run(links, start, es);
    var s := net.air[i];
    assert GoodFrame(links, net, s);
    TravelFollows(links, net.nodes.Keys, s.from, s.frame.packet);
  }
}
