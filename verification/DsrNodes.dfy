/** Dynamic source routing of dsri.h: what one node does with what it receives.
    A route is the sequence of the addresses that the source's path_t holds. */
module DsrNodes {

  type Address = int
  const Broadcast: Address := -1
  const TimeToLive: int := 10

  datatype Packet =
    | Rreq(ttl: int, src: Address, dst: Address, id: int, route: seq<Address>)
    | Rrep(src: Address, dst: Address, route: seq<Address>)
    | Data(src: Address, dst: Address, route: seq<Address>, payload: nat)

  datatype Frame = Frame(to: Address, packet: Packet)

  /** A node's tables: the request seen last from each source, the routes, the
      data waiting for a route, and the number of its own last request. */
  datatype Node = Node(seen: map<Address, int>, cache: map<Address, seq<Address>>, waiting: seq<Packet>, lastId: int)

  /** What a step leaves behind and puts on the air. */
  datatype Outcome = Outcome(node: Node, frames: seq<Frame>)

  /** Where an address is in a route, or -1. */
  function Position(route: seq<Address>, a: Address): (i: int)
    ensures -1 <= i < |route|
    ensures i >= 0 ==> route[i] == a && forall j :: 0 <= j < i ==> route[j] != a
    ensures i == -1 ==> a !in route
  {
    if route == [] then -1
    else if route[0] == a then 0
    else
      var i := Position(route[1..], a);
      if i < 0 then -1 else i + 1
  }

  /** What truncate_copy makes of a route: the part behind position i, and one
      slot more than it fills, which keeps what it held. */
  function Truncated(route: seq<Address>, i: int, slot: Address): seq<Address>
    requires 0 <= i < |route|
  {
    route[i + 1..] + [slot]
  }

  function FromTransport(me: Address, n: Node, payload: nat, dst: Address): Outcome
    requires dst in n.cache ==> n.cache[dst] != []
  {
    if dst in n.cache then
      Outcome(n, [Frame(n.cache[dst][0], Data(me, dst, n.cache[dst], payload))])
    else
      var id := n.lastId + 1;
      Outcome(Node(n.seen[me := id], n.cache, n.waiting + [Data(me, dst, [], payload)], id),
              [Frame(Broadcast, Rreq(TimeToLive - 1, me, dst, id, [me]))])
  }

  function SeenLast(n: Node, src: Address): int {
    if src in n.seen then n.seen[src] else 0
  }

  function ReceiveRreq(me: Address, n: Node, p: Packet): Outcome
    requires p.Rreq? && p.route != []
  {
    if SeenLast(n, p.src) >= p.id || me in p.route then
      Outcome(n.(seen := n.seen[p.src := SeenLast(n, p.src)]), [])
    else
      var n' := n.(seen := n.seen[p.src := p.id]);
      if p.dst == me then
        Outcome(n', [Frame(p.route[|p.route| - 1], Rrep(p.dst, p.src, p.route + [me]))])
      else if p.ttl > 0 then
        Outcome(n', [Frame(Broadcast, p.(ttl := p.ttl - 1, route := p.route + [me]))])
      else
        Outcome(n', [])
  }

  /** The data packets that wait for destination dst, sent along route. */
  function Released(waiting: seq<Packet>, dst: Address, route: seq<Address>): seq<Frame>
    requires route != [] && forall i :: 0 <= i < |waiting| ==> waiting[i].Data?
  {
    if waiting == [] then []
    else
      var rest := Released(waiting[1..], dst, route);
      if waiting[0].dst == dst then [Frame(route[0], waiting[0].(route := route))] + rest else rest
  }

  function StillWaiting(waiting: seq<Packet>, dst: Address): seq<Packet> {
    if waiting == [] then []
    else if waiting[0].dst == dst then StillWaiting(waiting[1..], dst)
    else [waiting[0]] + StillWaiting(waiting[1..], dst)
  }

  /** The source asserts that this node is on the route, and first on it
      exactly if the reply is for it. */
  function ReceiveRrep(me: Address, n: Node, p: Packet): Outcome
    requires p.Rrep? && me in p.route && (me != p.dst ==> p.route[0] != me)
    requires forall i :: 0 <= i < |n.waiting| ==> n.waiting[i].Data?
  {
    var i := Position(p.route, me);
    var path := Truncated(p.route, i, 0);
    var onward := if me != p.dst then [Frame(p.route[i - 1], p)] else [];
    if p.src !in n.cache then
      Outcome(n.(cache := n.cache[p.src := path], waiting := StillWaiting(n.waiting, p.src)),
              onward + Released(n.waiting, p.src, path))
    else if |n.cache[p.src]| > |path| then
      Outcome(n.(cache := n.cache[p.src := path]), onward)
    else
      Outcome(n, onward)
  }

  /** The source asserts that the route is long enough. */
  function ReceiveData(me: Address, n: Node, p: Packet): Outcome
    requires p.Data? && (p.dst != me ==> 2 <= |p.route|)
  {
    if p.dst == me then Outcome(n, [])
    else Outcome(n, [Frame(p.route[1], p.(route := p.route[1..]))])
  }

  /** What the assertions of the source ask of a packet that a node receives. */
  ghost predicate Sound(me: Address, n: Node, p: Packet) {
    && (forall i :: 0 <= i < |n.waiting| ==> n.waiting[i].Data?)
    && match p
       case Rreq(_, _, _, _, route) => 1 <= |route| <= TimeToLive
       case Rrep(_, dst, route) => me in route && (me != dst <==> route[0] != me) && |route| <= TimeToLive + 1
       case Data(_, dst, route, _) => (dst != me ==> 2 <= |route|) && |route| <= TimeToLive + 1
  }

  function Receive(me: Address, n: Node, p: Packet): Outcome
    requires Sound(me, n, p)
  {
    match p
    case Rreq(_, _, _, _, _) => ReceiveRreq(me, n, p)
    case Rrep(_, _, _) => ReceiveRrep(me, n, p)
    case Data(_, _, _, _) => ReceiveData(me, n, p)
  }
}
