/** path_t and the component DSRI of dsri.h, in place. */
module Dsri {
  import opened DsrNodes

  class Path {
    const addrs: array<Address>
    var hops: int

    ghost predicate Valid()
      reads this
    {
      addrs.Length == TimeToLive + 1 && 0 <= hops <= TimeToLive + 1
    }

    ghost function Route(): seq<Address>
      requires Valid()
      reads this, addrs
    {
      addrs[..hops]
    }

    constructor ()
      ensures Valid() && fresh(addrs) && Route() == []
      ensures forall i :: 0 <= i < addrs.Length ==> addrs[i] == 0
    {
      addrs := new Address[TimeToLive + 1](_ => 0);
      hops := 0;
    }

    /** The path in a packet or in the route cache, which is held by value. */
    constructor Of(route: seq<Address>)
      requires |route| <= TimeToLive + 1
      ensures Valid() && fresh(addrs) && Route() == route
    {
      addrs := new Address[TimeToLive + 1](i => if 0 <= i < |route| then route[i] else 0);
      hops := |route|;
    }

    method Value() returns (route: seq<Address>)
      requires Valid()
      ensures route == Route()
    {
      route := addrs[..hops];
    }

    method GetAddr(pos: int) returns (a: Address)
      requires Valid() && 0 <= pos < hops
      ensures a == Route()[pos]
    {
      a := addrs[pos];
    }

    method Clear()
      requires Valid()
      modifies this
      ensures Valid() && Route() == []
    {
      hops := 0;
    }

    method Append(a: Address)
      requires Valid() && hops < TimeToLive + 1
      modifies this, addrs
      ensures Valid() && Route() == old(Route()) + [a]
    {
      addrs[hops] := a;
      hops := hops + 1;
    }

    method Copy(path: Path)
      requires Valid() && path.Valid() && addrs != path.addrs
      modifies this, addrs
      ensures Valid() && Route() == old(path.Route())
    {
      for i := 0 to path.hops
        invariant forall j :: 0 <= j < i ==> addrs[j] == path.addrs[j]
        invariant unchanged(path.addrs)
      {
        addrs[i] := path.addrs[i];
      }
      hops := path.hops;
    }

    method ShiftCopy(path: Path)
      requires Valid() && path.Valid() && addrs != path.addrs && path.hops > 0
      modifies this, addrs
      ensures Valid() && Route() == old(path.Route())[1..]
    {
      for i := 0 to path.hops - 1
        invariant forall j :: 0 <= j < i ==> addrs[j] == path.addrs[j + 1]
        invariant unchanged(path.addrs)
      {
        addrs[i] := path.addrs[i + 1];
      }
      hops := path.hops - 1;
    }

    /** The new length is one more than what is copied, so the last slot keeps
        what it held. */
    method TruncateCopy(path: Path, a: Address) returns (index: int)
      requires Valid() && path.Valid() && addrs != path.addrs
      modifies this, addrs
      ensures Valid() && index == Position(old(path.Route()), a)
      ensures index >= 0 ==>
        Route() == Truncated(old(path.Route()), index, old(addrs[..])[old(path.hops) - index - 1])
      ensures index == -1 ==> Route() == old(Route())
    {
      var i := 0;
      while i < path.hops
        invariant 0 <= i <= path.hops && a !in path.Route()[..i]
        invariant unchanged(this) && unchanged(addrs)
      {
        if a == path.addrs[i] {
          PositionIs(path.Route(), a, i);
          var j := i + 1;
          while j < path.hops
            invariant i + 1 <= j <= path.hops
            invariant forall m :: 0 <= m < j - i - 1 ==> addrs[m] == path.addrs[m + i + 1]
            invariant forall m :: j - i - 1 <= m < addrs.Length ==> addrs[m] == old(addrs[m])
            invariant unchanged(path.addrs) && unchanged(this)
          {
            addrs[j - i - 1] := path.addrs[j];
            j := j + 1;
          }
          hops := path.hops - i;
          TruncatedIs(path.Route(), i, addrs[..], old(addrs[..])[path.hops - i - 1]);
          return i;
        }
        i := i + 1;
      }
      index := -1;
      NoPosition(path.Route(), a);
    }

    method Contain(a: Address) returns (found: bool)
      requires Valid()
      ensures found <==> a in Route()
    {
      for i := 0 to hops
        invariant a !in Route()[..i]
      {
        if a == addrs[i] {
          assert Route()[i] == a;
          return true;
        }
      }
      found := false;
    }
  }

  /** What the first of some waiting packets adds to what is sent or kept. */
  lemma FlushOne(waiting: seq<Packet>, dst: Address, path: seq<Address>)
    requires path != [] && waiting != [] && forall i :: 0 <= i < |waiting| ==> waiting[i].Data?
    ensures Released(waiting, dst, path) ==
      (if waiting[0].dst == dst then [Frame(path[0], Data(waiting[0].src, dst, path, waiting[0].payload))] else [])
      + Released(waiting[1..], dst, path)
    ensures StillWaiting(waiting, dst) ==
      (if waiting[0].dst == dst then [] else [waiting[0]]) + StillWaiting(waiting[1..], dst)
  {
  }

  lemma FlushNone(dst: Address, path: seq<Address>)
    requires path != []
    ensures Released([], dst, path) == [] && StillWaiting([], dst) == []
  {
  }

  lemma TruncatedIs(route: seq<Address>, i: int, addrs: seq<Address>, slot: Address)
    requires 0 <= i < |route| && |route| - i <= |addrs|
    requires forall m :: 0 <= m < |route| - i - 1 ==> addrs[m] == route[m + i + 1]
    requires addrs[|route| - i - 1] == slot
    ensures addrs[..|route| - i] == Truncated(route, i, slot)
  {
    assert |Truncated(route, i, slot)| == |route| - i;
  }

  lemma {:induction false} PositionIs(route: seq<Address>, a: Address, i: int)
    requires 0 <= i < |route| && route[i] == a && a !in route[..i]
    ensures Position(route, a) == i
  {
    if i > 0 {
      assert route[0] in route[..i];
      assert route[1..][..i - 1] == route[..i][1..];
      PositionIs(route[1..], a, i - 1);
    }
  }

  lemma NoPosition(route: seq<Address>, a: Address)
    requires a !in route
    ensures Position(route, a) == -1
  {
  }

  class Node {
    const me: Address
    var rreqTable: map<Address, int>
    var cache: map<Address, seq<Address>>
    var packetBuffer: seq<Packet>
    var rreqId: int

    ghost function State(): DsrNodes.Node
      reads this
    {
      DsrNodes.Node(rreqTable, cache, packetBuffer, rreqId)
    }

    constructor (me: Address)
      ensures this.me == me && State() == DsrNodes.Node(map[], map[], [], 0)
    {
      this.me := me;
      rreqTable, cache, packetBuffer, rreqId := map[], map[], [], 0;
    }

    method FromTransport(payload: nat, dst: Address) returns (frames: seq<Frame>)
      requires dst in cache ==> 1 <= |cache[dst]| <= TimeToLive + 1
      modifies this
      ensures Outcome(State(), frames) == DsrNodes.FromTransport(me, old(State()), payload, dst)
    {
      if dst in cache {
        var cached := new Path.Of(cache[dst]);
        var srcrt := new Path();
        srcrt.Copy(cached);
        var route := srcrt.Value();
        var first := srcrt.GetAddr(0);
        frames := [Frame(first, Data(me, dst, route, payload))];
      } else {
        frames := InitRreq(dst);
        packetBuffer := packetBuffer + [Data(me, dst, [], payload)];
      }
    }

    method InitRreq(dst: Address) returns (frames: seq<Frame>)
      modifies this`rreqId, this`rreqTable
      ensures rreqId == old(rreqId) + 1 && rreqTable == old(rreqTable)[me := rreqId]
      ensures frames == [Frame(Broadcast, Rreq(TimeToLive - 1, me, dst, rreqId, [me]))]
    {
      var srcrt := new Path();
      srcrt.Clear();
      srcrt.Append(me);
      rreqId := rreqId + 1;
      rreqTable := rreqTable[me := rreqId];
      var route := srcrt.Value();
      assert route == [me];
      frames := [Frame(Broadcast, Rreq(TimeToLive - 1, me, dst, rreqId, route))];
    }

    method ReceiveRreq(p: Packet) returns (frames: seq<Frame>)
      requires p.Rreq? && 1 <= |p.route| <= TimeToLive
      modifies this
      ensures Outcome(State(), frames) == DsrNodes.ReceiveRreq(me, old(State()), p)
    {
      frames := [];
      if p.src !in rreqTable {
        rreqTable := rreqTable[p.src := 0];
      }
      var srcrt := new Path.Of(p.route);
      var passed := srcrt.Contain(me);
      if rreqTable[p.src] >= p.id || passed {
        return;
      }
      rreqTable := rreqTable[p.src := p.id];
      assert old(rreqTable)[p.src := 0][p.src := p.id] == old(rreqTable)[p.src := p.id];
      if p.dst == me {
        frames := InitRrep(p, srcrt);
      } else if p.ttl > 0 {
        var longer := new Path();
        longer.Copy(srcrt);
        longer.Append(me);
        var route := longer.Value();
        frames := [Frame(Broadcast, Rreq(p.ttl - 1, p.src, p.dst, p.id, route))];
      }
    }

    /** The reply starts back to whoever the request came from. */
    method InitRrep(p: Packet, srcrt: Path) returns (frames: seq<Frame>)
      requires p.Rreq? && srcrt.Valid() && srcrt.Route() == p.route && 1 <= |p.route| <= TimeToLive
      ensures frames == [Frame(p.route[|p.route| - 1], Rrep(p.dst, p.src, p.route + [me]))]
    {
      var back := new Path();
      back.Copy(srcrt);
      back.Append(me);
      var route := back.Value();
      var last := back.GetAddr(srcrt.hops - 1);
      frames := [Frame(last, Rrep(p.dst, p.src, route))];
    }

    /** The reply goes on to the address before this node's on the route. */
    method ForwardRrep(p: Packet, srcrt: Path, index: int) returns (frames: seq<Frame>)
      requires p.Rrep? && srcrt.Valid() && srcrt.Route() == p.route && 0 < index < |p.route|
      ensures frames == [Frame(p.route[index - 1], p)]
    {
      var onward := new Path();
      onward.Copy(srcrt);
      var route := onward.Value();
      var next := onward.GetAddr(index - 1);
      frames := [Frame(next, Rrep(p.src, p.dst, route))];
    }

    /** The part of the route behind this node, as the source cuts it out. */
    method Cut(srcrt: Path) returns (index: int, path: seq<Address>)
      requires srcrt.Valid() && me in srcrt.Route()
      ensures index == Position(srcrt.Route(), me) && 0 <= index < |srcrt.Route()|
      ensures path == Truncated(srcrt.Route(), index, 0)
    {
      var cut := new Path();
      index := cut.TruncateCopy(srcrt, me);
      path := cut.Value();
    }

    method ReceiveRrep(p: Packet) returns (frames: seq<Frame>)
      requires p.Rrep? && Sound(me, State(), p)
      modifies this
      ensures Outcome(State(), frames) == DsrNodes.ReceiveRrep(me, old(State()), p)
    {
      hide Released, StillWaiting;
      frames := [];
      var srcrt := new Path.Of(p.route);
      var index, path := Cut(srcrt);
      if me != p.dst {
        assert index > 0;
        frames := ForwardRrep(p, srcrt, index);
      } else {
        assert index == 0;
      }
      if p.src !in cache || |cache[p.src]| > |path| {
        var known := p.src in cache;
        cache := cache[p.src := path];
        if known {
          return;
        }
        var released := Flush(p.src, path);
        frames := frames + released;
      }
    }

    /** The walk over the packet buffer when a way has been found. */
    method Flush(dst: Address, path: seq<Address>) returns (frames: seq<Frame>)
      requires path != [] && forall i :: 0 <= i < |packetBuffer| ==> packetBuffer[i].Data?
      modifies this`packetBuffer
      ensures frames == Released(old(packetBuffer), dst, path)
      ensures packetBuffer == StillWaiting(old(packetBuffer), dst)
    {
      hide Released, StillWaiting;
      ghost var before := packetBuffer;
      frames := [];
      var i := 0;
      ghost var k := 0;
      assert before[0..] == before;
      while i < |packetBuffer|
        invariant 0 <= k <= |before| && 0 <= i <= |packetBuffer|
        invariant packetBuffer[i..] == before[k..]
        invariant frames + Released(before[k..], dst, path) == Released(before, dst, path)
        invariant packetBuffer[..i] + StillWaiting(before[k..], dst) == StillWaiting(before, dst)
        decreases |before| - k
      {
        var curr := packetBuffer[i];
        assert before[k..][0] == curr && before[k..][1..] == before[k + 1..];
        FlushOne(before[k..], dst, path);
        if curr.dst == dst {
          frames := frames + [Frame(path[0], Data(curr.src, curr.dst, path, curr.payload))];
          packetBuffer := packetBuffer[..i] + packetBuffer[i + 1..];
        } else {
          i := i + 1;
        }
        k := k + 1;
      }
      FlushNone(dst, path);
    }

    method ReceiveData(p: Packet) returns (frames: seq<Frame>, up: seq<nat>)
      requires p.Data? && Sound(me, State(), p)
      ensures Outcome(State(), frames) == DsrNodes.ReceiveData(me, State(), p)
      ensures up == if p.dst == me then [p.payload] else []
    {
      if p.dst == me {
        return [], [p.payload];
      }
      var srcrt := new Path.Of(p.route);
      var rest := new Path();
      rest.ShiftCopy(srcrt);
      var route := rest.Value();
      var next := rest.GetAddr(0);
      frames, up := [Frame(next, Data(p.src, p.dst, route, p.payload))], [];
    }
  }
}
