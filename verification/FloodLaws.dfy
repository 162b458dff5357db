/** Who gets what in a flooding network, said in terms of what was heard and
    sent before. */
module FloodLaws {
  import W = SeqWindows
  import opened FloodNetwork

  /** The sequence numbers from src that node at has numbered or heard. */
  ghost function Given(start: Net, es: seq<Event>, span: nat, at: Address, src: Address): seq<int>
    requires 0 < span <= W.Width
  {
    if es == [] then []
    else
      var first, e := es[..|es| - 1], es[|es| - 1];
      var net, before := Run(start, first, span), Given(start, first, span, at, src);
      if e.at != at || !Enabled(net, e) then before
      else
        match e
        case FromTransport(_, _) => if at == src && !net.nodes[at].busy then before + [net.nodes[at].last + 1] else before
        case FromMac(_, k) => if net.air[k].packet.src == src then before + [net.air[k].packet.number] else before
        case BusyChanges(_, _) => before
  }

  /** Neither given before nor too old for the window. */
  ghost predicate Fresh(given: seq<int>, n: int, span: nat) {
    n !in given && 0 < n + span && forall m :: m in given ==> m < n + span
  }

  /** One step in terms of what the node has seen. */
  lemma StepSays(net: Net, e: Event, span: nat)
    requires 0 < span <= W.Width && Enabled(net, e) && GoodNode(net.nodes[e.at])
    ensures var net', n := Step(net, e, span), net.nodes[e.at];
      match e
      case FromTransport(at, dst) =>
        if n.busy then net' == net
        else
          && net'.nodes == net.nodes[at := Checked(n, at, n.last + 1, span).(last := n.last + 1, busy := true)]
          && net'.air == net.air + [Sent(at, Packet(at, dst, n.last + 1))] && net'.delivered == net.delivered
      case FromMac(at, k) =>
        var p := net.air[k].packet;
        var isNew := !Seen(n, p.src, p.number, span);
        && net'.nodes == net.nodes[at := Checked(n, p.src, p.number, span)]
        && net'.delivered == net.delivered + (if isNew && ForHere(p, at) then [Sent(at, p)] else [])
        && net'.air == net.air + (if isNew && !ForHere(p, at) && !n.busy then [Sent(at, p)] else [])
      case BusyChanges(at, busy) =>
        net'.nodes == net.nodes[at := n.(busy := busy)] && net'.air == net.air && net'.delivered == net.delivered
  {
    hide W.After, W.Answer;
    match e
    case FromTransport(at, dst) =>
      StampedOne(at, Packet(at, dst, net.nodes[at].last + 1));
      assert net.nodes[at := net.nodes[at]] == net.nodes;
    case FromMac(at, k) => StampedOne(at, net.air[k].packet);
    case BusyChanges(_, _) =>
  }

  /** A node's window for a source stands for the numbers given. */
  lemma {:induction false} WindowIs(start: Net, es: seq<Event>, span: nat, at: Address, src: Address)
    requires 0 < span <= W.Width && Starts(start) && at in start.nodes
    ensures at in Run(start, es, span).nodes
    ensures Cached(Run(start, es, span).nodes[at], src) == W.Run(Given(start, es, span, at, src), span)
  {
    hide W.After, W.Answer, W.Run, Step, GoodNode;
    if es == [] {
      WindowStarts(start, at, src, span);
    } else {
      var first, e := es[..|es| - 1], es[|es| - 1];
      WindowIs(start, first, span, at, src);
      var net := Run(start, first, span);
      AllGood(start, first, span, e);
      if Enabled(net, e) {
        StepSays(net, e, span);
        WindowMore(Given(start, first, span, at, src), span);
      }
    }
  }

  lemma AllGood(start: Net, es: seq<Event>, span: nat, e: Event)
    requires 0 < span <= W.Width && Starts(start)
    ensures Enabled(Run(start, es, span), e) ==> GoodNode(Run(start, es, span).nodes[e.at])
  {
    RunKeeps(start, es, span);
  }

  lemma WindowStarts(start: Net, at: Address, src: Address, span: nat)
    requires 0 < span <= W.Width && Starts(start) && at in start.nodes
    ensures Cached(start.nodes[at], src) == W.Run([], span)
  {
  }

  lemma WindowMore(given: seq<int>, span: nat)
    requires 0 < span <= W.Width
    ensures forall n :: W.Run(given + [n], span) == W.After(W.Run(given, span), n, span)
  {
    forall n
      ensures W.Run(given + [n], span) == W.After(W.Run(given, span), n, span)
    {
      assert (given + [n])[..|given|] == given;
    }
  }

  lemma NewIff(start: Net, es: seq<Event>, span: nat, at: Address, p: Packet)
    requires 0 < span <= W.Width && Starts(start) && at in start.nodes
    ensures at in Run(start, es, span).nodes && GoodNode(Run(start, es, span).nodes[at])
    ensures Seen(Run(start, es, span).nodes[at], p.src, p.number, span) <==>
      !Fresh(Given(start, es, span, at, p.src), p.number, span)
  {
    var given := Given(start, es, span, at, p.src);
    WindowIs(start, es, span, at, p.src);
    RunKeeps(start, es, span);
    W.AgreesWithSet(given, p.number, span);
    W.CurrentIsLargest(given, span);
    W.RunMirrors(given, span);
  }

  ghost predicate ForHere(p: Packet, at: Address) {
    p.dst == at || p.dst == Broadcast
  }

  /** A node that hears a packet hands it up if it is new and for this node,
      passes it on if it is new, for another, and the MAC is not busy, and does
      nothing else. */
  lemma Hears(start: Net, es: seq<Event>, span: nat, at: Address, k: nat)
    requires 0 < span <= W.Width && Starts(start) && at in start.nodes && k < |Run(start, es, span).air|
    ensures var net, net' := Run(start, es, span), Run(start, es + [FromMac(at, k)], span);
      var p := net.air[k].packet;
      var isNew := Fresh(Given(start, es, span, at, p.src), p.number, span);
      && at in net.nodes && at in net'.nodes && net'.nodes[at].busy == net.nodes[at].busy
      && net'.delivered == net.delivered + (if isNew && ForHere(p, at) then [Sent(at, p)] else [])
      && net'.air == net.air + if isNew && !ForHere(p, at) && !net.nodes[at].busy then [Sent(at, p)] else []
  {
    hide W.After, W.Answer;
    var net := Run(start, es, span);
    var p := net.air[k].packet;
    NewIff(start, es, span, at, p);
    OneMore(start, es, span, FromMac(at, k));
    hide Step, Seen, Fresh;
    StepSays(net, FromMac(at, k), span);
  }

  lemma OneMore(start: Net, es: seq<Event>, span: nat, e: Event)
    requires 0 < span <= W.Width && Starts(start) && Enabled(Run(start, es, span), e)
    ensures GoodNode(Run(start, es, span).nodes[e.at])
    ensures Run(start, es + [e], span) == Step(Run(start, es, span), e, span)
  {
    RunKeeps(start, es, span);
    assert (es + [e])[..|es|] == es;
  }

  /** A node that has something to send numbers it one higher than its last and
      puts it on the air, unless the MAC is busy; then it is dropped. */
  lemma Sends(start: Net, es: seq<Event>, span: nat, at: Address, dst: Address)
    requires 0 < span <= W.Width && Starts(start) && at in start.nodes
    ensures var net, net' := Run(start, es, span), Run(start, es + [FromTransport(at, dst)], span);
      && at in net.nodes && at in net'.nodes && net'.delivered == net.delivered && net'.nodes[at].busy
      && (net.nodes[at].busy ==> net'.air == net.air && net'.nodes == net.nodes)
      && (!net.nodes[at].busy ==>
            && net'.nodes[at].last == net.nodes[at].last + 1
            && net'.air == net.air + [Sent(at, Packet(at, dst, net.nodes[at].last + 1))])
  {
    hide W.After, W.Answer;
    WindowIs(start, es, span, at, at);
    OneMore(start, es, span, FromTransport(at, dst));
    hide Step, Seen;
    StepSays(Run(start, es, span), FromTransport(at, dst), span);
  }

  /** What was handed up was for the node it was handed up at. */
  lemma {:induction false} DeliveredIsFor(start: Net, es: seq<Event>, span: nat, i: int)
    requires 0 < span <= W.Width && Starts(start) && 0 <= i < |Run(start, es, span).delivered|
    ensures ForHere(Run(start, es, span).delivered[i].packet, Run(start, es, span).delivered[i].from)
  {
    hide Step, GoodNode, Seen;
    var first, e := es[..|es| - 1], es[|es| - 1];
    var net := Run(start, first, span);
    AllGood(start, first, span, e);
    if Enabled(net, e) {
      StepSays(net, e, span);
    }
    if i < |net.delivered| {
      DeliveredIsFor(start, first, span, i);
    }
  }

  /** What a node put on the air was its own, or for others only. */
  lemma {:induction false} PassedOnIsForOthers(start: Net, es: seq<Event>, span: nat, i: int)
    requires 0 < span <= W.Width && Starts(start) && 0 <= i < |Run(start, es, span).air|
    ensures var s := Run(start, es, span).air[i]; s.from == s.packet.src || !ForHere(s.packet, s.from)
  {
    hide Step, GoodNode, Seen;
    var first, e := es[..|es| - 1], es[|es| - 1];
    var net := Run(start, first, span);
    AllGood(start, first, span, e);
    if Enabled(net, e) {
      StepSays(net, e, span);
    }
    if i < |net.air| {
      PassedOnIsForOthers(start, first, span, i);
    }
  }
}
