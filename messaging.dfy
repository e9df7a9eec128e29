/**
 * Hop-by-hop data forwarding (`send_MSG` and `receive_MSG`,
 * src/core/aodv_node.py:186-234 and 321-347). A packet records the nodes
 * it passed; a node whose next hop towards the destination is already on
 * that path stops the packet, drops the route and reports it with
 * `send_RERR`.
 */
module Messaging {
  import opened Packets
  import opened SensorNodes
  import opened Network
  import opened Aodv
  import opened Discovery

  /** How a forwarding chain ends. */
  datatype Delivery =
    | Delivered      // the destination stored the packet
    | LoopDetected   // a node found its next hop already on the path
    | RouteMissing   // no route even after discovery: the source raises `KeyError`
    | TooDeep        // the chain exhausted the recursion limit

  /** What `send_MSG` returns. */
  datatype SendResult =
    | SelfAddressed              // `(None, [], None)`
    | NoRouteKnown               // the source raises `KeyError`
    | Sent(packet: MsgPacket)    // hops, path and cost of the packet after forwarding

  /** The received-message lists of a list of nodes, in list order. */
  function Inboxes(ns: seq<AodvNode>): (bs: seq<seq<MsgPacket>>)
    reads ns`receivedMsgs
    ensures |bs| == |ns| && forall i :: 0 <= i < |ns| ==> bs[i] == ns[i].receivedMsgs
  {
    if ns == [] then [] else Inboxes(ns[..|ns| - 1]) + [ns[|ns| - 1].receivedMsgs]
  }

  /** The loop test of `receive_MSG` at node `me`: its next hop to the destination is already on the path. */
  predicate LoopAhead(table: map<nat, RouteEntry>, pkt: MsgPacket, me: nat) {
    pkt.dst in table && table[pkt.dst].nextHop in pkt.path + [me]
  }

  /** The packet after node `me` took it over the link of cost `linkCost`. */
  function Arrived(pkt: MsgPacket, me: nat, linkCost: Cost): (p: MsgPacket)
    ensures p.src == pkt.src && p.dst == pkt.dst && p.payload == pkt.payload
    ensures p.path == pkt.path + [me] && p.hops == pkt.hops + 1 && p.cost == pkt.cost.Plus(linkCost)
  {
    pkt.(path := pkt.path + [me], hops := pkt.hops + 1, cost := pkt.cost.Plus(linkCost))
  }

  /** The packet `send_MSG` builds: one hop-less, cost-less path holding the source. */
  function NewPacket(src: nat, dst: nat, payload: string): (p: MsgPacket)
    ensures p.src == src && p.dst == dst && p.payload == payload
    ensures p.hops == 0 && p.cost == Fin(0.0) && p.path == [src]
  {
    MsgPacket(src, dst, payload, 0, Fin(0.0), [src])
  }

  /** The fields a forwarding chain leaves alone, and how its path and hop count grow. */
  ghost predicate Extends(pkt: MsgPacket, p: MsgPacket, d: Delivery) {
    p.src == pkt.src && p.dst == pkt.dst && p.payload == pkt.payload
    && |pkt.path| <= |p.path| && p.path[..|pkt.path|] == pkt.path
    && p.hops + (if d == LoopDetected then 1 else 0) == pkt.hops + |p.path| - |pkt.path|
  }

  /**
   * How a chain ending in `d` left packet `p`, grown from `pkt`: `Extends`,
   * and a delivered packet's path ends at its destination.
   */
  ghost predicate Outcome(pkt: MsgPacket, p: MsgPacket, d: Delivery) {
    Extends(pkt, p, d) && (d == Delivered ==> p.path != [] && p.path[|p.path| - 1] == p.dst)
  }

  /** The inboxes before (`b0`) and after (`b1`) a chain: only a delivered packet is stored, at its destination. */
  ghost predicate Stored(b0: seq<seq<MsgPacket>>, b1: seq<seq<MsgPacket>>, p: MsgPacket, d: Delivery) {
    if d == Delivered then p.dst < |b0| && b1 == b0[p.dst := b0[p.dst] + [p]] else b1 == b0
  }

  /**
   * The delay a packet gathers along `path` from position `lo` up to, not
   * including, `hi`: each node `path[k]` adds the cost of the link back to
   * the node it came from, `path[k - 1]`.
   */
  ghost function PathCost(g: Graph, path: seq<nat>, lo: nat, hi: int): Cost
    requires 1 <= lo && hi <= |path|
    decreases hi - lo
  {
    if hi <= lo then Fin(0.0) else LinkCost(g, path[lo], path[lo - 1]).Plus(PathCost(g, path, lo + 1, hi))
  }

  /** How many leading nodes of `p`'s path counted their hop: all but a node that stopped the packet on a loop. */
  function Counted(p: MsgPacket, d: Delivery): int {
    |p.path| - (if d == LoopDetected then 1 else 0)
  }

  /**
   * The cost of packet `p`, grown from `pkt` by a chain ending in `d` over
   * links `g`: every node the chain appended and that counted its hop added
   * the delay of the link it came in on.
   */
  ghost predicate Costed(g: Graph, pkt: MsgPacket, p: MsgPacket, d: Delivery) {
    1 <= |pkt.path| <= Counted(p, d) <= |p.path|
    && p.cost == pkt.cost.Plus(PathCost(g, p.path, |pkt.path|, Counted(p, d)))
  }

  /** A chain that appended no node added no cost. */
  lemma CostedUnmoved(g: Graph, pkt: MsgPacket, d: Delivery)
    requires pkt.path != [] && d != LoopDetected
    ensures Costed(g, pkt, pkt, d)
  {
  }

  /** A packet `send_MSG` built at its source costs exactly the links its chain counted. */
  lemma SentCost(g: Graph, pkt: MsgPacket, p: MsgPacket, d: Delivery)
    requires pkt.cost == Fin(0.0) && |pkt.path| == 1 && Costed(g, pkt, p, d)
    ensures 1 <= Counted(p, d) && p.cost == PathCost(g, p.path, 1, Counted(p, d))
  {
  }

  /** A path that starts with `a`, `b` has `b` second. */
  lemma SecondHop(path: seq<nat>, a: nat, b: nat)
    requires 1 < |path| && path[..2] == [a] + [b]
    ensures path[1] == b
  {
    assert path[1] == path[..2][1];
  }

  /** A chain's cost from the arrival at `me`, sent by `sender`, is its cost from the packet before. */
  lemma CostAfterArrival(g: Graph, pkt: MsgPacket, me: nat, sender: nat, p: MsgPacket, d: Delivery)
    requires pkt.path != [] && pkt.path[|pkt.path| - 1] == sender
    requires Outcome(Arrived(pkt, me, LinkCost(g, me, sender)), p, d)
    requires Costed(g, Arrived(pkt, me, LinkCost(g, me, sender)), p, d)
    ensures Costed(g, pkt, p, d)
  {
    var n := |pkt.path|;
    assert p.path[..n + 1] == pkt.path + [me];
    assert p.path[n] == p.path[..n + 1][n] && p.path[n - 1] == p.path[..n + 1][n - 1];
    assert PathCost(g, p.path, n, Counted(p, d)) == LinkCost(g, me, sender).Plus(PathCost(g, p.path, n + 1, Counted(p, d)));
  }

  /** A packet grown by one node and then by a chain has grown by the chain. */
  lemma ExtendsAfterArrival(pkt: MsgPacket, me: nat, c: Cost, p: MsgPacket, d: Delivery)
    requires Outcome(Arrived(pkt, me, c), p, d)
    ensures Outcome(pkt, p, d) && |pkt.path| < |p.path| && p.path[..|pkt.path| + 1] == pkt.path + [me]
  {
    var a := Arrived(pkt, me, c);
    assert p.path[..|pkt.path| + 1] == a.path;
    assert p.path[..|pkt.path|] == a.path[..|pkt.path|];
  }

  /** Stores packet `p` at node `me`, as the destination does. */
  method Deliver(net: SensorNetwork, me: nat, p: MsgPacket)
    requires net.Valid() && me < |net.nodes|
    modifies {net.nodes[me]}`receivedMsgs
    ensures net.Valid()
    ensures Inboxes(net.nodes) == old(Inboxes(net.nodes)[me := net.nodes[me].receivedMsgs + [p]])
  {
    ghost var b0 := Inboxes(net.nodes);
    var node := net.nodes[me];
    node.receivedMsgs := node.receivedMsgs + [p];
    forall i | 0 <= i < |net.nodes| && i != me
      ensures net.nodes[i].receivedMsgs == b0[i]
    {
      assert net.nodes[i].id != net.nodes[me].id;
    }
  }

  /**
   * The route error `[d]` that node `me` sent after dropping its route to
   * `d`, seen on the tables before the drop (`t0`) and after the flood
   * (`t1`) and the seen keys before (`s0`): every other node kept its
   * table or, seeing the error for the first time, lost its route to `d`.
   */
  ghost predicate ErrReported(t0: seq<map<nat, RouteEntry>>, t1: seq<map<nat, RouteEntry>>, s0: seq<set<seq<nat>>>, me: nat, d: nat) {
    |t0| == |t1| == |s0| && forall i :: 0 <= i < |t0| && i != me ==>
      t1[i] == t0[i] || ([d] !in s0[i] && t1[i] == WithoutDests(t0[i], [d]))
  }

  /** Dropping a route at `me` alone does not change what the flood did to the other nodes. */
  lemma ReportedAfterDrop(tOld: seq<map<nat, RouteEntry>>, t0: seq<map<nat, RouteEntry>>, t1: seq<map<nat, RouteEntry>>,
                          s0: seq<set<seq<nat>>>, me: nat, d: nat)
    requires |tOld| == |t0| == |t1| == |s0| && me < |t0|
    requires forall i :: 0 <= i < |t0| && i != me ==> t0[i] == tOld[i]
    requires forall i :: 0 <= i < |t0| && i != me ==>
      t1[i] == t0[i] || (Sort([d]) !in s0[i] && t1[i] == WithoutDests(t0[i], [d]))
    ensures ErrReported(tOld, t1, s0, me, d)
  {
    assert Sort([d]) == [d];
  }

  /**
   * What a node does on finding a loop: it deletes its route to the
   * destination, reports the destination with `send_RERR`, and, when it
   * is the packet's source, starts a new route discovery. Every other node then either
   * keeps its table or, seeing the error first, loses its route to the
   * destination.
   */
  method StopAtLoop(net: SensorNetwork, me: nat, pkt: MsgPacket)
    requires net.Valid() && me < |net.nodes| && pkt.dst in net.nodes[me].routingTable
    modifies net`queue, net.nodes`seenRreqs, net.nodes`seqNum, net.nodes`broadcastId, net.nodes`routingTable, net.nodes`seenRerrs
    ensures net.Valid()
    ensures me != pkt.src ==> net.nodes[me].routingTable == old(net.nodes[me].routingTable) - {pkt.dst}
    ensures [pkt.dst] in net.nodes[me].seenRerrs
    ensures me != pkt.src ==> ErrReported(old(RouteTables(net.nodes)), RouteTables(net.nodes), old(SeenRerrs(net.nodes)), me, pkt.dst)
  {
    DropAndReport(net, me, pkt.dst);
    if pkt.src == me {
      ghost var node, seen := net.nodes[me], net.nodes[me].seenRerrs;
      ghost var _ := RouteDiscovery(net, me, pkt.dst);
      assert node.seenRerrs == seen;
    }
  }

  /** The first half of the loop handling: drop the route to `d` at `me` and send the route error `[d]`. */
  method DropAndReport(net: SensorNetwork, me: nat, d: nat)
    requires net.Valid() && me < |net.nodes| && d in net.nodes[me].routingTable
    modifies net.nodes`routingTable, net.nodes`seenRerrs
    ensures net.Valid()
    ensures net.nodes[me].routingTable == old(net.nodes[me].routingTable) - {d}
    ensures [d] in net.nodes[me].seenRerrs
    ensures ErrReported(old(RouteTables(net.nodes)), RouteTables(net.nodes), old(SeenRerrs(net.nodes)), me, d)
  {
    ghost var tOld := RouteTables(net.nodes);
    net.KeepRoutes(me, net.nodes[me].routingTable - {d});
    ghost var t0 := RouteTables(net.nodes);
    ghost var s0 := SeenRerrs(net.nodes);
    assert Sort([d]) == [d];
    SendRerr(net, me, [d]);
    RerrSentEffect(t0, RouteTables(net.nodes), s0, SeenRerrs(net.nodes), me, [d]);
    ReportedAfterDrop(tOld, t0, RouteTables(net.nodes), s0, me, d);
  }

  /**
   * `receive_MSG` at node `me`, from `sender`: the node appends itself to
   * the path. If its next hop to the destination is already on the path it
   * stops the packet (`StopAtLoop`) without counting the hop. Otherwise it
   * counts the hop and the cost of the link back to the sender and hands
   * the packet to `ForwardMsg`. With `fuel` at zero the chain is cut, as
   * Python's recursion limit cuts the source's recursion.
   */
  method ReceiveMsg(net: SensorNetwork, me: nat, pkt: MsgPacket, sender: nat, fuel: nat) returns (d: Delivery, p: MsgPacket)
    requires net.Valid() && me < |net.nodes|
    modifies net`queue, net.nodes`seenRreqs, net.nodes`seqNum, net.nodes`broadcastId, net.nodes`routingTable,
             net.nodes`seenRerrs, net.nodes`receivedMsgs
    ensures net.Valid()
    ensures Outcome(pkt, p, d) && Stored(old(Inboxes(net.nodes)), Inboxes(net.nodes), p, d)
    ensures fuel == 0 ==> d == TooDeep && p == pkt
    ensures fuel > 0 ==> |pkt.path| < |p.path| && p.path[..|pkt.path| + 1] == pkt.path + [me]
    ensures fuel > 0 && old(LoopAhead(net.nodes[me].routingTable, pkt, me)) ==>
      d == LoopDetected && p == pkt.(path := pkt.path + [me])
      && (me != pkt.src ==> pkt.dst !in net.nodes[me].routingTable)
    ensures fuel > 0 && !old(LoopAhead(net.nodes[me].routingTable, pkt, me)) && me == pkt.dst ==>
      d == Delivered && p == Arrived(pkt, me, old(LinkCost(net.Graph(), me, sender)))
    ensures pkt.path != [] && pkt.path[|pkt.path| - 1] == sender ==> Costed(old(net.Graph()), pkt, p, d)
    decreases fuel, 2
  {
    if fuel == 0 {
      return TooDeep, pkt;
    }
    if LoopAhead(net.nodes[me].routingTable, pkt, me) {
      ghost var b0 := Inboxes(net.nodes);
      StopAtLoop(net, me, pkt);
      assert Inboxes(net.nodes) == b0;
      return LoopDetected, pkt.(path := pkt.path + [me]);
    }
    var arrived := Arrived(pkt, me, LinkCost(net.Graph(), me, sender));
    d, p := ForwardMsg(net, me, arrived, fuel);
    ExtendsAfterArrival(pkt, me, LinkCost(old(net.Graph()), me, sender), p, d);
    if pkt.path != [] && pkt.path[|pkt.path| - 1] == sender {
      CostAfterArrival(old(net.Graph()), pkt, me, sender, p, d);
    }
  }

  /**
   * The rest of `receive_MSG`, once the hop is counted: the destination
   * stores the packet; any other node first runs a route discovery if it
   * has no route, fails as the source does (`KeyError`) if it still has
   * none, and otherwise passes the packet to its next hop.
   */
  method ForwardMsg(net: SensorNetwork, me: nat, arrived: MsgPacket, fuel: nat) returns (d: Delivery, p: MsgPacket)
    requires net.Valid() && me < |net.nodes| && fuel > 0
    requires arrived.path != [] && arrived.path[|arrived.path| - 1] == me
    modifies net`queue, net.nodes`seenRreqs, net.nodes`seqNum, net.nodes`broadcastId, net.nodes`routingTable,
             net.nodes`seenRerrs, net.nodes`receivedMsgs
    ensures net.Valid()
    ensures Outcome(arrived, p, d) && Stored(old(Inboxes(net.nodes)), Inboxes(net.nodes), p, d)
    ensures me == arrived.dst ==> d == Delivered && p == arrived
    ensures me != arrived.dst && fuel > 1 && old(arrived.dst in net.nodes[me].routingTable) ==>
      |p.path| > |arrived.path| && p.path[|arrived.path|] == old(net.nodes[me].routingTable[arrived.dst].nextHop)
    ensures Costed(old(net.Graph()), arrived, p, d)
    decreases fuel, 1
  {
    ghost var g := net.Graph();
    if me == arrived.dst {
      Deliver(net, me, arrived);
      CostedUnmoved(g, arrived, Delivered);
      return Delivered, arrived;
    }
    EnsureRoute(net, me, arrived.dst);
    if arrived.dst !in net.nodes[me].routingTable {
      CostedUnmoved(g, arrived, RouteMissing);
      return RouteMissing, arrived;
    }
    d, p := PassOn(net, me, arrived, fuel);
  }

  /** The last step of `receive_MSG`: the packet goes to the next hop of the route to its destination. */
  method PassOn(net: SensorNetwork, me: nat, arrived: MsgPacket, fuel: nat) returns (d: Delivery, p: MsgPacket)
    requires net.Valid() && me < |net.nodes| && fuel > 0 && arrived.dst in net.nodes[me].routingTable
    requires arrived.path != [] && arrived.path[|arrived.path| - 1] == me
    modifies net`queue, net.nodes`seenRreqs, net.nodes`seqNum, net.nodes`broadcastId, net.nodes`routingTable,
             net.nodes`seenRerrs, net.nodes`receivedMsgs
    ensures net.Valid()
    ensures Outcome(arrived, p, d) && Stored(old(Inboxes(net.nodes)), Inboxes(net.nodes), p, d)
    ensures fuel > 1 ==>
      |p.path| > |arrived.path| && p.path[|arrived.path|] == old(net.nodes[me].routingTable[arrived.dst].nextHop)
    ensures Costed(old(net.Graph()), arrived, p, d)
    decreases fuel, 0
  {
    var nextHop := net.nodes[me].routingTable[arrived.dst].nextHop;
    d, p := ReceiveMsg(net, nextHop, arrived, me, fuel - 1);
    if fuel > 1 {
      assert p.path[|arrived.path|] == (arrived.path + [nextHop])[|arrived.path|];
    }
  }

  /** Runs a route discovery from `me` to `dst` when `me` has no route there. */
  method EnsureRoute(net: SensorNetwork, me: nat, dst: nat)
    requires net.Valid() && me < |net.nodes|
    modifies net`queue, net.nodes`seenRreqs, net.nodes`seqNum, net.nodes`broadcastId, net.nodes`routingTable
    ensures net.Valid()
    ensures Inboxes(net.nodes) == old(Inboxes(net.nodes)) && net.Graph() == old(net.Graph())
    ensures KeepsRoutes(old(RouteTables(net.nodes)), RouteTables(net.nodes))
    ensures old(dst in net.nodes[me].routingTable) ==>
      RouteTables(net.nodes) == old(RouteTables(net.nodes)) && SeenRreqs(net.nodes) == old(SeenRreqs(net.nodes))
      && net.queue == old(net.queue)
      && forall i :: 0 <= i < |net.nodes| ==>
           net.nodes[i].seqNum == old(net.nodes[i].seqNum) && net.nodes[i].broadcastId == old(net.nodes[i].broadcastId)
  {
    ghost var g := net.Graph();
    if dst !in net.nodes[me].routingTable {
      ghost var _ := RouteDiscovery(net, me, dst);
    }
    LinksAre(net.nodes, g);
  }

  /**
   * `send_MSG`: a message to the node itself is refused; without a route
   * to the destination the source raises `KeyError`; otherwise the packet
   * goes to the next hop and the packet as it ends up is returned, whatever
   * the forwarding chain reported (`delivery`, which the source discards).
   */
  method SendMsg(net: SensorNetwork, me: nat, dst: nat, payload: string) returns (r: SendResult, ghost delivery: Delivery)
    requires net.Valid() && me < |net.nodes|
    modifies net`queue, net.nodes`seenRreqs, net.nodes`seqNum, net.nodes`broadcastId, net.nodes`routingTable,
             net.nodes`seenRerrs, net.nodes`receivedMsgs
    ensures net.Valid()
    ensures r == SelfAddressed <==> dst == me
    ensures r == NoRouteKnown <==> dst != me && old(dst !in net.nodes[me].routingTable)
    ensures r.Sent? ==>
      Outcome(NewPacket(me, dst, payload), r.packet, delivery) && |r.packet.path| >= 2
      && r.packet.path[1] == old(net.nodes[me].routingTable[dst].nextHop)
      && Stored(old(Inboxes(net.nodes)), Inboxes(net.nodes), r.packet, delivery)
    ensures r.Sent? ==>
      1 <= Counted(r.packet, delivery) && r.packet.cost == PathCost(old(net.Graph()), r.packet.path, 1, Counted(r.packet, delivery))
    ensures !r.Sent? ==> Inboxes(net.nodes) == old(Inboxes(net.nodes)) && RouteTables(net.nodes) == old(RouteTables(net.nodes))
  {
    delivery := TooDeep;
    if dst == me {
      return SelfAddressed, delivery;
    }
    if dst !in net.nodes[me].routingTable {
      return NoRouteKnown, delivery;
    }
    var p;
    delivery, p := SendAlongRoute(net, me, dst, payload);
    r := Sent(p);
  }

  /** The packet of `send_MSG` handed to the next hop of this node's route to `dst`. */
  method SendAlongRoute(net: SensorNetwork, me: nat, dst: nat, payload: string) returns (delivery: Delivery, p: MsgPacket)
    requires net.Valid() && me < |net.nodes| && dst in net.nodes[me].routingTable
    modifies net`queue, net.nodes`seenRreqs, net.nodes`seqNum, net.nodes`broadcastId, net.nodes`routingTable,
             net.nodes`seenRerrs, net.nodes`receivedMsgs
    ensures net.Valid()
    ensures Outcome(NewPacket(me, dst, payload), p, delivery) && |p.path| >= 2
      && p.path[1] == old(net.nodes[me].routingTable[dst].nextHop)
      && Stored(old(Inboxes(net.nodes)), Inboxes(net.nodes), p, delivery)
    ensures 1 <= Counted(p, delivery) && p.cost == PathCost(old(net.Graph()), p.path, 1, Counted(p, delivery))
  {
    var nextHop := net.nodes[me].routingTable[dst].nextHop;
    ghost var g := net.Graph();
    delivery, p := ReceiveMsg(net, nextHop, NewPacket(me, dst, payload), me, RecursionLimit);
    SentCost(g, NewPacket(me, dst, payload), p, delivery);
    SecondHop(p.path, me, nextHop);
  }
}
