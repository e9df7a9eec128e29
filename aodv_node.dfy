/**
 * The AODV engine of a node (src/core/aodv_node.py). Each operation of the
 * source's `aodv_node` class is a method here that takes the network and the
 * id `me` of the node it runs on; node ids are positions in the network's
 * node list, so `net.nodes[me]` is `self`.
 */
module Aodv {
  import opened Packets
  import opened SetLemmas
  import opened SensorNodes
  import opened Network

  /** Python's default recursion limit, which bounds the RREP relay and data forwarding chains. */
  const RecursionLimit: nat := 1000

  function Max(a: nat, b: nat): (m: nat)
    ensures m >= a && m >= b && (m == a || m == b)
  {
    if a >= b then a else b
  }

  // ---------------------------------------------------------------------------
  // Routing tables as values

  /** The routing tables of a list of nodes, in list order. */
  function RouteTables(ns: seq<AodvNode>): (ts: seq<map<nat, RouteEntry>>)
    reads ns`routingTable
    ensures |ts| == |ns| && forall i :: 0 <= i < |ns| ==> ts[i] == ns[i].routingTable
  {
    if ns == [] then [] else RouteTables(ns[..|ns| - 1]) + [ns[|ns| - 1].routingTable]
  }

  /** Nodes whose tables are, one by one, those of `ts` have `ts` as their snapshot. */
  lemma TablesAre(ns: seq<AodvNode>, ts: seq<map<nat, RouteEntry>>)
    requires |ts| == |ns| && forall i :: 0 <= i < |ns| ==> ns[i].routingTable == ts[i]
    ensures RouteTables(ns) == ts
  {
    assert forall i :: 0 <= i < |ns| ==> RouteTables(ns)[i] == ts[i];
  }

  function Lookup(table: map<nat, RouteEntry>, d: nat): (r: Option<RouteEntry>)
    ensures r.Some? <==> d in table
    ensures r.Some? ==> r.value == table[d]
  {
    if d in table then Some(table[d]) else None
  }

  /** Two snapshots of the tables hold the same routes to every destination outside `ds`. */
  ghost predicate AgreeOutside(t0: seq<map<nat, RouteEntry>>, t1: seq<map<nat, RouteEntry>>, ds: set<nat>) {
    |t0| == |t1| && forall i, d :: 0 <= i < |t0| && d !in ds ==> Lookup(t0[i], d) == Lookup(t1[i], d)
  }

  /** No route is lost between the snapshots, and only routes to `ds` may change. */
  ghost predicate Grows(t0: seq<map<nat, RouteEntry>>, t1: seq<map<nat, RouteEntry>>, ds: set<nat>) {
    AgreeOutside(t0, t1, ds) && forall i, d :: 0 <= i < |t0| && d in t0[i] ==> d in t1[i]
  }

  /** Snapshots that agree outside `ds` hold the same route to a destination outside `ds`. */
  lemma AgreeAt(t0: seq<map<nat, RouteEntry>>, t1: seq<map<nat, RouteEntry>>, ds: set<nat>, i: nat, d: nat)
    requires AgreeOutside(t0, t1, ds) && i < |t0| && d !in ds
    ensures d in t0[i] <==> d in t1[i]
    ensures d in t0[i] ==> t0[i][d] == t1[i][d]
  {
    assert Lookup(t0[i], d) == Lookup(t1[i], d);
  }

  lemma GrowsTrans(t0: seq<map<nat, RouteEntry>>, t1: seq<map<nat, RouteEntry>>, t2: seq<map<nat, RouteEntry>>,
                   ds: set<nat>, es: set<nat>)
    requires Grows(t0, t1, ds) && Grows(t1, t2, es)
    ensures Grows(t0, t2, ds + es)
  {
  }

  /**
   * Only routes to `d` change between the snapshots, none is lost, and every
   * changed or new one carries sequence number `s`: a route reply installs
   * only the route it announces.
   */
  ghost predicate Announces(t0: seq<map<nat, RouteEntry>>, t1: seq<map<nat, RouteEntry>>, d: nat, s: nat) {
    Grows(t0, t1, {d})
    && forall i :: 0 <= i < |t1| && d in t1[i] && Lookup(t1[i], d) != Lookup(t0[i], d) ==> t1[i][d].seqNum == s
  }

  lemma AnnouncesTrans(t0: seq<map<nat, RouteEntry>>, t1: seq<map<nat, RouteEntry>>, t2: seq<map<nat, RouteEntry>>, d: nat, s: nat)
    requires Announces(t0, t1, d, s) && Announces(t1, t2, d, s)
    ensures Announces(t0, t2, d, s)
  {
    GrowsTrans(t0, t1, t2, {d}, {d});
    assert {d} + {d} == {d};
  }

  // ---------------------------------------------------------------------------
  // Route acceptance: `update_RT`

  /** The ranking `update_RT` applies over a live link: a fresher route, or an as fresh and cheaper one. */
  predicate Better(offered: RouteEntry, current: RouteEntry) {
    offered.seqNum > current.seqNum || (offered.seqNum == current.seqNum && offered.cost.Less(current.cost))
  }

  /** `Better` is a strict order, so no two routes can keep displacing each other over a live link. */
  lemma BetterIsStrictOrder(a: RouteEntry, b: RouteEntry, c: RouteEntry)
    ensures !Better(a, a)
    ensures Better(a, b) ==> !Better(b, a)
    ensures Better(a, b) && Better(b, c) ==> Better(a, c)
  {
    LessIsStrictOrder(a.cost, b.cost, c.cost);
    LessIsStrictOrder(b.cost, a.cost, c.cost);
  }

  /**
   * `update_RT`'s decision: replace when there is no route, when the
   * current route's next-hop link is down, or when the offer is `Better`.
   */
  predicate Replaces(g: Graph, me: nat, current: Option<RouteEntry>, offered: RouteEntry) {
    current.None? || !LinkExists(g, me, current.value.nextHop) || Better(offered, current.value)
  }

  /** The table after `update_RT(dest, offered)`. */
  function Offer(g: Graph, me: nat, table: map<nat, RouteEntry>, dest: nat, offered: RouteEntry): (t: map<nat, RouteEntry>)
    ensures forall d :: d != dest ==> Lookup(t, d) == Lookup(table, d)
    ensures dest in t && (t[dest] == offered || (dest in table && t[dest] == table[dest]))
  {
    if Replaces(g, me, Lookup(table, dest), offered) then table[dest := offered] else table
  }

  /** Offering the same route twice has the effect of offering it once. */
  lemma OfferIdempotent(g: Graph, me: nat, table: map<nat, RouteEntry>, dest: nat, offered: RouteEntry)
    ensures Offer(g, me, Offer(g, me, table, dest, offered), dest, offered) == Offer(g, me, table, dest, offered)
  {
    BetterIsStrictOrder(offered, offered, offered);
  }

  /** Over a live link, the route `update_RT` keeps is the current one or a `Better` one; a staler offer is refused. */
  lemma OfferNeverWorse(g: Graph, me: nat, table: map<nat, RouteEntry>, dest: nat, offered: RouteEntry)
    requires dest in table && LinkExists(g, me, table[dest].nextHop)
    ensures var t := Offer(g, me, table, dest, offered); t[dest] == table[dest] || Better(t[dest], table[dest])
    ensures offered.seqNum < table[dest].seqNum ==> Offer(g, me, table, dest, offered) == table
  {
  }

  /** A missing or broken route, or a fresher offer, is always taken. */
  lemma OfferTaken(g: Graph, me: nat, table: map<nat, RouteEntry>, dest: nat, offered: RouteEntry)
    requires dest !in table || !LinkExists(g, me, table[dest].nextHop) || offered.seqNum > table[dest].seqNum
    ensures Offer(g, me, table, dest, offered) == table[dest := offered]
  {
  }

  /** One node's table taking an offer, the others unchanged, announces exactly the offered route. */
  lemma OfferAnnounces(t0: seq<map<nat, RouteEntry>>, t1: seq<map<nat, RouteEntry>>, g: Graph, me: nat, dest: nat, offered: RouteEntry)
    requires |t0| == |t1| && me < |t0|
    requires t1[me] == Offer(g, me, t0[me], dest, offered)
    requires forall i :: 0 <= i < |t0| && i != me ==> t1[i] == t0[i]
    ensures Announces(t0, t1, dest, offered.seqNum)
    ensures dest in t1[me]
  {
  }

  /**
   * `update_RT`: stores the offered route when `Replaces` says so, and
   * reports whether it did.
   */
  method UpdateRT(net: SensorNetwork, me: nat, dest: nat, offered: RouteEntry) returns (replaced: bool)
    requires net.Valid() && me < |net.nodes| && offered.nextHop < |net.nodes|
    modifies {net.nodes[me]}`routingTable
    ensures net.Valid()
    ensures replaced <==> Replaces(net.Graph(), me, Lookup(old(net.nodes[me].routingTable), dest), offered)
    ensures net.nodes[me].routingTable == Offer(net.Graph(), me, old(net.nodes[me].routingTable), dest, offered)
    ensures Announces(old(RouteTables(net.nodes)), RouteTables(net.nodes), dest, offered.seqNum)
  {
    ghost var t0 := RouteTables(net.nodes);
    var table := net.nodes[me].routingTable;
    if dest !in table {
      replaced := true;
    } else if !LinkExists(net.Graph(), me, table[dest].nextHop) {
      replaced := true;
    } else if offered.seqNum > table[dest].seqNum {
      replaced := true;
    } else {
      replaced := offered.seqNum == table[dest].seqNum && offered.cost.Less(table[dest].cost);
    }
    if replaced {
      net.SetRoute(me, dest, offered);
    }
    OfferAnnounces(t0, RouteTables(net.nodes), net.Graph(), me, dest, offered);
  }

  // ---------------------------------------------------------------------------
  // Route requests

  /** The copy `forward_RREQ` sends on: one hop more, and `linkCost` added to the cost. */
  function Relayed(rreq: Rreq, linkCost: Cost): (r: Rreq)
    ensures r.Id() == rreq.Id() && r.hops == rreq.hops + 1 && r.cost == rreq.cost.Plus(linkCost)
    ensures r.destId == rreq.destId && r.seqNum == rreq.seqNum && r.ttl == rreq.ttl
    ensures r.srcSeq == rreq.srcSeq && r.destSeq == rreq.destSeq
  {
    rreq.(hops := rreq.hops + 1, cost := rreq.cost.Plus(linkCost))
  }

  /** One queue entry per target, in order, each carrying `rreq` and `forwarder`. */
  function Fanout(targets: seq<nat>, rreq: Rreq, forwarder: nat): (q: seq<QueueEntry>)
    ensures |q| == |targets|
    ensures forall k :: 0 <= k < |q| ==> q[k] == QueueEntry(targets[k], rreq, forwarder)
  {
    if targets == [] then [] else Fanout(targets[..|targets| - 1], rreq, forwarder) + [QueueEntry(targets[|targets| - 1], rreq, forwarder)]
  }

  /** `ns` without `x`, order kept. */
  function Without(ns: seq<nat>, x: nat): (r: seq<nat>)
    ensures forall y :: y in r <==> y in ns && y != x
  {
    if ns == [] then [] else Without(ns[..|ns| - 1], x) + (if ns[|ns| - 1] == x then [] else [ns[|ns| - 1]])
  }

  /**
   * The copies `forward_RREQ` queues: one per neighbour other than the
   * forwarder, each one hop longer than the received request and with the
   * same (originator, broadcast id) pair.
   */
  lemma ForwardedCopies(ns: seq<nat>, rreq: Rreq, forwarder: nat, me: nat, linkCost: Cost)
    ensures var q := Fanout(Without(ns, forwarder), Relayed(rreq, linkCost), me);
      forall k :: 0 <= k < |q| ==>
        q[k].target != forwarder && q[k].target in ns && q[k].forwarder == me
        && q[k].rreq.hops == rreq.hops + 1 && q[k].rreq.Id() == rreq.Id()
  {
    var targets := Without(ns, forwarder);
    var q := Fanout(targets, Relayed(rreq, linkCost), me);
    forall k | 0 <= k < |q|
      ensures q[k].target != forwarder && q[k].target in ns
    {
      assert q[k].target == targets[k] && targets[k] in targets;
    }
  }

  /** A node's neighbours, in ascending order, are all nodes of the network. */
  lemma NeighboursAreNodes(net: SensorNetwork, me: nat)
    requires net.Valid() && me < |net.nodes|
    ensures forall x :: x in net.nodes[me].connections ==> x < |net.nodes|
  {
    net.ValidGraph();
    assert net.Graph()[me] == net.nodes[me].connections;
  }

  /**
   * Appends one entry per target, skipping ids that are not nodes as the
   * source's `if neighbor:` test does (none, in a valid network).
   */
  method Enqueue(net: SensorNetwork, targets: seq<nat>, rreq: Rreq, forwarder: nat)
    requires net.Valid() && forwarder < |net.nodes|
    requires forall t :: t in targets ==> t < |net.nodes|
    modifies net`queue
    ensures net.Valid()
    ensures net.queue == old(net.queue) + Fanout(targets, rreq, forwarder)
  {
    var added: seq<QueueEntry> := [];
    for k := 0 to |targets|
      invariant added == Fanout(targets[..k], rreq, forwarder)
      invariant forall e :: e in added ==> e.target < |net.nodes| && e.forwarder == forwarder
      modifies {}
    {
      assert targets[k] in targets;
      var target := net.GetNodeById(targets[k]);
      if target.Some? {
        added := added + [QueueEntry(targets[k], rreq, forwarder)];
      }
      assert targets[..k + 1][..k] == targets[..k];
    }
    assert targets[..|targets|] == targets;
    net.Push(added);
  }

  /**
   * `broadcast_RREQ`: nothing for a request to the node itself; otherwise
   * raises the sequence number and the broadcast id by one, records the new
   * request as seen and queues it for every neighbour in ascending order.
   */
  method BroadcastRreq(net: SensorNetwork, me: nat, dest: nat)
    requires net.Valid() && me < |net.nodes|
    modifies net`queue, {net.nodes[me]}`seqNum, {net.nodes[me]}`broadcastId, {net.nodes[me]}`seenRreqs
    ensures net.Valid()
    ensures forall i :: 0 <= i < |net.nodes| && i != me ==> net.nodes[i].seenRreqs == old(net.nodes[i].seenRreqs)
    ensures forall i :: 0 <= i < |net.nodes| ==> old(net.nodes[i].seenRreqs) <= net.nodes[i].seenRreqs
    ensures RouteTables(net.nodes) == old(RouteTables(net.nodes))
    ensures dest == me ==>
      net.queue == old(net.queue) && net.nodes[me].seqNum == old(net.nodes[me].seqNum)
      && net.nodes[me].broadcastId == old(net.nodes[me].broadcastId) && net.nodes[me].seenRreqs == old(net.nodes[me].seenRreqs)
    ensures dest != me ==>
      var node := net.nodes[me];
      node.seqNum == old(node.seqNum) + 1 && node.broadcastId == old(node.broadcastId) + 1
      && node.seenRreqs == old(node.seenRreqs) + {(me, node.broadcastId)}
      && net.queue == old(net.queue) + Fanout(Ascending(node.connections.Keys), Originate(me, dest, node.seqNum, node.broadcastId), me)
  {
    if dest == me {
      return;
    }
    var rreq := StartBroadcast(net, me, dest);
    var ns := net.nodes[me].GetNeighbors();
    NeighboursAreNodes(net, me);
    Enqueue(net, ns, rreq, me);
  }

  /** The node-side half of `broadcast_RREQ`: node `me` numbers a new request and marks it seen; no other node changes. */
  method StartBroadcast(net: SensorNetwork, me: nat, dest: nat) returns (rreq: Rreq)
    requires net.Valid() && me < |net.nodes|
    modifies {net.nodes[me]}`seqNum, {net.nodes[me]}`broadcastId, {net.nodes[me]}`seenRreqs
    ensures net.Valid()
    ensures forall i :: 0 <= i < |net.nodes| && i != me ==> net.nodes[i].seenRreqs == old(net.nodes[i].seenRreqs)
    ensures RouteTables(net.nodes) == old(RouteTables(net.nodes))
    ensures var node := net.nodes[me];
      node.seqNum == old(node.seqNum) + 1 && node.broadcastId == old(node.broadcastId) + 1
      && rreq == Originate(me, dest, node.seqNum, node.broadcastId)
      && node.seenRreqs == old(node.seenRreqs) + {rreq.Id()}
  {
    ghost var t0 := RouteTables(net.nodes);
    var node := net.nodes[me];
    forall i | 0 <= i < |net.nodes| && i != me
      ensures net.nodes[i] != node
    {
      assert net.nodes[i].id != node.id;
    }
    rreq := node.StartRequest(dest);
    TablesAre(net.nodes, t0);
  }

  /**
   * `send_RREQ`: as `broadcast_RREQ`, but queues the request for the
   * destination node alone. The destination must be a node: the source
   * would queue `None` otherwise and fail when the queue is drained.
   */
  method SendRreq(net: SensorNetwork, me: nat, dest: nat)
    requires net.Valid() && me < |net.nodes| && dest < |net.nodes|
    modifies net`queue, {net.nodes[me]}`seqNum, {net.nodes[me]}`broadcastId, {net.nodes[me]}`seenRreqs
    ensures net.Valid()
    ensures dest == me ==>
      net.queue == old(net.queue) && net.nodes[me].seqNum == old(net.nodes[me].seqNum)
      && net.nodes[me].broadcastId == old(net.nodes[me].broadcastId) && net.nodes[me].seenRreqs == old(net.nodes[me].seenRreqs)
    ensures dest != me ==>
      var node := net.nodes[me];
      node.seqNum == old(node.seqNum) + 1 && node.broadcastId == old(node.broadcastId) + 1
      && node.seenRreqs == old(node.seenRreqs) + {(me, node.broadcastId)}
      && net.queue == old(net.queue) + [QueueEntry(dest, Originate(me, dest, node.seqNum, node.broadcastId), me)]
  {
    if dest == me {
      return;
    }
    var node := net.nodes[me];
    var rreq := node.StartRequest(dest);
    net.queue := net.queue + [QueueEntry(dest, rreq, me)];
  }

  /**
   * `forward_RREQ`: queues a relayed copy for every neighbour except the
   * forwarder. Every copy adds the cost of the link between this node and
   * the forwarder.
   */
  method ForwardRreq(net: SensorNetwork, me: nat, rreq: Rreq, forwarder: nat)
    requires net.Valid() && me < |net.nodes|
    modifies net`queue
    ensures net.Valid()
    ensures net.queue == old(net.queue
      + Fanout(Without(Ascending(net.nodes[me].connections.Keys), forwarder), Relayed(rreq, LinkCost(net.Graph(), me, forwarder)), me))
    ensures RouteTables(net.nodes) == old(RouteTables(net.nodes))
  {
    var ns := net.nodes[me].GetNeighbors();
    var copy := Relayed(rreq, LinkCost(net.Graph(), me, forwarder));
    NeighboursAreNodes(net, me);
    ghost var t0 := RouteTables(net.nodes);
    Enqueue(net, Without(ns, forwarder), copy, me);
    TablesAre(net.nodes, t0);
  }

  // ---------------------------------------------------------------------------
  // Route replies

  /**
   * The nodes a route reply visits, in order, against the tables `t0`
   * before the relay and `t1` after it. Every visited node ends with a
   * route to the reply's `source`. While the reply's two ends differ, every
   * node but the last passed the reply to the next hop of its route to
   * `dest`, and the last node is `dest`, has no route to `dest`, or is the
   * last one the fuel allows.
   */
  ghost predicate RelayPath(t0: seq<map<nat, RouteEntry>>, t1: seq<map<nat, RouteEntry>>, path: seq<nat>,
                            source: nat, dest: nat, fuel: nat) {
    |t0| == |t1| && |path| <= fuel
    && (forall k :: 0 <= k < |path| ==> path[k] < |t1| && source in t1[path[k]])
    && (source != dest ==>
          (forall k :: 0 <= k < |path| - 1 ==>
             path[k] != dest && dest in t0[path[k]] && t0[path[k]][dest].nextHop == path[k + 1])
          && (path != [] ==>
                path[|path| - 1] == dest || dest !in t0[path[|path| - 1]] || |path| == fuel))
  }

  /** A reply that stops at `me`, which now has a route to its source, has visited `me` alone. */
  lemma RelayEnds(t0: seq<map<nat, RouteEntry>>, t1: seq<map<nat, RouteEntry>>, me: nat, source: nat, dest: nat, fuel: nat)
    requires fuel > 0 && me < |t0| && Grows(t0, t1, {source}) && source in t1[me]
    requires me == dest || dest !in t1[me]
    ensures RelayPath(t0, t1, [me], source, dest, fuel)
  {
    if source != dest && me != dest {
      assert Lookup(t0[me], dest) == Lookup(t1[me], dest);
    }
  }

  /**
   * A reply that `me` passed on to the next hop of its route to `dest`
   * visited `me` and then the nodes of the rest of the relay. Routes to
   * `dest` are the same before and after `me` offered its route to the
   * source, since only routes to the source change.
   */
  lemma RelayExtends(t0: seq<map<nat, RouteEntry>>, t1: seq<map<nat, RouteEntry>>, t2: seq<map<nat, RouteEntry>>,
                     me: nat, sub: seq<nat>, source: nat, dest: nat, fuel: nat)
    requires fuel > 0 && me < |t0| && me != dest
    requires Grows(t0, t1, {source}) && Grows(t1, t2, {source}) && source in t1[me] && dest in t1[me]
    requires RelayPath(t1, t2, sub, source, dest, fuel - 1)
    requires sub == [] ==> fuel == 1
    requires sub != [] ==> sub[0] == t1[me][dest].nextHop
    ensures RelayPath(t0, t2, [me] + sub, source, dest, fuel)
  {
    var path := [me] + sub;
    forall k | 0 <= k < |path| ensures path[k] < |t2| && source in t2[path[k]] {
      if k > 0 {
        assert path[k] == sub[k - 1];
      }
    }
    if source != dest {
      forall k | 0 <= k < |path| - 1
        ensures path[k] != dest && dest in t0[path[k]] && t0[path[k]][dest].nextHop == path[k + 1]
      {
        AgreeAt(t0, t1, {source}, path[k], dest);
        if k > 0 {
          assert path[k] == sub[k - 1] && path[k + 1] == sub[k];
        }
      }
      if sub != [] {
        assert path[|path| - 1] == sub[|sub| - 1] && sub[|sub| - 1] < |t1|;
        AgreeAt(t0, t1, {source}, sub[|sub| - 1], dest);
      }
    }
  }

  /**
   * `send_RREP`: builds the reply announcing `source` with sequence number
   * `seqNum` and hands it to the next hop towards `dest`, if this node has
   * a route there; otherwise the reply is dropped. `path` lists the nodes
   * the reply then visits, starting at that next hop.
   */
  method SendRrep(net: SensorNetwork, me: nat, source: nat, dest: nat, seqNum: nat, hops: nat, cost: Cost, fuel: nat)
    returns (ghost path: seq<nat>)
    requires net.Valid() && me < |net.nodes|
    modifies net.nodes`routingTable
    ensures net.Valid()
    ensures Announces(old(RouteTables(net.nodes)), RouteTables(net.nodes), source, seqNum)
    ensures dest !in old(net.nodes[me].routingTable) ==> path == [] && RouteTables(net.nodes) == old(RouteTables(net.nodes))
    ensures dest in old(net.nodes[me].routingTable) && fuel > 0 ==>
      path != [] && path[0] == old(net.nodes[me].routingTable[dest].nextHop)
    ensures RelayPath(old(RouteTables(net.nodes)), RouteTables(net.nodes), path, source, dest, fuel)
  {
    var rrep := Rrep(source, dest, seqNum, hops, cost);
    var table := net.nodes[me].routingTable;
    path := [];
    if dest in table {
      var nextHop := table[dest].nextHop;
      path := ReceiveRrep(net, nextHop, rrep, me, fuel);
    }
  }

  /**
   * `receive_RREP`: counts one more hop and the cost of the link back to
   * the forwarder, offers the route to the reply's source through the
   * forwarder, and relays the reply along the route to its destination
   * unless this node is that destination or has no such route. `path`
   * lists the nodes the reply visits, starting here. The relay chain stops
   * after `fuel` nodes, where the source would exhaust Python's recursion
   * limit.
   */
  method ReceiveRrep(net: SensorNetwork, me: nat, rrep: Rrep, forwarder: nat, fuel: nat) returns (ghost path: seq<nat>)
    requires net.Valid() && me < |net.nodes| && forwarder < |net.nodes|
    modifies net.nodes`routingTable
    ensures net.Valid()
    ensures Announces(old(RouteTables(net.nodes)), RouteTables(net.nodes), rrep.sourceId, rrep.seqNum)
    ensures fuel == 0 ==> path == []
    ensures fuel > 0 ==> path != [] && path[0] == me && rrep.sourceId in net.nodes[me].routingTable
    ensures RelayPath(old(RouteTables(net.nodes)), RouteTables(net.nodes), path, rrep.sourceId, rrep.destId, fuel)
    decreases fuel
  {
    if fuel == 0 {
      return [];
    }
    ghost var t0 := RouteTables(net.nodes);
    var relayed := AcceptReply(net, me, rrep, forwarder);
    ghost var t1 := RouteTables(net.nodes);
    var table := net.nodes[me].routingTable;
    if relayed.destId == me || relayed.destId !in table {
      RelayEnds(t0, t1, me, rrep.sourceId, rrep.destId, fuel);
      return [me];
    }
    var nextHop := table[relayed.destId].nextHop;
    var sub := ReceiveRrep(net, nextHop, relayed, me, fuel - 1);
    RelayExtends(t0, t1, RouteTables(net.nodes), me, sub, rrep.sourceId, rrep.destId, fuel);
    AnnouncesTrans(t0, t1, RouteTables(net.nodes), rrep.sourceId, rrep.seqNum);
    path := [me] + sub;
  }

  /**
   * The first half of `receive_RREP`: the reply as it is relayed (one hop
   * more, the link's cost added), and the route to its source offered.
   */
  method AcceptReply(net: SensorNetwork, me: nat, rrep: Rrep, forwarder: nat) returns (relayed: Rrep)
    requires net.Valid() && me < |net.nodes| && forwarder < |net.nodes|
    modifies {net.nodes[me]}`routingTable
    ensures net.Valid()
    ensures relayed == rrep.(hops := rrep.hops + 1, cost := rrep.cost.Plus(LinkCost(net.Graph(), me, forwarder)))
    ensures net.nodes[me].routingTable == old(Offer(net.Graph(), me, net.nodes[me].routingTable, rrep.sourceId,
                                                   RouteEntry(rrep.sourceId, forwarder, rrep.seqNum, rrep.hops + 1, relayed.cost)))
    ensures Announces(old(RouteTables(net.nodes)), RouteTables(net.nodes), rrep.sourceId, rrep.seqNum)
    ensures rrep.sourceId in net.nodes[me].routingTable
  {
    relayed := rrep.(hops := rrep.hops + 1, cost := rrep.cost.Plus(LinkCost(net.Graph(), me, forwarder)));
    var route := RouteEntry(relayed.sourceId, forwarder, relayed.seqNum, relayed.hops, relayed.cost);
    var replaced := UpdateRT(net, me, relayed.sourceId, route);
  }

  // ---------------------------------------------------------------------------
  // Receiving a route request

  datatype RreqOutcome = Duplicate | ReplyAsDestination | ReplyFromRoute | Forwarded

  /** The route back to the originator that `receive_RREQ` offers: through the forwarder, one hop more, the link's cost added. */
  function ReverseRoute(g: Graph, me: nat, rreq: Rreq, forwarder: nat): (r: RouteEntry)
    ensures r.destId == rreq.sourceId && r.nextHop == forwarder && r.seqNum == rreq.srcSeq && r.hops == rreq.hops + 1
    ensures r.cost == rreq.cost.Plus(LinkCost(g, me, forwarder))
  {
    RouteEntry(rreq.sourceId, forwarder, rreq.srcSeq, rreq.hops + 1, rreq.cost.Plus(LinkCost(g, me, forwarder)))
  }

  /**
   * Whether an intermediate node may answer a request from its own route:
   * the next-hop link is up and the route is fresher than the request asks
   * for, or as fresh and cheaper than the request's path so far.
   */
  predicate CanAnswer(g: Graph, me: nat, route: RouteEntry, rreq: Rreq) {
    LinkExists(g, me, route.nextHop)
    && (route.seqNum > rreq.destSeq || (route.seqNum == rreq.destSeq && route.cost.Less(rreq.cost)))
  }

  /** What a node does with a request it has not seen, given its table after the reverse route was offered. */
  function RreqDecision(g: Graph, me: nat, table: map<nat, RouteEntry>, rreq: Rreq): (o: RreqOutcome)
    ensures o != Duplicate
    ensures o == ReplyAsDestination <==> rreq.destId == me
    ensures o == ReplyFromRoute <==> rreq.destId != me && rreq.destId in table && CanAnswer(g, me, table[rreq.destId], rreq)
  {
    if rreq.destId == me then ReplyAsDestination
    else if rreq.destId in table && CanAnswer(g, me, table[rreq.destId], rreq) then ReplyFromRoute
    else Forwarded
  }

  /**
   * `receive_RREQ`: a request already seen is dropped and changes nothing.
   * Otherwise the request is marked as seen, the reverse route to its
   * originator is offered, and the node replies as the destination (after
   * raising its sequence number to at least the one the request asks for),
   * replies from a usable route of its own, or forwards the request.
   */
  method ReceiveRreq(net: SensorNetwork, me: nat, rreq: Rreq, forwarder: nat) returns (outcome: RreqOutcome)
    requires net.Valid() && me < |net.nodes| && forwarder < |net.nodes|
    modifies net`queue, {net.nodes[me]}`seenRreqs, {net.nodes[me]}`seqNum, net.nodes`routingTable
    ensures net.Valid()
    ensures outcome == Duplicate <==> old(rreq.Id() in net.nodes[me].seenRreqs)
    ensures outcome == Duplicate ==>
      net.queue == old(net.queue) && net.nodes[me].seqNum == old(net.nodes[me].seqNum)
      && net.nodes[me].seenRreqs == old(net.nodes[me].seenRreqs) && RouteTables(net.nodes) == old(RouteTables(net.nodes))
    ensures outcome != Duplicate ==>
      net.nodes[me].seenRreqs == old(net.nodes[me].seenRreqs) + {rreq.Id()}
      && rreq.sourceId in net.nodes[me].routingTable
      && outcome == old(RreqDecision(net.Graph(), me,
           Offer(net.Graph(), me, net.nodes[me].routingTable, rreq.sourceId, ReverseRoute(net.Graph(), me, rreq, forwarder)), rreq))
    ensures net.nodes[me].seqNum == if outcome == ReplyAsDestination then Max(old(net.nodes[me].seqNum), rreq.destSeq) else old(net.nodes[me].seqNum)
    ensures net.queue == old(net.queue) + if outcome == Forwarded then
      old(Fanout(Without(Ascending(net.nodes[me].connections.Keys), forwarder), Relayed(rreq, LinkCost(net.Graph(), me, forwarder)), me)) else []
    ensures Grows(old(RouteTables(net.nodes)), RouteTables(net.nodes), {rreq.sourceId, rreq.destId})
  {
    if net.nodes[me].IsDuplicate(rreq) {
      return Duplicate;
    }
    ghost var t0 := RouteTables(net.nodes);
    ghost var g := net.Graph();
    AcceptRequest(net, me, rreq, forwarder);
    assert net.Graph() == g;
    ghost var t1 := RouteTables(net.nodes);
    outcome := AnswerRreq(net, me, rreq, forwarder);
    ghost var t2 := RouteTables(net.nodes);
    GrowsTrans(t0, t1, t2, {rreq.sourceId}, {rreq.destId});
    assert {rreq.sourceId} + {rreq.destId} == {rreq.sourceId, rreq.destId};
  }

  /** The first half of `receive_RREQ`: marks the request as seen and offers the reverse route. */
  method AcceptRequest(net: SensorNetwork, me: nat, rreq: Rreq, forwarder: nat)
    requires net.Valid() && me < |net.nodes| && forwarder < |net.nodes|
    modifies {net.nodes[me]}`seenRreqs, {net.nodes[me]}`routingTable
    ensures net.Valid()
    ensures net.nodes[me].seenRreqs == old(net.nodes[me].seenRreqs) + {rreq.Id()}
    ensures net.nodes[me].routingTable
      == old(Offer(net.Graph(), me, net.nodes[me].routingTable, rreq.sourceId, ReverseRoute(net.Graph(), me, rreq, forwarder)))
    ensures Grows(old(RouteTables(net.nodes)), RouteTables(net.nodes), {rreq.sourceId})
  {
    MarkRreqSeen(net, me, rreq.Id());
    var reverse := ReverseRoute(net.Graph(), me, rreq, forwarder);
    var replaced := UpdateRT(net, me, rreq.sourceId, reverse);
  }

  /** `self.seen_rreqs.add(...)`: only the seen set of `me` changes. */
  method MarkRreqSeen(net: SensorNetwork, me: nat, id: (nat, nat))
    requires net.Valid() && me < |net.nodes|
    modifies {net.nodes[me]}`seenRreqs
    ensures net.Valid()
    ensures net.nodes[me].seenRreqs == old(net.nodes[me].seenRreqs) + {id}
    ensures net.Graph() == old(net.Graph()) && RouteTables(net.nodes) == old(RouteTables(net.nodes))
  {
    var node := net.nodes[me];
    node.seenRreqs := node.seenRreqs + {id};
  }

  /**
   * The second half of `receive_RREQ`, once the reverse route is in place:
   * reply as the destination, reply from a usable route, or forward.
   */
  method AnswerRreq(net: SensorNetwork, me: nat, rreq: Rreq, forwarder: nat) returns (outcome: RreqOutcome)
    requires net.Valid() && me < |net.nodes| && forwarder < |net.nodes|
    modifies net`queue, {net.nodes[me]}`seqNum, net.nodes`routingTable
    ensures net.Valid()
    ensures outcome == old(RreqDecision(net.Graph(), me, net.nodes[me].routingTable, rreq))
    ensures net.nodes[me].seqNum == if outcome == ReplyAsDestination then Max(old(net.nodes[me].seqNum), rreq.destSeq) else old(net.nodes[me].seqNum)
    ensures net.queue == old(net.queue) + if outcome == Forwarded then
      old(Fanout(Without(Ascending(net.nodes[me].connections.Keys), forwarder), Relayed(rreq, LinkCost(net.Graph(), me, forwarder)), me)) else []
    ensures Grows(old(RouteTables(net.nodes)), RouteTables(net.nodes), {rreq.destId})
  {
    if rreq.destId == me {
      ReplyAsDest(net, me, rreq);
      return ReplyAsDestination;
    }
    outcome := ReplyOrForward(net, me, rreq, forwarder);
  }

  /** `receive_RREQ` at the destination: the sequence number rises to at least the requested one, and a reply goes back. */
  method ReplyAsDest(net: SensorNetwork, me: nat, rreq: Rreq)
    requires net.Valid() && me < |net.nodes|
    modifies {net.nodes[me]}`seqNum, net.nodes`routingTable
    ensures net.Valid()
    ensures net.nodes[me].seqNum == Max(old(net.nodes[me].seqNum), rreq.destSeq)
    ensures Announces(old(RouteTables(net.nodes)), RouteTables(net.nodes), me, net.nodes[me].seqNum)
  {
    ghost var t0 := RouteTables(net.nodes);
    var node := net.nodes[me];
    var seqNum := Max(node.seqNum, rreq.destSeq);
    node.seqNum := seqNum;
    TablesAre(net.nodes, t0);
    ghost var path := SendRrep(net, me, me, rreq.sourceId, seqNum, 0, Fin(0.0), RecursionLimit);
  }

  /** `receive_RREQ` at another node: reply from a usable route of its own, or forward the request. */
  method ReplyOrForward(net: SensorNetwork, me: nat, rreq: Rreq, forwarder: nat) returns (outcome: RreqOutcome)
    requires net.Valid() && me < |net.nodes| && forwarder < |net.nodes| && rreq.destId != me
    modifies net`queue, net.nodes`routingTable
    ensures net.Valid()
    ensures outcome == old(RreqDecision(net.Graph(), me, net.nodes[me].routingTable, rreq))
    ensures net.queue == old(net.queue) + if outcome == Forwarded then
      old(Fanout(Without(Ascending(net.nodes[me].connections.Keys), forwarder), Relayed(rreq, LinkCost(net.Graph(), me, forwarder)), me)) else []
    ensures Grows(old(RouteTables(net.nodes)), RouteTables(net.nodes), {rreq.destId})
  {
    var table := net.nodes[me].routingTable;
    if rreq.destId in table {
      var route := table[rreq.destId];
      if LinkExists(net.Graph(), me, route.nextHop) && (route.seqNum > rreq.destSeq || (route.seqNum == rreq.destSeq && route.cost.Less(rreq.cost))) {
        ghost var path := SendRrep(net, me, rreq.destId, rreq.sourceId, route.seqNum, route.hops, route.cost, RecursionLimit);
        return ReplyFromRoute;
      }
    }
    ForwardRreq(net, me, rreq, forwarder);
    return Forwarded;
  }

  // ---------------------------------------------------------------------------
  // Route errors

  /** The seen route-error keys of a list of nodes, in list order. */
  function SeenRerrs(ns: seq<AodvNode>): (ss: seq<set<seq<nat>>>)
    reads ns`seenRerrs
    ensures |ss| == |ns| && forall i :: 0 <= i < |ns| ==> ss[i] == ns[i].seenRerrs
  {
    if ns == [] then [] else SeenRerrs(ns[..|ns| - 1]) + [ns[|ns| - 1].seenRerrs]
  }

  /** `table` without the routes to the listed destinations. */
  function WithoutDests(table: map<nat, RouteEntry>, ds: seq<nat>): map<nat, RouteEntry> {
    map d | d in table && d !in ds :: table[d]
  }

  /**
   * The deletion loop of `receive_RERR`: every listed destination is
   * removed from the table, and every other route is kept.
   */
  method DeleteDests(table: map<nat, RouteEntry>, ds: seq<nat>) returns (t: map<nat, RouteEntry>)
    ensures t == WithoutDests(table, ds)
    ensures forall d :: d in t <==> d in table && d !in ds
    ensures forall d :: d in t ==> t[d] == table[d]
  {
    t := table;
    for k := 0 to |ds|
      invariant t == WithoutDests(table, ds[..k])
    {
      assert ds[..k + 1] == ds[..k] + [ds[k]];
      if ds[k] in t {
        t := t - {ds[k]};
      }
    }
    assert ds[..|ds|] == ds;
  }

  /**
   * What a route-error flood for `key` listing `ds` does between two
   * snapshots (tables `t0`, `t1`, seen keys `s0`, `s1`): a node adds `key`
   * to its seen keys or keeps them, a node that sees `key` for the first
   * time loses exactly its routes to `ds`, and every other node keeps its
   * table.
   */
  ghost predicate ErrApplied(t0: seq<map<nat, RouteEntry>>, t1: seq<map<nat, RouteEntry>>,
                             s0: seq<set<seq<nat>>>, s1: seq<set<seq<nat>>>, key: seq<nat>, ds: seq<nat>) {
    |t0| == |t1| == |s0| == |s1|
    && forall i :: 0 <= i < |t0| ==>
      (s1[i] == s0[i] || s1[i] == s0[i] + {key})
      && t1[i] == if key !in s0[i] && key in s1[i] then WithoutDests(t0[i], ds) else t0[i]
  }

  lemma {:induction false} ErrAppliedTrans(t0: seq<map<nat, RouteEntry>>, t1: seq<map<nat, RouteEntry>>, t2: seq<map<nat, RouteEntry>>,
                                           s0: seq<set<seq<nat>>>, s1: seq<set<seq<nat>>>, s2: seq<set<seq<nat>>>,
                                           key: seq<nat>, ds: seq<nat>)
    requires ErrApplied(t0, t1, s0, s1, key, ds) && ErrApplied(t1, t2, s1, s2, key, ds)
    ensures ErrApplied(t0, t2, s0, s2, key, ds)
  {
    forall i | 0 <= i < |t0|
      ensures (s2[i] == s0[i] || s2[i] == s0[i] + {key})
      ensures t2[i] == if key !in s0[i] && key in s2[i] then WithoutDests(t0[i], ds) else t0[i]
    {
      if key in s1[i] {
        assert s2[i] == s1[i];
      }
    }
  }

  /** Deleting the same destinations twice deletes nothing more. */
  lemma WithoutDestsIdempotent(table: map<nat, RouteEntry>, ds: seq<nat>)
    ensures WithoutDests(WithoutDests(table, ds), ds) == WithoutDests(table, ds)
  {
  }

  /** The nodes that have not yet seen route-error key `key`. */
  ghost function Unaware(ss: seq<set<seq<nat>>>, key: seq<nat>): set<nat> {
    set i | 0 <= i < |ss| && key !in ss[i]
  }

  /** A key once seen stays seen. */
  lemma ErrAppliedKeeps(t0: seq<map<nat, RouteEntry>>, t1: seq<map<nat, RouteEntry>>,
                        s0: seq<set<seq<nat>>>, s1: seq<set<seq<nat>>>, key: seq<nat>, ds: seq<nat>, me: nat)
    requires ErrApplied(t0, t1, s0, s1, key, ds) && me < |s0| && key in s0[me]
    ensures key in s1[me] && t1[me] == t0[me]
  {
  }

  /** A flood only adds its key to seen sets, so a key seen before stays seen at every node. */
  lemma ErrAppliedSeen(t0: seq<map<nat, RouteEntry>>, t1: seq<map<nat, RouteEntry>>,
                       s0: seq<set<seq<nat>>>, s1: seq<set<seq<nat>>>, key: seq<nat>, ds: seq<nat>)
    requires ErrApplied(t0, t1, s0, s1, key, ds)
    ensures forall i :: 0 <= i < |s0| ==> s0[i] <= s1[i]
  {
  }

  /** While a flood runs, no node becomes unaware of its key again. */
  lemma UnawareNeverGrows(s0: seq<set<seq<nat>>>, s1: seq<set<seq<nat>>>, key: seq<nat>)
    requires |s0| == |s1|
    requires forall i :: 0 <= i < |s0| ==> s1[i] == s0[i] || s1[i] == s0[i] + {key}
    ensures Unaware(s1, key) < Unaware(s0, key) || Unaware(s1, key) == Unaware(s0, key)
  {
    assert Unaware(s1, key) <= Unaware(s0, key);
  }

  /** Once `me` has seen `key` and nobody forgot a key, fewer nodes are unaware of it. */
  lemma UnawareShrinks(s0: seq<set<seq<nat>>>, s1: seq<set<seq<nat>>>, key: seq<nat>, me: nat)
    requires |s0| == |s1| && me < |s0| && key !in s0[me] && key in s1[me]
    requires forall i :: 0 <= i < |s0| ==> s1[i] == s0[i] || s1[i] == s0[i] + {key}
    ensures Unaware(s1, key) < Unaware(s0, key)
  {
    assert me in Unaware(s0, key) && me !in Unaware(s1, key);
  }

  /**
   * `receive_RERR`: a key already seen is ignored. Otherwise the node
   * records the key, deletes its routes to the listed destinations and
   * passes the error to every neighbour except the forwarder. The flood
   * ends because every node handles a key once.
   */
  method ReceiveRerr(net: SensorNetwork, me: nat, rerr: Rerr, forwarder: nat)
    requires net.Valid() && me < |net.nodes|
    modifies net.nodes`routingTable, net.nodes`seenRerrs
    ensures net.Valid()
    ensures rerr.Key() in net.nodes[me].seenRerrs
    ensures ErrApplied(old(RouteTables(net.nodes)), RouteTables(net.nodes), old(SeenRerrs(net.nodes)), SeenRerrs(net.nodes),
                       rerr.Key(), rerr.unreachable)
    ensures old(rerr.Key() in net.nodes[me].seenRerrs) ==>
      RouteTables(net.nodes) == old(RouteTables(net.nodes)) && SeenRerrs(net.nodes) == old(SeenRerrs(net.nodes))
    ensures !old(rerr.Key() in net.nodes[me].seenRerrs) ==>
      forall x :: x in net.nodes[me].connections && x != forwarder ==> x < |net.nodes| && rerr.Key() in SeenRerrs(net.nodes)[x]
    decreases Unaware(SeenRerrs(net.nodes), rerr.Key()), 0
  {
    var key := rerr.Key();
    ghost var t0 := RouteTables(net.nodes);
    ghost var s0 := SeenRerrs(net.nodes);
    if key in net.nodes[me].seenRerrs {
      return;
    }
    HandleRerr(net, me, rerr);
    ghost var t1 := RouteTables(net.nodes);
    ghost var s1 := SeenRerrs(net.nodes);
    UnawareShrinks(s0, s1, key, me);
    RelayRerr(net, me, rerr, forwarder);
    ErrAppliedTrans(t0, t1, RouteTables(net.nodes), s0, s1, SeenRerrs(net.nodes), key, rerr.unreachable);
  }

  /** The second half of `receive_RERR`: a node that has just handled the error passes it on to all but the forwarder. */
  method RelayRerr(net: SensorNetwork, me: nat, rerr: Rerr, forwarder: nat)
    requires net.Valid() && me < |net.nodes| && rerr.Key() in net.nodes[me].seenRerrs
    modifies net.nodes`routingTable, net.nodes`seenRerrs
    ensures net.Valid()
    ensures rerr.Key() in net.nodes[me].seenRerrs
    ensures ErrApplied(old(RouteTables(net.nodes)), RouteTables(net.nodes), old(SeenRerrs(net.nodes)), SeenRerrs(net.nodes),
                       rerr.Key(), rerr.unreachable)
    ensures forall x :: x in net.nodes[me].connections && x != forwarder ==> x < |net.nodes| && rerr.Key() in SeenRerrs(net.nodes)[x]
    decreases Unaware(SeenRerrs(net.nodes), rerr.Key()), 3
  {
    var ns := net.nodes[me].GetNeighbors();
    NeighboursAreNodes(net, me);
    ghost var t1 := RouteTables(net.nodes);
    ghost var s1 := SeenRerrs(net.nodes);
    FloodRerr(net, ns, rerr, me, Some(forwarder));
    ErrAppliedKeeps(t1, RouteTables(net.nodes), s1, SeenRerrs(net.nodes), rerr.Key(), rerr.unreachable, me);
  }

  /**
   * The forwarding loop shared by `send_RERR` and `receive_RERR`: node `me`
   * passes the error to each listed neighbour in turn, skipping `skip` (the
   * forwarder, when there is one).
   */
  method FloodRerr(net: SensorNetwork, ns: seq<nat>, rerr: Rerr, me: nat, skip: Option<nat>)
    requires net.Valid() && forall x :: x in ns ==> x < |net.nodes|
    modifies net.nodes`routingTable, net.nodes`seenRerrs
    ensures net.Valid()
    ensures ErrApplied(old(RouteTables(net.nodes)), RouteTables(net.nodes), old(SeenRerrs(net.nodes)), SeenRerrs(net.nodes),
                       rerr.Key(), rerr.unreachable)
    ensures forall x :: x in ns && skip != Some(x) ==> rerr.Key() in SeenRerrs(net.nodes)[x]
    decreases Unaware(SeenRerrs(net.nodes), rerr.Key()), 2
  {
    ghost var t0 := RouteTables(net.nodes);
    ghost var s0 := SeenRerrs(net.nodes);
    ErrAppliedRefl(t0, s0, rerr.Key(), rerr.unreachable);
    for k := 0 to |ns|
      invariant net.Valid()
      invariant ErrApplied(t0, RouteTables(net.nodes), s0, SeenRerrs(net.nodes), rerr.Key(), rerr.unreachable)
      invariant Reached(ns, k, skip, rerr.Key(), SeenRerrs(net.nodes))
    {
      ghost var s1 := SeenRerrs(net.nodes);
      if skip != Some(ns[k]) {
        assert ns[k] in ns;
        ghost var t1 := RouteTables(net.nodes);
        UnawareNeverGrows(s0, s1, rerr.Key());
        PassRerr(net, ns[k], rerr, me);
        ErrAppliedSeen(t1, RouteTables(net.nodes), s1, SeenRerrs(net.nodes), rerr.Key(), rerr.unreachable);
        ErrAppliedTrans(t0, t1, RouteTables(net.nodes), s0, s1, SeenRerrs(net.nodes), rerr.Key(), rerr.unreachable);
      }
      ReachedStep(ns, k, skip, rerr.Key(), s1, SeenRerrs(net.nodes));
    }
    ReachedAll(ns, skip, rerr.Key(), SeenRerrs(net.nodes));
  }

  /** The first `k` neighbours in `ns`, other than `skip`, have seen `key` (seen sets `ss`). */
  ghost predicate Reached(ns: seq<nat>, k: nat, skip: Option<nat>, key: seq<nat>, ss: seq<set<seq<nat>>>) {
    k <= |ns| && forall j :: 0 <= j < k && skip != Some(ns[j]) ==> ns[j] < |ss| && key in ss[ns[j]]
  }

  /** One turn of the forwarding loop: seen keys stay seen, and neighbour `k` has now seen the key unless it is skipped. */
  lemma ReachedStep(ns: seq<nat>, k: nat, skip: Option<nat>, key: seq<nat>, s1: seq<set<seq<nat>>>, s2: seq<set<seq<nat>>>)
    requires Reached(ns, k, skip, key, s1) && k < |ns|
    requires |s1| == |s2| && forall i :: 0 <= i < |s1| ==> s1[i] <= s2[i]
    requires skip != Some(ns[k]) ==> ns[k] < |s2| && key in s2[ns[k]]
    ensures Reached(ns, k + 1, skip, key, s2)
  {
  }

  /** After the whole loop, every listed neighbour other than `skip` has seen the key. */
  lemma ReachedAll(ns: seq<nat>, skip: Option<nat>, key: seq<nat>, ss: seq<set<seq<nat>>>)
    requires Reached(ns, |ns|, skip, key, ss)
    ensures forall x :: x in ns && skip != Some(x) ==> x < |ss| && key in ss[x]
  {
    forall x | x in ns && skip != Some(x)
      ensures x < |ss| && key in ss[x]
    {
      var j :| 0 <= j < |ns| && ns[j] == x;
    }
  }

  /** The body of the forwarding loop: the error goes to neighbour `to`, if it is a node. */
  method PassRerr(net: SensorNetwork, to: nat, rerr: Rerr, me: nat)
    requires net.Valid() && to < |net.nodes|
    modifies net.nodes`routingTable, net.nodes`seenRerrs
    ensures net.Valid()
    ensures ErrApplied(old(RouteTables(net.nodes)), RouteTables(net.nodes), old(SeenRerrs(net.nodes)), SeenRerrs(net.nodes),
                       rerr.Key(), rerr.unreachable)
    ensures rerr.Key() in net.nodes[to].seenRerrs
    decreases Unaware(SeenRerrs(net.nodes), rerr.Key()), 1
  {
    var neighbour := net.GetNodeById(to);
    if neighbour.Some? {
      ReceiveRerr(net, to, rerr, me);
    }
  }

  /**
   * What `send_RERR` at node `me` with list `ds` does between two snapshots:
   * nothing for an empty list; otherwise `me` records the key without
   * touching its own table, and the flood then runs from that state.
   */
  ghost predicate RerrSent(t0: seq<map<nat, RouteEntry>>, t1: seq<map<nat, RouteEntry>>,
                           s0: seq<set<seq<nat>>>, s1: seq<set<seq<nat>>>, me: nat, ds: seq<nat>) {
    if ds == [] then
      t1 == t0 && s1 == s0
    else
      me < |s0| && ErrApplied(t0, t1, s0[me := s0[me] + {Sort(ds)}], s1, Sort(ds), ds)
  }

  /**
   * After `send_RERR` with a non-empty list the sender has seen the key and
   * keeps its own routes (also those to the listed destinations), and every
   * other node either keeps its table or, seeing the key for the first
   * time, loses exactly its routes to the listed destinations.
   */
  lemma RerrSentEffect(t0: seq<map<nat, RouteEntry>>, t1: seq<map<nat, RouteEntry>>,
                       s0: seq<set<seq<nat>>>, s1: seq<set<seq<nat>>>, me: nat, ds: seq<nat>)
    requires RerrSent(t0, t1, s0, s1, me, ds) && ds != []
    ensures Sort(ds) in s1[me] && t1[me] == t0[me]
    ensures forall i :: 0 <= i < |t0| && i != me ==>
      t1[i] == t0[i] || (Sort(ds) !in s0[i] && t1[i] == WithoutDests(t0[i], ds))
  {
    var s := s0[me := s0[me] + {Sort(ds)}];
    ErrAppliedKeeps(t0, t1, s, s1, Sort(ds), ds, me);
  }

  /**
   * `send_RERR`: an empty list changes nothing. Otherwise the node records
   * the key of the error, without checking whether it had seen it and
   * without touching its own table, and passes the error to every
   * neighbour.
   */
  method SendRerr(net: SensorNetwork, me: nat, unreachable: seq<nat>)
    requires net.Valid() && me < |net.nodes|
    modifies net.nodes`routingTable, net.nodes`seenRerrs
    ensures net.Valid()
    ensures RerrSent(old(RouteTables(net.nodes)), RouteTables(net.nodes), old(SeenRerrs(net.nodes)), SeenRerrs(net.nodes), me, unreachable)
    ensures unreachable != [] ==>
      forall x :: x in net.nodes[me].connections ==> x < |net.nodes| && Sort(unreachable) in SeenRerrs(net.nodes)[x]
  {
    if unreachable == [] {
      return;
    }
    var rerr := Rerr(unreachable);
    var ns := net.nodes[me].GetNeighbors();
    NeighboursAreNodes(net, me);
    ghost var t0 := RouteTables(net.nodes);
    ghost var s0 := SeenRerrs(net.nodes);
    MarkRerrSeen(net, me, rerr.Key());
    ghost var s1 := SeenRerrs(net.nodes);
    FloodRerr(net, ns, rerr, me, None);
    assert ErrApplied(t0, RouteTables(net.nodes), s1, SeenRerrs(net.nodes), rerr.Key(), unreachable);
  }

  /**
   * The destinations `can_send` collects before reporting a broken link:
   * the destination of every route whose next hop is `nextHop`, listed
   * over the table in ascending key order.
   */
  method RoutedVia(table: map<nat, RouteEntry>, nextHop: nat) returns (ds: seq<nat>)
    ensures forall x :: x in ds <==> exists d :: d in table && table[d].nextHop == nextHop && table[d].destId == x
  {
    var keys := SortedIds(table.Keys);
    ds := [];
    for k := 0 to |keys|
      invariant forall x :: x in ds <==> exists j :: 0 <= j < k && table[keys[j]].nextHop == nextHop && table[keys[j]].destId == x
    {
      if table[keys[k]].nextHop == nextHop {
        ds := ds + [table[keys[k]].destId];
      }
    }
    forall x | exists d :: d in table && table[d].nextHop == nextHop && table[d].destId == x
      ensures x in ds
    {
      var d :| d in table && table[d].nextHop == nextHop && table[d].destId == x;
      var j :| 0 <= j < |keys| && keys[j] == d;
    }
  }

  /**
   * `can_send`: true exactly when the node has a route to `dst` whose next
   * hop it is still linked to. When the route exists but the link is gone,
   * the node reports every destination reached through that next hop with
   * `send_RERR` and answers false; in every other case nothing changes.
   */
  method CanSend(net: SensorNetwork, me: nat, dst: nat) returns (ok: bool, ghost reported: seq<nat>)
    requires net.Valid() && me < |net.nodes|
    modifies net.nodes`routingTable, net.nodes`seenRerrs
    ensures net.Valid()
    ensures ok <==> old(dst in net.nodes[me].routingTable && LinkExists(net.Graph(), me, net.nodes[me].routingTable[dst].nextHop))
    ensures old(dst in net.nodes[me].routingTable) && !ok ==>
      var table := old(net.nodes[me].routingTable);
      (forall x :: x in reported <==> exists d :: d in table && table[d].nextHop == table[dst].nextHop && table[d].destId == x)
      && RerrSent(old(RouteTables(net.nodes)), RouteTables(net.nodes), old(SeenRerrs(net.nodes)), SeenRerrs(net.nodes), me, reported)
    ensures !old(dst in net.nodes[me].routingTable) || ok ==>
      RouteTables(net.nodes) == old(RouteTables(net.nodes)) && SeenRerrs(net.nodes) == old(SeenRerrs(net.nodes))
  {
    reported := [];
    var table := net.nodes[me].routingTable;
    if table == map[] || dst !in table {
      return false, reported;
    }
    var nextHop := table[dst].nextHop;
    var potential := RoutedVia(table, nextHop);
    reported := potential;
    if !LinkExists(net.Graph(), me, nextHop) {
      SendRerr(net, me, potential);
      return false, reported;
    }
    return true, reported;
  }

  /** The first half of `receive_RERR` for an unseen key: record it and delete the listed routes. */
  method HandleRerr(net: SensorNetwork, me: nat, rerr: Rerr)
    requires net.Valid() && me < |net.nodes| && rerr.Key() !in net.nodes[me].seenRerrs
    modifies {net.nodes[me]}`routingTable, {net.nodes[me]}`seenRerrs
    ensures net.Valid()
    ensures ErrApplied(old(RouteTables(net.nodes)), RouteTables(net.nodes), old(SeenRerrs(net.nodes)), SeenRerrs(net.nodes),
                       rerr.Key(), rerr.unreachable)
    ensures rerr.Key() in net.nodes[me].seenRerrs
  {
    ghost var t0 := RouteTables(net.nodes);
    ghost var s0 := SeenRerrs(net.nodes);
    MarkRerrSeen(net, me, rerr.Key());
    DropDests(net, me, rerr.unreachable);
    ErrStep(t0, s0, me, rerr.Key(), rerr.unreachable);
  }

  /** Records route-error key `key` as seen at node `me`. */
  method MarkRerrSeen(net: SensorNetwork, me: nat, key: seq<nat>)
    requires net.Valid() && me < |net.nodes|
    modifies {net.nodes[me]}`seenRerrs
    ensures net.Valid()
    ensures SeenRerrs(net.nodes) == old(SeenRerrs(net.nodes)[me := net.nodes[me].seenRerrs + {key}])
    ensures RouteTables(net.nodes) == old(RouteTables(net.nodes))
  {
    ghost var t0 := RouteTables(net.nodes);
    var node := net.nodes[me];
    node.seenRerrs := node.seenRerrs + {key};
    TablesAre(net.nodes, t0);
  }

  /** Deletes node `me`'s routes to the listed destinations, as `receive_RERR` does. */
  method DropDests(net: SensorNetwork, me: nat, ds: seq<nat>)
    requires net.Valid() && me < |net.nodes|
    modifies {net.nodes[me]}`routingTable
    ensures net.Valid()
    ensures RouteTables(net.nodes) == old(RouteTables(net.nodes)[me := WithoutDests(net.nodes[me].routingTable, ds)])
    ensures SeenRerrs(net.nodes) == old(SeenRerrs(net.nodes))
  {
    ghost var s0 := SeenRerrs(net.nodes);
    ghost var t0 := RouteTables(net.nodes);
    var kept := DeleteDests(net.nodes[me].routingTable, ds);
    net.KeepRoutes(me, kept);
    TablesAre(net.nodes, t0[me := kept]);
    assert SeenRerrs(net.nodes) == s0;
  }

  /** One node handling an unseen key is a step of the flood. */
  lemma ErrStep(t0: seq<map<nat, RouteEntry>>, s0: seq<set<seq<nat>>>, me: nat, key: seq<nat>, ds: seq<nat>)
    requires |t0| == |s0| && me < |t0| && key !in s0[me]
    ensures ErrApplied(t0, t0[me := WithoutDests(t0[me], ds)], s0, s0[me := s0[me] + {key}], key, ds)
  {
  }

  lemma ErrAppliedRefl(t0: seq<map<nat, RouteEntry>>, s0: seq<set<seq<nat>>>, key: seq<nat>, ds: seq<nat>)
    requires |t0| == |s0|
    ensures ErrApplied(t0, t0, s0, s0, key, ds)
  {
  }
}
