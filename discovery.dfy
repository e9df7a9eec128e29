/**
 * Route discovery (`route_discovery`, src/core/network.py:362-371): the
 * source broadcasts a route request, and the network then drains its
 * request queue, oldest entry first, handing every entry to
 * `receive_RREQ` at its target node.
 */
module Discovery {
  import opened Packets
  import opened SensorNodes
  import opened Network
  import opened Aodv

  /** The seen route-request pairs of a list of nodes, in list order. */
  function SeenRreqs(ns: seq<AodvNode>): (ss: seq<set<(nat, nat)>>)
    reads ns`seenRreqs
    ensures |ss| == |ns| && forall i :: 0 <= i < |ns| ==> ss[i] == ns[i].seenRreqs
  {
    if ns == [] then [] else SeenRreqs(ns[..|ns| - 1]) + [ns[|ns| - 1].seenRreqs]
  }

  /** Every handled entry's request has been seen at its target. */
  ghost predicate HandledSeen(handled: seq<QueueEntry>, ss: seq<set<(nat, nat)>>) {
    forall e :: e in handled ==> e.target < |ss| && e.rreq.Id() in ss[e.target]
  }

  /** No node forgets a request it has seen. */
  ghost predicate SeenGrow(s0: seq<set<(nat, nat)>>, s1: seq<set<(nat, nat)>>) {
    |s0| == |s1| && forall i :: 0 <= i < |s0| ==> s0[i] <= s1[i]
  }

  /** No route is lost between two snapshots of the tables. */
  ghost predicate KeepsRoutes(t0: seq<map<nat, RouteEntry>>, t1: seq<map<nat, RouteEntry>>) {
    |t0| == |t1| && forall i, d :: 0 <= i < |t0| && d in t0[i] ==> d in t1[i]
  }

  /**
   * Every request pair a node has seen since the seen sets `s0` came with
   * a route, in tables `ts`, back to the pair's originator.
   */
  ghost predicate NewSeenRouted(s0: seq<set<(nat, nat)>>, ss: seq<set<(nat, nat)>>, ts: seq<map<nat, RouteEntry>>) {
    |s0| == |ss| == |ts| && forall i, id :: 0 <= i < |ss| && id in ss[i] && id !in s0[i] ==> id.0 in ts[i]
  }

  /**
   * The tables before (`t1`) and after (`t2`) node `target` handles request
   * pair `id`: no route is lost, a duplicate (`dup`) changes nothing, and
   * otherwise the target now has a route to the pair's originator.
   */
  ghost predicate TurnRoutes(t1: seq<map<nat, RouteEntry>>, t2: seq<map<nat, RouteEntry>>, target: nat, id: (nat, nat), dup: bool) {
    KeepsRoutes(t1, t2) && (dup ==> t2 == t1) && (!dup ==> target < |t2| && id.0 in t2[target])
  }

  /** The (node, request) pairs among `ids` that the node has not seen yet. */
  ghost function Unseen(ss: seq<set<(nat, nat)>>, ids: set<(nat, nat)>): set<(nat, (nat, nat))> {
    set i, id | 0 <= i < |ss| && id in ids && id !in ss[i] :: (i, id)
  }

  /** The request pairs of the entries of a queue. */
  ghost function QueueIds(q: seq<QueueEntry>): (ids: set<(nat, nat)>)
    ensures forall k :: 0 <= k < |q| ==> q[k].rreq.Id() in ids
  {
    set k | 0 <= k < |q| :: q[k].rreq.Id()
  }

  /** A node seeing a request for the first time leaves fewer unseen pairs. */
  lemma UnseenShrinks(ss: seq<set<(nat, nat)>>, ids: set<(nat, nat)>, t: nat, id: (nat, nat))
    requires t < |ss| && id in ids && id !in ss[t]
    ensures Unseen(ss[t := ss[t] + {id}], ids) < Unseen(ss, ids)
  {
    assert (t, id) in Unseen(ss, ids);
    assert (t, id) !in Unseen(ss[t := ss[t] + {id}], ids);
  }

  /** Handling entry `e` keeps every earlier entry seen and adds `e`. */
  lemma HandledSeenGrows(handled: seq<QueueEntry>, ss: seq<set<(nat, nat)>>, e: QueueEntry)
    requires HandledSeen(handled, ss) && e.target < |ss|
    ensures HandledSeen(handled + [e], ss[e.target := ss[e.target] + {e.rreq.Id()}])
    ensures SeenGrow(ss, ss[e.target := ss[e.target] + {e.rreq.Id()}])
  {
  }

  lemma SeenGrowTrans(s0: seq<set<(nat, nat)>>, s1: seq<set<(nat, nat)>>, s2: seq<set<(nat, nat)>>)
    requires SeenGrow(s0, s1) && SeenGrow(s1, s2)
    ensures SeenGrow(s0, s2)
  {
  }

  /**
   * The body of the queue loop: `receive_RREQ` at the entry's target. The
   * target ends up having seen the request (a duplicate had seen it
   * already), nobody else's seen set changes, and whatever is queued
   * carries the same request pair; a duplicate queues nothing.
   */
  method ProcessEntry(net: SensorNetwork, e: QueueEntry) returns (outcome: RreqOutcome, ghost added: seq<QueueEntry>)
    requires net.Valid() && e.target < |net.nodes| && e.forwarder < |net.nodes|
    modifies net`queue, net.nodes`seenRreqs, net.nodes`seqNum, net.nodes`routingTable
    ensures net.Valid()
    ensures SeenRreqs(net.nodes) == old(SeenRreqs(net.nodes)[e.target := net.nodes[e.target].seenRreqs + {e.rreq.Id()}])
    ensures outcome == Duplicate <==> old(e.rreq.Id() in net.nodes[e.target].seenRreqs)
    ensures net.queue == old(net.queue) + added
    ensures outcome == Duplicate ==> added == []
    ensures forall x :: x in added ==> x.rreq.Id() == e.rreq.Id()
    ensures TurnRoutes(old(RouteTables(net.nodes)), RouteTables(net.nodes), e.target, e.rreq.Id(), outcome == Duplicate)
  {
    ghost var s0 := SeenRreqs(net.nodes);
    outcome, added := ReceiveEntry(net, e);
    forall i | 0 <= i < |net.nodes| && i != e.target
      ensures net.nodes[i].seenRreqs == s0[i]
    {
      assert net.nodes[i].id != net.nodes[e.target].id;
    }
    assert SeenRreqs(net.nodes) == s0[e.target := s0[e.target] + {e.rreq.Id()}];
  }

  /** `receive_RREQ` at the entry's target, seen from the queue: what the target has seen and what was queued. */
  method ReceiveEntry(net: SensorNetwork, e: QueueEntry) returns (outcome: RreqOutcome, ghost added: seq<QueueEntry>)
    requires net.Valid() && e.target < |net.nodes| && e.forwarder < |net.nodes|
    modifies net`queue, {net.nodes[e.target]}`seenRreqs, {net.nodes[e.target]}`seqNum, net.nodes`routingTable
    ensures net.Valid()
    ensures net.nodes[e.target].seenRreqs == old(net.nodes[e.target].seenRreqs) + {e.rreq.Id()}
    ensures outcome == Duplicate <==> old(e.rreq.Id() in net.nodes[e.target].seenRreqs)
    ensures net.queue == old(net.queue) + added
    ensures outcome == Duplicate ==> added == []
    ensures forall x :: x in added ==> x.rreq.Id() == e.rreq.Id()
    ensures TurnRoutes(old(RouteTables(net.nodes)), RouteTables(net.nodes), e.target, e.rreq.Id(), outcome == Duplicate)
  {
    ghost var q0 := net.queue;
    ghost var seen := net.nodes[e.target].seenRreqs;
    outcome := ReceiveRreq(net, e.target, e.rreq, e.forwarder);
    if outcome == Duplicate {
      assert seen + {e.rreq.Id()} == seen;
    }
    added := net.queue[|q0|..];
    assert net.queue == q0 + added;
  }

  /**
   * One turn of the queue loop on values: taking the head of `q` and
   * appending `added` keeps the entries waiting at the start (`q0`) a prefix
   * of everything handled or waiting, and keeps every waiting request among
   * `ids`.
   */
  lemma QueueStep(q0: seq<QueueEntry>, handled: seq<QueueEntry>, q: seq<QueueEntry>, added: seq<QueueEntry>, ids: set<(nat, nat)>)
    requires q != [] && q0 <= handled + q
    requires forall x :: x in q ==> x.rreq.Id() in ids
    requires forall x :: x in added ==> x.rreq.Id() == q[0].rreq.Id()
    ensures q0 <= (handled + [q[0]]) + (q[1..] + added)
    ensures forall x :: x in q[1..] + added ==> x.rreq.Id() in ids
  {
    assert (handled + [q[0]]) + (q[1..] + added) == (handled + q) + added;
    assert q[0] in q;
  }

  /**
   * The loop of `route_discovery`: pops and handles entries until the queue
   * is empty. The entries waiting at the start are handled first and in
   * order, every handled request has been seen at its target, and no node
   * forgets a request. The loop ends because every entry either is a
   * duplicate, which only shortens the queue, or makes a node see one of
   * finitely many requests for the first time.
   */
  method DrainQueue(net: SensorNetwork) returns (ghost handled: seq<QueueEntry>)
    requires net.Valid()
    modifies net`queue, net.nodes`seenRreqs, net.nodes`seqNum, net.nodes`routingTable
    ensures net.Valid() && net.queue == []
    ensures old(net.queue) <= handled
    ensures HandledSeen(handled, SeenRreqs(net.nodes))
    ensures SeenGrow(old(SeenRreqs(net.nodes)), SeenRreqs(net.nodes))
    ensures KeepsRoutes(old(RouteTables(net.nodes)), RouteTables(net.nodes))
    ensures NewSeenRouted(old(SeenRreqs(net.nodes)), SeenRreqs(net.nodes), RouteTables(net.nodes))
    ensures forall e :: e in handled && e.rreq.Id() !in old(SeenRreqs(net.nodes))[e.target] ==>
      e.rreq.sourceId in net.nodes[e.target].routingTable
  {
    ghost var q0 := net.queue;
    ghost var ids := QueueIds(q0);
    ghost var s0 := SeenRreqs(net.nodes);
    ghost var t0 := RouteTables(net.nodes);
    handled := [];
    assert q0 <= handled + q0;
    while net.queue != []
      invariant net.Valid()
      invariant Draining(q0, ids, s0, t0, handled, net.queue, SeenRreqs(net.nodes), RouteTables(net.nodes))
      decreases Unseen(SeenRreqs(net.nodes), ids), |net.queue|
    {
      ghost var q := net.queue;
      ghost var s1 := SeenRreqs(net.nodes);
      ghost var t1 := RouteTables(net.nodes);
      var e, added := HandleNext(net);
      DrainTurn(q0, ids, s0, t0, handled, q, s1, t1, e, added, SeenRreqs(net.nodes), RouteTables(net.nodes));
      handled := handled + [e];
    }
    HandledRouted(handled, s0, SeenRreqs(net.nodes), RouteTables(net.nodes));
  }

  /** A handled entry whose target had not seen its request before the drain left a route to the request's originator there. */
  lemma HandledRouted(handled: seq<QueueEntry>, s0: seq<set<(nat, nat)>>, ss: seq<set<(nat, nat)>>, ts: seq<map<nat, RouteEntry>>)
    requires HandledSeen(handled, ss) && NewSeenRouted(s0, ss, ts)
    ensures forall e :: e in handled && e.rreq.Id() !in s0[e.target] ==> e.rreq.sourceId in ts[e.target]
  {
    forall e | e in handled && e.rreq.Id() !in s0[e.target]
      ensures e.rreq.sourceId in ts[e.target]
    {
      assert e.rreq.Id() in ss[e.target];
    }
  }

  /**
   * What holds at every turn of the queue loop: the entries waiting at the
   * start are a prefix of everything handled or waiting, every waiting
   * request is among `ids`, every handled request has been seen at its
   * target, no node has forgotten a request, no route has been lost since
   * the tables `t0` at the start, and every newly seen request came with a
   * route back to its originator.
   */
  ghost predicate Draining(q0: seq<QueueEntry>, ids: set<(nat, nat)>, s0: seq<set<(nat, nat)>>, t0: seq<map<nat, RouteEntry>>,
                           handled: seq<QueueEntry>, q: seq<QueueEntry>, ss: seq<set<(nat, nat)>>, ts: seq<map<nat, RouteEntry>>) {
    q0 <= handled + q
    && (forall x :: x in q ==> x.rreq.Id() in ids)
    && HandledSeen(handled, ss)
    && SeenGrow(s0, ss)
    && KeepsRoutes(t0, ts)
    && NewSeenRouted(s0, ss, ts)
  }

  /** One turn of the queue loop on values: the loop state stays `Draining`, and the turn makes progress. */
  lemma DrainTurn(q0: seq<QueueEntry>, ids: set<(nat, nat)>, s0: seq<set<(nat, nat)>>, t0: seq<map<nat, RouteEntry>>, handled: seq<QueueEntry>,
                  q: seq<QueueEntry>, s1: seq<set<(nat, nat)>>, t1: seq<map<nat, RouteEntry>>, e: QueueEntry, added: seq<QueueEntry>,
                  s2: seq<set<(nat, nat)>>, t2: seq<map<nat, RouteEntry>>)
    requires Draining(q0, ids, s0, t0, handled, q, s1, t1) && q != [] && e == q[0] && e.target < |s1|
    requires s2 == s1[e.target := s1[e.target] + {e.rreq.Id()}]
    requires e.rreq.Id() in s1[e.target] ==> added == []
    requires forall x :: x in added ==> x.rreq.Id() == e.rreq.Id()
    requires TurnRoutes(t1, t2, e.target, e.rreq.Id(), e.rreq.Id() in s1[e.target])
    ensures Draining(q0, ids, s0, t0, handled + [e], q[1..] + added, s2, t2)
    ensures Unseen(s2, ids) < Unseen(s1, ids) || (s2 == s1 && |q[1..] + added| < |q|)
  {
    QueueStep(q0, handled, q, added, ids);
    assert e.rreq.Id() in ids by { assert q[0] in q; }
    DrainStep(s0, s1, s2, handled, e, ids);
    RoutedStep(s0, s1, s2, t0, t1, t2, e.target, e.rreq.Id());
  }

  /** One turn of the queue loop on the tables: no route is lost and every newly seen pair still has its route. */
  lemma RoutedStep(s0: seq<set<(nat, nat)>>, s1: seq<set<(nat, nat)>>, s2: seq<set<(nat, nat)>>,
                   t0: seq<map<nat, RouteEntry>>, t1: seq<map<nat, RouteEntry>>, t2: seq<map<nat, RouteEntry>>, target: nat, id: (nat, nat))
    requires KeepsRoutes(t0, t1) && NewSeenRouted(s0, s1, t1) && target < |s1|
    requires s2 == s1[target := s1[target] + {id}]
    requires TurnRoutes(t1, t2, target, id, id in s1[target])
    ensures KeepsRoutes(t0, t2) && NewSeenRouted(s0, s2, t2)
  {
    forall i, x | 0 <= i < |s2| && x in s2[i] && x !in s0[i]
      ensures x.0 in t2[i]
    {
      if x in s1[i] {
        assert x.0 in t1[i];
      } else {
        assert i == target && x == id;
      }
    }
  }

  /** One turn of the queue loop: pops the oldest entry and hands it to its target. */
  method HandleNext(net: SensorNetwork) returns (e: QueueEntry, ghost added: seq<QueueEntry>)
    requires net.Valid() && net.queue != []
    modifies net`queue, net.nodes`seenRreqs, net.nodes`seqNum, net.nodes`routingTable
    ensures net.Valid()
    ensures e == old(net.queue[0]) && e.target < |net.nodes|
    ensures net.queue == old(net.queue[1..]) + added
    ensures SeenRreqs(net.nodes) == old(SeenRreqs(net.nodes)[e.target := net.nodes[e.target].seenRreqs + {e.rreq.Id()}])
    ensures old(e.rreq.Id() in net.nodes[e.target].seenRreqs) ==> added == []
    ensures forall x :: x in added ==> x.rreq.Id() == e.rreq.Id()
    ensures TurnRoutes(old(RouteTables(net.nodes)), RouteTables(net.nodes), e.target, e.rreq.Id(),
                       old(e.rreq.Id() in net.nodes[e.target].seenRreqs))
  {
    e := net.Pop();
    var outcome;
    outcome, added := ProcessEntry(net, e);
  }

  /**
   * One turn of the queue loop on the seen sets: the target of `e` sees its
   * request, so earlier handled entries stay seen, `e` is now seen, and
   * either nothing changed (a duplicate) or fewer pairs are unseen.
   */
  lemma DrainStep(s0: seq<set<(nat, nat)>>, s1: seq<set<(nat, nat)>>, s2: seq<set<(nat, nat)>>,
                  handled: seq<QueueEntry>, e: QueueEntry, ids: set<(nat, nat)>)
    requires HandledSeen(handled, s1) && SeenGrow(s0, s1) && e.target < |s1| && e.rreq.Id() in ids
    requires s2 == s1[e.target := s1[e.target] + {e.rreq.Id()}]
    ensures HandledSeen(handled + [e], s2) && SeenGrow(s0, s2)
    ensures if e.rreq.Id() in s1[e.target] then s2 == s1 else Unseen(s2, ids) < Unseen(s1, ids)
  {
    HandledSeenGrows(handled, s1, e);
    SeenGrowTrans(s0, s1, s2);
    if e.rreq.Id() in s1[e.target] {
      assert s1[e.target] + {e.rreq.Id()} == s1[e.target];
    } else {
      UnseenShrinks(s1, ids, e.target, e.rreq.Id());
    }
  }

  /**
   * `route_discovery(src, dst)`: node `src` broadcasts a request for `dst`
   * and the queue is drained. For `dst != src`, the broadcast id of `src`
   * goes up by one and every neighbour of `src` has seen the new request
   * when discovery ends.
   */
  method RouteDiscovery(net: SensorNetwork, src: nat, dst: nat) returns (ghost handled: seq<QueueEntry>)
    requires net.Valid() && src < |net.nodes|
    modifies net`queue, net.nodes`seenRreqs, net.nodes`seqNum, net.nodes`broadcastId, net.nodes`routingTable
    ensures net.Valid() && net.queue == []
    ensures SeenGrow(old(SeenRreqs(net.nodes)), SeenRreqs(net.nodes))
    ensures net.nodes[src].broadcastId == old(net.nodes[src].broadcastId) + (if dst == src then 0 else 1)
    ensures KeepsRoutes(old(RouteTables(net.nodes)), RouteTables(net.nodes))
    ensures dst != src ==>
      Heard(net.nodes[src].connections.Keys, src, net.nodes[src].broadcastId, old(SeenRreqs(net.nodes)), SeenRreqs(net.nodes), RouteTables(net.nodes))
  {
    ghost var s0 := SeenRreqs(net.nodes);
    ghost var q0 := net.queue;
    BroadcastRreq(net, src, dst);
    assert SeenGrow(s0, SeenRreqs(net.nodes));
    if dst == src {
      ghost var s1 := SeenRreqs(net.nodes);
      handled := DrainQueue(net);
      SeenGrowTrans(s0, s1, SeenRreqs(net.nodes));
    } else {
      ghost var rreq := Originate(src, dst, net.nodes[src].seqNum, net.nodes[src].broadcastId);
      handled := DrainBroadcast(net, src, q0, rreq, s0);
    }
  }

  /**
   * The drain that follows a broadcast by `src` of `rreq`, which queued one
   * entry per neighbour after the entries `q0` already waiting. Every
   * neighbour has seen the request when the queue is empty, and every
   * neighbour other than `src` that had not seen it before the broadcast
   * (seen sets `s0`) now holds a route back to `src`.
   */
  method DrainBroadcast(net: SensorNetwork, src: nat, ghost q0: seq<QueueEntry>, ghost rreq: Rreq, ghost s0: seq<set<(nat, nat)>>)
    returns (ghost handled: seq<QueueEntry>)
    requires net.Valid() && src < |net.nodes| && rreq.sourceId == src
    requires net.queue == q0 + Fanout(Ascending(net.nodes[src].connections.Keys), rreq, src)
    requires SeenGrow(s0, SeenRreqs(net.nodes))
    requires forall x :: 0 <= x < |s0| && x != src ==> s0[x] == net.nodes[x].seenRreqs
    modifies net`queue, net.nodes`seenRreqs, net.nodes`seqNum, net.nodes`routingTable
    ensures net.Valid() && net.queue == []
    ensures SeenGrow(s0, SeenRreqs(net.nodes))
    ensures KeepsRoutes(old(RouteTables(net.nodes)), RouteTables(net.nodes))
    ensures Heard(net.nodes[src].connections.Keys, src, rreq.broadcastId, s0, SeenRreqs(net.nodes), RouteTables(net.nodes))
  {
    ghost var s1 := SeenRreqs(net.nodes);
    ghost var targets := Ascending(net.nodes[src].connections.Keys);
    handled := DrainQueue(net);
    SeenGrowTrans(s0, s1, SeenRreqs(net.nodes));
    NeighboursHeard(q0, targets, rreq, src, handled, SeenRreqs(net.nodes));
    NeighboursRouted(targets, net.nodes[src].connections.Keys, src, rreq.Id(), s0, s1, SeenRreqs(net.nodes), RouteTables(net.nodes));
  }

  /**
   * What a broadcast by `src` with broadcast id `bid` left at the neighbours
   * `ns`, on the seen sets before the broadcast (`s0`) and after the drain
   * (`ss`) and the tables after the drain (`ts`): every neighbour has seen
   * the request, and every neighbour other than `src` that had not seen it
   * before holds a route back to `src`.
   */
  ghost predicate Heard(ns: set<nat>, src: nat, bid: nat, s0: seq<set<(nat, nat)>>, ss: seq<set<(nat, nat)>>,
                        ts: seq<map<nat, RouteEntry>>) {
    |s0| == |ss| == |ts|
    && forall x :: x in ns ==>
         x < |ss| && (src, bid) in ss[x]
         && (x != src && (src, bid) !in s0[x] ==> src in ts[x])
  }

  /**
   * Neighbours other than the originator that had not seen the broadcast
   * request before it was sent, and have seen it when the queue is
   * drained, saw it during the drain and so hold a route to the
   * originator.
   */
  lemma NeighboursRouted(targets: seq<nat>, ns: set<nat>, src: nat, id: (nat, nat), s0: seq<set<(nat, nat)>>, s1: seq<set<(nat, nat)>>,
                         ss: seq<set<(nat, nat)>>, ts: seq<map<nat, RouteEntry>>)
    requires id.0 == src && |s0| == |s1|
    requires forall x :: 0 <= x < |s0| && x != src ==> s1[x] == s0[x]
    requires NewSeenRouted(s1, ss, ts)
    requires forall x :: x in targets ==> x < |ss| && id in ss[x]
    requires forall x :: x in ns ==> x in targets
    ensures Heard(ns, src, id.1, s0, ss, ts)
  {
    forall x | x in ns && x != src && id !in s0[x]
      ensures src in ts[x]
    {
      assert id in ss[x] && id !in s1[x];
    }
  }

  /** The entries a broadcast queued were all handled, so every target has seen the request. */
  lemma NeighboursHeard(q0: seq<QueueEntry>, targets: seq<nat>, rreq: Rreq, src: nat,
                        handled: seq<QueueEntry>, ss: seq<set<(nat, nat)>>)
    requires q0 + Fanout(targets, rreq, src) <= handled
    requires HandledSeen(handled, ss)
    ensures forall x :: x in targets ==> x < |ss| && rreq.Id() in ss[x]
  {
    forall x | x in targets
      ensures x < |ss| && rreq.Id() in ss[x]
    {
      var k :| 0 <= k < |targets| && targets[k] == x;
      assert handled[|q0| + k] == QueueEntry(x, rreq, src);
      assert handled[|q0| + k] in handled;
    }
  }
}
