/**
 * A node of the sensor network (src/core/sensor_node.py) together with the
 * per-node AODV state that `aodv_node` adds to it (src/core/aodv_node.py:12-34).
 */
module SensorNodes {
  import opened Packets
  import opened SetLemmas

  /** The `msg_packet` dictionary that data forwarding passes from node to node. */
  datatype MsgPacket = MsgPacket(src: nat, dst: nat, payload: string, hops: nat, cost: Cost, path: seq<nat>)

  /**
   * The ids of a finite set in ascending order. Every loop of the engine over
   * a node's neighbours or routes visits them in this order.
   */
  ghost function Ascending(s: set<nat>): (r: seq<nat>)
    ensures forall x :: x in r <==> x in s
    ensures forall i, j :: 0 <= i < j < |r| ==> r[i] < r[j]
    decreases s
  {
    if s == {} then
      []
    else
      var m := MinOf(s);
      var rest := Ascending(s - {m});
      assert forall x :: x in rest ==> m < x;
      [m] + rest
  }

  /** Lists the ids of `s` in ascending order. */
  method SortedIds(s: set<nat>) returns (r: seq<nat>)
    ensures forall x :: x in r <==> x in s
    ensures forall i, j :: 0 <= i < j < |r| ==> r[i] < r[j]
  {
    r := [];
    var rest := s;
    while rest != {}
      invariant rest <= s
      invariant forall x :: x in r <==> x in s && x !in rest
      invariant forall i, j :: 0 <= i < j < |r| ==> r[i] < r[j]
      invariant forall i, x :: 0 <= i < |r| && x in rest ==> r[i] < x
      decreases rest
    {
      ghost var least := MinOf(rest);
      var m :| m in rest && forall y :: y in rest ==> m <= y;
      r := r + [m];
      rest := rest - {m};
    }
  }

  /** A strictly increasing listing of a set is its ascending listing. */
  lemma {:induction false} AscendingUnique(r: seq<nat>, s: set<nat>)
    requires forall x :: x in r <==> x in s
    requires forall i, j :: 0 <= i < j < |r| ==> r[i] < r[j]
    ensures r == Ascending(s)
    decreases |r|
  {
    if r == [] {
      assert s == {};
    } else {
      ListsMinFirst(r, s);
      var m := MinOf(s);
      TailListsRest(r, s);
      AscendingUnique(r[1..], s - {m});
      assert Ascending(s) == [m] + Ascending(s - {m});
      assert r == [r[0]] + r[1..];
    }
  }

  /** A strictly increasing listing of a non-empty set starts with its least element. */
  lemma ListsMinFirst(r: seq<nat>, s: set<nat>)
    requires r != []
    requires forall x :: x in r <==> x in s
    requires forall i, j :: 0 <= i < j < |r| ==> r[i] < r[j]
    ensures s != {} && r[0] == MinOf(s)
  {
    assert r[0] in s;
    var m := MinOf(s);
    var k :| 0 <= k < |r| && r[k] == m;
    assert r[0] <= r[k];
  }

  /** Without its first element, a strictly increasing listing of `s` lists the rest of `s`. */
  lemma TailListsRest(r: seq<nat>, s: set<nat>)
    requires r != []
    requires forall x :: x in r <==> x in s
    requires forall i, j :: 0 <= i < j < |r| ==> r[i] < r[j]
    ensures forall x :: x in r[1..] <==> x in s - {r[0]}
    ensures forall i, j :: 0 <= i < j < |r[1..]| ==> r[1..][i] < r[1..][j]
  {
    forall x ensures x in r[1..] <==> x in s - {r[0]} {
      if x in r[1..] {
        var k :| 1 <= k < |r| && r[k] == x;
      }
    }
  }

  class AodvNode {
    const id: nat
    /** neighbour id -> link delay */
    var connections: map<nat, real>
    var updateNeeded: bool
    /** the node's own sequence number (`seq` in the source) */
    var seqNum: nat
    var broadcastId: nat
    /** destination id -> route */
    var routingTable: map<nat, RouteEntry>
    /** (originator, broadcast id) pairs of the route requests already handled */
    var seenRreqs: set<(nat, nat)>
    /** sorted keys of the route errors already handled */
    var seenRerrs: set<seq<nat>>
    var receivedMsgs: seq<MsgPacket>

    /** A fresh node: no links, no routes, counters at zero. */
    constructor (id: nat)
      ensures this.id == id
      ensures connections == map[] && !updateNeeded
      ensures seqNum == 0 && broadcastId == 0 && routingTable == map[]
      ensures seenRreqs == {} && seenRerrs == {} && receivedMsgs == []
    {
      this.id := id;
      connections := map[];
      updateNeeded := false;
      seqNum := 0;
      broadcastId := 0;
      routingTable := map[];
      seenRreqs := {};
      seenRerrs := {};
      receivedMsgs := [];
    }

    /**
     * A node never reaches itself; for another node the answer is the range
     * test, whose geometry is supplied as `inRange`.
     */
    function CanReach(other: AodvNode, inRange: bool): (r: bool)
      ensures other == this ==> !r
      ensures other != this ==> (r <==> inRange)
    {
      if other == this then false else inRange
    }

    /** Records a one-directional link, overwriting an earlier delay. */
    method AddConnection(otherId: nat, delay: real)
      modifies this`connections, this`updateNeeded
      ensures connections == old(connections)[otherId := delay]
      ensures otherId in connections && connections[otherId] == delay
      ensures updateNeeded
    {
      connections := connections[otherId := delay];
      updateNeeded := true;
    }

    /** The neighbour ids: exactly the keys of `connections`, each once. */
    method GetNeighbors() returns (ns: seq<nat>)
      ensures ns == Ascending(connections.Keys)
    {
      ns := SortedIds(connections.Keys);
      AscendingUnique(ns, connections.Keys);
    }

    /** Clears the protocol state; links and seen RERR keys are kept. */
    method Reset()
      modifies this`seqNum, this`routingTable, this`broadcastId, this`seenRreqs, this`receivedMsgs
      ensures seqNum == 0 && broadcastId == 0 && routingTable == map[]
      ensures seenRreqs == {} && receivedMsgs == []
    {
      seqNum := 0;
      routingTable := map[];
      broadcastId := 0;
      seenRreqs := {};
      receivedMsgs := [];
    }

    /**
     * The bookkeeping `broadcast_RREQ` and `send_RREQ` do before sending: the
     * sequence number and the broadcast id go up by one, and the new request
     * is marked as seen.
     */
    method StartRequest(dest: nat) returns (rreq: Rreq)
      modifies this`seqNum, this`broadcastId, this`seenRreqs
      ensures seqNum == old(seqNum) + 1 && broadcastId == old(broadcastId) + 1
      ensures rreq == Originate(id, dest, seqNum, broadcastId)
      ensures seenRreqs == old(seenRreqs) + {rreq.Id()}
    {
      seqNum := seqNum + 1;
      broadcastId := broadcastId + 1;
      rreq := Originate(id, dest, seqNum, broadcastId);
      seenRreqs := seenRreqs + {rreq.Id()};
    }

    /** A route request is a duplicate when its (originator, broadcast id) pair was seen. */
    function IsDuplicate(rreq: Rreq): (dup: bool)
      reads this`seenRreqs
      ensures dup <==> (rreq.sourceId, rreq.broadcastId) in seenRreqs
    {
      rreq.Id() in seenRreqs
    }
  }
}
