# AODV sensor-network engine in Dafny

This project models the core of WirelessNetworkSim, a simulator of the
Ad-hoc On-demand Distance Vector (AODV) routing protocol over a wireless
sensor network:

- the packet and route records of `src/core/aodv.py`, as datatypes (`Packets`);
- a sensor node with its AODV state (`src/core/sensor_node.py` and the fields
  of `src/core/aodv_node.py`), as the class `AodvNode` (`SensorNodes`);
- the network (`src/core/network.py`). The class `SensorNetwork` owns the
  node list and the route-request work queue. Its links are mirrored as the
  value `Graph` (one `connections` map per node), and the connectivity check,
  the component search, the link enumerations and the connectivity repair
  work on that value (`Network`);
- the per-node protocol engine of `src/core/aodv_node.py` (`Aodv`):
  - route requests: origination, duplicate suppression, reverse routes,
    reply or forward;
  - the route-acceptance rule `update_RT`;
  - the route-reply relay;
  - the route-error flood;
  - `can_send`;
- `route_discovery`, the loop that drains the request queue (`Discovery`);
- hop-by-hop data forwarding with loop detection: `send_MSG`, `receive_MSG`
  (`Messaging`).

Node ids are positions in the network's node list, as `create_random_network`
builds them. `SensorNetwork.Valid` states this, together with "every
connection, route next hop and queued entry names a node". Every method
keeps `Valid`.

Operations that change state are methods over the objects, with field-level
`modifies` frames. Each is proved against a value-level specification:

- `RouteTables`, `SeenRerrs`, `SeenRreqs` and `Inboxes` are snapshots of all
  nodes;
- `Offer` is the route-acceptance rule;
- `ErrApplied` is what a route-error flood does;
- `AddLinkG`, `RemoveLinkG` and `AddLinksG` are link changes;
- `DropRoutesVia` is route invalidation.

Lemmas state the properties of these specifications.

Where the repository's own description of the protocol and the code
disagree, the model follows the code:

- routes are deleted, not marked invalid, and there are no precursor lists;
- a route error is flooded to every neighbour except the forwarder, with
  duplicate suppression by the sorted list of destinations;
- the request `ttl` is never decremented or checked;
- `update_RT` prefers a fresher sequence number, then a lower cost. It
  replaces any route whose next-hop link is down, even by a staler one
  (`Aodv.OfferTaken`). So a sequence number is not monotone per destination
  across a link failure;
- the reverse route counts `hops + 1`;
- `remove_link` on a missing link silently does nothing. After a removal
  that disconnects the network, it adds bridge links (`RemoveLink`).

## Model

| member | source | states |
|---|---|---|
| Packets.Cost.Plus | src/core/aodv_node.py:138 | the sum is infinite exactly when an operand is, and otherwise adds the delays |
| Packets.LessIsStrictOrder | src/core/aodv_node.py:370 | cost comparison with infinity is irreflexive, asymmetric and transitive |
| Packets.NewRreq | src/core/aodv.py:7-12 | a new request keeps source, destination and sequence number, with hops 0 and ttl 300000 |
| Packets.Originate | src/core/aodv_node.py:81-82 | the originated request carries the pair (node, broadcast id), the destination, the node's sequence number and 0 hops |
| Packets.NewRouteEntry | src/core/aodv.py:47-52 | a route entry stores destination, next hop, sequence number and hops unchanged, with cost 0 |
| Packets.Sort | src/core/aodv_node.py:292 | the error key is sorted and a permutation of the listed destinations |
| Packets.Insert | src/core/aodv_node.py:292 | inserting into a sorted list keeps it sorted and adds exactly one copy of the value |
| Packets.SortedUnique | src/core/aodv_node.py:292 | two sorted lists with the same elements are equal, so the key does not depend on the listing order |
| Packets.RerrKeyIdentifiesMultiset | src/core/aodv_node.py:292-293 | two route errors have the same key if and only if they list the same destinations with the same multiplicities |
| Packets.RerrKeyElements | src/core/aodv_node.py:276 | the key holds exactly the listed destinations |
| SensorNodes.SortedIds | src/core/sensor_node.py:43-45 | lists exactly the ids of the set, strictly ascending |
| SensorNodes.AscendingUnique | src/core/sensor_node.py:43-45 | any strictly increasing listing of a set is the ascending listing, so the neighbour order is determined |
| SensorNodes.AodvNode.constructor | src/core/aodv_node.py:12-34 | a new node has no connections, no routes, counters at zero and empty seen sets and inbox |
| SensorNodes.AodvNode.CanReach | src/core/sensor_node.py:32-36 | a node never reaches itself; another node is reachable exactly when the range test holds |
| SensorNodes.AodvNode.AddConnection | src/core/sensor_node.py:38-41 | the delay to the neighbour is set, overwriting an earlier one, and the node is flagged for update |
| SensorNodes.AodvNode.GetNeighbors | src/core/sensor_node.py:43-45 | the neighbours are exactly the keys of `connections`, each once, in ascending order |
| SensorNodes.AodvNode.Reset | src/core/sensor_node.py:47-53 | sequence number and broadcast id become 0; routing table, seen requests and inbox become empty |
| SensorNodes.AodvNode.StartRequest | src/core/aodv_node.py:78-86 | sequence number and broadcast id rise by exactly one and the new request's pair is recorded as seen |
| SensorNodes.AodvNode.IsDuplicate | src/core/aodv_node.py:40-45 | a request is a duplicate if and only if its (source, broadcast id) pair was seen |
| Network.LinkCost | src/core/network.py:348-359 | infinite when an id is not a node or neither end lists the other; otherwise the delay stored at the first end, else at the second |
| Network.LinkExists | src/core/network.py:608-616 | false when either id is not a node; otherwise true exactly when each end lists the other among its connections |
| Network.LinkLookupsAgree | src/core/network.py:608-616 | in a symmetric network, `link_exists` is symmetric and holds exactly when the cost is finite, and the cost is the same from both ends |
| Network.AddLinkG | src/core/network.py:561-562 | both directions get the delay and every other connection is unchanged |
| Network.RemoveLinkG | src/core/network.py:582-587 | both directions are gone and every other connection is unchanged |
| Network.AddLinkKeepsSymmetric | src/core/network.py:546-564 | after `add_link` the link exists with that cost, and a well-formed or symmetric network stays so |
| Network.RemoveLinkKeepsSymmetric | src/core/network.py:582-587 | after the deletion the link does not exist and costs infinity; the result is a sub-network, and symmetry and well-formedness are kept |
| Network.IsFullyConnected | src/core/network.py:142-169 | the breadth-first search answers true if and only if every node is reachable from node 0 (true for no nodes) |
| Network.Component | src/core/network.py:191-207 | the depth-first search returns exactly the nodes the root reaches |
| Network.FindComponents | src/core/network.py:182-207 | components in ascending root order; each is what its root reaches, no root lies in an earlier component, and together they cover all nodes |
| Network.GetAdjacencyMatrix | src/core/network.py:326-337 | n by n; the delay for each connection, 0 on a diagonal without a self-link, infinity elsewhere; in a symmetric network every off-diagonal entry is the link cost |
| Network.GetAllLinks | src/core/network.py:374-381 | lists exactly the connections `(i, j, delay)` with `i < j`, in ascending order |
| Network.AllLinksOnce | src/core/network.py:377-381 | in a symmetric network every link appears, and appears exactly once |
| Network.GetUnconnectedPairs | src/core/network.py:411-421 | lists exactly the pairs `i < j` with no connection from `i` to `j` and one of them in range of the other, ascending; in a symmetric network none of them is linked |
| Network.ChainConnects | src/core/network.py:212-242 | in a symmetric network one bridge from each component to the next connects the whole network, whatever the delays |
| Network.PlanChain | src/core/network.py:181-242 | the chain of bridges joins nodes of the network and connects a symmetric network |
| Network.AllPairBridges | src/core/network.py:286-317 | one bridge for every pair of components `i < j`, from a node of `i` to a node of `j` |
| Network.PlanAllPairs | src/core/network.py:258-317 | components that cover the network, each reached from its root, and every two of them bridged |
| Network.AddLinksGrows | src/core/network.py:237-240 | adding bridges only adds links and keeps a well-formed or symmetric network so |
| Network.DropRoutesVia | src/core/network.py:598-604 | exactly the routes whose next hop is neither end of the link are kept, unchanged |
| Network.KeepRoutesNotVia | src/core/network.py:599-604 | the collect-then-delete loop leaves the table `DropRoutesVia` describes |
| Network.SensorNetwork.constructor | src/core/network.py:12-15 | an empty node list and an empty queue |
| Network.SensorNetwork.AddNode | src/core/network.py:17-20 | appends one new node whose id is its position, with no links or routes |
| Network.SensorNetwork.GetNodeById | src/core/network.py:340-345 | finds a node with the id exactly when one exists; in a valid network exactly the ids below the node count, each at its position |
| Network.SensorNetwork.Pop | src/core/network.py:370 | returns the oldest entry and removes it |
| Network.SensorNetwork.AddLink | src/core/network.py:546-564 | the links become `AddLinkG` of the old ones: both ends hold the delay, and both nodes are flagged |
| Network.SensorNetwork.DeleteLink | src/core/network.py:582-587 | the links become `RemoveLinkG` of the old ones; an end that lost a connection is flagged |
| Network.SensorNetwork.RemoveLink | src/core/network.py:567-593 | only adds links to the deletion; if the deletion leaves the network connected, nothing else changes; a symmetric network ends symmetric and connected |
| Network.SensorNetwork.EnsureFullyConnected | src/core/network.py:172-248 | only adds links; a connected network is untouched; a symmetric network ends symmetric and connected |
| Network.SensorNetwork.BridgeComponents | src/core/network.py:211-248 | the chain pass, then the all-pairs fallback if still disconnected; only adds links, and connects a symmetric network |
| Network.SensorNetwork.ConnectAllComponents | src/core/network.py:251-317 | only adds links and keeps a symmetric network symmetric |
| Network.SensorNetwork.AddBridges | src/core/network.py:237-240 | the links become `AddLinksG` of the old ones, bridge by bridge in order |
| Network.SensorNetwork.InvalidateRoutes | src/core/network.py:596-605 | every node's table becomes `DropRoutesVia` of its old table for the two ends of the link |
| Aodv.Offer | src/core/aodv_node.py:351-374 | routes to other destinations are unchanged, and the destination then has either the offered route or the route it had |
| Aodv.BetterIsStrictOrder | src/core/aodv_node.py:365-372 | the freshness-then-cost ranking is irreflexive, asymmetric and transitive |
| Aodv.OfferIdempotent | src/core/aodv_node.py:351-374 | offering the same route twice is the same as offering it once |
| Aodv.OfferNeverWorse | src/core/aodv_node.py:360-374 | over a live link the kept route is the current one or a better one, and a staler offer leaves the table unchanged |
| Aodv.OfferTaken | src/core/aodv_node.py:355-367 | with no route, a down next-hop link or a fresher offer, the offer is stored |
| Aodv.OfferAnnounces | src/core/aodv_node.py:351-374 | an offer at one node changes only the route to the offered destination, loses no route, and stores the offered sequence number |
| Aodv.UpdateRT | src/core/aodv_node.py:351-374 | returns true exactly when it replaces (no route, link down, fresher, or as fresh and cheaper); the table becomes `Offer` of the old one |
| Aodv.Relayed | src/core/aodv_node.py:136-138 | the copy keeps the (source, broadcast id) pair, the destination, the sequence numbers and the ttl, with one hop more and the link cost added |
| Aodv.Without | src/core/aodv_node.py:130-132 | the neighbours other than the forwarder |
| Aodv.ForwardedCopies | src/core/aodv_node.py:130-144 | no copy goes back to the forwarder; every copy goes to a neighbour, names this node as forwarder and has one hop more and the same pair |
| Aodv.Enqueue | src/core/aodv_node.py:92-95 | one queue entry per target, in order, appended to the queue |
| Aodv.BroadcastRreq | src/core/aodv_node.py:74-95 | a request to itself changes nothing; otherwise both counters rise by one, the pair is seen, and one entry per neighbour is queued in ascending order; no routing table and no other node's seen set changes |
| Aodv.StartBroadcast | src/core/aodv_node.py:78-86 | both counters rise by one, the new request is the one `Originate` builds from the new counters, and its pair is seen; no routing table and no other node's seen set changes |
| Aodv.SendRreq | src/core/aodv_node.py:98-118 | as broadcast, but the single entry goes to the destination |
| Aodv.ForwardRreq | src/core/aodv_node.py:121-144 | queues the relayed copy for every neighbour except the forwarder, in ascending order; no route changes |
| Aodv.SendRrep | src/core/aodv_node.py:424-444 | changes only routes to the announced node, with the announced sequence number; without a route to the originator nothing changes; otherwise the reply goes first to the old next hop towards the originator and then follows the old next hops (`RelayPath`) until the originator, a node without a route to it, or the recursion limit; every node it visits ends with a route to the announced node |
| Aodv.ReceiveRrep | src/core/aodv_node.py:447-476 | the chain changes only routes to the reply's source, with its sequence number and losing none; the reply visits this node first, which ends with a route to that source; each later node visited is the old next hop towards the originator, the visit ends at the originator, at a node without a route to it, or at the recursion limit, and every visited node ends with a route to the reply's source |
| Aodv.RelayEnds | src/core/aodv_node.py:462-476 | a reply that stops at a node holding a route to its source, because the node is the originator or has no route to it, has visited that node alone |
| Aodv.RelayExtends | src/core/aodv_node.py:466-471 | a node with a route to the originator that passes the reply to its next hop prefixes itself to the path the reply takes from there |
| Aodv.AcceptReply | src/core/aodv_node.py:454-459 | the relayed reply has one hop more and the link cost added; the table becomes `Offer` of the route to the reply's source through the forwarder, with the reply's sequence number, the new hop count and the new cost; the node then has a route to that source |
| Aodv.ReverseRoute | src/core/aodv_node.py:390-391 | the reverse route leads to the originator through the forwarder, with the originator's sequence number, one hop more and the request's cost plus the link cost |
| Aodv.RreqDecision | src/core/aodv_node.py:395-421 | reply as destination exactly at the destination; reply from a route exactly when there is a usable fresher or as fresh and cheaper route; otherwise forward |
| Aodv.ReceiveRreq | src/core/aodv_node.py:377-421 | a duplicate changes nothing; otherwise the pair is seen, the reverse route is offered, the node ends with a route to the originator, and the outcome is `RreqDecision`; the destination's sequence number becomes the max; forwarding queues exactly the relayed copies; routes are only added or changed for source and destination |
| Aodv.AcceptRequest | src/core/aodv_node.py:382-392 | marks the pair as seen and the table becomes `Offer` of the reverse route |
| Aodv.AnswerRreq | src/core/aodv_node.py:395-421 | the outcome is `RreqDecision` on the current table, and the queue and sequence number change as that outcome says |
| Aodv.ReplyAsDest | src/core/aodv_node.py:395-400 | the sequence number becomes `max(seq, rreq.dest_seq)` and the reply announces this node with it |
| Aodv.ReplyOrForward | src/core/aodv_node.py:403-421 | replies from a usable route or queues exactly the forwarded copies |
| Aodv.DeleteDests | src/core/aodv_node.py:304-306 | exactly the listed destinations are deleted and every other route is kept |
| Aodv.WithoutDestsIdempotent | src/core/aodv_node.py:304-306 | deleting the same destinations again deletes nothing more |
| Aodv.ErrAppliedTrans | src/core/aodv_node.py:290-319 | two stretches of the same error flood compose into one |
| Aodv.ReceiveRerr | src/core/aodv_node.py:290-319 | a key already seen changes no routing table and no seen set; otherwise the node records the key, and every neighbour other than the forwarder has seen it afterwards; across the whole flood each node that sees the key for the first time loses exactly its routes to the listed destinations, and every other table is unchanged |
| Aodv.RelayRerr | src/core/aodv_node.py:311-319 | passing on the error keeps this node's key seen, applies the flood to the others, and leaves every neighbour other than the forwarder with the key seen |
| Aodv.FloodRerr | src/core/aodv_node.py:283-286 | passing the error to each listed neighbour except the skipped one applies the flood and leaves each of those neighbours with the key seen |
| Aodv.PassRerr | src/core/aodv_node.py:284-286 | one hand-over applies the flood and leaves the receiving neighbour with the key seen |
| Aodv.HandleRerr | src/core/aodv_node.py:292-306 | a first-seen key is recorded and exactly the listed routes of this node are deleted |
| Aodv.RerrSentEffect | src/core/aodv_node.py:269-288 | after sending, the sender has seen the key and keeps its own table; every other node keeps its table or, seeing the key first, loses exactly the listed routes |
| Aodv.SendRerr | src/core/aodv_node.py:269-288 | an empty list changes nothing; otherwise the sender records the key without touching its table, floods the error, and every neighbour of the sender has seen the key afterwards |
| Aodv.RoutedVia | src/core/aodv_node.py:250-253 | lists exactly the destinations of the routes through the given next hop |
| Aodv.CanSend | src/core/aodv_node.py:237-267 | true exactly when a route exists and its next-hop link is up; with a route over a down link, reports every destination through that next hop with `send_RERR`; otherwise changes nothing |
| Discovery.ProcessEntry | src/core/network.py:370-371 | the target has seen the request afterwards and nobody else's seen set changes; a duplicate queues nothing and changes no route; otherwise no route is deleted and the target ends with a route to the originator; queued entries carry the same pair |
| Discovery.HandleNext | src/core/network.py:370-371 | pops the oldest entry and handles it at its target: a duplicate changes no route, a new request deletes none and leaves the target with a route to the originator |
| Discovery.RoutedStep | src/core/network.py:368-371 | one more turn keeps every route and keeps "each newly seen request came with a route to its originator" |
| Discovery.DrainStep | src/core/network.py:368-371 | each turn keeps handled requests seen, and either changes no seen set (a duplicate) or leaves fewer unseen (node, request) pairs |
| Discovery.DrainQueue | src/core/network.py:368-371 | ends with an empty queue; the entries waiting at the start are handled first and in order; every handled request is seen at its target; no node forgets a request; no route is deleted; a node that sees a request for the first time ends with a route to its originator, and so does every handled target that had not seen the pair before |
| Discovery.HandledRouted | src/core/network.py:368-371 | a handled entry whose pair was new to its target left the target with a route to the originator |
| Discovery.RouteDiscovery | src/core/network.py:362-371 | the queue ends empty, no node forgets a request, no route is deleted, and the broadcast id rises by one for another destination; every neighbour of the source has seen the new request and, if it had not seen it before, ends with a route to the source |
| Discovery.DrainBroadcast | src/core/network.py:368-371 | draining the queue behind a broadcast keeps every route and leaves every neighbour of the source having seen the request, with a route to the source where the request was new |
| Discovery.NeighboursHeard | src/core/aodv_node.py:92-95 | once the broadcast's entries are handled, every targeted neighbour has seen the request |
| Discovery.NeighboursRouted | src/core/aodv_node.py:92-95 | a neighbour that had not seen the broadcast before and has seen it after the drain holds a route to the source |
| Messaging.Arrived | src/core/aodv_node.py:189-215 | the path gains this node, hops rise by one and the link cost is added; source, destination and payload are kept |
| Messaging.NewPacket | src/core/aodv_node.py:335-342 | the new packet has hops 0, cost 0 and a path holding only the source |
| Messaging.ExtendsAfterArrival | src/core/aodv_node.py:232-234 | a packet forwarded on keeps the path it had when it arrived as a prefix |
| Messaging.CostAfterArrival | src/core/aodv_node.py:213-215 | the cost a chain adds after this node counted the link from its sender is, together with that link, the cost the chain adds from the packet this node received |
| Messaging.SentCost | src/core/aodv_node.py:335-348 | a packet that starts at its source with cost 0 ends with exactly the summed delays of the links its counting nodes came in on |
| Messaging.Deliver | src/core/aodv_node.py:218-223 | the packet is appended to this node's inbox and no other inbox changes |
| Messaging.StopAtLoop | src/core/aodv_node.py:197-210 | on a loop this node has seen the error key for the destination; at a node other than the source the route to the destination stays deleted, and every other node keeps its table or, seeing that key for the first time, loses exactly its route to the destination |
| Messaging.DropAndReport | src/core/aodv_node.py:201-204 | the route to the destination is deleted, the error key is seen here, and every other node keeps its table or, seeing the key first, loses exactly its route to the destination |
| Messaging.ReportedAfterDrop | src/core/aodv_node.py:201-204 | deleting the route at this node before the flood leaves the flood's effect on the other nodes as stated |
| Messaging.ReceiveMsg | src/core/aodv_node.py:186-234 | the path only grows, hops count the nodes that took the packet on, and only a delivered packet is stored, at its destination; on a loop the packet stops uncounted and the route is gone; the destination stores the packet; when the sender is the last node on the path, the cost grows by the delay of the link each counting node came in on (`Costed`, `PathCost`) |
| Messaging.ForwardMsg | src/core/aodv_node.py:217-234 | the destination stores the packet; another node that has a route passes the packet to that route's next hop, which is the next node on the path; the cost grows by the delay of the link each later counting node came in on |
| Messaging.PassOn | src/core/aodv_node.py:231-234 | the packet goes to the next hop of the route to its destination, which becomes the next node on its path, and gathers the link delays of the nodes that count it |
| Messaging.EnsureRoute | src/core/aodv_node.py:226-229 | a discovery runs only without a route: with a route no routing table, seen set, queue or counter changes; no route is ever deleted, and no inbox and no link changes |
| Messaging.SendMsg | src/core/aodv_node.py:322-348 | refuses a message to itself; without a route fails with nothing changed; otherwise the returned packet starts at this node, goes first to its next hop, is stored only if delivered, and its cost is the sum of the delays of the links its counting nodes came in on |
| Messaging.SendAlongRoute | src/core/aodv_node.py:330-348 | the new packet goes first to this node's next hop towards the destination, and its final cost is the summed delay of the links it was counted over |

## Left out

- `discover_neighbors` and `neighbor_discovery` (src/core/aodv_node.py:48-71, src/core/network.py:424-430): they only call `send_RREQ` in a loop over neighbours. Also excluded: the simulation driver, UI, visualisation and statistics scripts (`simulation.py`, `app.py`, `src/visualization`, `test_eff.py`), which rely on the global random generator, argument parsing, printing and files.
- Geometry is not modelled:
  - `distance_to`;
  - the range test of `can_reach`, which is the parameter `inRange`;
  - `create_random_network`, `_generate_connections` and `_ensure_no_isolated_nodes`;
  - in the connectivity repair, the closest-pair choice, which is any node of each component, and the growth of `transmission_range`.
  The random delays of new links are the parameter `delayOf`.
- `simulate_message_transmission`, `get_message_counter_totals` (it reads counters that are never initialised), `_find_shortest_path` (Dijkstra over float delays), `print_stats_table`, `print_stats_compact`, `print_routing_table`, all verbose printing, the `msg_stats` counters and `route_discovery_msg_count`: reporting only.
- `receive_MSsG` (src/core/aodv_node.py:147-184): an unused debugging copy of `receive_MSG` that ends the process.
- Delays and costs are `real`, with `Inf` for `float('inf')`. Float rounding is not modelled.
- Dictionary iteration order (insertion order in the source) is modelled as ascending node id. This applies to neighbour loops, routing-table scans and enqueue order.
- `add_node` takes a node object in the source. Here it creates the node with the next id.
- The source never initialises `update_needed` before the first `add_connection`. The constructor sets it to false.
- Fields the engine reads but never sets:
  - `src_seq`, `dest_seq` and `cost` on a request raise `AttributeError` as written (src/core/aodv_node.py:391, 397, 406-407, 138). They are modelled as the originator's sequence number, 0 and 0.
  - `send_RREP` calls the four-argument `RREP` constructor with five arguments (src/core/aodv_node.py:430, src/core/aodv.py:22); `Rrep` carries the fifth argument, the cost.
  - `receive_RREP` reads `rrep.dest_seq` (src/core/aodv_node.py:457), which is modelled as the reply's sequence number.
- `invalidate_routes` unpacks each routing entry as a 3-tuple (src/core/network.py:600), which fails on a `RoutingTableEntry`. `InvalidateRoutes` models the evident intent: test the entry's next hop.
- `update_RT`, `can_send` and `receive_RREQ` consult `self.network`. The model assumes it is the network passed in.
- Network.SensorNetwork.AddLink: requires both ids to be nodes. For an unknown id `get_node_by_id` returns `None` and the source raises `AttributeError` (src/core/network.py:558-562); when only the second id is unknown, the first node's connection has already been written. Neither the crash nor that half-written link is modelled.
- Network.SensorNetwork.RemoveLink: requires both ids to be nodes; for an unknown id the source raises `AttributeError` (src/core/network.py:578-585), which is not modelled.
- Network.SensorNetwork.DeleteLink: the deletion part of `remove_link`, with the same requirement that both ids are nodes.
- Aodv.SendRreq: requires the destination to be a node. For an unknown id the source queues `None` and fails when the queue is drained.
- Aodv.ReceiveRrep: the relay chain is cut after `RecursionLimit` (1000) nodes, where the source would raise `RecursionError`. A chain that long is not otherwise modelled. The order of the visited nodes is stated only for a reply whose source is not the originator it travels to; such a reply is never built, since a node does not request a route to itself.
- Aodv.SendRrep: bounded by the same `RecursionLimit` fuel through `ReceiveRrep`.
- Messaging.ReceiveMsg: the accumulated cost is stated only when the sender is the last node on the packet's path, as it is on every call `send_MSG` and `receive_MSG` make. Bounded by `RecursionLimit` fuel, ending in `TooDeep`. A missing route after discovery ends in `RouteMissing` where the source raises `KeyError`. The contract does not say which routes a discovery run on a loop or a missing route installs.
- Messaging.SendMsg: the source raises `KeyError` without a route; the model returns `NoRouteKnown`. How the chain ended is a ghost out-parameter, since the source discards it.
- Messaging.StopAtLoop: at the source, the new discovery runs after the error flood, so neither the source's own table nor the effect on the other nodes' tables is stated there. Only that the source has seen the error key is stated.
- Discovery.DrainQueue: states first-in-first-out order for the entries waiting when the loop starts. The order of later entries holds turn by turn (`HandleNext`) but is not stated for the whole run.
- Discovery.RouteDiscovery: states that the flood reaches every neighbour of the source and that a neighbour hearing it for the first time gets a route back. It does not state that the source gets a route to the destination when the destination answered: the reply's relay path is stated by `ReceiveRrep`, but it is not carried through the queue drain. It does not state that a reply installs a shortest route either, which the source does not promise, since ttl is unused and routes are ranked by sequence number and cost.
- Network.SensorNetwork.RemoveLink: connectivity after the repair is stated for symmetric networks, which is what `add_link` and `remove_link` keep. For a non-symmetric network only "links are only added" is stated.
- `update_needed` flags are stated where they are set (`AddLink`, `DeleteLink`, `AddConnection`) and preserved by the repair. They are never read by the core.
