/**
 * The network the AODV engine runs over (src/core/network.py): the link
 * structure as a value, the read-only graph algorithms over it, and the
 * `SensorNetwork` object that owns the nodes and the route-request queue.
 */
module Network {
  import opened Packets
  import opened SetLemmas
  import opened SensorNodes

  /**
   * The links of a network: entry `i` is the `connections` map of node `i`
   * (neighbour id -> delay). Links are directed entries; `add_link` always
   * writes both directions.
   */
  type Graph = seq<map<nat, real>>

  /** Every neighbour id names a node of the network. */
  ghost predicate WellFormed(g: Graph) {
    forall i, j :: 0 <= i < |g| && j in g[i] ==> j < |g|
  }

  /** Every link is listed at both ends with the same delay. */
  ghost predicate Symmetric(g: Graph) {
    forall i, j :: 0 <= i < |g| && j in g[i] ==> j < |g| && i in g[j] && g[j][i] == g[i][j]
  }

  /** `g` has the same nodes as `h` and every link of `g` is also a link of `h`. */
  ghost predicate SubGraph(g: Graph, h: Graph) {
    |g| == |h| && forall i, j :: 0 <= i < |g| && j in g[i] ==> j in h[i]
  }

  // ---------------------------------------------------------------------------
  // Lookups

  /** `link_exists`: both endpoints are nodes and each lists the other. */
  function LinkExists(g: Graph, a: nat, b: nat): (r: bool)
    ensures a >= |g| || b >= |g| ==> !r
    ensures a < |g| && b < |g| ==> (r <==> b in g[a] && a in g[b])
  {
    a < |g| && b < |g| && b in g[a] && a in g[b]
  }

  /**
   * `get_link_cost`: the delay `a` stores for `b`, else the one `b` stores
   * for `a`, else infinity; infinity too when either id is not a node.
   */
  function LinkCost(g: Graph, a: nat, b: nat): (c: Cost)
    ensures c.Inf? <==> !(a < |g| && b < |g|) || (b !in g[a] && a !in g[b])
    ensures a < |g| && b < |g| && b in g[a] ==> c == Fin(g[a][b])
    ensures a < |g| && b < |g| && b !in g[a] && a in g[b] ==> c == Fin(g[b][a])
  {
    if !(a < |g| && b < |g|) then Inf
    else if b in g[a] then Fin(g[a][b])
    else if a in g[b] then Fin(g[b][a])
    else Inf
  }

  /**
   * The two lookups agree: a link exists in both directions exactly when it
   * exists in either, in a symmetric network, and then its cost is the
   * stored delay read from either end.
   */
  lemma LinkLookupsAgree(g: Graph, a: nat, b: nat)
    requires Symmetric(g)
    ensures LinkExists(g, a, b) == LinkExists(g, b, a)
    ensures LinkExists(g, a, b) <==> LinkCost(g, a, b).Fin?
    ensures LinkCost(g, a, b) == LinkCost(g, b, a)
  {
  }

  // ---------------------------------------------------------------------------
  // Adding and removing links

  /** The links after `x` records the connection `x` -> `y` with `delay`. */
  function ConnectG(g: Graph, x: nat, y: nat, delay: real): Graph
    requires x < |g|
  {
    var row: map<nat, real> := g[x][y := delay];
    g[x := row]
  }

  /** The links after `x` drops its connection to `y`, if any. */
  function DisconnectG(g: Graph, x: nat, y: nat): Graph
    requires x < |g|
  {
    var row: map<nat, real> := g[x] - {y};
    g[x := row]
  }

  /** The links after `add_link(a, b, delay)`. */
  function AddLinkG(g: Graph, a: nat, b: nat, delay: real): (h: Graph)
    requires a < |g| && b < |g|
    ensures |h| == |g|
    ensures b in h[a] && h[a][b] == delay && a in h[b] && h[b][a] == delay
    ensures forall i, j :: 0 <= i < |g| && !(i == a && j == b) && !(i == b && j == a) ==>
              (j in h[i] <==> j in g[i]) && (j in g[i] ==> h[i][j] == g[i][j])
  {
    ConnectG(ConnectG(g, a, b, delay), b, a, delay)
  }

  /** The links after deleting both directions of `a`-`b`. */
  function RemoveLinkG(g: Graph, a: nat, b: nat): (h: Graph)
    requires a < |g| && b < |g|
    ensures |h| == |g|
    ensures b !in h[a] && a !in h[b]
    ensures forall i, j :: 0 <= i < |g| && !(i == a && j == b) && !(i == b && j == a) ==>
              (j in h[i] <==> j in g[i]) && (j in g[i] ==> h[i][j] == g[i][j])
  {
    DisconnectG(DisconnectG(g, a, b), b, a)
  }

  /** `add_link` creates the link and keeps a symmetric, well-formed network so. */
  lemma AddLinkKeepsSymmetric(g: Graph, a: nat, b: nat, delay: real)
    requires a < |g| && b < |g|
    ensures LinkExists(AddLinkG(g, a, b, delay), a, b)
    ensures LinkCost(AddLinkG(g, a, b, delay), a, b) == Fin(delay)
    ensures WellFormed(g) ==> WellFormed(AddLinkG(g, a, b, delay))
    ensures Symmetric(g) ==> Symmetric(AddLinkG(g, a, b, delay))
  {
  }

  /** Removing a link deletes it and keeps a symmetric, well-formed network so. */
  lemma RemoveLinkKeepsSymmetric(g: Graph, a: nat, b: nat)
    requires a < |g| && b < |g|
    ensures !LinkExists(RemoveLinkG(g, a, b), a, b)
    ensures LinkCost(RemoveLinkG(g, a, b), a, b) == Inf
    ensures WellFormed(g) ==> WellFormed(RemoveLinkG(g, a, b))
    ensures Symmetric(g) ==> Symmetric(RemoveLinkG(g, a, b))
    ensures SubGraph(RemoveLinkG(g, a, b), g)
  {
    var h := RemoveLinkG(g, a, b);
    forall i, j | 0 <= i < |h| && j in h[i]
      ensures j in g[i] && (WellFormed(g) ==> j < |h|)
    {
      assert !(i == a && j == b) && !(i == b && j == a);
    }
    if Symmetric(g) {
      forall i, j | 0 <= i < |h| && j in h[i]
        ensures j < |h| && i in h[j] && h[j][i] == h[i][j]
      {
        RemoveLinkPair(g, a, b, i, j);
      }
    }
  }

  /** One surviving link of a symmetric network after removing `a`-`b` is still listed at both ends. */
  lemma RemoveLinkPair(g: Graph, a: nat, b: nat, i: nat, j: nat)
    requires a < |g| && b < |g| && Symmetric(g)
    requires i < |g| && j in RemoveLinkG(g, a, b)[i]
    ensures j < |g| && i in RemoveLinkG(g, a, b)[j]
    ensures RemoveLinkG(g, a, b)[j][i] == RemoveLinkG(g, a, b)[i][j]
  {
    var h := RemoveLinkG(g, a, b);
    assert !(i == a && j == b) && !(i == b && j == a);
    assert j in g[i] && g[i][j] == h[i][j];
    assert j < |g| && i in g[j] && g[j][i] == g[i][j];
  }

  // ---------------------------------------------------------------------------
  // Reachability along directed connections

  ghost predicate IsPath(g: Graph, p: seq<nat>) {
    |p| >= 1
    && (forall k :: 0 <= k < |p| ==> p[k] < |g|)
    && (forall k :: 0 <= k < |p| - 1 ==> p[k + 1] in g[p[k]])
  }

  /** `t` can be reached from `s` by following connections. */
  ghost predicate Reachable(g: Graph, s: nat, t: nat) {
    exists p :: IsPath(g, p) && p[0] == s && p[|p| - 1] == t
  }

  /** Every node is reachable from node 0 (trivially so with no nodes). */
  ghost predicate Connected(g: Graph) {
    |g| == 0 || forall v :: 0 <= v < |g| ==> Reachable(g, 0, v)
  }

  lemma ReachableSelf(g: Graph, s: nat)
    requires s < |g|
    ensures Reachable(g, s, s)
  {
    assert IsPath(g, [s]);
  }

  lemma ReachableStep(g: Graph, s: nat, v: nat, w: nat)
    requires WellFormed(g)
    requires Reachable(g, s, v) && v < |g| && w in g[v]
    ensures Reachable(g, s, w)
  {
    var p :| IsPath(g, p) && p[0] == s && p[|p| - 1] == v;
    assert IsPath(g, p + [w]);
    assert (p + [w])[0] == s;
  }

  lemma ReachableBounded(g: Graph, s: nat, t: nat)
    requires Reachable(g, s, t)
    ensures s < |g| && t < |g|
  {
    var p :| IsPath(g, p) && p[0] == s && p[|p| - 1] == t;
  }

  /** Every node on a path that starts in a neighbour-closed set stays in it. */
  lemma {:induction false} PathStaysIn(g: Graph, p: seq<nat>, c: set<nat>, k: nat)
    requires IsPath(g, p) && p[0] in c && k < |p|
    requires forall v, w :: v in c && v < |g| && w in g[v] ==> w in c
    ensures p[k] in c
  {
    if k > 0 {
      PathStaysIn(g, p, c, k - 1);
    }
  }

  /** A set that holds `s` and is closed under neighbours holds all that `s` reaches. */
  lemma ClosedHoldsReachable(g: Graph, s: nat, c: set<nat>, t: nat)
    requires s in c
    requires forall v, w :: v in c && v < |g| && w in g[v] ==> w in c
    requires Reachable(g, s, t)
    ensures t in c
  {
    var p :| IsPath(g, p) && p[0] == s && p[|p| - 1] == t;
    PathStaysIn(g, p, c, |p| - 1);
  }

  /** Adding links keeps every node reachable that was reachable before. */
  lemma ReachableInSuperGraph(g: Graph, h: Graph, s: nat, t: nat)
    requires SubGraph(g, h) && Reachable(g, s, t)
    ensures Reachable(h, s, t)
  {
    var p :| IsPath(g, p) && p[0] == s && p[|p| - 1] == t;
    assert IsPath(h, p);
  }

  lemma ReachableTrans(g: Graph, s: nat, m: nat, t: nat)
    requires Reachable(g, s, m) && Reachable(g, m, t)
    ensures Reachable(g, s, t)
  {
    var p :| IsPath(g, p) && p[0] == s && p[|p| - 1] == m;
    var q :| IsPath(g, q) && q[0] == m && q[|q| - 1] == t;
    var pq := p + q[1..];
    assert IsPath(g, pq) by {
      forall k | 0 <= k < |pq| - 1 ensures pq[k + 1] in g[pq[k]] {
        if k == |p| - 1 {
          assert pq[k + 1] == q[1] && pq[k] == q[0];
        } else if k >= |p| {
          assert pq[k + 1] == q[k + 1 - |p| + 1] && pq[k] == q[k - |p| + 1];
        }
      }
    }
    assert pq[|pq| - 1] == t by {
      if |q| > 1 {
        assert pq[|pq| - 1] == q[|q| - 1];
      }
    }
  }

  /** In a symmetric network reachability goes both ways. */
  lemma ReachableBack(g: Graph, s: nat, t: nat)
    requires Symmetric(g) && Reachable(g, s, t)
    ensures Reachable(g, t, s)
  {
    var p :| IsPath(g, p) && p[0] == s && p[|p| - 1] == t;
    var r := seq(|p|, k requires 0 <= k < |p| => p[|p| - 1 - k]);
    assert IsPath(g, r) by {
      forall k | 0 <= k < |r| - 1 ensures r[k + 1] in g[r[k]] {
        assert p[|p| - 1 - k] in g[p[|p| - 2 - k]];
      }
    }
    assert r[0] == t && r[|r| - 1] == s;
  }

  // ---------------------------------------------------------------------------
  // Connectivity check and component search

  /**
   * `_is_network_fully_connected`: breadth-first search from node 0 over the
   * connections; the network is connected when the search visits all nodes.
   */
  method IsFullyConnected(g: Graph) returns (r: bool)
    requires WellFormed(g)
    ensures r <==> Connected(g)
  {
    if |g| == 0 {
      return true;
    }
    var n := |g|;
    var visited: set<nat> := {0};
    var queue: seq<nat> := [0];
    ReachableSelf(g, 0);
    while queue != []
      invariant 0 in visited
      invariant forall v :: v in visited ==> v < n && Reachable(g, 0, v)
      invariant forall k :: 0 <= k < |queue| ==> queue[k] in visited
      invariant forall v, w :: v in visited && v !in queue && w in g[v] ==> w in visited
      invariant |visited| <= n
      decreases n - |visited|, |queue|
    {
      var current := queue[0];
      queue := queue[1..];
      var neighbors := SortedIds(g[current].Keys);
      ghost var visited0, queue0 := visited, queue;
      var i := 0;
      while i < |neighbors|
        invariant i <= |neighbors|
        invariant current in visited
        invariant forall v :: v in visited ==> v < n && Reachable(g, 0, v)
        invariant forall k :: 0 <= k < |queue| ==> queue[k] in visited
        invariant forall v, w :: v in visited && v !in queue && v != current && w in g[v] ==> w in visited
        invariant forall k :: 0 <= k < i ==> neighbors[k] in visited
        invariant visited0 <= visited && queue0 <= queue
        invariant |visited| - |visited0| == |queue| - |queue0|
      {
        var w := neighbors[i];
        if w !in visited {
          ReachableStep(g, 0, current, w);
          visited := visited + {w};
          queue := queue + [w];
        }
        i := i + 1;
      }
      BoundedCard(visited, n);
    }
    BoundedCard(visited, n);
    r := |visited| == n;
    if r {
      BoundedFull(visited, n);
    }
    if Connected(g) {
      forall v | 0 <= v < n ensures v in visited {
        ClosedHoldsReachable(g, 0, visited, v);
      }
      RangeCard(n);
      SubsetCard(Range(n), visited);
    }
  }

  /** `c` is exactly the set of nodes `root` reaches. */
  ghost predicate IsReachSet(g: Graph, root: nat, c: set<nat>) {
    forall v :: v in c <==> Reachable(g, root, v)
  }

  /** The union of a sequence of components. */
  ghost function Union(cs: seq<set<nat>>): set<nat> {
    if cs == [] then {} else Union(cs[..|cs| - 1]) + cs[|cs| - 1]
  }

  lemma {:induction false} UnionHolds(cs: seq<set<nat>>, v: nat)
    ensures v in Union(cs) <==> exists k :: 0 <= k < |cs| && v in cs[k]
  {
    if cs != [] {
      UnionHolds(cs[..|cs| - 1], v);
      if v in Union(cs[..|cs| - 1]) {
        var k :| 0 <= k < |cs| - 1 && v in cs[..|cs| - 1][k];
        assert v in cs[k];
      }
      if exists k :: 0 <= k < |cs| && v in cs[k] {
        var k :| 0 <= k < |cs| && v in cs[k];
        if k < |cs| - 1 {
          assert v in cs[..|cs| - 1][k];
        }
      }
    }
  }

  /**
   * One component of the search in `_ensure_fully_connected_network`:
   * depth-first search from `root` with an explicit stack; the result is
   * exactly the set of nodes `root` reaches.
   */
  method Component(g: Graph, root: nat) returns (c: set<nat>)
    requires WellFormed(g) && root < |g|
    ensures IsReachSet(g, root, c)
    ensures forall v :: v in c ==> v < |g|
  {
    c := {};
    var stack: seq<nat> := [root];
    ReachableSelf(g, root);
    while stack != []
      invariant forall v :: v in c ==> v < |g| && Reachable(g, root, v)
      invariant forall k :: 0 <= k < |stack| ==> stack[k] < |g| && Reachable(g, root, stack[k])
      invariant root in c || root in stack
      invariant forall v, w :: v in c && w in g[v] ==> w in c || w in stack
      invariant |c| <= |g|
      decreases |g| - |c|, |stack|
    {
      var current := stack[|stack| - 1];
      stack := stack[..|stack| - 1];
      if current !in c {
        c := c + {current};
        var neighbors := SortedIds(g[current].Keys);
        var i := 0;
        while i < |neighbors|
          invariant i <= |neighbors|
          invariant forall k :: 0 <= k < |stack| ==> stack[k] < |g| && Reachable(g, root, stack[k])
          invariant forall v, w :: v in c && v != current && w in g[v] ==> w in c || w in stack
          invariant forall k :: 0 <= k < i ==> neighbors[k] in c || neighbors[k] in stack
          invariant root in c || root in stack
        {
          if neighbors[i] !in c {
            ReachableStep(g, root, current, neighbors[i]);
            stack := stack + [neighbors[i]];
          }
          i := i + 1;
        }
        BoundedCard(c, |g|);
      }
    }
    forall v | Reachable(g, root, v) ensures v in c {
      ClosedHoldsReachable(g, root, c, v);
    }
  }

  /**
   * The component search of `_ensure_fully_connected_network` and
   * `_connect_all_components`: nodes are taken in ascending order, and each
   * one not yet visited roots a new component. Every component is what its
   * root reaches, no root lies in an earlier component, and together the
   * components cover the network.
   */
  method FindComponents(g: Graph) returns (cs: seq<set<nat>>, ghost roots: seq<nat>)
    requires WellFormed(g)
    ensures |roots| == |cs|
    ensures forall k :: 0 <= k < |cs| ==> roots[k] < |g| && roots[k] in cs[k]
    ensures forall k, v :: 0 <= k < |cs| && v in cs[k] ==> v < |g|
    ensures forall k :: 0 <= k < |cs| ==> IsReachSet(g, roots[k], cs[k])
    ensures forall j, k :: 0 <= j < k < |cs| ==> roots[j] < roots[k] && roots[k] !in cs[j]
    ensures forall v :: 0 <= v < |g| ==> v in Union(cs)
    ensures |g| > 0 ==> |cs| > 0 && roots[0] == 0
  {
    cs, roots := [], [];
    var visited: set<nat> := {};
    for i := 0 to |g|
      invariant visited == Union(cs)
      invariant ComponentsBelow(g, cs, roots, i)
    {
      if i !in visited {
        var c := Component(g, i);
        ComponentsAdd(g, cs, roots, i, c);
        cs, roots := cs + [c], roots + [i];
        visited := visited + c;
      } else {
        ComponentsSkip(g, cs, roots, i);
      }
    }
  }

  /** The loop state of `FindComponents` after the nodes below `i`. */
  ghost predicate ComponentsBelow(g: Graph, cs: seq<set<nat>>, roots: seq<nat>, i: nat) {
    |roots| == |cs|
    && (forall v :: 0 <= v < i ==> v in Union(cs))
    && (forall k :: 0 <= k < |cs| ==> roots[k] < i && roots[k] in cs[k])
    && (forall k, v :: 0 <= k < |cs| && v in cs[k] ==> v < |g|)
    && (forall k :: 0 <= k < |cs| ==> IsReachSet(g, roots[k], cs[k]))
    && (forall j, k :: 0 <= j < k < |cs| ==> roots[j] < roots[k] && roots[k] !in cs[j])
    && (i > 0 ==> |cs| > 0 && roots[0] == 0)
  }

  /** An unvisited node `i` roots a new component, which keeps the loop state. */
  lemma ComponentsAdd(g: Graph, cs: seq<set<nat>>, roots: seq<nat>, i: nat, c: set<nat>)
    requires ComponentsBelow(g, cs, roots, i) && i < |g| && i !in Union(cs)
    requires IsReachSet(g, i, c) && forall v :: v in c ==> v < |g|
    ensures ComponentsBelow(g, cs + [c], roots + [i], i + 1)
    ensures Union(cs + [c]) == Union(cs) + c
  {
    ReachableSelf(g, i);
    assert (cs + [c])[..|cs|] == cs;
    forall j | 0 <= j < |cs| ensures i !in cs[j] {
      UnionHolds(cs, i);
    }
    forall v | 0 <= v < i + 1 ensures v in Union(cs + [c]) {
    }
  }

  /** A visited node adds nothing. */
  lemma ComponentsSkip(g: Graph, cs: seq<set<nat>>, roots: seq<nat>, i: nat)
    requires ComponentsBelow(g, cs, roots, i) && i in Union(cs)
    ensures ComponentsBelow(g, cs, roots, i + 1)
  {
  }

  // ---------------------------------------------------------------------------
  // Enumerations

  /**
   * `get_adjacency_matrix`: row `i`, column `j` holds the delay of the
   * connection `i` -> `j`, 0 on the diagonal when there is no self-link, and
   * infinity everywhere else. In a symmetric network every off-diagonal
   * entry is the link cost.
   */
  method GetAdjacencyMatrix(g: Graph) returns (m: seq<seq<Cost>>)
    requires WellFormed(g)
    ensures |m| == |g| && forall i :: 0 <= i < |g| ==> |m[i]| == |g|
    ensures forall i, j :: 0 <= i < |g| && 0 <= j < |g| && j in g[i] ==> m[i][j] == Fin(g[i][j])
    ensures forall i :: 0 <= i < |g| && i !in g[i] ==> m[i][i] == Fin(0.0)
    ensures forall i, j :: 0 <= i < |g| && 0 <= j < |g| && i != j && j !in g[i] ==> m[i][j] == Inf
    ensures Symmetric(g) ==> forall i, j :: 0 <= i < |g| && 0 <= j < |g| && i != j ==> m[i][j] == LinkCost(g, i, j)
  {
    var n := |g|;
    m := [];
    for i := 0 to n
      invariant |m| == i
      invariant forall r :: 0 <= r < i ==> |m[r]| == n
      invariant forall r, j :: 0 <= r < i && 0 <= j < n ==>
                  m[r][j] == (if j in g[r] then Fin(g[r][j]) else if r == j then Fin(0.0) else Inf)
    {
      var row: seq<Cost> := seq(n, _ => Inf);
      row := row[i := Fin(0.0)];
      var neighbors := SortedIds(g[i].Keys);
      for k := 0 to |neighbors|
        invariant |row| == n
        invariant forall j :: 0 <= j < n ==>
                    row[j] == (if j in neighbors[..k] then Fin(g[i][j]) else if i == j then Fin(0.0) else Inf)
      {
        assert neighbors[k] in g[i];
        row := row[neighbors[k] := Fin(g[i][neighbors[k]])];
      }
      m := m + [row];
    }
  }

  /** `x` comes before `y` in the order of node id, then neighbour id. */
  predicate PairBefore(x: (nat, nat), y: (nat, nat)) {
    x.0 < y.0 || (x.0 == y.0 && x.1 < y.1)
  }

  /**
   * `get_all_links`: every connection `i` -> `j` with `i < j`, as
   * `(i, j, delay)`, in ascending order and so each at most once.
   */
  method GetAllLinks(g: Graph) returns (links: seq<(nat, nat, real)>)
    requires WellFormed(g)
    ensures forall l :: l in links <==> l.0 < |g| && l.0 < l.1 && l.1 in g[l.0] && l.2 == g[l.0][l.1]
    ensures forall p, q :: 0 <= p < q < |links| ==> PairBefore((links[p].0, links[p].1), (links[q].0, links[q].1))
  {
    links := [];
    for i := 0 to |g|
      invariant forall l :: l in links <==> l.0 < i && l.0 < l.1 && l.1 in g[l.0] && l.2 == g[l.0][l.1]
      invariant forall p, q :: 0 <= p < q < |links| ==> PairBefore((links[p].0, links[p].1), (links[q].0, links[q].1))
    {
      var neighbors := SortedIds(g[i].Keys);
      for k := 0 to |neighbors|
        invariant forall l :: l in links <==>
                    (l.0 < i && l.0 < l.1 && l.1 in g[l.0] && l.2 == g[l.0][l.1])
                    || (l.0 == i && l.0 < l.1 && l.1 in neighbors[..k] && l.2 == g[l.0][l.1])
        invariant forall p, q :: 0 <= p < q < |links| ==> PairBefore((links[p].0, links[p].1), (links[q].0, links[q].1))
        invariant forall p :: 0 <= p < |links| ==> links[p].0 <= i
        invariant forall p :: 0 <= p < |links| && links[p].0 == i ==> k > 0 && links[p].1 <= neighbors[k - 1]
      {
        var j := neighbors[k];
        if i < j {
          links := links + [(i, j, g[i][j])];
        }
      }
    }
  }

  /**
   * In a symmetric network the list of `get_all_links` names each undirected
   * link exactly once, from its smaller end.
   */
  lemma AllLinksOnce(g: Graph, links: seq<(nat, nat, real)>, a: nat, b: nat)
    requires Symmetric(g)
    requires forall l :: l in links <==> l.0 < |g| && l.0 < l.1 && l.1 in g[l.0] && l.2 == g[l.0][l.1]
    requires forall p, q :: 0 <= p < q < |links| ==> PairBefore((links[p].0, links[p].1), (links[q].0, links[q].1))
    requires LinkExists(g, a, b) && a < b
    ensures exists p :: 0 <= p < |links| && links[p] == (a, b, g[a][b])
    ensures forall p, q ::
              (0 <= p < |links| && 0 <= q < |links| &&
               {links[p].0, links[p].1} == {a, b} && {links[q].0, links[q].1} == {a, b}) ==> p == q
  {
    assert (a, b, g[a][b]) in links;
    forall p, q | 0 <= p < |links| && 0 <= q < |links|
      && {links[p].0, links[p].1} == {a, b} && {links[q].0, links[q].1} == {a, b}
      ensures p == q
    {
      assert links[p] in links && links[q] in links;
      assert links[p].0 < links[p].1 && links[q].0 < links[q].1;
      assert links[p].0 == a && links[p].1 == b by {
        assert links[p].0 in {a, b} && links[p].1 in {a, b};
      }
      assert links[q].0 == a && links[q].1 == b by {
        assert links[q].0 in {a, b} && links[q].1 in {a, b};
      }
    }
  }

  /**
   * The pair selection of `get_unconnected_pairs`: every `(i, j)` with
   * `i < j` where `i` lists no connection to `j` and one of the two nodes
   * has the other in range (`inRange(x, y)` is `x.can_reach(y)` for two
   * distinct nodes), in ascending order.
   */
  method GetUnconnectedPairs(g: Graph, inRange: (nat, nat) -> bool) returns (pairs: seq<(nat, nat)>)
    ensures forall p :: p in pairs <==>
              p.0 < p.1 < |g| && p.1 !in g[p.0] && (inRange(p.0, p.1) || inRange(p.1, p.0))
    ensures forall p, q :: 0 <= p < q < |pairs| ==> PairBefore(pairs[p], pairs[q])
    ensures Symmetric(g) ==> forall p :: p in pairs ==> !LinkExists(g, p.0, p.1) && !LinkExists(g, p.1, p.0)
  {
    var n := |g|;
    pairs := [];
    for i := 0 to n
      invariant forall p :: p in pairs <==>
                  p.0 < i && p.0 < p.1 < n && p.1 !in g[p.0] && (inRange(p.0, p.1) || inRange(p.1, p.0))
      invariant forall p, q :: 0 <= p < q < |pairs| ==> PairBefore(pairs[p], pairs[q])
      invariant forall p :: 0 <= p < |pairs| ==> pairs[p].0 < i
    {
      for j := i + 1 to n
        invariant forall p :: p in pairs <==>
                    (p.0 < i && p.0 < p.1 < n && p.1 !in g[p.0] && (inRange(p.0, p.1) || inRange(p.1, p.0)))
                    || (p.0 == i && p.0 < p.1 < j && p.1 !in g[p.0] && (inRange(p.0, p.1) || inRange(p.1, p.0)))
        invariant forall p, q :: 0 <= p < q < |pairs| ==> PairBefore(pairs[p], pairs[q])
        invariant forall p :: 0 <= p < |pairs| ==> pairs[p].0 < i || (pairs[p].0 == i && pairs[p].1 < j)
      {
        if j !in g[i] && (inRange(i, j) || inRange(j, i)) {
          pairs := pairs + [(i, j)];
        }
      }
    }
  }

  // ---------------------------------------------------------------------------
  // Facts for the connectivity repair

  lemma SubGraphTrans(f: Graph, g: Graph, h: Graph)
    requires SubGraph(f, g) && SubGraph(g, h)
    ensures SubGraph(f, h)
  {
  }

  lemma AddLinkGrows(g: Graph, a: nat, b: nat, delay: real)
    requires a < |g| && b < |g|
    ensures SubGraph(g, AddLinkG(g, a, b, delay))
  {
  }

  /**
   * One bridge of the repair: once `u` is reachable from node 0 and a link
   * `u` -> `v` exists into the component `c` of a symmetric network, the
   * whole component is reachable from node 0.
   */
  lemma BridgeReachesComponent(g0: Graph, h: Graph, root: nat, c: set<nat>, u: nat, v: nat)
    requires Symmetric(g0) && WellFormed(h) && SubGraph(g0, h)
    requires Reachable(h, 0, u) && u < |h| && v in h[u]
    requires IsReachSet(g0, root, c) && v in c
    ensures forall w :: w in c ==> Reachable(h, 0, w)
  {
    ReachableStep(h, 0, u, v);
    ReachableBack(g0, root, v);
    forall w | w in c ensures Reachable(h, 0, w) {
      ReachableTrans(g0, v, root, w);
      ReachableInSuperGraph(g0, h, v, w);
      ReachableTrans(h, 0, v, w);
    }
  }

  /** Every node of the components `cs[0..i]` is reachable from node 0. */
  ghost predicate ReachesUpTo(h: Graph, cs: seq<set<nat>>, i: nat) {
    forall k, w :: 0 <= k <= i && k < |cs| && w in cs[k] ==> Reachable(h, 0, w)
  }

  /**
   * The loop step of the repair: bridging component `i` to component
   * `i + 1` keeps the network a symmetric super-graph of the original and
   * makes component `i + 1` reachable from node 0 as well.
   */
  lemma BridgeStep(g0: Graph, h: Graph, cs: seq<set<nat>>, roots: seq<nat>, i: nat, u: nat, v: nat, delay: real)
    requires WellFormed(h) && SubGraph(g0, h)
    requires i + 1 < |cs| == |roots| && u in cs[i] && v in cs[i + 1] && u < |h| && v < |h|
    requires forall k :: 0 <= k < |cs| ==> IsReachSet(g0, roots[k], cs[k])
    requires Symmetric(g0) ==> Symmetric(h) && ReachesUpTo(h, cs, i)
    ensures SubGraph(g0, AddLinkG(h, u, v, delay))
    ensures Symmetric(g0) ==> Symmetric(AddLinkG(h, u, v, delay)) && ReachesUpTo(AddLinkG(h, u, v, delay), cs, i + 1)
  {
    var h1 := AddLinkG(h, u, v, delay);
    AddLinkGrows(h, u, v, delay);
    AddLinkKeepsSymmetric(h, u, v, delay);
    SubGraphTrans(g0, h, h1);
    if Symmetric(g0) {
      forall k, w | 0 <= k <= i && w in cs[k] ensures Reachable(h1, 0, w) {
        ReachableInSuperGraph(h, h1, 0, w);
      }
      ReachableInSuperGraph(h, h1, 0, u);
      BridgeReachesComponent(g0, h1, roots[i + 1], cs[i + 1], u, v);
    }
  }

  /** Components that cover the network and are all reachable from node 0 make it connected. */
  lemma ReachesAllConnected(h: Graph, cs: seq<set<nat>>)
    requires |cs| > 0 && ReachesUpTo(h, cs, |cs| - 1)
    requires forall v :: 0 <= v < |h| ==> v in Union(cs)
    ensures Connected(h)
  {
    forall v | 0 <= v < |h| ensures Reachable(h, 0, v) {
      UnionHolds(cs, v);
    }
  }

  /** Every bridge joins two nodes below `n`. */
  predicate BridgesBelow(bridges: seq<(nat, nat)>, n: nat) {
    forall k :: 0 <= k < |bridges| ==> bridges[k].0 < n && bridges[k].1 < n
  }

  /** The links after `add_link(u, v, delayOf(u, v))` for each bridge in turn. */
  function AddLinksG(g: Graph, bridges: seq<(nat, nat)>, delayOf: (nat, nat) -> real): (h: Graph)
    requires BridgesBelow(bridges, |g|)
    ensures |h| == |g|
    decreases |bridges|
  {
    if bridges == [] then
      g
    else
      var last := bridges[|bridges| - 1];
      AddLinkG(AddLinksG(g, bridges[..|bridges| - 1], delayOf), last.0, last.1, delayOf(last.0, last.1))
  }

  /** Adding bridges only adds links, and keeps a well-formed or symmetric network so. */
  lemma {:induction false} AddLinksGrows(g: Graph, bridges: seq<(nat, nat)>, delayOf: (nat, nat) -> real)
    requires BridgesBelow(bridges, |g|)
    ensures SubGraph(g, AddLinksG(g, bridges, delayOf))
    ensures WellFormed(g) ==> WellFormed(AddLinksG(g, bridges, delayOf))
    ensures Symmetric(g) ==> Symmetric(AddLinksG(g, bridges, delayOf))
    decreases |bridges|
  {
    if bridges != [] {
      var last := bridges[|bridges| - 1];
      var h := AddLinksG(g, bridges[..|bridges| - 1], delayOf);
      AddLinksGrows(g, bridges[..|bridges| - 1], delayOf);
      AddLinkGrows(h, last.0, last.1, delayOf(last.0, last.1));
      AddLinkKeepsSymmetric(h, last.0, last.1, delayOf(last.0, last.1));
      SubGraphTrans(g, h, AddLinksG(g, bridges, delayOf));
    }
  }

  /** The bridges of the first repair pass: component `i` to component `i + 1`. */
  ghost predicate ChainsComponents(cs: seq<set<nat>>, bridges: seq<(nat, nat)>) {
    (|cs| > 0 ==> |bridges| == |cs| - 1)
    && forall i {:trigger bridges[i]} :: 0 <= i < |bridges| ==> i < |cs| - 1 && bridges[i].0 in cs[i] && bridges[i].1 in cs[i + 1]
  }

  /**
   * The first bridges of a chain make the first components reachable from
   * node 0, one more with each bridge.
   */
  lemma {:induction false} ChainPrefixReaches(g0: Graph, cs: seq<set<nat>>, roots: seq<nat>,
                                              bridges: seq<(nat, nat)>, delayOf: (nat, nat) -> real, n: nat)
    requires Symmetric(g0) && |cs| == |roots| && |cs| > 0 && roots[0] == 0
    requires forall k :: 0 <= k < |cs| ==> IsReachSet(g0, roots[k], cs[k])
    requires forall k, v :: 0 <= k < |cs| && v in cs[k] ==> v < |g0|
    requires WellFormed(g0) && BridgesBelow(bridges, |g0|) && ChainsComponents(cs, bridges) && n <= |bridges|
    ensures ReachesUpTo(AddLinksG(g0, bridges[..n], delayOf), cs, n)
  {
    if n > 0 {
      ChainPrefixReaches(g0, cs, roots, bridges, delayOf, n - 1);
      var h := AddLinksG(g0, bridges[..n - 1], delayOf);
      AddLinksGrows(g0, bridges[..n - 1], delayOf);
      var b := bridges[n - 1];
      BridgeStep(g0, h, cs, roots, n - 1, b.0, b.1, delayOf(b.0, b.1));
      assert bridges[..n][..n - 1] == bridges[..n - 1];
    } else {
      assert bridges[..0] == [];
    }
  }

  /** In a symmetric network the chain of bridges connects every component. */
  lemma ChainConnects(g0: Graph, cs: seq<set<nat>>, roots: seq<nat>, bridges: seq<(nat, nat)>, delayOf: (nat, nat) -> real)
    requires Symmetric(g0) && |cs| == |roots| && |cs| > 0 && roots[0] == 0
    requires forall k :: 0 <= k < |cs| ==> IsReachSet(g0, roots[k], cs[k])
    requires forall k, v :: 0 <= k < |cs| && v in cs[k] ==> v < |g0|
    requires forall v :: 0 <= v < |g0| ==> v in Union(cs)
    requires WellFormed(g0) && BridgesBelow(bridges, |g0|) && ChainsComponents(cs, bridges)
    ensures Connected(AddLinksG(g0, bridges, delayOf))
  {
    ChainPrefixReaches(g0, cs, roots, bridges, delayOf, |bridges|);
    assert bridges[..|bridges|] == bridges;
    ReachesAllConnected(AddLinksG(g0, bridges, delayOf), cs);
  }

  /**
   * The pair choice of the first repair pass: some node of component `i`
   * and some node of component `i + 1`, for each `i`. The closest pair the
   * source picks is one such choice.
   */
  method ChainBridges(cs: seq<set<nat>>, ghost n: nat) returns (bridges: seq<(nat, nat)>)
    requires forall k :: 0 <= k < |cs| ==> cs[k] != {}
    requires forall k, v :: 0 <= k < |cs| && v in cs[k] ==> v < n
    ensures ChainsComponents(cs, bridges) && BridgesBelow(bridges, n)
  {
    bridges := [];
    if |cs| == 0 {
      return;
    }
    for i := 0 to |cs| - 1
      invariant |bridges| == i
      invariant forall k :: 0 <= k < i ==> bridges[k].0 in cs[k] && bridges[k].1 in cs[k + 1]
      invariant BridgesBelow(bridges, n)
    {
      var u :| u in cs[i];
      var v :| v in cs[i + 1];
      bridges := bridges + [(u, v)];
    }
  }

  /**
   * The pair choice of `_connect_all_components`: one bridge for every pair
   * of components `i < j`, in order; `pairs` names the two components each
   * bridge joins.
   */
  method AllPairBridges(cs: seq<set<nat>>, ghost n: nat) returns (bridges: seq<(nat, nat)>, ghost pairs: seq<(nat, nat)>)
    requires forall k :: 0 <= k < |cs| ==> cs[k] != {}
    requires forall k, v :: 0 <= k < |cs| && v in cs[k] ==> v < n
    ensures |pairs| == |bridges| && BridgesBelow(bridges, n)
    ensures forall k :: 0 <= k < |bridges| ==>
              pairs[k].0 < pairs[k].1 < |cs| && bridges[k].0 in cs[pairs[k].0] && bridges[k].1 in cs[pairs[k].1]
    ensures forall i, j :: 0 <= i < j < |cs| ==> (i, j) in pairs
  {
    bridges, pairs := [], [];
    for i := 0 to |cs|
      invariant |pairs| == |bridges|
      invariant forall k :: 0 <= k < |bridges| ==>
                  pairs[k].0 < pairs[k].1 < |cs| && bridges[k].0 in cs[pairs[k].0] && bridges[k].1 in cs[pairs[k].1]
      invariant forall x, y :: 0 <= x < i && x < y < |cs| ==> (x, y) in pairs
      invariant BridgesBelow(bridges, n)
    {
      for j := i + 1 to |cs|
        invariant |pairs| == |bridges|
        invariant forall k :: 0 <= k < |bridges| ==>
                    pairs[k].0 < pairs[k].1 < |cs| && bridges[k].0 in cs[pairs[k].0] && bridges[k].1 in cs[pairs[k].1]
        invariant forall x, y :: 0 <= x < i && x < y < |cs| ==> (x, y) in pairs
        invariant forall y :: i < y < j ==> (i, y) in pairs
        invariant BridgesBelow(bridges, n)
      {
        var u :| u in cs[i];
        var v :| v in cs[j];
        bridges, pairs := bridges + [(u, v)], pairs + [(i, j)];
      }
    }
  }

  /**
   * The first repair pass on values: the components of `g`, then one bridge
   * from each component to the next. In a symmetric network the bridges
   * connect it, whatever the delays.
   */
  method PlanChain(g: Graph, ghost delayOf: (nat, nat) -> real) returns (bridges: seq<(nat, nat)>)
    requires WellFormed(g)
    ensures BridgesBelow(bridges, |g|)
    ensures Symmetric(g) ==> Connected(AddLinksG(g, bridges, delayOf))
  {
    var cs, roots := FindComponents(g);
    bridges := ChainBridges(cs, |g|);
    if Symmetric(g) && |g| > 0 {
      ChainConnects(g, cs, roots, bridges, delayOf);
    }
  }

  /** Every two components `i < j` are joined by some bridge. */
  ghost predicate PairsBridged(cs: seq<set<nat>>, bridges: seq<(nat, nat)>) {
    forall i, j :: 0 <= i < j < |cs| ==> Bridged(cs, bridges, i, j)
  }

  /** Some bridge leads from component `i` to component `j`. */
  ghost predicate Bridged(cs: seq<set<nat>>, bridges: seq<(nat, nat)>, i: nat, j: nat)
    requires i < |cs| && j < |cs|
  {
    exists k :: 0 <= k < |bridges| && bridges[k].0 in cs[i] && bridges[k].1 in cs[j]
  }

  /**
   * The fallback pass on values: the components of `g`, then one bridge for
   * every pair of them.
   */
  method PlanAllPairs(g: Graph) returns (bridges: seq<(nat, nat)>, ghost cs: seq<set<nat>>, ghost roots: seq<nat>)
    requires WellFormed(g)
    ensures BridgesBelow(bridges, |g|)
    ensures |roots| == |cs| && forall k :: 0 <= k < |cs| ==> roots[k] < |g| && IsReachSet(g, roots[k], cs[k])
    ensures forall v :: 0 <= v < |g| ==> v in Union(cs)
    ensures PairsBridged(cs, bridges)
  {
    var comps;
    comps, roots := FindComponents(g);
    cs := comps;
    ghost var pairs;
    bridges, pairs := AllPairBridges(comps, |g|);
    forall i: nat, j: nat | i < j < |cs|
      ensures Bridged(cs, bridges, i, j)
    {
      assert (i, j) in pairs;
      var k :| 0 <= k < |pairs| && pairs[k] == (i, j);
      assert 0 <= k < |bridges| && bridges[k].0 in cs[i] && bridges[k].1 in cs[j];
    }
  }

  // ---------------------------------------------------------------------------
  // The network object

  /** A queued route request: the node to deliver it to, the packet, and who sent it. */
  datatype QueueEntry = QueueEntry(target: nat, rreq: Rreq, forwarder: nat)

  /** Keeps the routes whose next hop is neither `a` nor `b`, unchanged. */
  function DropRoutesVia(table: map<nat, RouteEntry>, a: nat, b: nat): (r: map<nat, RouteEntry>)
    ensures forall d :: d in r <==> d in table && table[d].nextHop != a && table[d].nextHop != b
    ensures forall d :: d in r ==> r[d] == table[d]
  {
    map d | d in table && table[d].nextHop != a && table[d].nextHop != b :: table[d]
  }

  /**
   * The per-node loop of `invalidate_routes`: collects the destinations
   * routed via `a` or `b`, then deletes them one by one.
   */
  method KeepRoutesNotVia(table: map<nat, RouteEntry>, a: nat, b: nat) returns (kept: map<nat, RouteEntry>)
    ensures kept == DropRoutesVia(table, a, b)
  {
    var dests := SortedIds(table.Keys);
    var toRemove: seq<nat> := [];
    for k := 0 to |dests|
      invariant forall d :: d in toRemove <==> d in dests[..k] && (table[d].nextHop == a || table[d].nextHop == b)
    {
      var d := dests[k];
      if table[d].nextHop == a || table[d].nextHop == b {
        toRemove := toRemove + [d];
      }
    }
    kept := table;
    for k := 0 to |toRemove|
      invariant forall d :: d in kept <==> d in table && d !in toRemove[..k]
      invariant forall d :: d in kept ==> kept[d] == table[d]
    {
      kept := kept - {toRemove[k]};
      assert toRemove[..k + 1] == toRemove[..k] + [toRemove[k]];
    }
    assert toRemove[..|toRemove|] == toRemove;
  }

  /** The `connections` maps of a list of nodes, in list order. */
  function Links(ns: seq<AodvNode>): (g: Graph)
    reads ns`connections
    ensures |g| == |ns| && forall i :: 0 <= i < |ns| ==> g[i] == ns[i].connections
  {
    if ns == [] then [] else Links(ns[..|ns| - 1]) + [ns[|ns| - 1].connections]
  }

  /** Nodes whose connections are, one by one, those of `g` have `g` as their links. */
  lemma LinksAre(ns: seq<AodvNode>, g: Graph)
    requires |g| == |ns| && forall i :: 0 <= i < |ns| ==> ns[i].connections == g[i]
    ensures Links(ns) == g
  {
    assert forall i :: 0 <= i < |ns| ==> Links(ns)[i] == g[i];
  }

  class SensorNetwork {
    /** node `i` of the list has id `i` */
    var nodes: seq<AodvNode>
    /** the route-request work queue, oldest entry first */
    var queue: seq<QueueEntry>

    /**
     * Node ids are list positions, and every connection, route next hop and
     * queue entry names a node of the list.
     */
    ghost predicate Valid()
      reads this`nodes, this`queue, nodes`connections, nodes`routingTable
    {
      NodesIndexed() && WellFormed(Graph()) && RoutesValid() && QueueValid()
    }

    ghost predicate NodesIndexed()
      reads this`nodes
    {
      forall i :: 0 <= i < |nodes| ==> nodes[i].id == i
    }

    ghost predicate RoutesValid()
      reads this`nodes, nodes`routingTable
    {
      forall i, d :: 0 <= i < |nodes| && d in nodes[i].routingTable ==> nodes[i].routingTable[d].nextHop < |nodes|
    }

    ghost predicate QueueValid()
      reads this`nodes, this`queue
    {
      forall k :: 0 <= k < |queue| ==> queue[k].target < |nodes| && queue[k].forwarder < |nodes|
    }

    /** The current links, as a value. */
    function Graph(): (g: Graph)
      reads this`nodes, nodes`connections
      ensures |g| == |nodes| && forall i :: 0 <= i < |nodes| ==> g[i] == nodes[i].connections
    {
      Links(nodes)
    }

    lemma ValidGraph()
      requires Valid()
      ensures WellFormed(Graph())
    {
    }

    /** An empty network. */
    constructor ()
      ensures Valid()
      ensures nodes == [] && queue == []
    {
      nodes := [];
      queue := [];
    }

    /** `add_node`: appends a fresh node whose id is its position. */
    method AddNode() returns (node: AodvNode)
      requires Valid()
      modifies this`nodes
      ensures Valid()
      ensures fresh(node) && node.id == old(|nodes|) && nodes == old(nodes) + [node]
      ensures node.connections == map[] && node.routingTable == map[]
    {
      node := new AodvNode(|nodes|);
      nodes := nodes + [node];
    }

    /** `get_node_by_id`: the first node with the id, if any. */
    method GetNodeById(id: nat) returns (r: Option<AodvNode>)
      ensures r.Some? ==> r.value in nodes && r.value.id == id
      ensures r.None? <==> forall i :: 0 <= i < |nodes| ==> nodes[i].id != id
      ensures Valid() ==> (r.Some? <==> id < |nodes|) && (id < |nodes| ==> r == Some(nodes[id]))
    {
      for i := 0 to |nodes|
        invariant forall k :: 0 <= k < i ==> nodes[k].id != id
      {
        if nodes[i].id == id {
          return Some(nodes[i]);
        }
      }
      assert id < |nodes| ==> nodes[id].id != id;
      return None;
    }

    /** Appends entries to the route-request work queue. */
    method Push(entries: seq<QueueEntry>)
      requires Valid()
      requires forall e :: e in entries ==> e.target < |nodes| && e.forwarder < |nodes|
      modifies this`queue
      ensures Valid()
      ensures queue == old(queue) + entries
    {
      queue := queue + entries;
      assert forall k :: 0 <= k < |queue| ==> queue[k] in old(queue) || queue[k] in entries;
    }

    /** Stores `entry` as node `i`'s route to `dest`. */
    method SetRoute(i: nat, dest: nat, entry: RouteEntry)
      requires Valid() && i < |nodes| && entry.nextHop < |nodes|
      modifies {nodes[i]}`routingTable
      ensures Valid()
      ensures nodes[i].routingTable == old(nodes[i].routingTable)[dest := entry]
    {
      nodes[i].routingTable := nodes[i].routingTable[dest := entry];
    }

    /** Replaces node `i`'s table by `t`, which keeps some of its routes and adds none. */
    method KeepRoutes(i: nat, t: map<nat, RouteEntry>)
      requires Valid() && i < |nodes|
      requires forall d :: d in t ==> d in nodes[i].routingTable && t[d] == nodes[i].routingTable[d]
      modifies {nodes[i]}`routingTable
      ensures Valid()
      ensures nodes[i].routingTable == t
      ensures forall j :: 0 <= j < |nodes| && j != i ==> nodes[j].routingTable == old(nodes[j].routingTable)
    {
      nodes[i].routingTable := t;
      forall j | 0 <= j < |nodes| && j != i
        ensures nodes[j] != nodes[i]
      {
        assert nodes[j].id != nodes[i].id;
      }
    }

    /** `queue.popleft()`: removes and returns the oldest entry. */
    method Pop() returns (e: QueueEntry)
      requires Valid() && queue != []
      modifies this`queue
      ensures Valid()
      ensures e == old(queue[0]) && queue == old(queue[1..])
      ensures e.target < |nodes| && e.forwarder < |nodes|
    {
      e := queue[0];
      queue := queue[1..];
    }

    /** `add_link`: writes the delay at both ends and flags both nodes. */
    method AddLink(a: nat, b: nat, delay: real)
      requires Valid() && a < |nodes| && b < |nodes|
      modifies {nodes[a], nodes[b]}`connections, {nodes[a], nodes[b]}`updateNeeded
      ensures Valid()
      ensures Graph() == AddLinkG(old(Graph()), a, b, delay)
      ensures nodes[a].connections[b] == delay && nodes[b].connections[a] == delay
      ensures nodes[a].updateNeeded && nodes[b].updateNeeded
    {
      Connect(a, b, delay);
      Connect(b, a, delay);
    }

    /** Records the connection `x` -> `y` with its delay and flags `x`. */
    method Connect(x: nat, y: nat, delay: real)
      requires Valid() && x < |nodes| && y < |nodes|
      modifies {nodes[x]}`connections, {nodes[x]}`updateNeeded
      ensures Valid()
      ensures Graph() == ConnectG(old(Graph()), x, y, delay)
      ensures nodes[x].updateNeeded
    {
      nodes[x].connections := nodes[x].connections[y := delay];
      nodes[x].updateNeeded := true;
      assert Graph() == ConnectG(old(Graph()), x, y, delay);
    }

    /**
     * `remove_link`: deletes whichever directions of the link exist, then
     * repairs connectivity if the network fell apart. The delay of a bridge
     * the repair adds is `delayOf(u, v)`.
     */
    method RemoveLink(a: nat, b: nat, delayOf: (nat, nat) -> real)
      requires Valid() && a < |nodes| && b < |nodes|
      modifies nodes`connections, nodes`updateNeeded
      ensures Valid()
      ensures SubGraph(RemoveLinkG(old(Graph()), a, b), Graph())
      ensures Connected(RemoveLinkG(old(Graph()), a, b)) ==> Graph() == RemoveLinkG(old(Graph()), a, b)
      ensures Symmetric(old(Graph())) ==> Symmetric(Graph()) && Connected(Graph())
      ensures b in old(nodes[a].connections) ==> nodes[a].updateNeeded
      ensures a in old(nodes[b].connections) ==> nodes[b].updateNeeded
    {
      ghost var g0 := Graph();
      DeleteLink(a, b);
      RemoveLinkKeepsSymmetric(g0, a, b);
      ValidGraph();
      var connected := IsFullyConnected(Graph());
      if !connected {
        EnsureFullyConnected(delayOf);
      }
    }

    /** The deletion half of `remove_link`: both directions, each if present. */
    method DeleteLink(a: nat, b: nat)
      requires Valid() && a < |nodes| && b < |nodes|
      modifies {nodes[a], nodes[b]}`connections, {nodes[a], nodes[b]}`updateNeeded
      ensures Valid()
      ensures Graph() == RemoveLinkG(old(Graph()), a, b)
      ensures b in old(nodes[a].connections) ==> nodes[a].updateNeeded
      ensures a in old(nodes[b].connections) ==> nodes[b].updateNeeded
    {
      DeleteConnection(a, b);
      DeleteConnection(b, a);
    }

    /** Deletes the connection `x` -> `y` if there is one, flagging `x`. */
    method DeleteConnection(x: nat, y: nat)
      requires Valid() && x < |nodes|
      modifies {nodes[x]}`connections, {nodes[x]}`updateNeeded
      ensures Valid()
      ensures Graph() == DisconnectG(old(Graph()), x, y)
      ensures old(nodes[x].updateNeeded) || y in old(nodes[x].connections) ==> nodes[x].updateNeeded
    {
      if y in nodes[x].connections {
        nodes[x].connections := nodes[x].connections - {y};
        nodes[x].updateNeeded := true;
      } else {
        assert nodes[x].connections - {y} == nodes[x].connections;
      }
      assert Graph() == DisconnectG(old(Graph()), x, y);
    }

    /**
     * `_ensure_fully_connected_network`: when the network is not connected,
     * links each component to the next one by one bridge, and falls back to
     * `_connect_all_components` if that did not connect it. In a symmetric
     * network the first pass always succeeds.
     */
    method EnsureFullyConnected(delayOf: (nat, nat) -> real)
      requires Valid()
      modifies nodes`connections, nodes`updateNeeded
      ensures Valid()
      ensures SubGraph(old(Graph()), Graph())
      ensures Connected(old(Graph())) ==> Graph() == old(Graph())
      ensures Symmetric(old(Graph())) ==> Symmetric(Graph()) && Connected(Graph())
      ensures forall i :: 0 <= i < |nodes| && old(nodes[i].updateNeeded) ==> nodes[i].updateNeeded
    {
      ValidGraph();
      var connected := IsFullyConnected(Graph());
      if !connected {
        BridgeComponents(delayOf);
      }
    }

    /**
     * The repair proper: one bridge from each component to the next, then
     * the all-pairs fallback if the network is still not connected.
     */
    method BridgeComponents(delayOf: (nat, nat) -> real)
      requires Valid()
      modifies nodes`connections, nodes`updateNeeded
      ensures Valid()
      ensures SubGraph(old(Graph()), Graph())
      ensures Symmetric(old(Graph())) ==> Symmetric(Graph()) && Connected(Graph())
      ensures forall i :: 0 <= i < |nodes| && old(nodes[i].updateNeeded) ==> nodes[i].updateNeeded
    {
      ValidGraph();
      ghost var g0 := Graph();
      var bridges := PlanChain(Graph(), delayOf);
      AddBridges(bridges, delayOf);
      ghost var g1 := Graph();
      AddLinksGrows(g0, bridges, delayOf);
      ValidGraph();
      var connected := IsFullyConnected(Graph());
      if !connected {
        ConnectAllComponents(delayOf);
        SubGraphTrans(g0, g1, Graph());
      }
    }

    /**
     * `_connect_all_components`: links every pair of components by one
     * bridge each.
     */
    method ConnectAllComponents(delayOf: (nat, nat) -> real)
      requires Valid()
      modifies nodes`connections, nodes`updateNeeded
      ensures Valid()
      ensures SubGraph(old(Graph()), Graph())
      ensures Symmetric(old(Graph())) ==> Symmetric(Graph())
      ensures forall i :: 0 <= i < |nodes| && old(nodes[i].updateNeeded) ==> nodes[i].updateNeeded
    {
      ValidGraph();
      ghost var g0 := Graph();
      var bridges, cs, roots := PlanAllPairs(Graph());
      AddBridges(bridges, delayOf);
      AddLinksGrows(g0, bridges, delayOf);
    }

    /** Adds the link `u`-`v` with delay `delayOf(u, v)` for each bridge, in order. */
    method AddBridges(bridges: seq<(nat, nat)>, delayOf: (nat, nat) -> real)
      requires Valid()
      requires BridgesBelow(bridges, |nodes|)
      modifies nodes`connections, nodes`updateNeeded
      ensures Valid()
      ensures Graph() == AddLinksG(old(Graph()), bridges, delayOf)
      ensures forall i :: 0 <= i < |nodes| && old(nodes[i].updateNeeded) ==> nodes[i].updateNeeded
    {
      ghost var g0 := Graph();
      for k := 0 to |bridges|
        invariant Valid()
        invariant Graph() == AddLinksG(g0, bridges[..k], delayOf)
        invariant forall i :: 0 <= i < |nodes| && old(nodes[i].updateNeeded) ==> nodes[i].updateNeeded
      {
        var u, v := bridges[k].0, bridges[k].1;
        AddLink(u, v, delayOf(u, v));
        assert bridges[..k + 1][..k] == bridges[..k];
      }
      assert bridges[..|bridges|] == bridges;
    }

    /**
     * `invalidate_routes((a, b))`: at every node, deletes each route whose
     * next hop is `a` or `b` and keeps every other route as it was.
     */
    method InvalidateRoutes(a: nat, b: nat)
      requires Valid()
      modifies nodes`routingTable
      ensures Valid()
      ensures forall i :: 0 <= i < |nodes| ==> nodes[i].routingTable == DropRoutesVia(old(nodes[i].routingTable), a, b)
    {
      for i := 0 to |nodes|
        invariant Valid()
        invariant forall k :: 0 <= k < i ==> nodes[k].routingTable == DropRoutesVia(old(nodes[k].routingTable), a, b)
        invariant forall k :: i <= k < |nodes| ==> nodes[k].routingTable == old(nodes[k].routingTable)
      {
        DropNodeRoutes(i, a, b);
      }
    }

    /** The body of `invalidate_routes` for node `i`. */
    method DropNodeRoutes(i: nat, a: nat, b: nat)
      requires Valid() && i < |nodes|
      modifies {nodes[i]}`routingTable
      ensures Valid()
      ensures nodes[i].routingTable == DropRoutesVia(old(nodes[i].routingTable), a, b)
    {
      var kept := KeepRoutesNotVia(nodes[i].routingTable, a, b);
      nodes[i].routingTable := kept;
    }
  }
}
