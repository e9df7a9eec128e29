/** The AODV control packets and routing-table entries (src/core/aodv.py), as values. */
module Packets {

  datatype Option<T> = None | Some(value: T)

  /**
   * A link delay or an accumulated path cost. `Inf` stands for the source's
   * `float('inf')`, which `get_link_cost` returns when there is no link.
   */
  datatype Cost = Fin(value: real) | Inf {

    /** Float addition as the engine uses it: anything plus infinity is infinity. */
    function Plus(other: Cost): (r: Cost)
      ensures r.Inf? <==> this.Inf? || other.Inf?
      ensures r.Fin? ==> r.value == this.value + other.value
    {
      match (this, other)
      case (Fin(a), Fin(b)) => Fin(a + b)
      case _ => Inf
    }

    /** Float `<`: a finite cost is below infinity, and infinity is below nothing. */
    predicate Less(other: Cost) {
      match (this, other)
      case (Fin(a), Fin(b)) => a < b
      case (Fin(_), Inf) => true
      case (Inf, _) => false
    }
  }

  /** `Less` is a strict order, as `<` on floats without NaN is. */
  lemma LessIsStrictOrder(a: Cost, b: Cost, c: Cost)
    ensures !a.Less(a)
    ensures a.Less(b) ==> !b.Less(a)
    ensures a.Less(b) && b.Less(c) ==> a.Less(c)
  {
  }

  const DefaultTtl: nat := 300000

  /**
   * A route request. Besides the constructor's fields the engine reads
   * `broadcastId`, `srcSeq`, `destSeq` and `cost`, which it sets or expects
   * on the object after construction.
   */
  datatype Rreq = Rreq(
    sourceId: nat, destId: nat, seqNum: nat, hops: nat, ttl: nat,
    broadcastId: nat, srcSeq: nat, destSeq: nat, cost: Cost)
  {
    /** The pair that duplicate suppression keys on. */
    function Id(): (nat, nat) { (sourceId, broadcastId) }
  }

  /**
   * `RREQ(source_id, dest_id, seq)`: hops and ttl take their defaults. The
   * attributes the engine reads without the constructor setting them start as
   * the originator's own sequence number (`srcSeq`), an unknown destination
   * sequence number (0) and a zero accumulated cost.
   */
  function NewRreq(sourceId: nat, destId: nat, seqNum: nat): (r: Rreq)
    ensures r.sourceId == sourceId && r.destId == destId && r.seqNum == seqNum
    ensures r.hops == 0 && r.ttl == 300000
    ensures r.srcSeq == seqNum && r.destSeq == 0 && r.cost == Fin(0.0)
  {
    Rreq(sourceId, destId, seqNum, 0, DefaultTtl, 0, seqNum, 0, Fin(0.0))
  }

  /** The request `broadcast_RREQ` and `send_RREQ` originate: a new `RREQ` stamped with the broadcast id. */
  function Originate(me: nat, dest: nat, seqNum: nat, broadcastId: nat): (r: Rreq)
    ensures r.Id() == (me, broadcastId) && r.destId == dest && r.seqNum == seqNum && r.hops == 0
  {
    NewRreq(me, dest, seqNum).(broadcastId := broadcastId)
  }

  /**
   * A route reply, with the five fields the engine passes: `sourceId` is the
   * destination that replies, `destId` the originator the reply travels to.
   */
  datatype Rrep = Rrep(sourceId: nat, destId: nat, seqNum: nat, hops: nat, cost: Cost)

  /** A route error listing unreachable destinations. */
  datatype Rerr = Rerr(unreachable: seq<nat>) {
    /** `tuple(sorted(map(int, unreachable)))`: the key of duplicate suppression. */
    function Key(): seq<nat> { Sort(unreachable) }
  }

  datatype RouteEntry = RouteEntry(destId: nat, nextHop: nat, seqNum: nat, hops: nat, cost: Cost)

  /** `RoutingTableEntry(dest_id, next_hop, seq, hops)` with the default cost. */
  function NewRouteEntry(destId: nat, nextHop: nat, seqNum: nat, hops: nat): (e: RouteEntry)
    ensures e.destId == destId && e.nextHop == nextHop && e.seqNum == seqNum && e.hops == hops
    ensures e.cost == Fin(0.0)
  {
    RouteEntry(destId, nextHop, seqNum, hops, Fin(0.0))
  }

  // ---------------------------------------------------------------------------
  // Sorting, for the RERR key

  ghost predicate Sorted(s: seq<nat>) {
    forall i, j :: 0 <= i < j < |s| ==> s[i] <= s[j]
  }

  function Insert(x: nat, s: seq<nat>): (r: seq<nat>)
    requires Sorted(s)
    ensures Sorted(r)
    ensures forall y :: y in r <==> y == x || y in s
    ensures multiset(r) == multiset(s) + multiset{x}
  {
    if s == [] || x <= s[0] then
      SortedCons(x, s);
      [x] + s
    else
      assert s == [s[0]] + s[1..];
      var t := Insert(x, s[1..]);
      SortedCons(s[0], t);
      [s[0]] + t
  }

  /** Putting a value in front of a sorted sequence keeps it sorted when the value is at most its elements. */
  lemma SortedCons(h: nat, t: seq<nat>)
    requires Sorted(t) && forall y :: y in t ==> h <= y
    ensures Sorted([h] + t)
  {
    forall i, j | 0 <= i < j < |[h] + t| ensures ([h] + t)[i] <= ([h] + t)[j] {
      assert t[j - 1] in t;
      if i > 0 {
        assert ([h] + t)[i] == t[i - 1];
      }
    }
  }

  /** `sorted(s)`: the ascending permutation of `s`. */
  function Sort(s: seq<nat>): (r: seq<nat>)
    ensures Sorted(r)
    ensures multiset(r) == multiset(s)
  {
    if s == [] then
      []
    else
      assert s == [s[0]] + s[1..];
      Insert(s[0], Sort(s[1..]))
  }

  /** Two sorted sequences with the same elements are the same sequence. */
  lemma {:induction false} SortedUnique(a: seq<nat>, b: seq<nat>)
    requires Sorted(a) && Sorted(b)
    requires multiset(a) == multiset(b)
    ensures a == b
  {
    if a == [] {
      assert |multiset(b)| == 0;
    } else {
      SameHead(a, b);
      SortedUnique(a[1..], b[1..]);
      assert a == [a[0]] + a[1..] && b == [b[0]] + b[1..];
    }
  }

  /** Two sorted sequences with the same elements start alike and go on with the same elements. */
  lemma SameHead(a: seq<nat>, b: seq<nat>)
    requires Sorted(a) && Sorted(b) && a != []
    requires multiset(a) == multiset(b)
    ensures b != [] && a[0] == b[0] && multiset(a[1..]) == multiset(b[1..])
    ensures Sorted(a[1..]) && Sorted(b[1..])
  {
    assert a[0] in multiset(b);
    assert b[0] in multiset(a);
    SortedLeast(b, a[0]);
    SortedLeast(a, b[0]);
    DropHead(a);
    DropHead(b);
  }

  /** The first element of a sorted sequence is at most any of its elements. */
  lemma SortedLeast(s: seq<nat>, x: nat)
    requires Sorted(s) && x in s
    ensures s[0] <= x
  {
    var i :| 0 <= i < |s| && s[i] == x;
  }

  /** Dropping the first element takes one copy of it out of the multiset. */
  lemma DropHead(s: seq<nat>)
    requires s != []
    ensures multiset(s[1..]) == multiset(s) - multiset{s[0]}
  {
    assert s == [s[0]] + s[1..];
  }

  /**
   * Two RERRs share a duplicate-suppression key exactly when they list the
   * same destinations with the same multiplicities, in whatever order.
   */
  lemma RerrKeyIdentifiesMultiset(x: Rerr, y: Rerr)
    ensures x.Key() == y.Key() <==> multiset(x.unreachable) == multiset(y.unreachable)
  {
    if multiset(x.unreachable) == multiset(y.unreachable) {
      SortedUnique(x.Key(), y.Key());
    }
  }

  /** The key holds exactly the listed destinations. */
  lemma RerrKeyElements(x: Rerr)
    ensures forall d :: d in x.Key() <==> d in x.unreachable
  {
    forall d ensures d in x.Key() <==> d in x.unreachable {
      assert d in x.Key() <==> d in multiset(x.Key());
      assert d in x.unreachable <==> d in multiset(x.unreachable);
    }
  }
}
