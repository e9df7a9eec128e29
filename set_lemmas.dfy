/** Facts about finite sets of node ids that the termination and counting arguments use. */
module SetLemmas {

  /** The ids `0 .. n-1` of a network with `n` nodes. */
  ghost function Range(n: nat): (r: set<nat>)
    ensures forall x: nat :: x in r <==> x < n
  {
    if n == 0 then {} else Range(n - 1) + {n - 1}
  }

  lemma {:induction false} RangeCard(n: nat)
    ensures |Range(n)| == n
  {
    if n > 0 {
      RangeCard(n - 1);
      var r := Range(n - 1);
      assert n - 1 !in r;
      assert |r + {n - 1}| == |r| + 1;
    }
  }

  lemma SubsetCard(a: set<nat>, b: set<nat>)
    requires a <= b
    ensures |b| == |a| + |b - a|
  {
    assert b == a + (b - a);
    assert a !! (b - a);
  }

  lemma StrictSubsetCard(a: set<nat>, b: set<nat>)
    requires a <= b && a != b
    ensures |a| < |b|
  {
    SubsetCard(a, b);
    var x :| x in b - a;
  }

  lemma SubsetSameCard(a: set<nat>, b: set<nat>)
    requires a <= b && |a| == |b|
    ensures a == b
  {
    SubsetCard(a, b);
    if b - a != {} {
      var x :| x in b - a;
    }
  }

  /** A set of ids all below `n` has at most `n` elements. */
  lemma BoundedCard(a: set<nat>, n: nat)
    requires forall x :: x in a ==> x < n
    ensures |a| <= n
  {
    RangeCard(n);
    SubsetCard(a, Range(n));
  }

  /** A set of ids below `n` with `n` elements holds every id below `n`. */
  lemma BoundedFull(a: set<nat>, n: nat)
    requires forall x :: x in a ==> x < n
    requires |a| == n
    ensures forall x: nat :: x < n ==> x in a
  {
    RangeCard(n);
    SubsetSameCard(a, Range(n));
  }

  /** The least element of a non-empty set of ids. */
  ghost function MinOf(s: set<nat>): (m: nat)
    requires s != {}
    ensures m in s && forall y :: y in s ==> m <= y
    decreases s
  {
    var x :| x in s;
    if s == {x} then
      x
    else
      var rest := MinOf(s - {x});
      assert forall y :: y in s ==> y == x || y in s - {x};
      if x < rest then x else rest
  }
}
