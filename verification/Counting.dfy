/** Counting the elements of sequences without repetition. */
module Counting {

  ghost predicate Distinct(w: seq<int>) {
    forall i, j | 0 <= i < j < |w| :: w[i] != w[j]
  }

  lemma {:induction false} Pigeonhole(p: seq<int>, n: nat)
    requires Distinct(p) && forall i | 0 <= i < |p| :: 0 <= p[i] < n
    ensures |p| <= n
  {
    DistinctSize(p);
    SubsetSize(Elements(p), Slots(n));
  }

  function Slots(n: nat): (r: set<int>)
    ensures forall x :: x in r <==> 0 <= x < n
    ensures |r| == n
  {
    if n == 0 then {} else Slots(n - 1) + {n - 1}
  }

  function Elements(p: seq<int>): set<int> {
    set x | x in p
  }

  lemma {:induction false} DistinctSize(p: seq<int>)
    requires Distinct(p)
    ensures |Elements(p)| == |p|
  {
    if p != [] {
      DistinctSize(p[1..]);
      assert Elements(p) == Elements(p[1..]) + {p[0]};
    }
  }

  lemma {:induction false} SubsetSize(a: set<int>, b: set<int>)
    requires a <= b
    ensures |a| <= |b|
  {
    assert b == a + (b - a);
  }
}
