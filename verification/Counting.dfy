/** Counting with finite sets: distinct numbers below n are at most n, and exactly n only if they are all. */
module Counting {

  ghost function Range(n: nat): (s: set<nat>)
    ensures |s| == n
    ensures forall x: nat {:trigger x in s} :: x in s <==> x < n
  {
    if n == 0 then {} else Range(n - 1) + {n - 1}
  }

  ghost predicate Distinct(src: seq<nat>) {
    forall p, q {:trigger src[p], src[q]} :: 0 <= p < q < |src| ==> src[p] != src[q]
  }

  ghost predicate Below(src: seq<nat>, n: nat) {
    forall p {:trigger src[p]} :: 0 <= p < |src| ==> src[p] < n
  }

  ghost function Members(src: seq<nat>): (s: set<nat>)
    ensures forall x: nat {:trigger x in s} :: x in s <==> x in src
  {
    if src == [] then {} else Members(src[..|src| - 1]) + {src[|src| - 1]}
  }

  lemma {:induction false} MembersSize(src: seq<nat>)
    ensures |Members(src)| <= |src|
    ensures Distinct(src) ==> |Members(src)| == |src|
  {
    if src != [] {
      var front := src[..|src| - 1];
      MembersSize(front);
      if Distinct(src) {
        assert Distinct(front);
        assert src[|src| - 1] !in front;
      }
    }
  }

  lemma {:induction false} SubsetSize<T>(a: set<T>, b: set<T>)
    requires a <= b
    ensures |a| <= |b|
    ensures |a| == |b| ==> a == b
  {
    assert b == a + (b - a);
  }

  lemma {:induction false} DistinctFits(src: seq<nat>, n: nat)
    requires Distinct(src) && Below(src, n)
    ensures |src| <= n
    ensures |src| == n ==> Members(src) == Range(n)
  {
    MembersSize(src);
    SubsetSize(Members(src), Range(n));
  }

  lemma {:induction false} CoveringIsLong(src: seq<nat>, n: nat)
    requires forall x: nat {:trigger x in src} :: x < n ==> x in src
    ensures n <= |src|
  {
    MembersSize(src);
    SubsetSize(Range(n), Members(src));
  }
}
