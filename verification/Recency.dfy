/** The order of the buffer list of bio.c as a value: moving a released buffer to the front,
    and what the position in the list then says about the history of releases. */
module Recency {
  import opened Common

  /** order is a permutation of 0..n-1. */
  ghost predicate Permutation(order: seq<nat>, n: nat) {
    && |order| == n
    && Distinct(order)
    && (forall i :: 0 <= i < n ==> order[i] < n)
    && (forall b: nat :: b < n ==> b in order)
  }

  ghost function IndexOf(order: seq<nat>, b: nat): (k: nat)
    requires b in order
    ensures k < |order| && order[k] == b
  {
    if order[0] == b then 0 else 1 + IndexOf(order[1..], b)
  }

  ghost function ToFront(order: seq<nat>, b: nat): (r: seq<nat>)
    requires b in order
  {
    var k := IndexOf(order, b);
    [b] + order[..k] + order[k + 1..]
  }

  lemma ToFrontIs(order: seq<nat>, b: nat, k: nat)
    requires b in order && k == IndexOf(order, b)
    ensures |ToFront(order, b)| == |order| && ToFront(order, b)[0] == b
    ensures forall i {:trigger ToFront(order, b)[i]} :: 1 <= i < |order| ==>
              ToFront(order, b)[i] == if i <= k then order[i - 1] else order[i]
  {
  }

  /** Position of each buffer after a move to the front. */
  lemma ToFrontAt(order: seq<nat>, b: nat, n: nat)
    requires Permutation(order, n) && b < n
    ensures Permutation(ToFront(order, b), n)
    ensures ToFront(order, b)[0] == b
    ensures var k := IndexOf(order, b);
            forall i {:trigger ToFront(order, b)[i]} :: 1 <= i < n ==>
              ToFront(order, b)[i] == if i <= k then order[i - 1] else order[i]
  {
    var k := IndexOf(order, b);
    ToFrontIs(order, b, k);
    StillPermutation(order, ToFront(order, b), b, k, n);
  }

  lemma StillPermutation(order: seq<nat>, r: seq<nat>, b: nat, k: nat, n: nat)
    requires Permutation(order, n) && k < n && order[k] == b && |r| == n && r[0] == b
    requires forall i {:trigger r[i]} :: 1 <= i < n ==> r[i] == if i <= k then order[i - 1] else order[i]
    ensures Permutation(r, n)
  {
    forall c: nat | c < n
      ensures c in r
    {
      var i := IndexOf(order, c);
      if i < k {
        assert r[i + 1] == c;
      } else if i > k {
        assert r[i] == c;
      }
    }
  }

  /** The list after a history of releases. */
  ghost function After(order: seq<nat>, releases: seq<nat>): (r: seq<nat>)
    requires Permutation(order, |order|)
    requires forall i :: 0 <= i < |releases| ==> releases[i] < |order|
    ensures Permutation(r, |order|)
  {
    if releases == [] then order
    else
      var last := |releases| - 1;
      var r := After(order, releases[..last]);
      ToFrontAt(r, releases[last], |order|);
      ToFront(r, releases[last])
  }

  /** Time of the last release of b, or -1. */
  ghost function LastRelease(releases: seq<nat>, b: nat): (t: int)
    ensures -1 <= t < |releases|
    ensures t >= 0 ==> releases[t] == b
    ensures forall i :: t < i < |releases| ==> releases[i] != b
  {
    if releases == [] then -1
    else if releases[|releases| - 1] == b then |releases| - 1
    else LastRelease(releases[..|releases| - 1], b)
  }

  /** x was released after y, or neither was ever released. */
  ghost predicate MoreRecent(releases: seq<nat>, x: nat, y: nat) {
    || LastRelease(releases, x) > LastRelease(releases, y)
    || LastRelease(releases, x) == LastRelease(releases, y) == -1
  }

  ghost predicate ByRecency(order: seq<nat>, releases: seq<nat>) {
    forall i, j :: 0 <= i < j < |order| ==> MoreRecent(releases, order[i], order[j])
  }

  lemma ToFrontKeepsRecency(order: seq<nat>, b: nat, n: nat, releases: seq<nat>)
    requires Permutation(order, n) && b < n && ByRecency(order, releases)
    ensures ByRecency(ToFront(order, b), releases + [b])
  {
  }

  /** A buffer nearer the head was released more recently; those never released are last. */
  lemma {:induction false} NearerIsMoreRecent(order: seq<nat>, releases: seq<nat>)
    requires Permutation(order, |order|)
    requires forall i :: 0 <= i < |releases| ==> releases[i] < |order|
    ensures ByRecency(After(order, releases), releases)
  {
    if releases != [] {
      var last := |releases| - 1;
      NearerIsMoreRecent(order, releases[..last]);
      ToFrontKeepsRecency(After(order, releases[..last]), releases[last], |order|, releases[..last]);
      assert releases == releases[..last] + [releases[last]];
    }
  }
}
