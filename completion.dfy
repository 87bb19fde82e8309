/**
 * Completion order of concurrently running streams. Timing is not modelled:
 * the order in which a join's inputs settle arrives as a permutation of
 * their positions.
 */
module Completion {
  /** A completion order of `n` inputs: every position names an input, every input appears. */
  predicate IsOrder(order: seq<nat>, n: nat) {
    |order| == n && (forall j :: 0 <= j < n ==> order[j] < n) && (forall k :: 0 <= k < n ==> k in order)
  }

  /** The inputs listed in the order they settle. */
  function InOrder<T>(xs: seq<T>, order: seq<nat>): (r: seq<T>)
    requires IsOrder(order, |xs|)
    ensures |r| == |xs|
    ensures forall j :: 0 <= j < |r| ==> r[j] == xs[order[j]]
  {
    seq(|order|, j requires 0 <= j < |order| && order[j] < |xs| => xs[order[j]])
  }

  /** Every input appears somewhere in the completion order. */
  lemma InOrderCovers<T>(xs: seq<T>, order: seq<nat>, k: nat)
    requires IsOrder(order, |xs|) && k < |xs|
    ensures exists j :: 0 <= j < |xs| && InOrder(xs, order)[j] == xs[k]
  {
    assert k in order;
    var j :| 0 <= j < |order| && order[j] == k;
    assert InOrder(xs, order)[j] == xs[k];
  }
}
