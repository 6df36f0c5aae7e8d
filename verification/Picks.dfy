/** The positions that a filter keeps, as a reference for the functions that filter a list. */
module Picks {

  /** `idx` lists, in order, exactly the positions of the elements that `p` picks. */
  ghost predicate PicksOut<T>(idx: seq<nat>, xs: seq<T>, p: T -> bool) {
    && (forall a, b :: 0 <= a < b < |idx| ==> idx[a] < idx[b])
    && (forall a :: 0 <= a < |idx| ==> idx[a] < |xs| && p(xs[idx[a]]))
    && forall i :: 0 <= i < |xs| && p(xs[i]) ==> i in idx
  }

  /** The positions once the last element is looked at, too. */
  function PickLast<T>(idx: seq<nat>, xs: seq<T>, p: T -> bool): seq<nat>
    requires xs != []
  {
    if p(xs[|xs| - 1]) then idx + [|xs| - 1] else idx
  }

  lemma PicksLast<T>(idx: seq<nat>, xs: seq<T>, p: T -> bool)
    requires xs != [] && PicksOut(idx, xs[..|xs| - 1], p)
    ensures PicksOut(PickLast(idx, xs, p), xs, p)
    ensures forall a :: 0 <= a < |idx| ==> idx[a] < |xs| - 1 && xs[..|xs| - 1][idx[a]] == xs[idx[a]]
  {
    var n, next := |xs| - 1, PickLast(idx, xs, p);
    forall i | 0 <= i < |xs| && p(xs[i]) ensures i in next {
      if i < n { assert p(xs[..n][i]); }
    }
  }

  /** Where a picked position is listed: only smaller ones come before it. */
  lemma ListedAt<T>(idx: seq<nat>, xs: seq<T>, p: T -> bool, i: nat) returns (k: nat)
    requires PicksOut(idx, xs, p) && i < |xs| && p(xs[i])
    ensures k < |idx| && idx[k] == i && forall a :: 0 <= a < k ==> idx[a] < i
  {
    k :| 0 <= k < |idx| && idx[k] == i;
  }
}
