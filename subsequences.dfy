/** Order-preserving filters. Several queries and loops of the backend keep
    the elements of a sequence that pass a test and drop the others, in
    their original order (`QuerySet.filter`, a loop with `continue`).
    `Positions` gives the positions such a filter keeps, so that a filter
    can be characterised element by element against it. */
module Subsequences {

  /** The positions of `s` whose element passes `p`, in increasing order:
      every listed position passes, and every position that passes is
      listed. */
  function Positions<T>(s: seq<T>, p: T -> bool): (idx: seq<nat>)
    ensures |idx| <= |s|
    ensures forall k :: 0 <= k < |idx| ==> idx[k] < |s| && p(s[idx[k]])
    ensures forall k, l :: 0 <= k < l < |idx| ==> idx[k] < idx[l]
    ensures forall i :: 0 <= i < |s| && p(s[i]) ==> i in idx
    decreases |s|
  {
    if |s| == 0 then []
    else
      var front := Positions(s[..|s| - 1], p);
      assert forall i :: 0 <= i < |s| - 1 ==> s[..|s| - 1][i] == s[i];
      if p(s[|s| - 1]) then front + [|s| - 1] else front
  }

  /** One more element adds its position exactly when it passes. */
  lemma PositionsOneMore<T>(s: seq<T>, p: T -> bool)
    requires |s| > 0
    ensures Positions(s, p) == Positions(s[..|s| - 1], p) + (if p(s[|s| - 1]) then [|s| - 1] else [])
  {
  }
}
