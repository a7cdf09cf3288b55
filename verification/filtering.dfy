/**
 A loop that appends, in order, the result of every element for which a
 lookup succeeds: the shape of `search_plant`'s loop over table rows.
 */
module Filtering {
  import opened Wrappers

  /** What the loop has appended after running over `xs`. */
  function FilterMap<T, U>(xs: seq<T>, f: T -> Option<U>): (r: seq<U>)
    ensures |r| <= |xs|
  {
    if |xs| == 0 then []
    else
      var n := |xs| - 1;
      FilterMap(xs[..n], f) + (match f(xs[n]) case Some(y) => [y] case None => [])
  }

  /** The positions of the elements whose lookup succeeds, in increasing order. */
  function KeptIndices<T, U>(xs: seq<T>, f: T -> Option<U>): (ks: seq<nat>)
    ensures forall j :: 0 <= j < |ks| ==> ks[j] < |xs| && f(xs[ks[j]]).Some?
    ensures forall k :: 0 <= k < |xs| && f(xs[k]).Some? ==> k in ks
    ensures forall j, j' :: 0 <= j < j' < |ks| ==> ks[j] < ks[j']
  {
    if |xs| == 0 then []
    else
      var n := |xs| - 1;
      var front := xs[..n];
      assert forall k :: 0 <= k < n ==> front[k] == xs[k];
      KeptIndices(front, f) + (if f(xs[n]).Some? then [n] else [])
  }

  /** The loop's output is the lookups at the kept positions, in order. */
  lemma {:induction false} FilterMapKept<T, U>(xs: seq<T>, f: T -> Option<U>)
    ensures |FilterMap(xs, f)| == |KeptIndices(xs, f)|
    ensures forall j :: 0 <= j < |FilterMap(xs, f)| ==>
              f(xs[KeptIndices(xs, f)[j]]) == Some(FilterMap(xs, f)[j])
  {
    if |xs| > 0 {
      var n := |xs| - 1;
      var front := xs[..n];
      FilterMapKept(front, f);
      var out, ks := FilterMap(front, f), KeptIndices(front, f);
      forall j | 0 <= j < |FilterMap(xs, f)|
        ensures f(xs[KeptIndices(xs, f)[j]]) == Some(FilterMap(xs, f)[j])
      {
        if j < |out| {
          assert FilterMap(xs, f)[j] == out[j];
          assert KeptIndices(xs, f)[j] == ks[j];
          assert front[ks[j]] == xs[ks[j]];
        }
      }
    }
  }

  /** When every lookup succeeds, nothing is dropped and nothing moves. */
  lemma {:induction false} FilterMapAllKept<T, U>(xs: seq<T>, f: T -> Option<U>)
    requires forall k :: 0 <= k < |xs| ==> f(xs[k]).Some?
    ensures |FilterMap(xs, f)| == |xs|
    ensures forall j :: 0 <= j < |xs| ==> f(xs[j]) == Some(FilterMap(xs, f)[j])
  {
    if |xs| > 0 {
      var n := |xs| - 1;
      var front := xs[..n];
      assert forall k :: 0 <= k < n ==> front[k] == xs[k];
      FilterMapAllKept(front, f);
    }
  }
}
