/** Insertion sort by a total preorder `before` ("may come first"), the
    model's stand-in for pandas' `sort_values` and Python's `sorted`. This
    sort is stable while the library's is not, so its contract says only
    "sorted, and a permutation of the input"; where a result depends on the
    order of tied rows, the members that use it state their contracts for
    every order a sort may give. */
module Sorting {

  ghost predicate TotalPreorder<T(!new)>(before: (T, T) -> bool) {
    && (forall a, b :: before(a, b) || before(b, a))
    && (forall a, b, c :: before(a, b) && before(b, c) ==> before(a, c))
  }

  predicate Sorted<T>(s: seq<T>, before: (T, T) -> bool) {
    forall i, j :: 0 <= i < j < |s| ==> before(s[i], s[j])
  }

  function Insert<T(!new)>(x: T, s: seq<T>, before: (T, T) -> bool): (r: seq<T>)
    requires TotalPreorder(before)
    requires Sorted(s, before)
    ensures multiset(r) == multiset(s) + multiset{x}
    ensures Sorted(r, before)
  {
    if s == [] then [x]
    else if before(x, s[0]) then [x] + s
    else
      var tail := Insert(x, s[1..], before);
      assert s == [s[0]] + s[1..];
      assert forall k :: 0 <= k < |tail| ==> before(s[0], tail[k]) by {
        forall k | 0 <= k < |tail|
          ensures before(s[0], tail[k])
        {
          assert tail[k] in multiset(tail);
          if tail[k] != x {
            assert tail[k] in multiset(s[1..]);
            var j :| 0 <= j < |s[1..]| && s[1..][j] == tail[k];
            assert s[j + 1] == tail[k];
          }
        }
      }
      [s[0]] + tail
  }

  /** The input reordered so that every element may come before every later one. */
  function SortBy<T(!new)>(s: seq<T>, before: (T, T) -> bool): (r: seq<T>)
    requires TotalPreorder(before)
    ensures multiset(r) == multiset(s)
    ensures |r| == |s|
    ensures Sorted(r, before)
  {
    if s == [] then []
    else
      assert s == [s[0]] + s[1..];
      var r := Insert(s[0], SortBy(s[1..], before), before);
      assert |r| == |multiset(r)| == |multiset(s)| == |s|;
      r
  }
}
