/**
 * `binarySearch`: bisection over a sorted array of numbers (modelled as
 * integers), returning an index holding the target or the sentinel -1.
 */
module Search {

  /** Non-decreasing order, which the caller promises and the search never checks. */
  ghost predicate Sorted(s: seq<int>)
  {
    forall i, j :: 0 <= i <= j < |s| ==> s[i] <= s[j]
  }

  /**
   * The bisection over the window `s[lo..hi]` (both ends included), probe by
   * probe: the reference the loop of `BinarySearch` is proved against. It pins
   * down which index is returned when the target occurs more than once.
   */
  function Bisect(s: seq<int>, target: int, lo: nat, hi: int): (r: int)
    requires lo <= hi + 1 <= |s|
    decreases hi - lo + 1
    ensures r == -1 || (lo <= r <= hi && s[r] == target)
  {
    if lo > hi then -1
    else
      var mid := (lo + hi) / 2;
      if s[mid] == target then mid
      else if s[mid] < target then Bisect(s, target, mid + 1, hi)
      else Bisect(s, target, lo, mid - 1)
  }

  /** On sorted input the bisection misses only a target that is not in the window. */
  lemma {:induction false} BisectComplete(s: seq<int>, target: int, lo: nat, hi: int)
    requires lo <= hi + 1 <= |s|
    requires Sorted(s)
    ensures Bisect(s, target, lo, hi) == -1 <==> forall i :: lo <= i <= hi ==> s[i] != target
    decreases hi - lo + 1
  {
    if lo <= hi {
      var mid := (lo + hi) / 2;
      if s[mid] < target {
        BisectComplete(s, target, mid + 1, hi);
      } else if s[mid] > target {
        BisectComplete(s, target, lo, mid - 1);
      }
    }
  }

  /**
   * Returns an index of `arr` holding `target`, or -1. Every probe is in
   * bounds, an empty array gives -1, and on sorted input -1 means the target
   * does not occur.
   */
  method BinarySearch(arr: array<int>, target: int) returns (r: int)
    ensures r == Bisect(arr[..], target, 0, arr.Length - 1)
    ensures -1 <= r < arr.Length
    ensures r != -1 ==> arr[r] == target
    ensures Sorted(arr[..]) ==> (r == -1 <==> target !in arr[..])
  {
    var left := 0;
    var right := arr.Length - 1;
    while left <= right
      invariant 0 <= left <= right + 1 <= arr.Length
      invariant Bisect(arr[..], target, left, right) == Bisect(arr[..], target, 0, arr.Length - 1)
      decreases right - left
    {
      var mid := (left + right) / 2;
      var midValue := arr[mid];
      if midValue == target {
        r := mid;
        return;
      }
      if midValue < target {
        left := mid + 1;
      } else {
        right := mid - 1;
      }
    }
    r := -1;
    if Sorted(arr[..]) {
      BisectComplete(arr[..], target, 0, arr.Length - 1);
    }
  }
}
