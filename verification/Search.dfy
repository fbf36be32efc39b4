/** Searching in order. */
module Search {
  /** How many of the first elements `p` holds for, up to the first it does not hold for. */
  function PartitionPoint<T>(s: seq<T>, p: T -> bool): (n: nat)
    ensures n <= |s|
    ensures forall k :: 0 <= k < n ==> p(s[k])
    ensures n < |s| ==> !p(s[n])
  {
    if s == [] || !p(s[0]) then 0
    else
      var n := PartitionPoint(s[1..], p);
      assert forall k :: 0 < k < n + 1 ==> s[k] == s[1..][k - 1];
      n + 1
  }
}
