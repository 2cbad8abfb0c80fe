/** `bisect.bisect_right` on ascending integers. */
module Bisect {

  ghost predicate Ascending(s: seq<int>) {
    forall i, j | 0 <= i < j < |s| :: s[i] <= s[j]
  }

  method BisectRight(s: seq<int>, x: int) returns (k: nat)
    requires Ascending(s)
    ensures k <= |s|
    ensures forall i | 0 <= i < k :: s[i] <= x
    ensures forall i | k <= i < |s| :: s[i] > x
  {
    k := 0;
    var hi := |s|;
    while k < hi
      invariant k <= hi <= |s|
      invariant forall i | 0 <= i < k :: s[i] <= x
      invariant forall i | hi <= i < |s| :: s[i] > x
    {
      var mid := (k + hi) / 2;
      if x < s[mid] {
        hi := mid;
      } else {
        k := mid + 1;
      }
    }
  }
}
