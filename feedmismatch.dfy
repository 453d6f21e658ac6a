/** How the generator's out-of-order scan and the benchmark's stale count
    judge the same stream of sequence numbers. The scan starts its maximum at
    -1 and counts strictly smaller entries; the store starts at 0 and rejects
    entries that are smaller or equal. */
module FeedMismatch {
  import opened RunningMax
  import Replay
  import StreamGen

  /** Every entry the scan calls out of order the store also rejects. */
  lemma {:induction false} LateImpliesStale(xs: seq<int>)
    ensures forall k :: 0 <= k < |xs| && StreamGen.LateAt(xs, k) ==> Replay.StaleAt(xs, k)
    ensures StreamGen.OutOfOrderCount(xs) <= Replay.StaleCount(xs)
    decreases |xs|
  {
    forall k | 0 <= k < |xs| && StreamGen.LateAt(xs, k)
      ensures Replay.StaleAt(xs, k)
    {
      MaxOfMonotoneBase(-1, 0, xs[..k]);
    }
    if xs != [] {
      var init := xs[..|xs| - 1];
      LateImpliesStale(init);
      MaxOfMonotoneBase(-1, 0, init);
    }
  }

  /** On a stream of distinct, non-negative-headed sequence numbers (such as
      the generator's output) the two counts differ only by the first entry:
      a leading sequence number 0 is stale for the store, which starts at 0,
      but in order for the scan, which starts at -1. */
  lemma {:induction false} OnlyLeadingZeroDiffers(xs: seq<int>)
    requires |xs| > 0 && 0 <= xs[0]
    requires forall p, q :: 0 <= p < q < |xs| ==> xs[p] != xs[q]
    ensures Replay.StaleCount(xs) == StreamGen.OutOfOrderCount(xs) + (if xs[0] == 0 then 1 else 0)
    decreases |xs|
  {
    var n := |xs| - 1;
    var init := xs[..n];
    if n == 0 {
      assert init == [];
    } else {
      OnlyLeadingZeroDiffers(init);
      var m := MaxOf(-1, init);
      MaxOfIsMaximum(-1, init);
      MaxOfRaiseBase(-1, 0, init);
      var j :| 0 <= j < n && init[j] == m;
      assert xs[j] != xs[n];
    }
  }
}
