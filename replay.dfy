/** The stale-counting replay loop of the benchmark (bench/local_L1.cpp):
    every recorded update is applied to a fresh store, and those that leave
    the sequence number unchanged are counted as stale. */
module Replay {
  import opened RunningMax
  import opened L1Book

  /** One recorded market-data update, as loaded from the feed. */
  datatype Update = Update(seqNo: U64, bidPx: real, bidSz: real, askPx: real, askSz: real)

  /** The brace-initialisation handed to `apply`: all five fields copied as they are. */
  function ToSnapshot(u: Update): (s: L1Snapshot)
    ensures s.seqNo == u.seqNo && s.bidPx == u.bidPx && s.bidSz == u.bidSz
    ensures s.askPx == u.askPx && s.askSz == u.askSz
  {
    L1Snapshot(u.seqNo, u.bidPx, u.bidSz, u.askPx, u.askSz)
  }

  /** The converted form of a whole feed. */
  function Snapshots(us: seq<Update>): (ss: seq<L1Snapshot>)
    ensures |ss| == |us|
    ensures forall k :: 0 <= k < |us| ==> ss[k] == ToSnapshot(us[k])
  {
    seq(|us|, k requires 0 <= k < |us| => ToSnapshot(us[k]))
  }

  /** Position `k` of a feed of sequence numbers is stale when it is at most
      the maximum of 0 (the fresh store) and every earlier sequence number. */
  predicate StaleAt(xs: seq<int>, k: nat)
    requires k < |xs|
  {
    xs[k] <= MaxOf(0, xs[..k])
  }

  /** The number of stale positions of a feed. */
  function StaleCount(xs: seq<int>): (c: nat)
    ensures c <= |xs|
    decreases |xs|
  {
    if xs == [] then 0
    else StaleCount(xs[..|xs| - 1]) + (if StaleAt(xs, |xs| - 1) then 1 else 0)
  }

  /** An update leaves the store's sequence unchanged exactly when it is
      stale with respect to the updates applied before it. */
  lemma StaleIffUnchanged(ss: seq<L1Snapshot>, s: L1Snapshot)
    ensures ApplyTo(ApplySeq(Empty, ss), s).seqNo == ApplySeq(Empty, ss).seqNo
            <==> StaleAt(Seqs(ss + [s]), |ss|)
  {
    ApplySeqSequence(Empty, ss);
    assert Seqs(ss + [s])[..|ss|] == Seqs(ss);
  }

  /** What one more iteration of the replay loop adds: one `apply`, and one
      to the stale count exactly when that `apply` is rejected. */
  lemma ReplayStep(ss: seq<L1Snapshot>, i: nat)
    requires i < |ss|
    ensures ApplySeq(Empty, ss[..i + 1]) == ApplyTo(ApplySeq(Empty, ss[..i]), ss[i])
    ensures StaleCount(Seqs(ss[..i + 1])) == StaleCount(Seqs(ss[..i])) +
      (if ss[i].seqNo <= ApplySeq(Empty, ss[..i]).seqNo then 1 else 0)
  {
    assert ss[..i + 1] == ss[..i] + [ss[i]];
    StaleIffUnchanged(ss[..i], ss[i]);
    assert Seqs(ss[..i + 1])[..i] == Seqs(ss[..i]);
  }

  /** No lost acceptance: on a feed whose sequence numbers are positive and
      strictly increasing, no position is stale. */
  lemma {:induction false} InOrderNoStale(xs: seq<int>)
    requires forall p, q :: 0 <= p < q < |xs| ==> xs[p] < xs[q]
    requires forall k :: 0 <= k < |xs| ==> 0 < xs[k]
    ensures StaleCount(xs) == 0
    decreases |xs|
  {
    if xs != [] {
      var init := xs[..|xs| - 1];
      InOrderNoStale(init);
      MaxOfIsMaximum(0, init);
    }
  }

  /** A replay of positive, strictly increasing updates accepts every one of
      them and ends in the last. */
  lemma InOrderReplay(updates: seq<Update>)
    requires |updates| > 0
    requires forall p, q :: 0 <= p < q < |updates| ==> updates[p].seqNo < updates[q].seqNo
    requires forall k :: 0 <= k < |updates| ==> 0 < updates[k].seqNo
    ensures StaleCount(Seqs(Snapshots(updates))) == 0
    ensures ApplySeq(Empty, Snapshots(updates)) == ToSnapshot(updates[|updates| - 1])
  {
    InOrderNoStale(Seqs(Snapshots(updates)));
    ApplySeqFirstMaximal(Empty, Snapshots(updates), |updates| - 1);
  }

  /** The state a whole replay ends in: its sequence is the maximum of 0 and
      every update's; it is the zero state when that maximum is 0, and
      otherwise the first update that carries the maximum. */
  lemma ReplayOutcome(updates: seq<Update>)
    ensures ApplySeq(Empty, Snapshots(updates)).seqNo == MaxOf(0, Seqs(Snapshots(updates)))
    ensures ApplySeq(Empty, Snapshots(updates)).seqNo == 0 ==> ApplySeq(Empty, Snapshots(updates)) == Empty
    ensures forall k ::
      (0 <= k < |updates| && updates[k].seqNo == ApplySeq(Empty, Snapshots(updates)).seqNo != 0 &&
       forall j :: 0 <= j < k ==> updates[j].seqNo < updates[k].seqNo)
      ==> ApplySeq(Empty, Snapshots(updates)) == ToSnapshot(updates[k])
  {
    var ss := Snapshots(updates);
    var r := ApplySeq(Empty, ss);
    ApplySeqSequence(Empty, ss);
    MaxOfIsMaximum(0, Seqs(ss));
    if r.seqNo == 0 {
      ApplySeqNoneNewer(Empty, ss);
    }
    forall k | 0 <= k < |updates| && updates[k].seqNo == r.seqNo != 0 &&
      (forall j :: 0 <= j < k ==> updates[j].seqNo < updates[k].seqNo)
      ensures r == ToSnapshot(updates[k])
    {
      ApplySeqFirstMaximal(Empty, ss, k);
    }
  }

  /** The replay loop of `main` followed by the final `snapshot()`. */
  method ReplayUpdates(updates: seq<Update>) returns (stale: nat, snap: L1Snapshot)
    ensures stale == StaleCount(Seqs(Snapshots(updates)))
    ensures stale <= |updates|
    ensures snap == ApplySeq(Empty, Snapshots(updates))
    ensures snap.seqNo == MaxOf(0, Seqs(Snapshots(updates)))
    ensures snap.seqNo == 0 ==> snap == Empty
    ensures forall k ::
      (0 <= k < |updates| && updates[k].seqNo == snap.seqNo != 0 &&
       forall j :: 0 <= j < k ==> updates[j].seqNo < updates[k].seqNo)
      ==> snap == ToSnapshot(updates[k])
  {
    var book := new LocalL1Orderbook();
    stale := 0;
    ghost var ss := Snapshots(updates);
    for i := 0 to |updates|
      invariant book.State() == ApplySeq(Empty, ss[..i])
      invariant stale == StaleCount(Seqs(ss[..i]))
    {
      ReplayStep(ss, i);
      var before := book.Sequence();
      book.Apply(ToSnapshot(updates[i]));
      var after := book.Sequence();
      if after == before {
        stale := stale + 1;
      }
    }
    snap := book.Snapshot();
    assert ss[..|updates|] == ss;
    ReplayOutcome(updates);
  }
}
