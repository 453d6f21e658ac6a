/** The single-instrument top-of-book store `eddie::LocalL1Orderbook`
    (include/local_L1_ob.hpp), without its memory-ordering concerns. */
module L1Book {
  import opened RunningMax

  /** `std::uint64_t`: the store only compares sequence numbers, never adds to them. */
  type U64 = x: int | 0 <= x < 0x1_0000_0000_0000_0000

  /** `L1Snapshot`: one consistent top-of-book view. Prices and sizes are
      doubles in the source; the store only copies them, so reals stand in. */
  datatype L1Snapshot = L1Snapshot(seqNo: U64, bidPx: real, bidSz: real, askPx: real, askSz: real)

  /** The state after construction or `reset()`. */
  const Empty: L1Snapshot := L1Snapshot(0, 0.0, 0.0, 0.0, 0.0)

  /** The effect of `apply(s)` on the store's logical state `cur`: only a
      strictly newer sequence number replaces it. */
  function ApplyTo(cur: L1Snapshot, s: L1Snapshot): (r: L1Snapshot)
  {
    if s.seqNo <= cur.seqNo then cur else s
  }

  /** The sequence numbers of a list of snapshots. */
  function Seqs(ss: seq<L1Snapshot>): (xs: seq<int>)
    ensures |xs| == |ss|
    ensures forall k :: 0 <= k < |ss| ==> xs[k] == ss[k].seqNo
  {
    seq(|ss|, k requires 0 <= k < |ss| => ss[k].seqNo)
  }

  /** The state after applying `ss` in order, starting from `st`. */
  function ApplySeq(st: L1Snapshot, ss: seq<L1Snapshot>): (r: L1Snapshot)
    decreases |ss|
  {
    if ss == [] then st else ApplyTo(ApplySeq(st, ss[..|ss| - 1]), ss[|ss| - 1])
  }

  /** An update whose sequence number is not above the current one changes
      nothing; in particular an equal sequence number loses to the first writer. */
  lemma StaleRejected(cur: L1Snapshot, s: L1Snapshot)
    requires s.seqNo <= cur.seqNo
    ensures ApplyTo(cur, s) == cur
  {
  }

  /** A strictly newer update becomes the whole new state, field for field. */
  lemma NewerAccepted(cur: L1Snapshot, s: L1Snapshot)
    requires cur.seqNo < s.seqNo
    ensures ApplyTo(cur, s) == s
    ensures ApplyTo(cur, s).seqNo == s.seqNo && ApplyTo(cur, s).bidPx == s.bidPx
    ensures ApplyTo(cur, s).bidSz == s.bidSz && ApplyTo(cur, s).askPx == s.askPx
    ensures ApplyTo(cur, s).askSz == s.askSz
  {
  }

  /** After one `apply` the sequence is the larger of the old one and the update's. */
  lemma ApplyToSequence(cur: L1Snapshot, s: L1Snapshot)
    ensures ApplyTo(cur, s).seqNo == Max(cur.seqNo, s.seqNo)
    ensures ApplyTo(cur, s) == cur || ApplyTo(cur, s) == s
  {
  }

  /** After a series of `apply` calls the sequence is the maximum of the
      starting sequence and every update's. */
  lemma {:induction false} ApplySeqSequence(st: L1Snapshot, ss: seq<L1Snapshot>)
    ensures ApplySeq(st, ss).seqNo == MaxOf(st.seqNo, Seqs(ss))
    decreases |ss|
  {
    if ss != [] {
      var init := ss[..|ss| - 1];
      ApplySeqSequence(st, init);
      assert Seqs(ss)[..|ss| - 1] == Seqs(init);
    }
  }

  /** The stored sequence never decreases: every prefix of a series of
      `apply` calls ends at a sequence no larger than the whole series. */
  lemma {:induction false} ApplySeqMonotone(st: L1Snapshot, ss: seq<L1Snapshot>, k: nat)
    requires k <= |ss|
    ensures st.seqNo <= ApplySeq(st, ss[..k]).seqNo <= ApplySeq(st, ss).seqNo
    decreases |ss|
  {
    if k == |ss| {
      assert ss[..k] == ss;
      if ss != [] {
        ApplySeqMonotone(st, ss[..|ss| - 1], 0);
      }
    } else {
      var init := ss[..|ss| - 1];
      assert init[..k] == ss[..k];
      ApplySeqMonotone(st, init, k);
    }
  }

  /** When no update is newer than the starting state, the state stays put. */
  lemma {:induction false} ApplySeqNoneNewer(st: L1Snapshot, ss: seq<L1Snapshot>)
    requires forall j :: 0 <= j < |ss| ==> ss[j].seqNo <= st.seqNo
    ensures ApplySeq(st, ss) == st
    decreases |ss|
  {
    if ss != [] {
      ApplySeqNoneNewer(st, ss[..|ss| - 1]);
    }
  }

  /** The final state is the FIRST update carrying the overall maximal
      sequence number, when that number is above the starting one: the
      updates before it are strictly smaller, and later updates that merely
      tie with it lose. */
  lemma {:induction false} ApplySeqFirstMaximal(st: L1Snapshot, ss: seq<L1Snapshot>, k: nat)
    requires k < |ss| && st.seqNo < ss[k].seqNo
    requires forall j :: 0 <= j < k ==> ss[j].seqNo < ss[k].seqNo
    requires forall j :: k < j < |ss| ==> ss[j].seqNo <= ss[k].seqNo
    ensures ApplySeq(st, ss) == ss[k]
    decreases |ss|
  {
    var n := |ss| - 1;
    var init := ss[..n];
    if k == n {
      ApplySeqSequence(st, init);
      MaxOfIsMaximum(st.seqNo, Seqs(init));
    } else {
      ApplySeqFirstMaximal(st, init, k);
    }
  }

  /** `LocalL1Orderbook`: one sequence counter and four quote fields,
      overwritten together by an accepted update. */
  class LocalL1Orderbook {
    var seqNo: U64
    var bidPx: real
    var bidSz: real
    var askPx: real
    var askSz: real

    /** The logical state: the counter and the four fields as one snapshot. */
    function State(): (s: L1Snapshot)
      reads this
    {
      L1Snapshot(seqNo, bidPx, bidSz, askPx, askSz)
    }

    /** A new store is in the zero state (the source's constructor calls `reset()`). */
    constructor ()
      ensures State() == Empty
    {
      new;
      Reset();
    }

    /** Accept `s` only if its sequence number is strictly greater than the
        current one; the four fields are written first, the counter last. */
    method Apply(s: L1Snapshot)
      modifies this
      ensures State() == ApplyTo(old(State()), s)
    {
      var cur := seqNo;
      if s.seqNo <= cur {
        return;
      }
      bidPx := s.bidPx;
      bidSz := s.bidSz;
      askPx := s.askPx;
      askSz := s.askSz;
      seqNo := s.seqNo;
    }

    /** The seqlock read: copy the fields between two reads of the counter
        and retry until both reads agree. With no concurrent writer the first
        pass already agrees, so the result is exactly the current state. */
    method Snapshot() returns (s: L1Snapshot)
      ensures s == State()
    {
      s := Empty;
      var retry := true;
      while retry
        invariant !retry ==> s == State()
        decreases retry
      {
        var before := seqNo;
        var bp, bs, ap, az := bidPx, bidSz, askPx, askSz;
        var after := seqNo;
        s := L1Snapshot(after, bp, bs, ap, az);
        if before == after {
          retry := false;
        }
      }
    }

    /** Back to the zero state, whatever the state was before; hence calling
        it twice leaves the same state as calling it once. */
    method Reset()
      modifies this
      ensures State() == Empty
    {
      seqNo := 0;
      bidPx, bidSz, askPx, askSz := 0.0, 0.0, 0.0, 0.0;
    }

    /** The current sequence number. */
    method Sequence() returns (r: U64)
      ensures r == State().seqNo
    {
      r := seqNo;
    }

    /** The current best bid price, read without any consistency check. */
    method BestBidPrice() returns (r: real)
      ensures r == State().bidPx
    {
      r := bidPx;
    }

    /** The current best bid size. */
    method BestBidSize() returns (r: real)
      ensures r == State().bidSz
    {
      r := bidSz;
    }

    /** The current best ask price. */
    method BestAskPrice() returns (r: real)
      ensures r == State().askPx
    {
      r := askPx;
    }

    /** The current best ask size. */
    method BestAskSize() returns (r: real)
      ensures r == State().askSz
    {
      r := askSz;
    }
  }

  /** A client of the store: updates with sequence numbers 1, 3, 2, 4
      arrive in that order. The update numbered 2 is rejected (3 is already
      stored) and the store ends holding update 4, field for field. */
  method ReplayOutOfOrder(u1: L1Snapshot, u3: L1Snapshot, u2: L1Snapshot, u4: L1Snapshot)
    returns (final: L1Snapshot, twoRejected: bool)
    requires u1.seqNo == 1 && u3.seqNo == 3 && u2.seqNo == 2 && u4.seqNo == 4
    ensures twoRejected
    ensures final == u4
  {
    var book := new LocalL1Orderbook();
    book.Apply(u1);
    book.Apply(u3);
    var before := book.Snapshot();
    book.Apply(u2);
    var after := book.Snapshot();
    twoRejected := before == after && after == u3;
    book.Apply(u4);
    final := book.Snapshot();
  }
}
