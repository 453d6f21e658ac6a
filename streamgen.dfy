/** The test-stream generator and its out-of-order scan
    (data_gen/local_L1_data.py), with the random draws supplied by the caller. */
module StreamGen {
  import opened RunningMax

  /** The generator's `Update` record. Prices and sizes are only carried along. */
  datatype Update = Update(seqNo: int, bidPx: real, bidSz: real, askPx: real, askSz: real)

  /** The four quote values the generator draws for one update (a random walk
      and random sizes in the source; given here). */
  datatype Quote = Quote(bidPx: real, bidSz: real, askPx: real, askSz: real)

  /** The random outcomes consumed at one position of the reorder pass:
      whether `random() < reorder_rate` held, and how many `random() < gap_decay`
      draws in a row succeed before the first one that fails. */
  datatype Draw = Draw(reorder: bool, successes: nat)

  function Min(a: int, b: int): (m: int) { if a < b then a else b }

  /** The largest gap the inner loop can produce: `max(1, max_gap)`. */
  function GapBound(maxGap: int): (g: int)
    ensures 1 <= g && maxGap <= g
  {
    if maxGap < 1 then 1 else maxGap
  }

  /** The sequence numbers of a stream. */
  function SeqNumbers(us: seq<Update>): (xs: seq<int>)
    ensures |xs| == |us|
    ensures forall k :: 0 <= k < |us| ==> xs[k] == us[k].seqNo
  {
    seq(|us|, k requires 0 <= k < |us| => us[k].seqNo)
  }

  /** Position `k` is out of order when its sequence number is strictly below
      the maximum of -1 and every earlier one. */
  predicate LateAt(xs: seq<int>, k: nat)
    requires k < |xs|
  {
    xs[k] < MaxOf(-1, xs[..k])
  }

  /** The number of out-of-order positions. */
  function OutOfOrderCount(xs: seq<int>): (c: nat)
    ensures c <= |xs|
    decreases |xs|
  {
    if xs == [] then 0
    else OutOfOrderCount(xs[..|xs| - 1]) + (if LateAt(xs, |xs| - 1) then 1 else 0)
  }

  /** How far position `k` lags the maximum of the entries before it. */
  function LagAt(xs: seq<int>, k: nat): (lag: int)
    requires k < |xs|
  {
    MaxOf(-1, xs[..k]) - xs[k]
  }

  /** For each out-of-order position, in stream order, how far it lags the
      running maximum. */
  function Lags(xs: seq<int>): (lags: seq<int>)
    decreases |xs|
  {
    if xs == [] then []
    else Lags(xs[..|xs| - 1]) + (if LateAt(xs, |xs| - 1) then [LagAt(xs, |xs| - 1)] else [])
  }

  /** Whether one more entry is out of order depends only on the maximum so far. */
  lemma LateSnoc(xs: seq<int>, x: int)
    ensures LateAt(xs + [x], |xs|) == (x < MaxOf(-1, xs))
    ensures LagAt(xs + [x], |xs|) == MaxOf(-1, xs) - x
  {
    assert (xs + [x])[..|xs|] == xs;
  }

  /** How one more entry extends the count. */
  lemma CountSnoc(xs: seq<int>, x: int)
    ensures OutOfOrderCount(xs + [x]) == OutOfOrderCount(xs) + (if x < MaxOf(-1, xs) then 1 else 0)
  {
    var ys := xs + [x];
    assert ys[..|ys| - 1] == xs;
    LateSnoc(xs, x);
  }

  /** How one more entry extends the lags. */
  lemma LagsSnoc(xs: seq<int>, x: int)
    ensures Lags(xs + [x]) == Lags(xs) + (if x < MaxOf(-1, xs) then [MaxOf(-1, xs) - x] else [])
  {
    var ys := xs + [x];
    assert ys[..|ys| - 1] == xs;
    LateSnoc(xs, x);
    assert Lags(ys) == Lags(xs) + (if LateAt(ys, |xs|) then [LagAt(ys, |xs|)] else []);
  }

  /** Every recorded lag is at least 1. */
  lemma {:induction false} LagsPositive(xs: seq<int>)
    ensures forall k :: 0 <= k < |Lags(xs)| ==> Lags(xs)[k] >= 1
    decreases |xs|
  {
    if xs != [] {
      LagsPositive(xs[..|xs| - 1]);
    }
  }

  /** One lag is recorded per out-of-order position. */
  lemma {:induction false} LagsMatchCount(xs: seq<int>)
    ensures |Lags(xs)| == OutOfOrderCount(xs)
    decreases |xs|
  {
    if xs != [] {
      LagsMatchCount(xs[..|xs| - 1]);
    }
  }

  /** An entry equal to the running maximum is not out of order and does not
      lower the maximum. */
  lemma TieIsInOrder(xs: seq<int>, x: int)
    requires x == MaxOf(-1, xs)
    ensures !LateAt(xs + [x], |xs|)
    ensures MaxOf(-1, xs + [x]) == MaxOf(-1, xs)
    ensures OutOfOrderCount(xs + [x]) == OutOfOrderCount(xs)
    ensures Lags(xs + [x]) == Lags(xs)
  {
    assert (xs + [x])[..|xs|] == xs;
    MaxOfSnoc(-1, xs, x);
  }

  /** A non-decreasing stream of sequence numbers not below -1, the empty
      one included, has nothing out of order and records no lag. */
  lemma {:induction false} NonDecreasingInOrder(xs: seq<int>)
    requires forall i, j :: 0 <= i <= j < |xs| ==> xs[i] <= xs[j]
    requires forall k :: 0 <= k < |xs| ==> -1 <= xs[k]
    ensures OutOfOrderCount(xs) == 0
    ensures Lags(xs) == []
    decreases |xs|
  {
    if xs != [] {
      var init := xs[..|xs| - 1];
      NonDecreasingInOrder(init);
      var m := MaxOf(-1, init);
      MaxOfIsMaximum(-1, init);
      if m != -1 {
        var j :| 0 <= j < |init| && init[j] == m;
        assert xs[j] <= xs[|xs| - 1];
      }
    }
  }

  /** `count_out_of_order`: one scan that keeps the highest sequence number
      seen so far. The source returns the count with the mean of the lags;
      here the lags themselves are returned. */
  method CountOutOfOrder(updates: seq<Update>) returns (outOfOrder: nat, lags: seq<int>)
    ensures outOfOrder == OutOfOrderCount(SeqNumbers(updates))
    ensures lags == Lags(SeqNumbers(updates))
    ensures outOfOrder == |lags| <= |updates|
    ensures forall k :: 0 <= k < |lags| ==> lags[k] >= 1
  {
    outOfOrder := 0;
    lags := [];
    var highest := -1;
    ghost var xs := SeqNumbers(updates);
    for i := 0 to |updates|
      invariant highest == MaxOf(-1, xs[..i])
      invariant outOfOrder == OutOfOrderCount(xs[..i])
      invariant lags == Lags(xs[..i])
    {
      var u := updates[i];
      assert xs[..i + 1] == xs[..i] + [u.seqNo];
      CountSnoc(xs[..i], u.seqNo);
      LagsSnoc(xs[..i], u.seqNo);
      MaxOfSnoc(-1, xs[..i], u.seqNo);
      if u.seqNo < highest {
        outOfOrder := outOfOrder + 1;
        lags := lags + [highest - u.seqNo];
      } else {
        highest := u.seqNo;
      }
    }
    assert xs[..|updates|] == xs;
    LagsMatchCount(xs);
    LagsPositive(xs);
  }

  /** The first loop of `generate_updates`: update `k` carries sequence
      number `k` and the quote drawn for it. */
  method BuildUpdates(quotes: seq<Quote>) returns (updates: seq<Update>)
    ensures |updates| == |quotes|
    ensures forall k :: 0 <= k < |quotes| ==>
      updates[k] == Update(k, quotes[k].bidPx, quotes[k].bidSz, quotes[k].askPx, quotes[k].askSz)
  {
    updates := [];
    for k := 0 to |quotes|
      invariant |updates| == k
      invariant forall m :: 0 <= m < k ==>
        updates[m] == Update(m, quotes[m].bidPx, quotes[m].bidSz, quotes[m].askPx, quotes[m].askSz)
    {
      var q := quotes[k];
      updates := updates + [Update(k, q.bidPx, q.bidSz, q.askPx, q.askSz)];
    }
  }

  /** The inner loop that grows a gap: it starts at 1 and grows while it is
      below `max_gap` and the next `gap_decay` draw succeeds. */
  method DrawGap(maxGap: int, successes: nat) returns (gap: int)
    ensures 1 <= gap <= GapBound(maxGap)
    ensures gap == Min(successes + 1, GapBound(maxGap))
  {
    gap := 1;
    while gap < maxGap && gap <= successes
      invariant 1 <= gap <= GapBound(maxGap)
      invariant gap <= successes + 1
      decreases maxGap - gap
    {
      gap := gap + 1;
    }
  }

  /** Exchange two entries of the list in place. */
  method Swap(a: array<Update>, i: int, j: int)
    requires 0 <= i <= j < a.Length
    modifies a
    ensures a[..] == old(a[..])[i := old(a[j])][j := old(a[i])]
  {
    var t := a[i];
    a[i] := a[j];
    a[j] := t;
  }

  /** What the reorder pass keeps true of the list `s` it rearranges from
      `orig`: each entry is the original one its sequence number names,
      sequence numbers stay distinct, and each entry is within `bound`
      positions of its origin. */
  ghost predicate Arranged(s: seq<Update>, orig: seq<Update>, bound: int)
  {
    |s| == |orig| &&
    (forall k :: 0 <= k < |s| ==> 0 <= s[k].seqNo < |s| && s[k] == orig[s[k].seqNo]) &&
    (forall p, q :: 0 <= p < q < |s| ==> s[p].seqNo != s[q].seqNo) &&
    (forall k :: 0 <= k < |s| ==> -bound <= s[k].seqNo - k <= bound)
  }

  /** The state of the reorder pass at index `i`: a rearrangement of the
      original entries, arranged so far, and every entry from `i` on still
      the original one. */
  ghost predicate ReorderState(s: seq<Update>, orig: seq<Update>, bound: int, i: int)
  {
    multiset(s) == multiset(orig) && Arranged(s, orig, bound) && Untouched(s, orig, i)
  }

  /** Every entry from index `i` on is still the original one. */
  ghost predicate Untouched(s: seq<Update>, orig: seq<Update>, i: int)
  {
    forall k {:trigger s[k]} :: 0 <= k < |s| && i <= k ==> k < |orig| && s[k] == orig[k]
  }

  /** The reorder pass starts in its state at index 0. */
  lemma StartState(orig: seq<Update>, bound: int)
    requires forall k :: 0 <= k < |orig| ==> orig[k].seqNo == k
    requires 1 <= bound
    ensures ReorderState(orig, orig, bound, 0)
  {
  }

  /** What the reorder pass's state says about the array it describes. */
  lemma FinalState(a: array<Update>, orig: seq<Update>, bound: int, i: int)
    requires ReorderState(a[..], orig, bound, i)
    ensures multiset(a[..]) == multiset(orig)
    ensures forall k :: 0 <= k < a.Length ==> 0 <= a[k].seqNo < a.Length && a[k] == orig[a[k].seqNo]
    ensures forall p, q :: 0 <= p < q < a.Length ==> a[p].seqNo != a[q].seqNo
    ensures forall k :: 0 <= k < a.Length ==> -bound <= a[k].seqNo - k <= bound
  {
    var s := a[..];
    assert forall k :: 0 <= k < a.Length ==> a[k] == s[k];
  }

  /** The state at index `i` holds at every later index too. */
  lemma SkipAhead(s: seq<Update>, orig: seq<Update>, bound: int, i: int, i2: int)
    requires ReorderState(s, orig, bound, i)
    requires i <= i2
    ensures ReorderState(s, orig, bound, i2)
  {
  }

  /** A swap does not change which entries the list holds. */
  lemma SwapKeepsEntries(s: seq<Update>, i: int, j: int)
    requires 0 <= i <= j < |s|
    ensures multiset(s[i := s[j]][j := s[i]]) == multiset(s)
  {
    var t := s[i := s[j]];
    assert multiset(t) == multiset(s) - multiset{s[i]} + multiset{s[j]};
    assert multiset(t[j := s[i]]) == multiset(t) - multiset{t[j]} + multiset{s[i]};
  }

  /** Swapping two entries that are still at their origins, at most
      `bound` apart, keeps a list arranged. */
  lemma SwapKeepsArranged(s: seq<Update>, orig: seq<Update>, bound: int, i: int, j: int)
    requires Arranged(s, orig, bound)
    requires 0 <= i <= j < |s| && j - i <= bound
    requires s[i].seqNo == i && s[j].seqNo == j
    ensures Arranged(s[i := s[j]][j := s[i]], orig, bound)
  {
    var t := s[i := s[j]][j := s[i]];
    forall p, q | 0 <= p < q < |t| ensures t[p].seqNo != t[q].seqNo {
      var p0 := if p == i then j else if p == j then i else p;
      var q0 := if q == i then j else if q == j then i else q;
      assert t[p] == s[p0] && t[q] == s[q0] && p0 != q0;
      if p0 < q0 {
        assert s[p0].seqNo != s[q0].seqNo;
      } else {
        assert s[q0].seqNo != s[p0].seqNo;
      }
    }
  }

  /** One swap of the reorder pass keeps its state, with the index moved to
      `next`, anywhere past the partner `j`. */
  lemma SwapStep(s: seq<Update>, orig: seq<Update>, bound: int, i: int, j: int, next: int)
    requires ReorderState(s, orig, bound, i)
    requires forall k :: 0 <= k < |orig| ==> orig[k].seqNo == k
    requires 0 <= i <= j < |s| && j - i <= bound && j < next
    ensures ReorderState(s[i := s[j]][j := s[i]], orig, bound, next)
  {
    assert s[i] == orig[i] && s[j] == orig[j];
    SwapKeepsArranged(s, orig, bound, i, j);
    SwapKeepsEntries(s, i, j);
  }

  /** The reorder pass of `generate_updates`, in place. Starting from a list
      where entry `k` has sequence number `k`, it swaps entry `i` with entry
      `min(i + gap, n - 1)` and skips past both. The result is a permutation:
      every entry is the original one its sequence number names, sequence
      numbers stay distinct, and none ends more than `max(1, max_gap)`
      positions from where it started. */
  method Reorder(arrival: array<Update>, maxGap: int, draws: seq<Draw>)
    requires |draws| == arrival.Length
    requires forall k :: 0 <= k < arrival.Length ==> arrival[k].seqNo == k
    modifies arrival
    ensures multiset(arrival[..]) == multiset(old(arrival[..]))
    ensures forall k :: 0 <= k < arrival.Length ==>
      0 <= arrival[k].seqNo < arrival.Length && arrival[k] == old(arrival[..])[arrival[k].seqNo]
    ensures forall p, q :: 0 <= p < q < arrival.Length ==> arrival[p].seqNo != arrival[q].seqNo
    ensures forall k :: 0 <= k < arrival.Length ==>
      -GapBound(maxGap) <= arrival[k].seqNo - k <= GapBound(maxGap)
  {
    ghost var orig := arrival[..];
    ghost var bound := GapBound(maxGap);
    ghost var cur := orig;
    var n := arrival.Length;
    var i := 0;
    StartState(orig, bound);
    while i < n
      invariant 0 <= i
      invariant arrival[..] == cur
      invariant ReorderState(cur, orig, bound, i)
      decreases n - i
    {
      if draws[i].reorder {
        var gap := DrawGap(maxGap, draws[i].successes);
        var j := Min(i + gap, n - 1);
        SwapStep(cur, orig, bound, i, j, i + gap + 1);
        Swap(arrival, i, j);
        cur := cur[i := cur[j]][j := cur[i]];
        i := i + gap;
      } else {
        SkipAhead(cur, orig, bound, i, i + 1);
      }
      i := i + 1;
    }
    FinalState(arrival, orig, bound, i);
  }

  /** `generate_updates` from its first update to its return, for `n`
      updates, with the quotes and the reorder draws given. */
  method GenerateUpdates(n: nat, maxGap: int, quotes: seq<Quote>, draws: seq<Draw>)
    returns (arrival: seq<Update>)
    requires |quotes| == n && |draws| == n
    ensures |arrival| == n
    ensures forall k :: 0 <= k < n ==>
      var s := arrival[k].seqNo;
      0 <= s < n &&
      arrival[k] == Update(s, quotes[s].bidPx, quotes[s].bidSz, quotes[s].askPx, quotes[s].askSz)
    ensures forall p, q :: 0 <= p < q < n ==> arrival[p].seqNo != arrival[q].seqNo
    ensures forall k :: 0 <= k < n ==> -GapBound(maxGap) <= arrival[k].seqNo - k <= GapBound(maxGap)
  {
    var updates := BuildUpdates(quotes);
    var a := new Update[n](k requires 0 <= k < n => updates[k]);
    Reorder(a, maxGap, draws);
    arrival := a[..];
  }
}
