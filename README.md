# Top-of-book store for one instrument, with its replay loop and test-stream generator

This project models, in Dafny, the sequential behaviour of `eddie::LocalL1Orderbook`, a
seqlock-style store for the best bid and ask of one instrument, together with the two pieces of
stream logic around it:

- **The store** (`l1book.dfy`, module `L1Book`). It holds one sequence counter and four quote
  fields (bid price, bid size, ask price, ask size). The class `LocalL1Orderbook` has exactly those
  fields. `Apply` accepts an update only when its sequence number is strictly greater than the
  stored one. It then overwrites the four fields and the counter. An equal or smaller sequence number
  is dropped silently, so on a tie the first writer wins. The constructor and `Reset` give the zero
  state. `Snapshot`, `Sequence` and the four field accessors only read. `Apply` is specified by the pure
  function `ApplyTo` on the logical state `L1Snapshot`; the constructor and `Reset` by the zero
  state `Empty`. A series of updates is
  specified by its fold `ApplySeq`, and lemmas prove what both promise.
- **The benchmark replay loop** (`replay.dfy`, module `Replay`). It feeds every recorded update to
  a fresh store and counts those that leave the sequence number unchanged. At the end it takes one
  snapshot.
- **The test-stream generator** (`streamgen.dfy`, module `StreamGen`). Its out-of-order scan is a
  running-maximum count that also records each lag. Its `generate_updates` first builds updates
  whose sequence numbers equal their positions. It then runs an in-place swap pass driven by random
  draws. Here the caller supplies those draws.
- `runningmax.dfy` (module `RunningMax`) holds the running maximum that all three use.
  `feedmismatch.dfy` (module `FeedMismatch`) compares the scan's criterion with the store's. The
  scan counts `seq < max(-1, earlier)`. The store rejects `seq <= max(0, earlier)`. On a stream of
  distinct sequence numbers with a non-negative first entry, the two counts differ only when the
  first sequence number is 0.

In the store and the replay (`L1Book`, `Replay`), sequence numbers are `U64`, the integers
`0 <= x < 2^64`. The store only compares them. The generator (`StreamGen`) is Python, whose
integers are unbounded, so its sequence numbers are `int`; the `FeedMismatch` lemmas range over
`seq<int>` as well. Prices and
sizes are doubles in the source, but the store and the replay only copy them, so they are `real`
here.

## Model

| member | source | states |
|---|---|---|
| `RunningMax.MaxOf` | data_gen/local_L1_data.py:19-25 | the running maximum, folded left to right from a start value, is never below that start value |
| `RunningMax.MaxOfIsMaximum` | data_gen/local_L1_data.py:19-25 | the running maximum bounds every element and equals the start value or one of the elements, so it is the largest of them |
| `L1Book.StaleRejected` | include/local_L1_ob.hpp:33-37 | an update whose sequence number is at most the current one leaves the whole state unchanged; ties are rejected, so the first writer wins |
| `L1Book.NewerAccepted` | include/local_L1_ob.hpp:39-44 | an update with a strictly greater sequence number becomes the new state, field for field |
| `L1Book.ApplyToSequence` | include/local_L1_ob.hpp:31-45 | after one `apply` the sequence is `max(old, update)`; the new state is either the old state or the update |
| `L1Book.ApplySeqSequence` | include/local_L1_ob.hpp:31-45 | after any series of `apply` calls the sequence is the maximum of the start sequence and all update sequences |
| `L1Book.ApplySeqMonotone` | include/local_L1_ob.hpp:31-45 | the stored sequence never decreases along a series of `apply` calls |
| `L1Book.ApplySeqNoneNewer` | include/local_L1_ob.hpp:33-37 | when no update of a series is newer than the start state, the series leaves the state unchanged |
| `L1Book.ApplySeqFirstMaximal` | include/local_L1_ob.hpp:31-45 | an update whose sequence number is above the start, strictly above every earlier update's and at least every later update's is the final state; a later update that only ties with it loses |
| `L1Book.LocalL1Orderbook.constructor` | include/local_L1_ob.hpp:26-29 | a new store has sequence 0 and all four fields 0.0 |
| `L1Book.LocalL1Orderbook.Apply` | include/local_L1_ob.hpp:31-45 | the new state is `ApplyTo(old state, s)`: rejected unless `s.seqNo` is strictly greater, otherwise exactly `s` |
| `L1Book.LocalL1Orderbook.Snapshot` | include/local_L1_ob.hpp:47-65 | with no concurrent writer the retry loop exits on its first pass and returns the current sequence and four fields; nothing is modified |
| `L1Book.LocalL1Orderbook.Reset` | include/local_L1_ob.hpp:67-71 | whatever the prior state, sequence 0 and all fields 0.0 afterwards, so a second reset changes nothing |
| `L1Book.LocalL1Orderbook.Sequence` | include/local_L1_ob.hpp:73-76 | returns the stored sequence number without changing state |
| `L1Book.LocalL1Orderbook.BestBidPrice` | include/local_L1_ob.hpp:78-81 | returns the stored bid price without changing state |
| `L1Book.LocalL1Orderbook.BestBidSize` | include/local_L1_ob.hpp:83-86 | returns the stored bid size without changing state |
| `L1Book.LocalL1Orderbook.BestAskPrice` | include/local_L1_ob.hpp:88-91 | returns the stored ask price without changing state |
| `L1Book.LocalL1Orderbook.BestAskSize` | include/local_L1_ob.hpp:93-96 | returns the stored ask size without changing state |
| `L1Book.ReplayOutOfOrder` | include/local_L1_ob.hpp:33-44 | on a store, updates numbered 1, 3, 2, 4 leave update 2 rejected and the final snapshot equal to update 4 |
| `Replay.ToSnapshot` | bench/local_L1.cpp:60 | the record handed to `apply` carries the update's five fields unchanged |
| `Replay.StaleCount` | bench/local_L1.cpp:57-65 | the number of positions whose sequence is at most the maximum of 0 and all earlier sequences never exceeds the number of updates |
| `Replay.StaleIffUnchanged` | bench/local_L1.cpp:59-64 | an `apply` leaves the sequence unchanged exactly when the update is stale with respect to the updates before it |
| `Replay.ReplayStep` | bench/local_L1.cpp:57-65 | one more iteration applies one more update and adds one to the stale count exactly when that update is rejected |
| `Replay.ReplayOutcome` | bench/local_L1.cpp:57-71 | after a whole replay the sequence is the maximum of 0 and all update sequences; the state is the zero state when that maximum is 0, and otherwise the first update carrying the maximum |
| `Replay.InOrderNoStale` | bench/local_L1.cpp:57-65 | no lost acceptance: on positive, strictly increasing sequence numbers the stale count is 0 |
| `Replay.InOrderReplay` | bench/local_L1.cpp:57-71 | a replay of positive, strictly increasing updates rejects none of them and its final snapshot is the last update |
| `Replay.ReplayUpdates` | bench/local_L1.cpp:52-71 | `stale` is the stale count and at most the number of updates; the final snapshot is the fold of all updates, its sequence is the maximum of 0 and all update sequences, and it is the zero state or the first update carrying that maximum |
| `StreamGen.OutOfOrderCount` | data_gen/local_L1_data.py:20-22 | the number of positions strictly below the maximum of -1 and all earlier sequence numbers is at most the stream's length |
| `StreamGen.LagsPositive` | data_gen/local_L1_data.py:21-23 | every recorded lag is at least 1 |
| `StreamGen.LagsMatchCount` | data_gen/local_L1_data.py:21-23 | one lag is recorded for each out-of-order position |
| `StreamGen.TieIsInOrder` | data_gen/local_L1_data.py:21-25 | an entry equal to the running maximum is neither counted nor lowers the maximum, and it records no lag |
| `StreamGen.NonDecreasingInOrder` | data_gen/local_L1_data.py:16-25 | a non-decreasing stream whose entries are not below -1, the empty one included, has count 0 and no lags |
| `StreamGen.CountOutOfOrder` | data_gen/local_L1_data.py:16-27 | the scan returns the out-of-order count and the lags; the count equals the number of lags and is at most the stream length, and every lag is at least 1 |
| `StreamGen.BuildUpdates` | data_gen/local_L1_data.py:50-58 | before reordering the list has one entry per quote, and entry `k` has sequence number `k` and the `k`-th quote |
| `StreamGen.DrawGap` | data_gen/local_L1_data.py:64-66 | the gap is `min(1 + successful draws, max(1, max_gap))`, so `1 <= gap <= max(1, max_gap)` |
| `StreamGen.Swap` | data_gen/local_L1_data.py:68 | the new list is the old one with the entries at `i` and `j` exchanged and nothing else changed |
| `StreamGen.SwapKeepsEntries` | data_gen/local_L1_data.py:68 | a swap leaves the multiset of entries unchanged |
| `StreamGen.SwapKeepsArranged` | data_gen/local_L1_data.py:64-68 | swapping two entries still at their origins and at most the gap bound apart keeps every entry traceable to its origin, within the bound, with distinct sequence numbers |
| `StreamGen.SwapStep` | data_gen/local_L1_data.py:62-70 | one swap iteration keeps the pass's state, with the index moved past the partner `j`; so no position takes part in two swaps |
| `StreamGen.SkipAhead` | data_gen/local_L1_data.py:69-70 | moving the index forward keeps the pass's state |
| `StreamGen.StartState` | data_gen/local_L1_data.py:60-61 | the freshly built list is in the pass's state at index 0 |
| `StreamGen.FinalState` | data_gen/local_L1_data.py:60-71 | the pass's state gives a permutation in which each entry is the original its sequence number names, with distinct sequence numbers, each within the gap bound of its position |
| `StreamGen.Reorder` | data_gen/local_L1_data.py:60-71 | the reorder pass is a permutation in place: the multiset is unchanged, each entry is the original one its sequence number names, sequence numbers stay distinct, and `abs(arrival[k].seq - k) <= max(1, max_gap)`; the loop terminates because the index strictly increases |
| `StreamGen.GenerateUpdates` | data_gen/local_L1_data.py:39-71 | `n` updates whose sequence numbers are a permutation of `0..n-1`; each carries the quote drawn for its sequence number and lies within `max(1, max_gap)` of its position |
| `FeedMismatch.LateImpliesStale` | data_gen/local_L1_data.py:19-21 | every position the scan counts as out of order is stale for the store, and so the scan's count is at most the replay's stale count |
| `FeedMismatch.OnlyLeadingZeroDiffers` | data_gen/local_L1_data.py:19-21 | on distinct sequence numbers with a non-negative first entry, the stale count is the out-of-order count plus 1 if the first sequence number is 0, and plus 0 otherwise |

## Left out

- Concurrency: the acquire and release orderings on the counter, the guarantee that concurrent readers never see torn reads, and a reader's liveness under a racing writer (include/local_L1_ob.hpp:44, 52, 59). The model is single-threaded, so `Snapshot`'s retry loop always exits on its first pass.
- Layout: `alignas(64)`, the `static_assert` on the snapshot size and the field layout (include/local_L1_ob.hpp:12, 21, 99). They affect performance only.
- Doubles: prices and sizes are `real`; they are only copied, never computed on. The generator's integer sizes from `randint` are `real` as well.
- `load_csv` (bench/local_L1.cpp:22-43): filesystem I/O through a CSV library that is not part of this model. `ReplayUpdates` takes the loaded updates as a parameter.
- Benchmark timing, throughput and printing (bench/local_L1.cpp:55, 67-69, 73-84): clock reads, floating point and output.
- `write_csv`, `argparse` and the `__main__` driver (data_gen/local_L1_data.py:30-36, 74-121): file and command-line I/O.
- The random-walk prices and their rounding (data_gen/local_L1_data.py:51-57): floating point and randomness. `BuildUpdates` takes the four quote values per update as input.
- StreamGen.CountOutOfOrder: returns the list of lags instead of their mean `mean(lags)` (data_gen/local_L1_data.py:26), because the mean is floating point. The count of lags is stated.
- The `random` library and the seed (data_gen/local_L1_data.py:47-48, 63, 65). Each position the reorder loop visits takes one caller-supplied `Draw`. `reorder` says whether `random() < reorder_rate` held. `successes` says how many `random() < gap_decay` draws succeed in a row. So `reorder_rate` and `gap_decay` appear only through the draws, and `GenerateUpdates` requires one draw per position.
- The alias `arrival = updates` (data_gen/local_L1_data.py:60): the model copies the built list into an array and reorders that array in place. Nothing else observes the original list.
- A negative `n` for `generate_updates` behaves as 0 in the source; the model takes `n` as a natural number.
