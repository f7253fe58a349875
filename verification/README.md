# lob: the matching engine, its books and its plumbing, verified

This project models the single-threaded matching core of the limit order book and the pieces
around it, and proves what they promise:

- **the engine** (`EngineSpec`, `Matching`, `PriceTime`): a state machine over New, Cancel and
  Modify with five order types and three self-trade modes, stated on two flat lists of orders,
  best price first and oldest first within a price;
- **the engine that runs** (`MatchingEngine`, `OrderStore`): a class that updates a book, an id
  index, an order pool, an event buffer and counters in place. Every operation is proved to move
  the abstract state exactly as the state machine says;
- **the three books** (`OrderBookSide` over `Bits` and `Occupancy`, `SortedSide`, `MapSide`, behind
  `Book`) on intrusive price levels (`PriceLevel`) in a fixed pool (`ObjectPool`). Each is proved
  to implement the same map from price to queue (`Queues`, `SideBase`), hence the same flat list;
- **the id index** (`FlatPtrMap`): open addressing with backward-shift deletion, a finite map for
  any hash function;
- **single commands in raw fields** (`Answers`): when a New is taken, what a cancel, an amendment and
  the halt flag do, without the state machine's own terms;
- **whole runs** (`Conservation`, `Counters`, `History`, `Ledger`, `Policies`, `Feed`, `MarketDepth`,
  `Replay`): what every reachable state keeps and what a listener can conclude from the event stream;
- **the ring** (`SpscRing`): the two-thread queue as a state machine over single memory accesses,
  with stale index loads and items that are written and read in halves;
- **the latency histogram** (`Buckets`, `LatencyHistogram` over `Powers`), **the wire codec**
  (`Wire`, `WireCodec`) and **the gateway's framing loop** (`Gateway`).

`dafny verify dfyconfig.toml` checks everything.

## How the model reads

- Order pointers are indices into the pool's storage; the null pointer is -1. `prev`, `next`, the
  level's `head` and `tail`, the index's values and the free list hold these indices.
- Quantities and counters are naturals: the 64-bit totals do not wrap. Prices are integers;
  `NO_PRICE` is `INT64_MIN`. Timestamps are dropped.
- The source keeps both sides in one book object as two-element arrays; here each side is an object
  of its own. The template parameter `Book` is a datatype of three implementations.
- Index and ring capacities are powers of two; the index masks its hash bitwise, and masked steps are
  proved equal to the wrapped ones used in the models. The bitset book works
  on real 64-bit vectors; the histogram's `|`, `&` and leading-zero count are bitwise functions on
  naturals whose arithmetic meaning is proved.
- `withdrawn` in the engine state counts quantity that left without trading, and `peak` in the pool is the
  most cells ever in use at once; both are specification only.

The engine demands of its callers (`ValidCommand`) that a New names a non-zero id (key 0 marks an
empty slot, include/lob/flat_hash_map.hpp:15) and that a Limit or PostOnly New carries a price (a
missing one skips the band check, yet the remainder would rest; src/matching_engine.cpp:196-207).
The histogram demands `highest` at most 2^63: the source's sizing loop shifts a 64-bit bound, and it
ends if and only if `highest` is at most that (`LatencyHistogram.SizingEndsExactlyWhen`;
include/lob/latency_histogram.hpp:32-36).

## What turned out false, and exactly when it holds

- "Fill in full immediately or reject" (include/lob/types.hpp:43) fails under self-trade prevention:
  the pre-check counts the client's own orders. `Policies.FokCanMissUnderStp` is a two-command run,
  `Policies.FokFillsExactlyWhen` the exact condition.
- A re-queueing amendment removes its order without an event; if the replayed New is refused the
  order is silently gone. `Ledger.RefusedRequeueLosesOrder` is a two-command run;
  `Ledger.ProcessAgrees` says a right ledger goes wrong for an id exactly when this happens to it, and
  `Ledger.LedgerIsRightExactlyWhen` that over a run the ledger is right throughout if and only if it
  never happens.
- "Sized once up front so the order-index lookups [...] never rehash" (include/lob/flat_hash_map.hpp:13-15)
  fails at some sizes: construction allows a load of exactly 3/4, insertion grows before reaching it.
  For n fresh keys a rehash happens if and only if n is 3 x 2^k with k >= 2 (12, 24, 48, ...);
  overwriting a key of a full complement can also rehash if n + 1 is such a number
  (`FlatPtrMap.PresizedNeverGrowsExactlyWhen`; `FlatPtrMap.TwelveKeysRehash` and
  `FlatPtrMap.ElevenKeysRehash` are the smallest cases). The engine only ever inserts fresh ids, so
  its index has doubled if and only if the pool size is awkward in this sense and all cells of the
  pool have once been in use at the same time (`MatchingEngine.Engine.IndexRehashesExactlyWhen`;
  `OrderStore.FillToCapacity` fills a store of any size); at the default of 1,000,000 orders it never does.
- The histogram's constructor accepts any highest value, but above 2^63 its sizing loop runs forever:
  the shifted bound wraps to zero before reaching it (`LatencyHistogram.SizingEndsExactlyWhen`, and
  `LatencyHistogram.SizingNeverEnds` for 2^63 + 1).
- A size-down recomputes the original size after cutting the open size, so `quantity` does not
  change (src/matching_engine.cpp:330-331); `Policies.SizeDownKeepsPlace` states it.
- "Latency is never under-reported" (docs/adr/0007-latency-measurement.md) holds for a percentile if
  and only if the sample of that rank is below the untrackable bound
  (`LatencyHistogram.Histogram.Percentile`); in the default configuration a sample of 2^36 ns is
  under-reported (`LatencyHistogram.OverAMinuteIsUnderReported`).
- TCP reassembly as "a length check" (docs/adr/0008-binary-wire-protocol.md) can stall: a connection
  yields nothing more, whatever arrives, if and only if its buffer's length field has arrived and is
  below 8 (`Gateway.StallsExactlyWhen`, `Gateway.SevenByteFrameStalls`).

## Model

| member | source | states |
|---|---|---|
| Matching.GreedyFilling | src/matching_engine.cpp:95-192 | with self-trade mode None the nested loops are greedy price-time filling in closed form: total min(size, reachable), a prefix filled whole and at most one order in part, each print at the resting price, the book left is the list minus that |
| Matching.CancelRestingIsGreedyOnOthers | src/matching_engine.cpp:107-137 | under CancelResting the trades, totals and other clients' orders are those of greedy filling with the client's own orders filtered out |
| Matching.PulledExactly | src/matching_engine.cpp:120-137 | an own order is pulled if and only if it is within reach and the others ahead of it do not exhaust the aggressor |
| Matching.CancelAggressorStopsAtFirstOwn | src/matching_engine.cpp:108-119 | under CancelAggressor the trades are greedy on the orders ahead of the first own one; reaching it cancels the rest and leaves the book behind it untouched |
| Matching.NeverTradesWithItself | src/matching_engine.cpp:107-168 | with prevention on, no taker leg is followed by a maker leg of the same client |
| Matching.RunConserves | src/matching_engine.cpp:95-192 | aggressor plus side plus twice the traded plus withdrawn is unchanged by matching |
| Matching.RunEats | src/matching_engine.cpp:97-190 | orders leave only from the front; those behind the front are untouched |
| Matching.LedgerRun | src/matching_engine.cpp:108-174 | the events of matching report every open size right, for any id |
| PriceTime.ReachIsCrossing | include/lob/types.hpp:32-36 | on a sorted side the reachable prefix is exactly the crossing orders |
| PriceTime.InsertKeepsSorted | include/lob/price_level.hpp:26-37 | queueing a newcomer keeps strict price-time order |
| EngineSpec.ProcessKeepsInv | src/matching_engine.cpp:63-92 | every command keeps the book sorted, uncrossed, free of duplicate ids and within capacity |
| EngineSpec.SweepEnds | src/matching_engine.cpp:97-105 | an aggressor with anything left cannot reach any order that remains |
| EngineSpec.RemainderMayRest | src/matching_engine.cpp:249-285 | an accepted remainder that may rest has a real in-band price and an id found nowhere |
| EngineSpec.ReplacementIsValid | src/matching_engine.cpp:344-354 | a re-queue leaves a sound book and submits a New the engine can take |
| Conservation.ReachableBookIsUncrossed | src/matching_engine.cpp:249-285 | in every reachable state every bid is below every ask, both sides are in strict price-time order, only limit and post-only orders of the right side, in the band and with something left, rest, and capacity holds |
| Conservation.QuantityIsConserved | src/matching_engine.cpp:139-187 | over any run in any mode: accepted = 2 x traded + resting + withdrawn, with accepted and traded read off the event stream |
| History.EventsAreAccounted | src/matching_engine.cpp:108-174 | over any run every Fill, Canceled and Replaced carries client and side of the last Accepted of its id, the maker its own price and the taker one within its limit, and sizes that continue the last reported open size |
| History.NoContradictions | src/matching_engine.cpp:108-174 | over any run a monitor that checks each event against what was said of its order never fails, and what it holds for a resting order is that order |
| History.RestingIsAcknowledged | src/matching_engine.cpp:231-247 | every resting order has the client, side and price of the last Accepted of its id and the last reported open size |
| Counters.CountersAreRight | src/matching_engine.cpp:63-90 | over any run every counter is the number of what it names: commands by kind, rejections and executions reported, the most orders ever at rest |
| Counters.PeakIsMost | src/matching_engine.cpp:90-90 | that peak bounds the resting orders after every input and is reached after one |
| Ledger.LedgerIsExact | src/matching_engine.cpp:111-174 | over any run without a refused re-queue the last reported leaves per id are exactly the open sizes, and the non-zero ones are exactly the resting ids |
| Ledger.LedgerIsRightExactlyWhen | src/matching_engine.cpp:309-355 | over any run the ledger is right for every id after every input if and only if no re-queueing amendment is refused on the way |
| Ledger.ProcessAgrees | src/matching_engine.cpp:309-355 | one command keeps the ledger right for an id if and only if it is not a refused re-queue of that id |
| Ledger.RefusedExactly | src/matching_engine.cpp:199-224 | the caller-checkable guard is true exactly when the replayed order is refused |
| Ledger.RefusedRequeueLosesOrder | src/matching_engine.cpp:348-354 | a run of two commands from the start in which an amendment loses its order and the ledger still shows it |
| Answers.AcceptedExactlyWhen | src/matching_engine.cpp:195-247 | a book that is not halted acknowledges a New, first of all, if and only if it has a size, a price in the band or none, a fresh id, as post-only nobody on the other side within its limit, as fill-or-kill enough in total within its limit; otherwise it says one rejection, for the first check that fails, and nothing moves |
| Answers.MarketableIsOffered | include/lob/order_book.hpp:129-138 | summing a sorted side up to the first order out of reach is the open size of all orders within the limit |
| Answers.FokRefusedExactlyWhen | src/matching_engine.cpp:219-224 | a fill-or-kill is refused as unfillable if and only if it is well-formed and, with prevention off, the same order sent as immediate-or-cancel would fill less than its size |
| Answers.AcceptedEnds | src/matching_engine.cpp:249-284 | in the course of an accepted New an order is cancelled only by the prevention mode in force, for a full book, or because its type cannot rest; the own side gains at most the order itself with its own fields, and only if it is limit or post-only |
| Answers.CancelRemoves | src/matching_engine.cpp:288-306 | in any state, halted or not, a cancel of a resting order removes exactly that order and reports it with its own client, side, price and open size |
| Answers.AmendToNothing | src/matching_engine.cpp:316-320 | an amendment to size zero does the same |
| Answers.UnknownIsRejected | src/matching_engine.cpp:288-313 | a cancel or amendment of an id that rests nowhere is rejected and nothing moves |
| Answers.AmendInPlace | src/matching_engine.cpp:326-342 | naming the own price or none and a smaller size: the order keeps position and every field but its open size, and one Replaced event says so |
| Answers.AmendIsNew | src/matching_engine.cpp:344-354 | any other amendment is the book without the order, handling a New with its id, client, side and type at the new price and size |
| Answers.AmendLosesPlace | src/matching_engine.cpp:344-354 | ... after which no order with that id and arrival number is left |
| Answers.HaltedRefusesNew | src/matching_engine.cpp:69-75 | a New on a halted book is one BookHalted rejection and nothing moves |
| Answers.HaltStopsOnlyNew | src/matching_engine.cpp:69-85 | a cancel or amendment does exactly the same whatever the halt flag says |
| Answers.HaltedAsSet | include/lob/matching_engine.hpp:61-62 | over any run the book is halted exactly when it was last set to be |
| Policies.FilledExactly | src/matching_engine.cpp:95-192 | in every mode the engine's counter of traded lots grows by min(size, what the mode makes available) for an accepted order and not at all for a refused one |
| Policies.FokFillsExactlyWhen | src/matching_engine.cpp:219-224 | an accepted FOK fills completely if and only if the mode leaves it enough; always under None |
| Policies.FokCanMissUnderStp | src/matching_engine.cpp:219-224 | a run of two commands from the start in which an accepted FOK trades nothing under CancelResting |
| Policies.PostOnlyNeverTrades | src/matching_engine.cpp:212-218 | an accepted PostOnly trades nothing in any mode and adds only its acknowledgement and, on a full pool, a cancellation |
| Policies.NoRunSelfTrades | src/matching_engine.cpp:107-137 | with prevention on, no run ever matches a client with itself |
| Policies.ModifyIsCancelThenNew | src/matching_engine.cpp:344-354 | an amendment that names another price, or no smaller size, leaves the book, arrival counter and totals of a cancel followed by a New with the order's own id, client, side and type |
| Policies.SizeDownKeepsPlace | src/matching_engine.cpp:326-342 | an amendment naming the own price or none and a smaller size keeps position, arrival number and recorded original size; nobody else moves |
| Policies.QueueOrderIsStable | src/matching_engine.cpp:322-354 | no command reorders two orders it leaves in place |
| Feed.SequenceHasNoGaps | src/matching_engine.cpp:20-28 | over any run the events carry 1, 2, 3, ... without gap or repeat |
| Feed.ListenerKnowsTheTop | src/matching_engine.cpp:44-60 | with top-of-book reports on, the last reported best prices are always the current ones |
| Feed.TopIsReportedExactly | src/matching_engine.cpp:44-60 | over any run a command is followed by one report of the top, and last, if and only if reports are on and a best price moved; it gives both best prices and the total open size at each |
| Feed.BestPriceIs | include/lob/order_book.hpp:113-114 | the best price is the highest bid or lowest ask, none for an empty side |
| MarketDepth.DepthIsRight | include/lob/order_book.hpp:160-167 | the depth lists distinct prices best first, each with total size and number of all orders at it, and leaves a price out only if as many better ones as asked for are listed |
| Feed.ExecutionsAreReported | src/matching_engine.cpp:139-173 | over any run every print follows two fill legs with mirrored ids, opposite sides, the same price and size, and respects the limit in the last acknowledgement of its taker; no fill is without a print |
| MatchingEngine.Engine.constructor | src/matching_engine.cpp:11-18 | a fresh engine over any book and hash is the initial state |
| MatchingEngine.Engine.Match | src/matching_engine.cpp:94-192 | the loops over linked levels take the sweep exactly to its end state, and terminate |
| MatchingEngine.Engine.Meet | src/matching_engine.cpp:109-189 | one encounter is one specified step, whose events History.EventsAreAccounted checks, and the saved link leads to the next order to meet |
| MatchingEngine.Engine.Refuse | src/matching_engine.cpp:195-224 | the checks, in order, give the specified refusal, which Answers.AcceptedExactlyWhen states in raw fields |
| MatchingEngine.Engine.Settle | src/matching_engine.cpp:251-284 | the remainder is cancelled, rested or cancelled for lack of a pool cell as specified |
| MatchingEngine.Engine.HandleNew | src/matching_engine.cpp:194-285 | takes the state as specified |
| MatchingEngine.Engine.HandleCancel | src/matching_engine.cpp:287-306 | takes the state as specified, which Answers.CancelRemoves states in raw fields |
| MatchingEngine.Engine.HandleModify | src/matching_engine.cpp:308-355 | takes the state as specified, which Answers.AmendInPlace and Answers.AmendIsNew state in raw fields |
| MatchingEngine.Engine.EmitBookChanged | src/matching_engine.cpp:44-60 | takes the state as specified, which Feed.TopIsReportedExactly states over runs |
| MatchingEngine.Engine.Process | src/matching_engine.cpp:62-92 | one command takes the abstract state exactly where the state machine says, halted or not (Answers.HaltStopsOnlyNew, Answers.HaltedRefusesNew), and keeps the invariant |
| MatchingEngine.Engine.Located | src/matching_engine.cpp:208-211 | the order the index finds is the only one with its id |
| Replay.Run | src/matching_engine.cpp:62-92 | a fresh engine over any book and any hash emits exactly the specified events and ends in exactly the specified state, order by order |
| Replay.Play | src/matching_engine.cpp:62-92 | the same in terms of the events and the aggregated depth |
| Replay.BooksAreInterchangeable | src/matching_engine.cpp:357-361 | on every input list any two books and hash functions give identical events and identical final states, order by order and place by place |
| OrderStore.Store.EverythingAgrees | src/matching_engine.cpp:181-187 | the index holds exactly the resting ids; every cell is free or queued in one place; its level is a sound list with exact totals; in use = index size = order count |
| OrderStore.Store.UniqueId | src/matching_engine.cpp:208-211 | an id rests at one position of one side at most |
| OrderStore.Store.Find | include/lob/flat_hash_map.hpp:40-47 | null exactly when no resting order has the id, else its cell and place |
| OrderStore.Store.Drop | src/matching_engine.cpp:303-305 | book, index and pool give the order up together and agree again |
| OrderStore.Store.Rest | src/matching_engine.cpp:269-284 | succeeds exactly when the pool has room, then inserts in price-time order; the pool's peak is the largest number of orders that ever rested |
| OrderStore.Store.SizeDown | src/matching_engine.cpp:329-331 | cuts the open size in place and leaves the recorded size |
| Book.BookSide.Add | include/lob/order_book.hpp:51-59 | any book: the flat list gains the order at its price-time place |
| Book.BookSide.Remove | include/lob/order_book.hpp:61-71 | any book: the flat list loses exactly that order |
| Book.BookSide.BestLevel | include/lob/order_book.hpp:97-104 | any book: the front order's level with the true total |
| Book.BookSide.MarketableQty | include/lob/order_book.hpp:129-138 | any book: the open size of the reachable prefix |
| Book.BookSide.Snapshot | include/lob/order_book.hpp:160-167 | any book: the aggregated depth of the flat list |
| Book.BookSide.NextOfHead | src/matching_engine.cpp:104-105 | the front order's link leads to the second order if that has the same price, else nowhere |
| Queues.AddInserts | include/lob/price_level.hpp:26-37 | appending to a price's queue is insertion into the flat list |
| Queues.RemoveCuts | include/lob/price_level.hpp:39-53 | unlinking from a price's queue cuts exactly that element out of the flat list |
| Queues.MarketIsMarketable | include/lob/map_order_book.hpp:108-122 | summing levels from the best inward is the reachable open size |
| Queues.DepthIsDepth | include/lob/map_order_book.hpp:124-137 | listing levels best first is the aggregation of the flat list |
| OrderBookSide.BitsetSide.Add | include/lob/order_book.hpp:51-59 | refines adding to the price's queue; bits stay right |
| OrderBookSide.BitsetSide.Remove | include/lob/order_book.hpp:61-71 | refines removing from the price's queue; bits stay right |
| OrderBookSide.BitsetSide.BestIndex | include/lob/order_book.hpp:91-95 | the bit scan finds the true best price, or nothing exactly when the side is empty |
| OrderBookSide.BitsetSide.NextLevelTowardMid | include/lob/order_book.hpp:142-156 | the best queued price strictly worse than the given one, for any band width |
| OrderBookSide.BitsetSide.MarketableQty | include/lob/order_book.hpp:129-138 | agrees with the sorted map |
| OrderBookSide.BitsetSide.Snapshot | include/lob/order_book.hpp:160-167 | agrees with the sorted map |
| OrderBookSide.HighestIsBest | include/lob/order_book.hpp:190-200 | the highest mark is the best bid |
| OrderBookSide.LowestIsBest | include/lob/order_book.hpp:201-211 | the lowest mark is the best ask |
| Occupancy.HighestSet | include/lob/order_book.hpp:190-200 | the highest set position of the two-level bitset, -1 exactly when there is none |
| Occupancy.LowestSet | include/lob/order_book.hpp:201-211 | the lowest set position of the two-level bitset, -1 exactly when there is none |
| Occupancy.SetMarks | include/lob/order_book.hpp:176-179 | setting a bit changes that position alone and keeps a summary bit set exactly for the non-zero words |
| Occupancy.ClearMarks | include/lob/order_book.hpp:180-185 | clearing a bit changes that position alone and keeps the summary exact |
| Bits.BitScans | include/lob/order_book.hpp:194-208 | leading and trailing zero counts locate the highest and lowest set bit of a word |
| SortedSide.SortedVectorSide.Seek | include/lob/sorted_vector_order_book.hpp:32-40 | the binary search splits the vector at the price |
| SortedSide.SortedVectorSide.Add | include/lob/sorted_vector_order_book.hpp:53-64 | refines adding to the price's queue |
| SortedSide.SortedVectorSide.Remove | include/lob/sorted_vector_order_book.hpp:66-72 | refines removing from the price's queue |
| SortedSide.SortedVectorSide.MarketableQty | include/lob/sorted_vector_order_book.hpp:114-122 | agrees with the sorted map |
| SortedSide.FrontIsBest | include/lob/sorted_vector_order_book.hpp:80-83 | the front entry is the best price and dropping it leaves the rest |
| MapSide.MapBookSide.Add | include/lob/map_order_book.hpp:42-48 | refines adding to the price's queue |
| MapSide.MapBookSide.Remove | include/lob/map_order_book.hpp:50-61 | refines removing from the price's queue |
| PriceLevel.PushBack | include/lob/price_level.hpp:26-37 | the doubly linked list, ends and totals are those of the queue plus the order |
| PriceLevel.Unlink | include/lob/price_level.hpp:39-53 | the doubly linked list, ends and totals are those of the queue without the order |
| PriceLevel.BypassedHolds | include/lob/price_level.hpp:39-53 | bridging over any element leaves a well-linked list with the right ends and sums |
| ObjectPool.Pool.Acquire | include/lob/object_pool.hpp:24-30 | the last freed cell, or null exactly when all are in use |
| ObjectPool.Pool.Release | include/lob/object_pool.hpp:32-37 | the cell is blanked and free again, null is ignored |
| FlatPtrMap.Index.Insert | include/lob/flat_hash_map.hpp:26-38 | map update for any hash; grows exactly when the load reaches 3/4 |
| FlatPtrMap.Index.Grow | include/lob/flat_hash_map.hpp:71-80 | same map in twice the slots; the inserts inside never grow again |
| FlatPtrMap.Index.Find | include/lob/flat_hash_map.hpp:40-47 | map lookup |
| FlatPtrMap.Index.Erase | include/lob/flat_hash_map.hpp:49-60 | map removal, and whether the key was there |
| FlatPtrMap.Index.RemoveAt | include/lob/flat_hash_map.hpp:94-108 | backward shifting removes exactly that entry and keeps every chain unbroken |
| FlatPtrMap.Probe | include/lob/flat_hash_map.hpp:41-46 | the probe ends, at the key's slot or at an empty slot that proves the key absent |
| FlatPtrMap.MovedChained | include/lob/flat_hash_map.hpp:103-106 | moving an entry into the hole keeps every other entry reachable |
| FlatPtrMap.StepsAreMasked | include/lob/flat_hash_map.hpp:110-112 | stepping and probe distance are the masked sums of the source |
| FlatPtrMap.HomeIsRemainder | include/lob/flat_hash_map.hpp:28-28 | masking the hash is the remainder modulo the capacity |
| FlatPtrMap.PresizedNeverGrowsExactlyWhen | include/lob/flat_hash_map.hpp:19-27 | up to n fresh keys never rehash a table sized for n if and only if n is not 3 x 2^k, k >= 2; no insert that keeps at most n keys does if and only if neither n nor n + 1 is |
| FlatPtrMap.Fill | include/lob/flat_hash_map.hpp:19-38 | any n fresh keys end in twice the initial slots if n is 3 x 2^k and in the initial slots otherwise |
| FlatPtrMap.FillThenOverwrite | include/lob/flat_hash_map.hpp:27-33 | writing one of the n keys again ends in twice the initial slots if n or n + 1 is such a number |
| FlatPtrMap.TwelveKeysRehash | include/lob/flat_hash_map.hpp:26-27 | twelve keys in a table sized for twelve end in 32 slots |
| FlatPtrMap.ElevenKeysRehash | include/lob/flat_hash_map.hpp:26-33 | overwriting one of eleven keys in a table sized for eleven ends in 32 slots |
| OrderStore.FillToCapacity | src/matching_engine.cpp:16-16 | filling the store to capacity rehashes the index if and only if the capacity is 3 x 2^k, k >= 2 |
| OrderStore.Store.SlotsOf | include/lob/flat_hash_map.hpp:19-38 | the index of a valid store has twice its initial slots if the capacity is such a number and the store has once been full, else its initial slots |
| MatchingEngine.Engine.IndexRehashesExactlyWhen | include/lob/flat_hash_map.hpp:13-15 | at any time in any run the index has doubled if and only if the pool size is such a number and the whole pool has once been in use; never at the default size |
| SpscRing.ApplyKeepsInv | include/lob/spsc_ring.hpp:35-57 | every single memory access by either thread keeps the invariant, stale loads included |
| SpscRing.SafeUnderEveryInterleaving | include/lob/spsc_ring.hpp:35-57 | popped is a prefix of pushed, at most capacity - 1 in flight, no slot is read while half written or overwritten unread |
| SpscRing.PushFailsExactlyWhenFull | include/lob/spsc_ring.hpp:38-41 | a push fails exactly when by the loaded tail the ring is full; with a current load, exactly when it is full |
| SpscRing.PopFailsExactlyWhenEmpty | include/lob/spsc_ring.hpp:50-53 | a pop fails exactly when by the loaded head the ring is empty; with a current load, exactly when it is empty |
| SpscRing.CachedTailIsSafe | include/lob/spsc_ring.hpp:38-43 | a push that trusts the cached tail never meets a full ring |
| SpscRing.RoundUp | include/lob/spsc_ring.hpp:25-30 | the smallest power of two that is at least 2 and at least the request |
| SpscRing.NextIsMasked | include/lob/spsc_ring.hpp:37-37 | the wrapped step is the masked increment of the source |
| SpscRing.Queue.TryPush | include/lob/spsc_ring.hpp:35-45 | used by one thread at a time: appends unless capacity - 1 items are queued |
| SpscRing.Queue.TryPop | include/lob/spsc_ring.hpp:48-57 | used by one thread at a time: takes the oldest item unless there is none |
| Buckets.IndexIs | include/lob/latency_histogram.hpp:142-150 | the shift, mask and leading-zero computation in closed form |
| Buckets.ValueInItsBucket | include/lob/latency_histogram.hpp:142-168 | every value lies between its sub-bucket's lower and upper end |
| Buckets.BucketsTouch | include/lob/latency_histogram.hpp:152-168 | the next sub-bucket starts right after the upper end of this one |
| Buckets.IndexIffBetween | include/lob/latency_histogram.hpp:142-168 | a value has an index if and only if it lies between that sub-bucket's ends |
| Buckets.IndexIsMonotone | include/lob/latency_histogram.hpp:142-150 | larger values never have a smaller index |
| Buckets.TrackableIff | include/lob/latency_histogram.hpp:32-39 | a value indexes inside the array if and only if it is below the untrackable bound |
| Buckets.RelativeError | include/lob/latency_histogram.hpp:163-168 | the upper end exceeds any value of the sub-bucket by at most one part in the half-count |
| LatencyHistogram.WrappedSteps | include/lob/latency_histogram.hpp:31-34 | the wrapped bound starts at the sub-bucket count and each round doubles it in 64 bits |
| LatencyHistogram.SizingEndsExactlyWhen | include/lob/latency_histogram.hpp:32-36 | some number of 64-bit shifts brings the bound to a representable highest value if and only if that value is at most 2^63 |
| LatencyHistogram.SizingNeverEnds | include/lob/latency_histogram.hpp:32-36 | for 2^63 + 1 the shifted bound stays below, after any number of rounds |
| LatencyHistogram.Sizing | include/lob/latency_histogram.hpp:32-36 | the wrapped shifting loop finds the fewest half-buckets whose bound reaches the highest value |
| LatencyHistogram.Histogram.constructor | include/lob/latency_histogram.hpp:21-40 | the fewest half-buckets that track every value below the bound |
| LatencyHistogram.Histogram.Record | include/lob/latency_histogram.hpp:42-53 | the histogram then stands for the samples plus the new one |
| LatencyHistogram.Histogram.Merge | include/lob/latency_histogram.hpp:55-62 | counts add slot by slot; equal configurations then stand for both lists of samples |
| LatencyHistogram.Histogram.Percentile | include/lob/latency_histogram.hpp:82-93 | for every rank the answer is not below the true order statistic if and only if that sample is trackable, and then exceeds it by at most the relative error |
| LatencyHistogram.Histogram.Reset | include/lob/latency_histogram.hpp:64-70 | the histogram stands for no samples |
| LatencyHistogram.SingleSample | include/lob/latency_histogram.hpp:42-53 | a single sample in any configuration is under-reported if and only if it is at or past the untrackable bound |
| LatencyHistogram.OverAMinuteIsUnderReported | include/lob/latency_histogram.hpp:43-46 | in the default configuration a sample of 2^36 ns is reported as one nanosecond less |
| LatencyHistogram.GreatestIsSample | include/lob/latency_histogram.hpp:49-52 | the kept maximum is a sample and bounds them all |
| LatencyHistogram.LeastIsSample | include/lob/latency_histogram.hpp:49-52 | the kept minimum is a sample and bounds them all |
| LatencyHistogram.ScanAnswers | include/lob/latency_histogram.hpp:88-91 | the slot where the running total reaches k holds the k-th smallest sample |
| LatencyHistogram.KthBelow | include/lob/latency_histogram.hpp:85-91 | the k-th smallest sample is below y if and only if at least k samples are |
| Wire.LeRoundTrip | include/lob/wire.hpp:119-165 | little-endian bytes read back |
| Wire.LeBytes | include/lob/wire.hpp:119-125 | the bytes of one-, two-, four- and eight-byte integers, least significant first |
| Wire.SignedBytes | include/lob/wire.hpp:116-116 | a signed price travels as its residue modulo 2^64 |
| Wire.NewOrderBytes | src/wire.cpp:31-45 | the frame of a new order, piece by piece in wire order |
| Wire.CancelOrderBytes | src/wire.cpp:47-55 | the same for a cancel |
| Wire.ModifyOrderBytes | src/wire.cpp:57-67 | the same for an amendment |
| Wire.ExecReportBytes | src/wire.cpp:69-86 | the same for an execution report |
| Wire.MdTradeBytes | src/wire.cpp:88-98 | the same for a trade print |
| Wire.MdBookChangeBytes | src/wire.cpp:100-111 | the same for a top-of-book change |
| Wire.MdHeartbeatBytes | src/wire.cpp:113-120 | the same for a heartbeat |
| Wire.DecodedExactlyWhen | src/wire.cpp:22-27 | a decoder takes exactly the frames of its own length, type byte and version 1 |
| Wire.PeekedExactlyWhen | src/wire.cpp:122-133 | a header is read exactly when the little-endian length in bytes 2 and 3 is at least 8 and has arrived |
| Wire.DecodeFrame | src/wire.cpp:135-224 | decoding an encoded message gives the message, and no other decoder takes its frame |
| Wire.DecodedIsPacked | src/wire.cpp:135-224 | a decoder accepts only the frame body of the message it returns, up to a new order's two padding bytes |
| Wire.PeekFrame | src/wire.cpp:122-133 | a frame's header is read back whatever follows the frame |
| Wire.LayoutTotals | src/wire.cpp:14-20 | field widths add up to the frame lengths |
| WireCodec.ToBytes | include/lob/wire.hpp:119-125 | the shifting loop produces the little-endian bytes |
| WireCodec.FromBytes | include/lob/wire.hpp:157-165 | the shifting loop produces the little-endian value |
| WireCodec.Writer.Put | include/lob/wire.hpp:126-133 | copies whole or not at all, never past the capacity |
| WireCodec.Reader.Get | include/lob/wire.hpp:166-174 | the bytes, or zeros and the flag cleared |
| WireCodec.Encode | src/wire.cpp:31-120 | zero exactly when the capacity is below the frame length, else the frame; nothing written past the capacity |
| WireCodec.PeekHeader | src/wire.cpp:122-133 | the header exactly when the whole frame is there and its length is at least 8 |
| WireCodec.DecodeNewOrder | src/wire.cpp:135-149 | the specified decoding |
| WireCodec.DecodeCancel | src/wire.cpp:151-159 | the specified decoding |
| WireCodec.DecodeModify | src/wire.cpp:161-171 | the specified decoding |
| WireCodec.DecodeExecReport | src/wire.cpp:173-190 | the specified decoding |
| WireCodec.DecodeMdTrade | src/wire.cpp:192-202 | the specified decoding |
| WireCodec.DecodeMdBookChange | src/wire.cpp:204-215 | the specified decoding |
| WireCodec.DecodeMdHeartbeat | src/wire.cpp:217-224 | the specified decoding |
| Gateway.ChunkingDoesNotMatter | src/engine_server.cpp:133-185 | for every byte stream and every cutting, the commands and leftover bytes are those of one pass |
| Gateway.NewOrderBecomes | src/engine_server.cpp:146-153 | a new-order frame becomes one new order with its own id, client, side, type, price and quantity, whatever follows it |
| Gateway.CancelOrderBecomes | src/engine_server.cpp:154-160 | a cancel frame becomes one cancel of its id by its client |
| Gateway.ModifyOrderBecomes | src/engine_server.cpp:161-168 | an amendment frame becomes one amendment with its own id, client, price and quantity |
| Gateway.OthersBecomeNothing | src/engine_server.cpp:169-170 | frames of the other four kinds are skipped without a command |
| Gateway.FramesComeBack | src/engine_server.cpp:135-185 | a concatenation of frames followed by anything parses back in order to the requests that the four rows above give for each frame |
| Gateway.LeftoverIsStuck | src/engine_server.cpp:136-140 | the bytes kept are a suffix with no acceptable frame in front |
| Gateway.StallsExactlyWhen | src/wire.cpp:122-133 | a buffer yields nothing more, whatever arrives, if and only if its length field has arrived and is below 8 |
| Gateway.StreamStallsExactlyWhen | src/engine_server.cpp:136-185 | after any bytes, nothing more ever comes out if and only if the leftover has such a front |
| Gateway.ShortLengthStalls | src/wire.cpp:130-131 | with such a front no frame is ever accepted and every byte is kept |
| Gateway.SevenByteFrameStalls | src/wire.cpp:130-131 | six concrete bytes that block everything behind them |
| Gateway.Connection.Receive | src/engine_server.cpp:128-185 | one poll's bytes are parsed by one pass, whose outcome for every frame the rows above give; the client noted is that of the last command |
| Gateway.ReceiveAll | src/engine_server.cpp:128-185 | a connection fed any chunks ends as if fed the whole stream |

## Left out

- LatencyHistogram.Histogram.constructor: requires a highest value of at most 2^63, because above it the source's sizing loop never returns (`LatencyHistogram.SizingEndsExactlyWhen`).
- Sockets, polling, threads, pinning, clocks: foreign calls; timestamps are dropped from orders, commands and events.
- The rest of the server (routing, publisher, telemetry, the spin-and-drop on a full ring): plumbing and timing.
- Telemetry output, order-flow generation, tools, web, benchmarks: no state worth proving.
- The pooled node allocator and the pooled map variant: raw-memory tricks that do not change behaviour.
- The splitmix constants of the index's hash: the hash is an arbitrary function, which proves more.
- `log_bins`, `bins`, `mean` and the floating-point sizing of the histogram: the sub-bucket magnitude and the rank are parameters.
- `size_approx`, `spread`, `level_at`: approximate or easy queries.
- 64-bit wrap-around of quantities, counters, sequence numbers and histogram sums: naturals are used throughout.
- Memory ordering below the level of index loads is not modelled; once an index value is seen, the slot writes before it are visible, which is what the release and acquire accesses provide.
- Enumerations on the wire: side and order type stay raw bytes, as an out-of-range byte cast to an enumeration has no defined meaning in the engine.
- The books' two-element arrays and references: each side is a separate object, and levels are values held by the book rather than addresses into it.
