# Order-book reconstruction engine: a Dafny model

This project models the order-book core of a C++ market-data engine. The engine
replays Databento MBO (market-by-order) messages and keeps limit order books.
The model covers three parts.

- **`OrderBook`** (`orderbook.dfy`, `book_invariants.dfy`, `orderbook_view.dfy`):
  - It is a per-price FIFO book. Bids are kept high to low and asks low to high, each in a `std::map`.
  - An id index points into a fixed pool of 10000 order nodes with a free list.
  - `apply_update` takes normalised records: Add, Modify, Cancel and Fill.
  - The pool and free list are modelled literally: a 10000-slot pool, a free list of slot handles, and levels that hold handles in queue order.
  - The sorted containers are strictly sorted sequences of (price, level) entries (`PriceLadder`). `AsMap` is the map such a sequence stands for.
  - `BookInvariants.Consistent` is the structural invariant that updates keep:
    - each level's total is the sum of its order sizes;
    - every indexed node rests at its own side and price;
    - no slot is linked twice or freed twice.
  - `BookView` covers what `to_json` lists and in which order.
- **The engine** (`engine.dfy`, `dbn.dfy`, `mbo_book.dfy`, `mbo_book_props.dfy`, `bbo.dfy`, `reconstruct.dfy`):
  - `map_mbo` normalises an MBO message into a record.
  - `replay` feeds messages to the `OrderBook` up to a message cap.
  - `reconstruct_orderbook_json` rebuilds a second, richer book per (instrument, publisher):
    - Clear, Add, a saturating partial Cancel, and Modify with its priority rules;
    - the top of book per publisher, and the best bid and offer aggregated across publishers;
    - depth-limited level lists.
  - The report is modelled as a structured value (`Reconstruct.Report`), not as JSON text.
- **Metrics** (`telemetry.dfy`, module `Telemetry`):
  - Message and error counters, latency samples and the last error message.
  - The p50/p95/p99 selection: sort a copy, then index it.
  - Each selection is specified as "the k-th smallest sample", which does not depend on the sort.

Inputs the engine gets from outside are parameters of the model:

- The record stream from the Databento decoder is a sequence of `Dbn.Item`s. Each item is one callback or one exception.
- Each callback carries the value the `running_` flag had when it ran, and the latency measured for it.

Some behaviour is modelled as the code does it, although it may be surprising:

- A replay cap of 0 still applies one message, because `++count >= 0` only stops the loop after the first message.
- A duplicate Add id in `OrderBook` overwrites the index entry and leaves the old node linked in its level.
- An `OrderBook` level is erased when its total reaches 0, not when it is empty.
- In the MBO book, a Clear with no side clears nothing and queues the message on the asks when its price is defined.
- A Modify that changes the price moves the order to the side the message names.
- The engine's Modify keeps the other fields of the stored message.
- Sizes and counts in the reconstruction report are `uint32_t` sums that wrap modulo 2^32.
- The record size is cast from `uint32_t` to `int32_t` (`Ints.Int32OfU32`).

## Model

| member | source | states |
|---|---|---|
| OrderBook.Initial | src/orderbook.cpp:6-12 | a new book has no orders, and all 10000 slots are free and distinct, with slot 0 handed out first |
| OrderBook.Allocate | src/orderbook.cpp:14-24 | fails with pool exhausted exactly when no slot is free; otherwise it hands out the head of the free list and keeps the rest |
| OrderBook.Deallocate | src/orderbook.cpp:26-29 | a released slot is the next one allocation hands out, followed by the previously free slots |
| OrderBook.LevelAt | include/orderbook.h:29-33 | the level `operator[]` yields is the stored one, or a fresh level with total 0 and no orders |
| OrderBook.InsertOrder | src/orderbook.cpp:31-43 | the node goes at the tail, behind the unchanged queue, and the total rises by its size |
| OrderBook.RemoveOrder | src/orderbook.cpp:45-59 | only that node leaves the queue, the others keep their relative order, and the total falls by its size |
| OrderBook.AddToLadder | src/orderbook.cpp:75-79 | the side stays sorted, and only the level at the price changes, gaining the node at its tail |
| OrderBook.RemoveFromLadder | src/orderbook.cpp:89-101 | the side stays sorted; the level loses the node and is erased exactly when its total becomes 0 |
| OrderBook.BestBid | src/orderbook.cpp:171-177 | the highest bid price with its level total, or (-1, 0) when there are no bids |
| OrderBook.BestAsk | src/orderbook.cpp:179-185 | the lowest ask price with its level total, or (-1, 0) when there are no asks |
| OrderBook.Snapshot | src/orderbook.cpp:187-198 | the snapshot carries the highest bid price and the lowest ask price, each with its level's total; an empty side is reported as price -1 with size 0 |
| OrderBook.ApplyUpdate | src/orderbook.cpp:61-169 | fails only for an Add when the pool is exhausted; otherwise it returns the snapshot of the updated book; an unknown id for M/C/F, or any other action, leaves the book unchanged |
| OrderBook.AddRestsAtTail | src/orderbook.cpp:66-81 | an Add takes the first free slot and indexes it, overwriting any entry for the id; it rests at the tail of its price on bids for 'B' and asks otherwise; that level's total rises by the size and nothing else changes |
| OrderBook.ModifyRequeuesAtTail | src/orderbook.cpp:83-115 | a Modify keeps the node's side, sets price and size, and re-queues the node at the tail of the new level after unlinking it; the old level loses the node, is erased exactly when its total equals the node's size and otherwise keeps its other orders with the total reduced by the node's size, every other level of that side and the other side are unchanged; index and free list are unchanged |
| OrderBook.WithdrawReleasesNode | src/orderbook.cpp:117-165 | Cancel or Fill removes the node from its level and from the index and returns the slot to the free-list head; the level is erased exactly when its total equals the node's size |
| BookInvariants.InitialConsistent | src/orderbook.cpp:6-12 | the new book satisfies the structural invariant |
| BookInvariants.AddStep | src/orderbook.cpp:66-81 | an add of a positive size keeps the structural invariant |
| BookInvariants.WithdrawStep | src/orderbook.cpp:117-165 | a cancel or fill of a known id keeps the structural invariant |
| BookInvariants.ModifyStep | src/orderbook.cpp:83-115 | a modify of a known id to a positive size keeps the structural invariant |
| BookInvariants.ApplyKeepsConsistent | src/orderbook.cpp:61-169 | every successful update keeps the structural invariant when Add/Modify sizes are positive |
| BookInvariants.TopOfBookSizesAreRestingSums | src/orderbook.cpp:171-198 | in a consistent book each reported best size is the positive sum of the order sizes resting at the best price |
| PriceLadder.Put | include/orderbook.h:52-54 | insert-or-overwrite keeps the container sorted and is the map update at that price |
| PriceLadder.Erase | include/orderbook.h:52-54 | erase-by-key keeps the container sorted and removes exactly that price |
| PriceLadder.FirstIsExtreme | include/orderbook.h:50-54 | the first entry (`begin()`) holds the highest bid or the lowest ask |
| PriceLadder.LastIsExtreme | src/engine.cpp:222-223 | the last entry (`rbegin()`) of an ascending side holds the highest price |
| PriceLadder.SizeIsKeyCount | include/orderbook.h:52-54 | the container has one entry per price |
| BookView.ListingFollowsBook | src/orderbook.cpp:222-269 | bids are listed strictly high to low and asks strictly low to high, one entry per price of the book with that level's total; the header's best bid and ask are the first listed levels, or (-1, 0) |
| BookView.ListingCoversBook | src/orderbook.cpp:233-264 | every price on either side appears in the listing |
| BookView.ListedTotalsAdd | src/orderbook.cpp:233-264 | in a consistent book every listed level is non-empty, its total is the sum of its listed sizes, and every listed size is positive |
| Engine.MapMbo | src/engine.cpp:26-41 | id and price are copied and the size is cast to int32; side 'B' iff Bid, otherwise 'A'; action 'A'/'M'/'C' iff Add/Modify/Cancel, 'F' iff Trade or Fill, 'U' otherwise |
| Engine.UnmappedIsNoOp | src/engine.cpp:36-40 | a Clear or action-less message reaches the book as an unknown action and leaves it unchanged |
| Engine.Cap | src/engine.cpp:66-68 | the loop stops after max_snapshots messages, or after one when the cap is 0 |
| Engine.Run | src/engine.cpp:54-81 | the count never passes the cap; a run that does not fail leaves the metrics untouched; a failure happens before the cap and leaves the metrics exactly as recording one replay error with the last error's text |
| Engine.RunFailsOnlyOnThrow | src/engine.cpp:62-81 | a failure is always an exception: either the first decoder exception before any stop request, with that text, or the book's exception on the next message of the feed; whenever the loop stopped short of the end of the feed, the last error is the book's exception text on the next message |
| Engine.RunReachesFault | src/engine.cpp:58-81 | when the loop gets through the whole feed short of the cap and then meets a decoder exception, it fails and records that exception's text as the last error |
| Engine.RunCleanFeedSucceeds | src/engine.cpp:54-81 | with no decoder exception before a stop request and a feed the book accepts in full, the loop does not fail |
| Engine.RunAppliesFeed | src/engine.cpp:58-71 | what was applied is a prefix of the feed, in order; the loop stops short of the cap only at the end of the feed or when an exception is thrown |
| Engine.Replay | src/engine.cpp:44-83 | with no path nothing happens; otherwise the book is the first `applied` messages applied in order, and `applied` is the cap unless the feed ends or a message throws; a failure adds one replay error and sets the last error to the text of the decoder exception the loop met or of the book's exception on the next message; a decoder exception reached short of the cap always fails the replay with its text; a failure short of the end of the feed sets the last error to the book's exception text on the next message; without either exception the replay does not fail |
| Engine.ReplayStopsAtCap | src/engine.cpp:58-71 | with at least cap messages, none exhausting the pool, exactly cap messages are applied and no error is recorded |
| Engine.ReplayKeepsConsistent | src/engine.cpp:58-71 | replay keeps the book's structural invariant when add and modify sizes stay positive as int32 |
| MboBook.PushOrder | src/engine.cpp:129-130 | `levels[price].orders.push_back` appends the message to the level, creating the level if needed |
| MboBook.StoreOrders | src/engine.cpp:146-147 | writing a level back erases it once it has no orders |
| MboBook.FindOrder | src/engine.cpp:143 | finds the first order with the id, or reports that none has it |
| MboBook.Step | src/engine.cpp:125-185 | the publisher id is kept; Trade, Fill and action-less messages change nothing |
| MboBookProps.StepKeepsWellFormed | src/engine.cpp:125-185 | every action keeps levels non-empty, each holding only orders at its own price |
| MboBookProps.ClearEmptiesSide | src/engine.cpp:126-132 | Clear empties the bid or ask side and re-seeds it with the message when the price is defined; with no side only the asks may gain the message; the index is untouched |
| MboBookProps.AddQueuesAtTail | src/engine.cpp:133-137 | Add, and Modify of an unknown id, append the message at the tail of its level; the index gains the id only if it is absent |
| MboBookProps.CancelUnlocatedIsNoOp | src/engine.cpp:138-150 | a cancel whose id, level or order is not found changes nothing |
| MboBookProps.CancelReduces | src/engine.cpp:138-150 | the order's size falls by the cancel size, saturating at 0; the level volume falls by the smaller of the two; at 0 the order leaves the level and the index, and an emptied level is erased |
| MboBookProps.CancelKeepsOthers | src/engine.cpp:138-150 | a cancel changes no other level, side or index entry |
| MboBookProps.ModifyMovesToTail | src/engine.cpp:158-170 | a price change moves the order, with its new price and size, to the tail of the new level, removes it from the old level, erasing that level when emptied, and re-indexes it |
| MboBookProps.ModifyMoveKeepsOthers | src/engine.cpp:158-170 | a price change touches only the old price on the old side and the new price on the message's side; every other level of both sides is unchanged |
| MboBookProps.ModifyUnlocatedIsNoOp | src/engine.cpp:157-162 | a modify of an indexed id whose level or order is not found changes nothing |
| MboBookProps.ModifyAtSamePrice | src/engine.cpp:171-180 | at the same price, a larger size sends the order to the tail; any other size keeps its place; nothing else changes |
| Bbo.TallyFrom | src/engine.cpp:236 | the level loop sums sizes and counts the non-top-of-book orders, both modulo 2^32 |
| Bbo.BestBid | src/engine.cpp:222-224 | a publisher's best bid is its highest bid level with that level's size and count; an empty side gives the undefined price with zeros |
| Bbo.BestAsk | src/engine.cpp:225-227 | a publisher's best ask is its lowest ask level with that level's size and count; an empty side gives the undefined price with zeros |
| Bbo.AggregateIsBest | src/engine.cpp:228-229 | the aggregated quote is undefined iff no publisher quotes; otherwise it is the best quoted price, with sizes and counts summed over the publishers tied at it, modulo 2^32 |
| Bbo.EmitLevels | src/engine.cpp:233-252 | the emitted levels are levels of the side, each with its own summary, in strictly worsening price order, as many as the side has up to the limit (all of them when the limit is 0), and every level left out is worse than every level emitted |
| Reconstruct.PublisherSlot | src/engine.cpp:121 | the search stops at the first book of the publisher, or at the end |
| Reconstruct.RouteReusesBook | src/engine.cpp:117-123 | a message goes to its (instrument, publisher) book, created only on first sight and reused afterwards; every other book and instrument is untouched |
| Reconstruct.RouteKeepsUnique | src/engine.cpp:121-122 | each instrument never holds two books for one publisher |
| Reconstruct.RouteKeepsWellFormed | src/engine.cpp:117-185 | routing keeps every publisher book well formed |
| Reconstruct.Process | src/engine.cpp:115-191 | one message counts once, sets the last receive time and records one latency sample and one message |
| Reconstruct.Loop | src/engine.cpp:107-194 | the loop processes exactly the MBO messages before a stop request or an exception, skipping other records before the stop flag is read |
| Reconstruct.ProcessAllAccounts | src/engine.cpp:117 | the message count and the total message counter grow by the number of messages; the last receive time is the last message's |
| Reconstruct.ProcessAllRecordsLatencies | src/engine.cpp:187-190 | the latency samples are appended one per message, in processing order |
| Reconstruct.ProcessAllKeepsBooks | src/engine.cpp:117-185 | processing keeps publisher ids unique per instrument and every book well formed |
| Reconstruct.RoutedInstruments | src/engine.cpp:118-119 | the instruments present are exactly those the messages name |
| Reconstruct.InstrumentSummary | src/engine.cpp:213-256 | an instrument's report lists each publisher's summary in book order, and its aggregated quotes are the best across them |
| Reconstruct.ReconstructReport | src/engine.cpp:85-207 | no path gives its error; an exception gives "DbnResponseError:" or "Exception:" plus its text, adds one replay error and sets the last error; otherwise it returns a report counting every processed message |
| Reconstruct.ReportIsSummary | src/engine.cpp:211-257 | without an interruption, the report is every instrument's summary together with the last receive time and the MBO count of the final state |
| Reconstruct.SummariesKeepPublishers | src/engine.cpp:213-220 | with distinct publishers per instrument, each instrument's summary carries its own id and lists distinct publishers |
| Reconstruct.ReportListsInstruments | src/engine.cpp:211-257 | a completed report lists exactly the named instruments, each under its own id with distinct publishers, and the last processed receive time |
| Reconstruct.ReportRecordsLatencies | src/engine.cpp:187-191 | the metrics end with one latency per processed message, in order |
| Telemetry.RecordLatency | src/metrics.cpp:3-6 | appends exactly one sample at the end and changes nothing else |
| Telemetry.SetLastError | src/metrics.cpp:8-16 | the last error afterwards is the message passed in, and nothing else changes |
| Telemetry.RecordReplayError | src/engine.cpp:73-80 | a caught replay exception adds one replay error and becomes the last error |
| Telemetry.Sort | src/metrics.cpp:21-22 | the sorted copy is ascending and a permutation of the samples |
| Telemetry.Select | src/metrics.cpp:21-23 | the selected value is a recorded sample, and it is the k-th smallest |
| Telemetry.ClampedIndex | src/metrics.cpp:31-32 | the index is always below n, and is floor(n*pct/100) below 100 percent |
| Telemetry.P50 | src/metrics.cpp:18-24 | 0 with no samples; otherwise a recorded sample of rank n/2 |
| Telemetry.P95 | src/metrics.cpp:26-34 | 0 with no samples; otherwise a recorded sample of rank floor(n*95/100) |
| Telemetry.P99 | src/metrics.cpp:36-44 | 0 with no samples; otherwise a recorded sample of rank floor(n*99/100) |
| Telemetry.KthSmallestUnique | src/metrics.cpp:21-23 | the sample of a given rank is unique, so the result does not depend on how the sort orders ties |
| Telemetry.PercentilesOrdered | src/metrics.cpp:18-44 | p50 <= p95 <= p99 |

## Left out

- Decoding DBN files, the Databento `Replay` driver and `ToIso8601`: foreign library calls. The record stream is an input sequence, and the last receive time is reported as the raw nanosecond value.
- Clocks: each per-message latency is an input, and `replay_duration_ns` is not modelled.
- JSON text: whitespace, `fmt_price` (a `double` division by 1e9), `print_book`, `save_json`. The model keeps what is listed and in which order, not the bytes.
- The `std::unordered_map` iteration order of instruments is unspecified in C++, so the report is a map keyed by instrument id.
- Logging calls and the `#ifndef HFT_HAS_DATABENTO` fallback paths.
- Mutexes and atomics in `Metrics`: every metrics operation is one step on an immutable value. The `running_` flag is a per-callback input.
- `OrderBookChange.action`: it is set on a local that is then discarded, and the returned snapshot never sets it, so `TopOfBook` has no action field.
- Pointer corruption in `OrderBook` is not modelled. One case: a level erased at total 0 while orders remain, followed by a later unlink through a stale node. The model removes a node from the level its slot names, by identity.
- `int32_t` overflow of `total_size` is undefined behaviour in C++; the model uses unbounded integers for totals.
- Telemetry.P95: the source index is `static_cast<size_t>(n * 0.95)`, a double product. The model uses floor(n*95/100); the two can differ by floating-point rounding.
- Telemetry.P99: likewise, floor(n*99/100) stands for `static_cast<size_t>(n * 0.99)`.
- BookInvariants.ApplyKeepsConsistent: the invariant is proved only when Add and Modify records carry positive sizes. A zero or negative size can leave a level with total 0 that is erased while orders remain.
- Engine.ReplayKeepsConsistent: the same positive-size condition, applied to the MBO sizes after the int32 cast.
- Telemetry.Select: the result is the k-th smallest sample. Samples are modelled as unbounded integers; the source converts them to `double`.
- The HTTP/SSE server, the command-line entry point, the logger and the load-test script are not part of this model.
