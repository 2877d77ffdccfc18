# A verified model of the exchange core

The exchange takes order messages from many producer threads through a ring buffer, runs
them through a single-threaded matching engine around one price-time priority order book, and
answers with reports and market data. This project models that core in Dafny and proves what
it keeps over every run.

Four pieces are modelled, each with the state the C++ has.

* **The order book** (`src/Orderbook.cpp`). The class `Orderbooks.Orderbook` has the two price
  maps of FIFO lists of shared, mutable order objects, the id index, the level cache shared by
  both sides and the trade log, and the same nested loops over them. Its methods are proved
  equal to functions on values (module `Book`), where a side of the book is one queue: best
  price first, then list order. On those functions the theorems are proved: what a
  matching pass is (`Matching`), when the level cache is exact (`LevelCache`, `BookRuns`), the
  invariant, conservation and priority over runs (`BookRuns`), algebraic laws (`BookLaws`) and
  the symmetry of the two sides (`Mirror`).
* **The queues** (`include/LockFreeQueue.h`). `Spsc` and `Mpsc` are systems of atomic steps, one
  per load, slot access and store; `MpscCalls` says what whole calls come to.
  A load of the other side's index may return any value not older than the last one seen, which
  is what acquire/release and coherence allow. `RingQueue` is the same ring as a class over an
  array, one whole call at a time.
* **The engine** (`src/MatchingEngine.cpp`). The class `MatchingEngines.MatchingEngine` holds
  the queue, the book object, the tracking maps and the counters; its handlers are proved equal
  to the functions of `Engine`. `EngineAnswers` says what each message does to the whole engine,
  `EngineRuns` proves the tracking invariant, `EngineBooks` carries every book theorem over to
  engine runs, `Isolation` and `Ownership` account for each resting order on its own, `EngineMessages`, `EngineFills` and `EngineCounters` say what is sent,
  and `EngineSessions` lets sessions disconnect between messages. `Witnesses` has the runs on
  which the documentation fails.
* **The run to shutdown** (`src/Exchange.cpp`). `Shutdown` composes the queue's steps, the
  matching loop and the stop order; `ShutdownRuns` shows that such runs get to their end.

Order objects have a ghost `stamp`, the arrival number drawn each time an order is pushed
to a level; it stands in for list position when priority is stated. Widths are modelled: prices
are 32-bit signed, quantities and level totals 32-bit unsigned and wrapping, ids, counters and
queue indices 64-bit.

Reading a contract such as `View() == Add(old(View()), order.View())`: `View` is the abstract
value of an object, and the function on the right is what the theorems are about.

## What the code does that its documentation does not say

* An IOC order never looks at its price: it behaves as a MARKET order
  (`src/Orderbook.cpp:125`; compare `include/Orderbook.h:37`). `Matching.BeyondLimitIff` says
  exactly when it trades beyond its price, `Matching.IocPaysBeyondItsLimit` gives an input.
* `ModifyOrder` returns early without clearing the trade log. `include/Orderbook.h:106` says the
  log holds the trades of the last add or modify; the engine relies on that and republishes
  and recounts old trades. `EngineMessages.ModifyPublishesOnceIff` gives the exact condition and
  `Witnesses.OldTradeRepublished` a run from a new engine.
* A modify that trades sends no execution report, though `include/MatchingEngine.h:46` promises
  one for any fill: `EngineMessages.ModifyReportsIff`, with a run from a new engine in
  `Witnesses.SilentTrade`.
* An order that was filled while resting stays in the tracking maps, so cancelling it is
  acknowledged: `EngineMessages.CancelDoesNothingIff`, with a run in
  `Witnesses.FilledOrderCancelled`.
* `tradesExecuted` is documented as the trades executed since startup
  (`include/MatchingEngine.h:107-111`), and republished trades are counted again:
  `EngineCounters.CounterRightIff`. Modifies publish without drawing a trade id, so ids on the
  feed repeat: `EngineCounters.DistinctIff`, `Witnesses.SameIdTwice`.
* Every execution report of an incoming order carries its final quantity, and every report of a
  resting order carries 0, whatever is left of it (`include/Protocol.h:149`).
  `EngineFills.LeavesRightIff` says exactly which of them are right, `Witnesses.WrongLeaves` is
  a run with a wrong one.
* A level total is 32 bits wide. The cache is exact just as long as no level reaches 2^32
  (`BookRuns.RunInSyncIff`), and a best level whose total is a multiple of 2^32 reads as an
  empty side (`BookLaws.ShownIff`); `BookLaws.FullLevelReadsEmpty` is a run on which both fail.
* At the book's own interface a modify to quantity 0 leaves an index entry behind, an order
  without a side rests among the asks, and an id that already rests can end up twice in the
  lists or lose its record. `Book.ModifyInvIff` and `Book.AddInvIff` say exactly when the book
  stays sound; `EngineBooks.ProcessIsBookStep` proves the engine never goes there.
* `cancelSessionOrders` believes its caller: the tracking maps stay consistent just when the set
  is the session's own orders (`EngineMessages.CancelSessionInvIff`).
* The capacity check of the queues says power of two and also accepts 0
  (`include/LockFreeQueue.h:50`), and nothing else: `Mask.StaticAssertIff`.

## Model

| member | source | states |
|---|---|---|
| OrderQueue.LevelsDetermineQueue | include/Orderbook.h:146-152 | the two representations of a side, price-keyed FIFO lists and one flattened priority queue, determine each other |
| OrderQueue.InsertAtPrice | src/Orderbook.cpp:225-232 | pushing an order appends it to the list of its own price, creating the level if needed, and touches no other level |
| OrderQueue.InsertOk | src/Orderbook.cpp:225-232 | a push with a new id and the newest stamp keeps a side in strict price-time order with distinct ids |
| OrderQueue.RemoveAtPrice | src/Orderbook.cpp:284-301 | erasing an order removes it from the list of its price only, the others keeping their order |
| OrderQueue.RemoveOk | src/Orderbook.cpp:284-301 | an erase removes exactly the order with that id and keeps the side in order |
| Matching.MatchAt | src/Orderbook.cpp:149-193 | trade i meets the i-th order of the flattened contra book at that order's price, which crosses, names both parties on their sides, and closes that order as a PARTIAL trade unless it is the last one |
| Matching.MatchEnd | src/Orderbook.cpp:164-192 | the last trade is FULL exactly when it closes both sides; the contra book afterwards is what lies behind the last trade, with the last order reduced if it was not closed |
| Matching.MatchKeepsSide | src/Orderbook.cpp:149-193 | matching leaves the contra side in price-time order, a suffix of what it was with at most its head reduced |
| Matching.MatchConserves | src/Orderbook.cpp:164-178 | what is executed is what the incoming order loses and what the contra side loses |
| Matching.MatchVolume | src/Orderbook.cpp:149-193 | the executed volume is the smaller of the incoming quantity and the total of all contra orders that cross, wherever they stand; matching stops only when filled or nothing crosses |
| Matching.MatchPrices | src/Orderbook.cpp:123-158 | trade prices move monotonically away from the best and a LIMIT order never trades worse than its price |
| Matching.BeyondLimitIff | src/Orderbook.cpp:123-136 | an IOC or MARKET order trades at a price that a LIMIT order of its price would refuse if and only if it asks for more than stands within that price and something stands beyond |
| Matching.IocPaysBeyondItsLimit | src/Orderbook.cpp:125-127 | the input: an IOC buy of 2 at 100 against 1 at 100 and 1 at 105 trades at 105 |
| Matching.ClosedIff | src/Orderbook.cpp:164-168 | trade i closes its resting order if and only if the incoming quantity covers the first i + 1 orders of the flattened contra book |
| Matching.LastTradeIff | src/Orderbook.cpp:151-162 | trade i is the last one if and only if the quantity is used up by the first i + 1 orders, the contra book ends there, or the next order does not cross |
| Matching.GoneIff | src/Orderbook.cpp:151-192 | any contra order is gone after the pass if and only if it crosses and the incoming quantity covers it with everything ahead of it |
| Matching.MatchRespectsPriority | src/Orderbook.cpp:150-193 | an order trades only if every better-priced or earlier same-price order on its side is traded for its whole quantity |
| Matching.MatchSplit | src/Orderbook.cpp:149-193 | matching q1 and then q2 leaves the same contra queue, total executed and total price times quantity as matching q1+q2 |
| LevelCache.MatchAgrees | src/Orderbook.cpp:164-276 | if the shared cache is exact for both sides it is exact after a matching pass, although fills saturate and entries are dropped at zero |
| LevelCache.InsertAgreesIff | src/Orderbook.cpp:239-249 | adding to a level keeps the cache exact if and only if the level's total stays below 2^32 |
| LevelCache.RemoveAgrees | src/Orderbook.cpp:251-276 | taking an order out of a level keeps the cache exact, the entry going with the level's last order |
| LevelCache.AddAt | src/Orderbook.cpp:239-249 | on any cache an add of nothing changes nothing, any other makes or grows the entry of its price, wrapping at 32 bits, counts one order more and touches no other entry |
| LevelCache.FillAt | src/Orderbook.cpp:251-276 | on any cache a fill of nothing, or of a price without entry, changes nothing; otherwise the entry stays if and only if quantity and count stay positive, with just that taken, and no other entry is touched |
| LevelCache.FillsCommute | src/Orderbook.cpp:251-276 | two closing fills commute on every cache, exact or not, saturation and dropped entries included |
| LevelCache.MatchCacheSplit | src/Orderbook.cpp:251-276 | passes of q1 and then q2 leave the cache that one pass of q1+q2 leaves, whatever it held |
| LevelCache.AgreesUnique | include/Orderbook.h:141-149 | at most one cache is exact for given books |
| Book.NewInv | include/Orderbook.h:149-153 | the empty book is sound and its cache exact |
| Book.TakeInv | src/Orderbook.cpp:149-201 | the matching phase keeps the book sound and uncrossed, and if quantity is left nothing on the contra side still crosses |
| Book.AddInvIff | src/Orderbook.cpp:138-237 | an add of any order, whatever its id, keeps every side in price-time order, ids distinct, the index exactly the resting ids, quantities positive and the book neither crossed nor locked, if and only if: without a side, it does not rest; with one, its id is fresh, or the order resting under it is cleared away by this very match, or it neither trades out nor rests |
| Book.AddFreshInvIff | src/Orderbook.cpp:138-237 | for a fresh id that is: if and only if the order has a side or does not rest |
| Book.CancelInv | src/Orderbook.cpp:58-80 | a cancel of any id keeps all of that and takes exactly that id out of the index |
| Book.ModifyInvIff | src/Orderbook.cpp:27-56 | a modify keeps all of that if and only if the new quantity is positive or the id is unknown |
| BookRuns.RunInv | src/Orderbook.cpp:22-237 | the representation invariant holds after every run of adds, modifies and cancels |
| BookRuns.AddInSyncIff | src/Orderbook.cpp:138-249 | an add keeps the level cache exact if and only if its own level, with what the crossing contra volume leaves of it, stays below 2^32: a condition on the book before the call |
| BookRuns.RunInSyncIff | src/Orderbook.cpp:239-276 | along every run the cache is exact after each operation if and only if no level ever reaches 2^32 |
| BookRuns.EntryIsOneLevel | src/Orderbook.cpp:239-276 | bids and asks never share a price, so the entry of a price is present exactly when one level has it, with that level's total and number of orders |
| BookRuns.AddConserves | src/Orderbook.cpp:138-237 | one add: what rested plus what came in is what rests plus twice what traded plus what a MARKET or IOC order lost |
| BookRuns.RunBalanced | src/Orderbook.cpp:27-237 | over every run: submitted plus brought in by modifies = twice traded + resting + cancelled + taken out by modifies |
| BookRuns.StepRespectsPriority | src/Orderbook.cpp:150-193 | in any operation, an order that has priority over one that trades is filled completely in the same operation and leaves the index |
| BookRuns.StepKeepsRank | src/Orderbook.cpp:27-237 | an order that no modify names keeps price, side, session and arrival stamp through every operation, losing at most quantity |
| BookRuns.RestsAtBack | src/Orderbook.cpp:49-235 | whatever comes to rest, new or modified, stands behind every order already at its price |
| BookLaws.ModifyIsCancelThenAdd | src/Orderbook.cpp:27-80 | an effective modify leaves the same books, index, aggregates and trades as cancelling and adding the order again with the new values, order status aside |
| BookLaws.ModifyToNothing | src/Orderbook.cpp:44-56 | a modify to quantity zero is a cancel that leaves the index entry behind and an empty trade log |
| BookLaws.AddThenCancel | src/Orderbook.cpp:58-276 | adding an order that does not cross and cancelling it restores both books and the index exactly, and an exact cache if and only if its level stays below 2^32 |
| BookLaws.FillUndoesAddIff | src/Orderbook.cpp:239-276 | on an exact entry a closing fill undoes an add if and only if the add does not wrap |
| BookLaws.MarketSplit | src/Orderbook.cpp:138-215 | a MARKET or IOC order split in two leaves the same book, index and level cache, total executed and total price times quantity as the whole order |
| BookLaws.AggressiveAdd | src/Orderbook.cpp:203-215 | a MARKET or IOC order never rests: its own side and the clock are unchanged and no id is added |
| BookLaws.CancelAllFilters | src/Orderbook.cpp:58-308 | cancelling a list of ids filters them out of every level, the rest keeping their order, and out of the index; an exact cache stays exact |
| BookLaws.CancelsCommute | src/Orderbook.cpp:58-80 | two cancels commute, level cache included, whether it was exact or not |
| BookLaws.CancelAllAnyOrder | src/MatchingEngine.cpp:261-267 | lists of ids with the same elements, in any order and with repetitions, cancel to the same book, index and level cache |
| BookLaws.ShownIff | src/Orderbook.cpp:315-361 | a side is quoted if and only if it is not empty and its best level's total is not a multiple of 2^32; the quote is the best price and that total modulo 2^32, and zeros otherwise |
| BookLaws.QuotesUncrossed | src/Orderbook.cpp:347-361 | with positive resting prices a two-sided quote has bid below ask, and a zero price means the side is not quoted |
| BookLaws.FullLevelReadsEmpty | src/Orderbook.cpp:239-329 | from a new book, two bids at one price that together make 2^32 (2^31 each, say) read as no bid, leave a cache entry of total zero for two orders, and so a run along which the cache is not exact |
| Mirror.FlipMatch | src/Orderbook.cpp:150-200 | the sell path is the mirror image of the buy path: matching commutes with swapping sides, reversing prices and swapping buyer and seller |
| Mirror.FlipAdd | src/Orderbook.cpp:123-237 | an add commutes with the mirror, cache and index included |
| Mirror.FlipStep | src/Orderbook.cpp:27-307 | so does every legal add, modify and cancel |
| Mirror.FlipRun | src/Orderbook.cpp:22-80 | and every run of them |
| Orders.Order.ReduceQuantity | include/Order.h:110-115 | takes the smaller of the quantity and the delta and returns it |
| Orderbooks.Orderbook.constructor | src/Orderbook.cpp:18 | a new book is empty and valid |
| Orderbooks.Orderbook.UpdateLevelOnAdd | src/Orderbook.cpp:239-249 | the in-place update is the wrapping add of LevelCache |
| Orderbooks.Orderbook.UpdateLevelOnFill | src/Orderbook.cpp:251-276 | the in-place update is the saturating fill of LevelCache |
| Orderbooks.Orderbook.PriceCrossed | src/Orderbook.cpp:123-136 | the cross test on the order object |
| Orderbooks.Orderbook.Execute | src/Orderbook.cpp:163-187 | one fill changes both quantities, level data, trade log and index together, and leaves the resting order TRADED at zero or MODIFIED with the rest |
| Orderbooks.Orderbook.FillFront | src/Orderbook.cpp:162-188 | one turn of the inner loop leaves unchanged where the whole pass will end, and the level shows the shortened queue |
| Orderbooks.Orderbook.MatchLevel | src/Orderbook.cpp:159-188 | the inner loop fills the best level from its front until it is empty or the order is filled |
| Orderbooks.Orderbook.MatchBestLevel | src/Orderbook.cpp:151-192 | one turn of the outer loop serves the best level and erases it once empty; the other levels are untouched |
| Orderbooks.Orderbook.MatchAgainst | src/Orderbook.cpp:150-194 | the nested loops terminate and compute exactly the greedy pass over the flattened contra book: trades, remaining contra orders, remaining quantity, level data and index |
| Orderbooks.Orderbook.TakeLiquidity | src/Orderbook.cpp:149-201 | the same for either side, the other side untouched |
| Orderbooks.PushBack | src/Orderbook.cpp:226-232 | pushing onto the level list is insertion into the queue |
| Orderbooks.Orderbook.Rest | src/Orderbook.cpp:225-236 | the order object rests with its level data and its index entry |
| Orderbooks.Orderbook.Close | src/Orderbook.cpp:203-223 | the incoming order's quantity and status after matching, by type and by what is left |
| Orderbooks.Orderbook.Settle | src/Orderbook.cpp:203-236 | after matching a filled order loses its record, one that rests is placed, anything else leaves the book as it is |
| Orderbooks.Orderbook.AddToBook | src/Orderbook.cpp:138-237 | for any order object not itself in the book, whatever its id, lists, level data, log, index and the object become the specified add and its outcome; index and lists stay in step unless an order of the same id still rests |
| Orderbooks.Orderbook.AddOrder | src/Orderbook.cpp:22-237 | with any id, and for a null pointer, the heap structure becomes the specified book and the order object its specified outcome, and the whole stays valid if and only if the order may enter in the sense of Book.AddInvIff |
| Orderbooks.EraseFromList | src/Orderbook.cpp:290-296 | the scan erases exactly the first order with the id |
| Orderbooks.EraseFromBook | src/Orderbook.cpp:284-301 | the level loses the order and disappears when empty |
| Orderbooks.Orderbook.RemoveOrderFromBook | src/Orderbook.cpp:278-308 | only the order's own side changes, by that order |
| Orderbooks.Orderbook.ClearOrderRecord | src/Orderbook.cpp:310-313 | drops the record of an id; index and lists stay in step if no order of that id rests |
| Orderbooks.Orderbook.TakeOut | src/Orderbook.cpp:44-49 | the order leaves its level and the level data, its record stays, and nothing else of the invariant is lost |
| Orderbooks.Orderbook.CancelOrder | src/Orderbook.cpp:58-80 | for any id the structure becomes the specified cancel and stays valid, and the object is left CANCELLED with quantity 0 |
| Orderbooks.Orderbook.ModifyOrder | src/Orderbook.cpp:27-56 | for any id, price and quantity the structure becomes the specified modify; it stays valid if and only if the quantity is positive or the id unknown |
| Orderbooks.BestLevel | src/Orderbook.cpp:317-328 | the first level in the side's order and the 32-bit sum of its list, nothing for an empty side |
| Orderbooks.Orderbook.GetBestBid | src/Orderbook.cpp:315-329 | the first bid level and its 32-bit sum |
| Orderbooks.Orderbook.GetBestAsk | src/Orderbook.cpp:331-345 | the first ask level and its 32-bit sum |
| Orderbooks.Orderbook.GetBestBidAsk | src/Orderbook.cpp:347-361 | both quotes, zeroed where a side is not quoted |
| Mask.StaticAssertIff | include/LockFreeQueue.h:50 | among the values of size_t the static assertion lets through exactly the powers of two, and zero |
| Mask.CapacityIff | include/LockFreeQueue.h:48-53 | the capacities the ring theorems speak of are exactly the powers of two that fit in a size_t |
| Mask.QueueSizesAreCapacities | include/LockFreeQueue.h:241-243 | the exchange's own queue sizes are among them |
| Mask.MaskCapacity | include/LockFreeQueue.h:62-103 | masking with Capacity - 1 is reduction modulo Capacity |
| Mask.SizeIsCount | include/LockFreeQueue.h:119-123 | the masked size, wrapping at 64 bits, is the true count for every capacity |
| Spsc.RoomVerdict | include/LockFreeQueue.h:62-66 | push gives up exactly when the ring is full with respect to the head it saw |
| Spsc.ItemVerdict | include/LockFreeQueue.h:98-100 | pop gives up exactly when everything up to the tail it saw has been taken |
| Spsc.PushRefusedIff | include/LockFreeQueue.h:61-66 | whatever admissible head a push has loaded, it returns false if and only if the ring is full with respect to it, and goes on to the slot if not |
| Spsc.PopEmptyIff | include/LockFreeQueue.h:96-102 | whatever admissible tail a pop has loaded, it returns nothing if and only if all up to it is consumed, and otherwise goes on to the slot of the next item |
| Spsc.StepInv | include/LockFreeQueue.h:60-105 | every atomic step of either side, with any admissible stale read, keeps the ring's invariant |
| Spsc.Fifo | include/LockFreeQueue.h:60-123 | for every interleaving pushed = popped followed by the contents in order, each in its slot; at most Capacity - 1 are held and size() is their number |
| Spsc.SlotsNotShared | include/LockFreeQueue.h:68-103 | producer and consumer never access the same slot at once, and each access is ordered after the other side's by an index it has acquired |
| Mpsc.StepInv | include/LockFreeQueue.h:155-212 | every step of any thread keeps mutual exclusion, the ring's invariant and the push history |
| Mpsc.Correct | include/LockFreeQueue.h:155-230 | for any number of producers and every interleaving: one producer in the critical section, popped a prefix of pushed, pushes in lock-acquisition order, at most Capacity - 1 held, size() exact; and of each producer the queue has taken, in the order of its calls, exactly the items of the calls that returned true and of at most one that has stored the tail and is about to |
| Mpsc.AllReturned | include/LockFreeQueue.h:155-196 | when no call of a producer is running, the queue has taken exactly the items of its calls that returned true, in call order |
| Mpsc.SlotsNotShared | include/LockFreeQueue.h:155-212 | in every reachable state at most one producer may write a slot, never one the consumer may read, and each access is ordered after the other side's by an index it has acquired |
| MpscCalls.LockTakenIff | include/LockFreeQueue.h:156-158 | an exchange takes the lock if and only if it is free, and changes nothing if not |
| MpscCalls.RefusedIff | include/LockFreeQueue.h:160-166 | whatever admissible head a push has loaded, it is refused if and only if the ring is full with respect to it, and goes on to the slot with its item if not |
| MpscCalls.RefusedWhenFullIff | include/LockFreeQueue.h:163-166 | the newest head refuses a push if and only if Capacity - 1 items are held |
| MpscCalls.PushAlone | include/LockFreeQueue.h:155-172 | a push on an unlocked queue that nobody disturbs runs through: with room it appends the item and returns true, without it changes nothing and returns false, and the lock is free again |
| MpscCalls.PopAlone | include/LockFreeQueue.h:202-212 | a pop that nobody disturbs takes the first item of a queue that holds any |
| RingQueue.Queue.constructor | include/LockFreeQueue.h:53 | a new queue is empty |
| RingQueue.Queue.Push | include/LockFreeQueue.h:60-71 | appends the item, or returns false and changes nothing exactly when Capacity - 1 items are held |
| RingQueue.Queue.Pop | include/LockFreeQueue.h:95-105 | removes and returns the first item, or nothing exactly when empty |
| RingQueue.Queue.IsEmpty | include/LockFreeQueue.h:111-113 | exact with no call in flight |
| RingQueue.Queue.Size | include/LockFreeQueue.h:119-123 | the exact number of items with no call in flight |
| EngineRuns.ProcessInv | src/MatchingEngine.cpp:66-259 | every message, valid or not, keeps the tracking maps inverse to each other, ids below the next id, everything that rests LIMIT, positively priced and tracked to its own session, and the book sound |
| EngineRuns.ProcessAllInv | src/MatchingEngine.cpp:45-80 | the same over every run of messages |
| EngineRuns.AcceptInv | src/MatchingEngine.cpp:109-181 | an accepted order keeps that invariant, tracked while it can still rest |
| EngineRuns.CancelHandlerInv | src/MatchingEngine.cpp:184-212 | a cancel request, accepted or not, keeps it |
| EngineRuns.ModifyHandlerInv | src/MatchingEngine.cpp:214-259 | a modify request, accepted or not, keeps it |
| EngineAnswers.StatusAfterAdd | src/Orderbook.cpp:203-223 | status and quantity after an add, told by the crossing contra volume before it: TRADED if that covers the order, CANCELLED for a MARKET or IOC order it does not, else MODIFIED if there was any or the order came MODIFIED, else NEW |
| EngineAnswers.ModifiedOrder | src/Orderbook.cpp:51-55 | what rests of an effectively modified order is the order at the new price, with the new quantity less the volume it could reach, MODIFIED, newly stamped |
| EngineAnswers.RequestDecided | src/MatchingEngine.cpp:82-136 | on the request's bytes: side 1 buys, 2 sells, type 1 is LIMIT, 2 IOC, 3 MARKET; accepted if and only if side and type are among these, the quantity is positive and a LIMIT price is, and then that very order is added to the book; otherwise one reject with the first failing reason is sent and only the request counter moves |
| EngineAnswers.RequestAcknowledged | src/MatchingEngine.cpp:109-171 | the last message about an accepted request acknowledges its new id with the status the book before it tells |
| EngineAnswers.CancelAnswered | src/MatchingEngine.cpp:184-212 | unless the id is tracked and the session is its owner's or the dummy session, one reject and no other change; otherwise the order leaves the book and all three maps, every other entry stays, one acknowledgement and one tick of the new book follow, and nothing else moves |
| EngineAnswers.CancelAgain | src/MatchingEngine.cpp:184-190 | the same cancel a second time adds one reject with ORDER_NOT_FOUND and nothing else |
| EngineAnswers.ModifyAnswered | src/MatchingEngine.cpp:214-259 | refused for ownership, price or quantity, in this order, with one reject and no other change; accepted, the book is modified, ids and tracking stay, the last trade of the log is remembered if there is one, one acknowledgement is sent and the feed ends with the tick of the new book |
| EngineAnswers.ModifyTickShowsItsTrade | src/MatchingEngine.cpp:246-258 | the tick after a modify that trades shows the last of its own trades |
| EngineAnswers.DisconnectAnswered | src/MatchingEngine.cpp:261-273 | a session cancel sends nothing, publishes one tick of the new book if and only if the set is not empty, and changes only book, tracking and feed |
| EngineAnswers.OtherIgnored | src/MatchingEngine.cpp:77-79 | any other message changes nothing |
| EngineAnswers.RequestsCounted | src/MatchingEngine.cpp:83 | each request for a new order, refused or not, is counted once, and nothing else is |
| EngineBooks.ProcessIsBookStep | src/MatchingEngine.cpp:82-239 | validation and fresh ids make every message at most one operation that the book allows |
| EngineBooks.RunIsBookRun | src/MatchingEngine.cpp:66-259 | the book inside the engine goes through a legal run of book operations, so every run theorem applies to it |
| EngineBooks.EngineConserves | src/MatchingEngine.cpp:66-259 | from a new engine and any messages, quantity is conserved, and the cache stays exact if and only if no level reaches 2^32 |
| Isolation.MatchFillsEach | src/Orderbook.cpp:162-188 | in one pass, what is left of each resting order and what it traded add up to what it had |
| Isolation.StepFillsEach | src/Orderbook.cpp:22-237 | in every operation a resting order that it does not name keeps its quantity less exactly what it trades, on whichever side it rests |
| Isolation.OthersOnlyTrade | src/MatchingEngine.cpp:184-236 | a message of another session, the dummy session aside, changes a resting order only by trading with it; what is left keeps its price and rank |
| Ownership.RunAccounts | src/Orderbook.cpp:22-237 | over a run of operations about other orders, what is left of an order plus all it traded is what there was, also after it is gone |
| Ownership.OnlyTradesOverRun | src/MatchingEngine.cpp:66-273 | over a run of messages and disconnects in which neither its owner nor the dummy session names it, a resting order keeps exactly its quantity less all it traded, and what is left keeps price, side and arrival |
| EngineMessages.TradesMeetResting | src/MatchingEngine.cpp:158-161 | every trade's passive id is an order that was resting on the contra side |
| EngineMessages.NewOrderReports | src/MatchingEngine.cpp:138-181 | every trade of an accepted order finds its passive owner and emits exactly two reports of opposite sides and equal price and quantity with consecutive trade ids, and one trade update; then one acknowledgement and one tick |
| EngineMessages.NewOrderTick | src/MatchingEngine.cpp:146-181 | the tick of an accepted order comes last and shows its last trade, or the earlier one if it made none, and the book it left |
| EngineFills.PassiveGoneIff | src/MatchingEngine.cpp:158-167 | the resting order of trade i is gone after the add if and only if the incoming quantity covers the first i + 1 orders of the other side |
| EngineFills.FinalQtyIff | src/MatchingEngine.cpp:155-156 | the final quantity is what was open after trade i if and only if, read off the book before the add, that trade is the last one and the order does not lose a remainder |
| EngineFills.LeavesRightIff | src/MatchingEngine.cpp:153-167 | of the two reports of trade i, the leavesQty 0 of the resting order is right if and only if the incoming quantity covers the first i + 1 orders of the other side, and that of the incoming order for the last trade only, if it does not lose a remainder |
| EngineMessages.AcceptTracksIffRests | src/MatchingEngine.cpp:130-178 | after acceptance the order is tracked, with its session and client id, if and only if it rests; what the maps say of every other order is unchanged |
| EngineMessages.ModifyFeed | src/MatchingEngine.cpp:238-258 | what an accepted modify publishes: one update per trade in the log, then one acknowledgement and one tick |
| EngineMessages.ModifyPublishesOnceIff | src/MatchingEngine.cpp:241-252 | the updates are those of its own trades if and only if it took effect or the log was empty |
| EngineMessages.ModifyAggressor | src/MatchingEngine.cpp:249-251 | for an effective modify the published aggressor is the modified order's side |
| EngineMessages.NewTradesIff | src/MatchingEngine.cpp:238-242 | an accepted modify makes no trade if and only if the order does not rest, nothing changes, the other side is empty, or its best price is not crossed by the new price |
| EngineMessages.ModifyReportsIff | src/MatchingEngine.cpp:238-258 | a modify sends no execution report, and hence the two per trade that a new order gets if and only if that same condition on the book before the call holds |
| Witnesses.SilentTrade | src/MatchingEngine.cpp:238-258 | from a new engine: a sell, a lower buy of the same size, and the buy modified to the sell's price; it trades and nobody gets an execution report |
| Witnesses.OldTradeRepublished | src/MatchingEngine.cpp:241-252 | from a new engine: a sell, a buy that fills it, and a modify of the filled sell; nothing trades, the book is unchanged, the old trade goes out again and the counter says two |
| Witnesses.SameIdTwice | src/MatchingEngine.cpp:391 | the same modify once more: the feed carries two updates with one trade id |
| Witnesses.FilledOrderCancelled | src/MatchingEngine.cpp:184-212 | from a new engine: a sell, a buy that fills it, and a cancel of the filled sell; it is acknowledged and the book is unchanged |
| Witnesses.WrongLeaves | src/MatchingEngine.cpp:163-166 | from a new engine: a sell of 2 and a buy of 1 at its price; the seller's report says 0 is left and 1 is |
| EngineCounters.CounterOverRun | src/MatchingEngine.cpp:139-141 | over every run of messages and disconnects the trade counter grows, modulo 2^64, by the trades made plus the logged trades that modifies without effect find |
| EngineCounters.CounterRightIff | include/MatchingEngine.h:107-111 | the counter is the number of trades made if and only if what was counted again is a multiple of 2^64; while less than that was, if and only if every accepted modify without effect meets an empty trade log |
| EngineCounters.RequestsOverRun | include/MatchingEngine.h:101-105 | over every run ordersProcessed grows, modulo 2^64, by the requests for new orders |
| EngineCounters.RunIds | src/MatchingEngine.cpp:381-397 | the trade ids on the feed of a run: two drawn per trade of a new order, none drawn by a modify |
| EngineCounters.DistinctIff | src/MatchingEngine.cpp:391 | until trade ids run out, the ids of a run's updates are distinct if and only if every update but the last comes from a new order |
| EngineMessages.NewOrderKeepsTracked | src/MatchingEngine.cpp:158-178 | a new order untracks no other order, filled ones included |
| EngineMessages.CancelDoesNothingIff | src/MatchingEngine.cpp:184-212 | a cancel of a tracked id by a session that may touch it is always acknowledged, and leaves the book as it is if and only if the order no longer rests |
| EngineMessages.TickDescribesBook | src/MatchingEngine.cpp:399-421 | a tick shows the last trade, has bid below ask when both are quoted, and while no level reaches 2^32 shows for each side the best price and the whole quantity there, or zeros exactly for an empty side |
| EngineMessages.RunTicksOk | src/MatchingEngine.cpp:399-421 | every tick of every run is uncrossed, with a price exactly where there is a quantity |
| EngineSessions.EventsInv | src/MatchingEngine.cpp:66-273 | the engine's invariant over every interleaving of messages and session cancels given exactly the session's set |
| EngineSessions.NothingLeftOf | src/MatchingEngine.cpp:261-273 | after such a cancel nothing is tracked to the session and none of its orders rests |
| EngineSessions.EventsAreBookRun | src/MatchingEngine.cpp:66-273 | the book inside goes through a legal run of book operations, so every run theorem applies with disconnects too |
| EngineSessions.RunTicksExact | src/MatchingEngine.cpp:399-421 | along a run of messages and disconnects in which no level reaches 2^32, every tick shows, for the book that some event left, the best price and whole quantity of each side, and zeros exactly for an empty side |
| EngineSessions.MessagesAreEvents | src/MatchingEngine.cpp:45-80 | runs of messages alone are such runs |
| EngineMessages.CancelSessionAnyOrder | src/MatchingEngine.cpp:261-273 | the engine after a session cancel, level cache included, does not depend on the order of the hash set: those ids are filtered from every level, the index and the tracking |
| EngineMessages.CancelSessionInvIff | src/MatchingEngine.cpp:261-273 | a session cancel keeps the tracking maps consistent if and only if, among tracked orders, it is given exactly the session's |
| MatchingEngines.MatchingEngine.constructor | src/MatchingEngine.cpp:6-15 | a new engine has an empty book, ids from 1 and empty tracking, and is sound |
| MatchingEngines.MatchingEngine.PublishTickUpdate | src/MatchingEngine.cpp:399-421 | a tick read off the book's best levels and the last trade |
| MatchingEngines.MatchingEngine.ReportAll | src/MatchingEngine.cpp:138-168 | the trade loop emits what the fold over the trade log says |
| MatchingEngines.MatchingEngine.BookOrder | src/MatchingEngine.cpp:109-136 | the id is drawn, the order tracked and added; the engine is sound in between, so the trade loop finds every owner |
| MatchingEngines.MatchingEngine.AnswerOrder | src/MatchingEngine.cpp:138-181 | reports, acknowledgement, untracking of an order that came to an end, and the tick, in that order |
| MatchingEngines.MatchingEngine.AcceptOrder | src/MatchingEngine.cpp:109-181 | the new order object is tracked, added, reported, acknowledged and, if it came to an end, untracked; the engine stays sound |
| MatchingEngines.MatchingEngine.HandleNewOrder | src/MatchingEngine.cpp:82-182 | the four checks in order, each with its reject reason, then acceptance; the engine stays sound |
| MatchingEngines.MatchingEngine.HandleCancelOrder | src/MatchingEngine.cpp:184-212 | ownership check, cancel, untracking, acknowledgement and tick; the engine stays sound |
| MatchingEngines.MatchingEngine.RepublishAll | src/MatchingEngine.cpp:242-252 | the trade loop publishes what the fold over the trade log says |
| MatchingEngines.MatchingEngine.HandleModifyOrder | src/MatchingEngine.cpp:214-259 | ownership, price and quantity checks in order, modify, republished trades, acknowledgement and tick; the engine stays sound |
| MatchingEngines.MatchingEngine.CarryOut | src/MatchingEngine.cpp:238-258 | an accepted modify: the book changes first, then the log is republished, then acknowledgement and tick |
| MatchingEngines.MatchingEngine.CancelSessionOrders | src/MatchingEngine.cpp:261-273 | for any set, in whatever order it is visited, the engine becomes the one session cancel of that set, and stays sound if and only if, among tracked orders, the set holds exactly the session's |
| MatchingEngines.MatchingEngine.VisitSession | src/MatchingEngine.cpp:262-272 | the loop over the set, the session's entry and the tick, for the order the set is visited in |
| MatchingEngines.MatchingEngine.ProcessInboundMessage | src/MatchingEngine.cpp:66-80 | dispatch on the message type; other types change nothing; the engine stays sound |
| MatchingEngines.MatchingEngine.Drain | src/MatchingEngine.cpp:49-63 | the pop loop empties the queue, and the engine is the fold of processInboundMessage over what it held, first in first out |
| Shutdown.StepInv | src/MatchingEngine.cpp:45-64 | every step of producers, engine thread and stopping thread keeps the composed invariant |
| Shutdown.StopDrains | src/MatchingEngine.cpp:32-64 | for every interleaving the engine has processed exactly the messages popped; once its loop has ended no producer is left, the queue is empty and the engine is the fold over the pushed messages in the order the pushes took effect, which are, producer by producer and in call order, exactly those whose push returned true, each once |
| Shutdown.EngineStaysSound | src/MatchingEngine.cpp:45-80 | and it keeps its own invariant all the way |
| ShutdownRuns.LoopAfterCheckIff | src/MatchingEngine.cpp:46-63 | whatever admissible tail a pop of the loop has loaded: with something to take it goes on to take it; with nothing the loop ends if it is draining and looks at running_ again if it is not |
| ShutdownRuns.LoopAfterLoad | src/MatchingEngine.cpp:46-49 | the load of running_ sends the loop to poll if it is seen true, and to drain if not |
| ShutdownRuns.PopThenHandle | src/MatchingEngine.cpp:49-62 | a finished pop hands its item to the engine, which processes just that and goes on popping |
| ShutdownRuns.Serve | src/MatchingEngine.cpp:46-52 | from every reachable state in which it has not seen the stop the engine thread alone can handle all that is queued |
| ShutdownRuns.ServedWhileRunning | src/MatchingEngine.cpp:45-58 | for any list of up to Capacity - 1 messages there is a run after which the engine has handled them all, in order, and still runs |
| ShutdownRuns.Finish | src/MatchingEngine.cpp:45-64 | from every reachable state after the stop the engine thread alone can run to the end of its loop, with every accepted message handled |
| ShutdownRuns.MessagesGetThrough | src/MatchingEngine.cpp:45-80 | for any list of up to Capacity - 1 messages there is a run from a new system that accepts them all, handles them in order and ends |

## Left out

- ZeroMQ server, UDP multicast, feed formatting, client programs, console output, command line, signals and thread creation: input and output. `main.cpp` and the clients are not part of this model.
- The wire structs of `include/Protocol.h`: layout only. Messages carry the fields the handlers use; symbol and header are not modelled.
- `DummyGenerator`: random traffic. It is an arbitrary producer of the inbound queue.
- `SessionManager`: small map updates. `cancelSessionOrders` is modelled as a handler on its own, since nothing that calls it is reachable from the matching loop.
- Wall-clock timestamps: matching never reads them. `clientOrderId` inside the order object, which nothing reads, is kept in the engine's map only.
- Failed pushes to the outbound and feed queues: the engine ignores their result, so `sent` and `feed` list every message pushed, accepted by the queue or not.
- `matchOrder` is declared (`include/Orderbook.h:155`) and never defined; null order pointers inside the index cannot arise and are not modelled. A null argument to `AddOrder` is.
- The price of the mirror image is -1 - p, not -p: negation does not map the 32-bit prices onto themselves, and matching only compares prices.
- Spin-lock liveness and fairness: that a spinning producer ever gets the lock is not proved. `MpscCalls` and `ShutdownRuns` prove which calls and runs can complete, not that they must.
- The queues as step systems (`Spsc`, `Mpsc`, `Shutdown`) are modelled on values, since interleaved steps of threads are transitions of a shared state; `RingQueue` has the array and its in-place updates but takes one call at a time, and no lock.
- An interleaving takes loads and stores one at a time with stale values for the other side's index; data races on a slot are excluded by `Spsc.SlotsNotShared` and `Mpsc.SlotsNotShared`, not modelled as undefined behaviour.
- Orderbooks.Orderbook.AddOrder: the order object must not itself be in the book already; adding one object twice would alias a level's list with the caller's order.
- BookRuns.RunInv: runs add orders under fresh ids, as the engine does; `Book.AddInvIff` says what any other id does to the book, and the run theorems do not continue from a book it has broken.
- EngineRuns.ProcessAllInv: holds until the 64-bit order ids run out; the wrap of `nextOrderId_` is modelled, what happens to tracking after it is not.
- MatchingEngines.MatchingEngine.Drain: one pop loop of the matching thread with no producer at work; the loop among running producers is in `Shutdown`.
