# gsr matching engine — a Dafny model of the order book core

The gsr matching engine keeps one limit order book per instrument (BTCUSD, ETHUSD, SOLUSD) and side
(bid, offer). A feed decoder turns text lines into market-data messages. A distributor routes each
message and each analytics request to the queues of its book. One book processor per book runs a
loop that alternates two phases:

- a bounded phase that applies market data to the book;
- a bounded phase that answers analytics requests (average price, accumulated quantity, VWAP) from
  result caches.

The caches are cleared whenever the book changed.

The model follows the program's structure:

| module | what it holds |
|---|---|
| `Data` | the enums, Java `double` results as `Num` (finite, infinite or NaN), and Java's `long`/`int` wrap-around and truncating division |
| `Keys` | `OrderBookKey` equality and hashing |
| `Messages`, `Requests`, `Pools`, `Queues` | the mutable message record, the single-shot request result slot, the message pool, and the FIFO hand-over queues, as classes |
| `Levels` | `PriceLevel`, a class with two links |
| `BookSpec` | the abstract book: a strictly sorted sequence of `(price, quantity)` levels, with the upsert and remove updates on it |
| `Analytics` | the three calculations on the abstract book |
| `Books` | the concrete book: top of book, price index and the doubly linked chain of levels, tied to the abstract book by a ghost chain and the invariant `Valid()` |
| `BidSide`, `OfferSide` | the side-specific insertion walk and the analytics walks, as methods with loops over the linked levels, proved against `Analytics` |
| `Processor` | `OrderBookProcessor`: `processMessage`, the caches, the two loop phases and one pass of the engine loop |
| `JavaText`, `Serializer` | `String.split`, `Long.parseLong`, and the feed decoder with its offer/retry loop |
| `Distributor` | `OrderBookDistributor`: its routing tables and one round of each of its three threads |

The engine's notions, as the model states them:

- **Prices** are fixed point: the price times 100.
- **Abstract book.** A side's book is the sequence of its levels from the top of book outward. Bids run
  from the highest price down, offers from the lowest price up.
- **Invariant.** Every upsert and remove keeps the book strictly sorted with one level per price. The
  concrete linked chain and the price index always show exactly the abstract book.
- **Analytics.** Each answer equals a function of the abstract book. Averages lie between the best and
  worst price visited. The cache never serves a value that is stale for the current book.
- **Clock.** `System.nanoTime` is a parameter of the processor: a function from the number of readings
  taken to the value read.
- **Queues.** The offer outcomes of the feed's engine queue are an input sequence of booleans.
- **Corrected behaviour.** Where the source has a defect (see "## Findings"), the processor and the
  side walks use the corrected members: `Levels.PriceLevel.Populate`, `BidSide.LinkBetween`,
  `OfferSide.LinkBetween` and the top-of-book reseat in `Processor.OrderBookProcessor.RemovePriceLevel`.
  The behaviour as written exists only in the members whose names end in `AsWritten`, next to the
  lemmas that exhibit each defect.

## Model

Paths are relative to the repository root.

| member | source | states |
|---|---|---|
| Data.Divide | src/main/java/com/gsr/engine/BidOrderBookProcessor.java:39 | a `long` divided by a `long` widened to `double` is finite exactly when the divisor is non-zero, then times the divisor gives the dividend; 0/0 is NaN |
| Data.TruncatedQuotient | src/main/java/com/gsr/data/Message.java:71 | Java's `price / 100` rounds toward zero: bounded from below for non-negative and from above for negative dividends |
| Data.Wrap32 | src/main/java/com/gsr/data/OrderBookKey.java:25 | `int` arithmetic: the result lies in the 32-bit range and is congruent to the exact value modulo 2^32 |
| Data.Wrap64 | src/main/java/com/gsr/engine/OrderBookProcessor.java:206 | `long` arithmetic: the result lies in the 64-bit range, is congruent modulo 2^64 and is the exact value when that fits |
| Keys.Equals | src/main/java/com/gsr/data/OrderBookKey.java:16-21 | a key equals exactly the keys with its pair and side, never null and never an object of another class |
| Keys.HashCode | src/main/java/com/gsr/data/OrderBookKey.java:24-26 | `Objects.hash(pair, side)` is a 32-bit value |
| Keys.EqualsReflexive | src/main/java/com/gsr/data/OrderBookKey.java:17 | a key equals itself |
| Keys.EqualsSymmetric | src/main/java/com/gsr/data/OrderBookKey.java:20 | equality of keys is symmetric |
| Keys.NotEqualToNullOrOther | src/main/java/com/gsr/data/OrderBookKey.java:18 | a key equals neither null nor an object of another class |
| Keys.EqualKeysHashAlike | src/main/java/com/gsr/data/OrderBookKey.java:15-26 | equal keys have equal hash codes, whatever the enum hashes are |
| Messages.Message.constructor | src/main/java/com/gsr/data/Message.java:7-14 | a new message has null enums and zero numbers |
| Messages.Message.SetKind | src/main/java/com/gsr/data/Message.java:20-22 | sets the type and nothing else |
| Messages.Message.SetPair | src/main/java/com/gsr/data/Message.java:28-30 | sets the pair and nothing else |
| Messages.Message.SetSide | src/main/java/com/gsr/data/Message.java:52-54 | sets the side and nothing else |
| Messages.Message.SetQuantity | src/main/java/com/gsr/data/Message.java:36-38 | sets the quantity and nothing else |
| Messages.Message.SetPrice | src/main/java/com/gsr/data/Message.java:44-46 | sets the price and nothing else |
| Messages.Message.SetTime | src/main/java/com/gsr/data/Message.java:75-77 | sets the time stamp and nothing else |
| Messages.Message.PopulateFields | src/main/java/com/gsr/data/Message.java:56-62 | copies type, pair, side, quantity and price from the other message and keeps this message's time |
| Messages.DisplayPrice | src/main/java/com/gsr/data/Message.java:71 | `toString` shows a whole number: the price divided by 100, rounded toward zero |
| Messages.DisplayDropsCents | src/main/java/com/gsr/data/Message.java:71 | 123.45 and -123.45 are shown as 123.0 and -123.0 |
| Requests.Request.constructor | src/main/java/com/gsr/analytics/Request.java:17-24 | a new request holds its arguments and an empty result slot |
| Requests.Request.PopulateResultFromLong | src/main/java/com/gsr/analytics/Request.java:38-40 | the widened value is stored only into an empty slot |
| Requests.Request.PopulateResult | src/main/java/com/gsr/analytics/Request.java:42-44 | stores only into an empty slot and returns true exactly when it did |
| Requests.Request.GetResult | src/main/java/com/gsr/analytics/Request.java:46-48 | on a filled slot: returns the stored value and empties the slot |
| Requests.FirstResultWins | src/main/java/com/gsr/analytics/Request.java:38-44 | after a first populate, a second one through either overload is refused and the first value stays |
| Pools.MessagePool.AcquireObject | src/main/java/com/gsr/feed/MessageSerializerImpl.java:73 | takes a pooled message out of the free multiset, or makes a fresh blank one when the pool is empty |
| Pools.MessagePool.ReturnObject | src/main/java/com/gsr/engine/OrderBookProcessor.java:148 | adds the message to the free multiset |
| Queues.Queue.Add | src/main/java/com/gsr/engine/OrderBookProcessor.java:109 | appends at the tail |
| Queues.Queue.Poll | src/main/java/com/gsr/engine/OrderBookProcessor.java:71 | returns and removes the head, or null on an empty queue that stays empty |
| Levels.PriceLevel.constructor | src/main/java/com/gsr/engine/PriceLevel.java:14 | a new level has zero price and quantity and no neighbours |
| Levels.PriceLevel.PopulateAsWritten | src/main/java/com/gsr/engine/PriceLevel.java:16-20 | as written, the quantity is stored into both price and quantity |
| Levels.PriceLevel.Populate | src/main/java/com/gsr/engine/PriceLevel.java:16-20 | the level takes the given price and quantity (the corrected `populate`, see Findings) |
| Levels.PriceLevel.AdjustQuantity | src/main/java/com/gsr/engine/PriceLevel.java:26-28 | the quantity grows by the adjustment |
| Levels.PriceLevel.SetNextHigher | src/main/java/com/gsr/engine/PriceLevel.java:54-56 | sets the higher link only |
| Levels.PriceLevel.SetNextLower | src/main/java/com/gsr/engine/PriceLevel.java:58-60 | sets the lower link only |
| Levels.PriceLevel.RemovePriceFromBook | src/main/java/com/gsr/engine/OrderBookProcessor.java:143 | the two neighbours are linked to each other, the level's own links are cleared, and the result is true exactly when it had no neighbours |
| Levels.PopulateLosesPrice | src/main/java/com/gsr/engine/PriceLevel.java:18 | populating with price 100.00 and quantity 5 stores price 5 |
| BookSpec.BeatsAsymmetric | src/main/java/com/gsr/engine/BidOrderBookProcessor.java:86 | "better than" is a strict order on prices for either side |
| BookSpec.SortedTail | src/main/java/com/gsr/engine/BidOrderBookProcessor.java:102-109 | a sorted book's tail is sorted and its top beats every other level |
| BookSpec.InsertLevelAt | src/main/java/com/gsr/engine/BidOrderBookProcessor.java:85-110 | the insertion walk places the new level before the first level it beats: every earlier level is at least as good, the next one is worse |
| BookSpec.InsertLevelSorted | src/main/java/com/gsr/engine/BidOrderBookProcessor.java:85-110 | inserting a new price keeps the book strictly sorted, adds exactly that price and exactly one level |
| BookSpec.InsertionPointUnique | src/main/java/com/gsr/engine/OfferOrderBookProcessor.java:27-48 | the walk's insertion point is the only position that leaves the book sorted |
| BookSpec.RemovePriceAt | src/main/java/com/gsr/engine/OrderBookProcessor.java:141-146 | removing a price on a sorted book takes out exactly its one level |
| BookSpec.RemoveAbsent | src/main/java/com/gsr/engine/OrderBookProcessor.java:142-143 | removing a price that is not on the book changes nothing |
| BookSpec.AdjustAt | src/main/java/com/gsr/engine/OrderBookProcessor.java:173 | adjusting a price on the book changes that level's quantity and nothing else |
| BookSpec.AdjustAbsent | src/main/java/com/gsr/engine/OrderBookProcessor.java:167-176 | adjusting a price not on the book changes nothing |
| BookSpec.RemovePriceSorted | src/main/java/com/gsr/engine/OrderBookProcessor.java:141-149 | a remove keeps the book sorted and takes exactly its price out of the price set |
| BookSpec.AdjustKeepsPrices | src/main/java/com/gsr/engine/PriceLevel.java:26-28 | an adjustment keeps the length and every price |
| BookSpec.SamePricesSorted | src/main/java/com/gsr/engine/PriceLevel.java:26-28 | a book with the same prices in the same order is sorted and has the same price set |
| BookSpec.ApplySorted | src/main/java/com/gsr/engine/OrderBookProcessor.java:138-157 | every update keeps the book strictly sorted; an upsert adds its price to the price set and a remove takes it out |
| BookSpec.ApplyAllSorted | src/main/java/com/gsr/engine/OrderBookProcessor.java:73-84 | any stream of updates applied to a sorted book leaves it sorted |
| BookSpec.ApplyAllNext | src/main/java/com/gsr/engine/OrderBookProcessor.java:73-84 | the book after one more message is the book after the prefix with that message applied |
| BookSpec.UpsertTwiceAccumulates | src/main/java/com/gsr/engine/OrderBookProcessor.java:167-176 | two upserts at one price leave a single level there holding both quantities |
| BookSpec.InsertedQuantity | src/main/java/com/gsr/engine/OrderBookProcessor.java:185-187 | the inserted level carries the upsert's quantity |
| BookSpec.RemoveOnlyLevel | src/main/java/com/gsr/engine/OrderBookProcessor.java:143-145 | removing the only level empties the book |
| BookSpec.SortedPriceUnique | src/main/java/com/gsr/engine/OrderBookProcessor.java:24 | in a sorted book a price sits at one position only, so one index entry per price suffices |
| BookSpec.TopIsBest | src/main/java/com/gsr/engine/OrderBookProcessor.java:27 | the top of a sorted book beats every other level |
| BookSpec.SortedSplice | src/main/java/com/gsr/engine/BidOrderBookProcessor.java:93-99 | a level priced strictly between its new neighbours keeps the book sorted |
| Books.View | src/main/java/com/gsr/engine/PriceLevel.java:9-12 | the abstract levels of a chain, one per level object, in chain order |
| Books.SpliceLinked | src/main/java/com/gsr/engine/BidOrderBookProcessor.java:93-99 | a chain with a level spliced in is linked both ways when the level and its neighbours point at each other |
| Books.SpliceSorted | src/main/java/com/gsr/engine/BidOrderBookProcessor.java:85-110 | after a splice the abstract book is the old one with the new level at that position, still sorted |
| Books.Neighbours | src/main/java/com/gsr/engine/PriceLevel.java:46-52 | in a linked chain a level's links are the chain's previous and next levels, null at the ends |
| Books.UnsplicedLevels | src/main/java/com/gsr/engine/OrderBookProcessor.java:141-146 | taking a level out of a sorted chain shows the abstract book without that price, still sorted |
| Books.SplicedLevels | src/main/java/com/gsr/engine/OrderBookProcessor.java:185-194 | a level spliced in where the chain stays sorted sits where the insertion walk would put it |
| Books.UnspliceLinked | src/main/java/com/gsr/engine/OrderBookProcessor.java:143 | after the neighbours of a removed level are linked to each other, the shorter chain is linked both ways |
| Books.IndexRemove | src/main/java/com/gsr/engine/OrderBookProcessor.java:142 | removing a level from the chain and its price from the index keeps them in step |
| Books.IndexInsert | src/main/java/com/gsr/engine/OrderBookProcessor.java:167-176 | inserting a new level into the chain and indexing it keeps them in step |
| Books.OrderBook.constructor | src/main/java/com/gsr/engine/OrderBookProcessor.java:24-27 | a new book has no top, an empty index and an empty chain, and is valid |
| Books.OrderBook.ChainDistinct | src/main/java/com/gsr/engine/OrderBookProcessor.java:24 | no level occurs twice in a valid chain |
| Books.OrderBook.Detachable | src/main/java/com/gsr/engine/OrderBookProcessor.java:143 | a level of a valid chain is not its own neighbour, its neighbours differ, and it has no neighbours exactly when it is the only level |
| Books.OrderBook.SetIndex | src/main/java/com/gsr/engine/OrderBookProcessor.java:142 | replacing the index by one that indexes the chain keeps the book valid and its levels unchanged |
| Books.OrderBook.IndexedPrice | src/main/java/com/gsr/engine/OrderBookProcessor.java:142 | a price is in the index exactly when it is on the book |
| Books.OrderBook.IndexPosition | src/main/java/com/gsr/engine/OrderBookProcessor.java:167-173 | the indexed level of a price is the only level of the chain at that price |
| Books.OrderBook.IndexMatchesLevels | src/main/java/com/gsr/engine/OrderBookProcessor.java:24 | the index keys are exactly the prices of the book |
| Analytics.Clamp | src/main/java/com/gsr/engine/BidOrderBookProcessor.java:31 | a walk bounded by `limit` visits `limit` levels, none for a non-positive limit, all on a shorter book |
| Analytics.VisitedLength | src/main/java/com/gsr/engine/BidOrderBookProcessor.java:31-36 | the visited prefix has the clamped length and is the whole book once the limit reaches its size |
| Analytics.TotalsStep | src/main/java/com/gsr/engine/BidOrderBookProcessor.java:33 | each loop step adds its level's price, quantity and price times quantity |
| Analytics.TotalPriceBounds | src/main/java/com/gsr/engine/BidOrderBookProcessor.java:33 | a sum of prices in [lo, hi] lies between count times lo and count times hi |
| Analytics.TotalWeightBounds | src/main/java/com/gsr/engine/BidOrderBookProcessor.java:63 | with non-negative quantities the weight sum lies between lo and hi times the quantity sum |
| Analytics.TotalQuantityPrefix | src/main/java/com/gsr/engine/BidOrderBookProcessor.java:48-52 | with non-negative quantities a longer prefix holds at least as much |
| Analytics.AccumulatedQuantityMonotone | src/main/java/com/gsr/engine/BidOrderBookProcessor.java:43-55 | the accumulated quantity is non-negative and grows with the level count |
| Analytics.BidAverageWithinVisited | src/main/java/com/gsr/engine/BidOrderBookProcessor.java:20-40 | on a bid book the average price lies between the lowest and the highest visited price |
| Analytics.OfferAverageWithinVisited | src/main/java/com/gsr/engine/OfferOrderBookProcessor.java:61-78 | on an offer book the average lies between the best and the worst of the `limit + 1` visited prices |
| Analytics.MeanWithin | src/main/java/com/gsr/engine/BidOrderBookProcessor.java:39 | a total of n prices in [lo, hi] divided by n * 100 is finite and lies in [lo/100, hi/100] |
| Analytics.VwapWithinVisited | src/main/java/com/gsr/engine/BidOrderBookProcessor.java:58-70 | with positive quantities the VWAP is finite and lies between the lowest and highest visited price |
| Analytics.PositiveQuantity | src/main/java/com/gsr/engine/BidOrderBookProcessor.java:69 | positive quantities make the VWAP's divisor positive |
| Analytics.EmptyBookAnswers | src/main/java/com/gsr/engine/BidOrderBookProcessor.java:25-28 | an empty book answers 0 for the average price, the quantity and the top of book, and NaN for the VWAP (0/0) |
| Analytics.NonPositiveLimit | src/main/java/com/gsr/engine/OfferOrderBookProcessor.java:70 | with a level count of 0, the bid average is 0/0 (NaN), while the offer average still visits the top level |
| Analytics.OfferAverageCoversExtraLevel | src/main/java/com/gsr/engine/OfferOrderBookProcessor.java:70 | over one level the offer average of 100.00 and 102.00 is 101.00, while the bid average over one level is the top price |
| Analytics.ScenarioSingleBid | src/main/java/com/gsr/engine/BidOrderBookProcessor.java:20-40 | one bid of 10 at 100.00 on an empty book averages 100.00 over one level |
| Analytics.ScenarioThreeOffers | src/main/java/com/gsr/engine/OfferOrderBookProcessor.java:80-107 | offers of 5 at 100.00, 101.00 and 102.00 give quantity 15 and VWAP 101.00 over three levels |
| BidSide.InsertPriceInBook | src/main/java/com/gsr/engine/BidOrderBookProcessor.java:85-110 | the recursive walk splices the new level into the chain at the position after every higher price, keeping the chain valid |
| BidSide.LinkAsTop | src/main/java/com/gsr/engine/BidOrderBookProcessor.java:88-92 | a price above the top becomes the new top, in front of the chain |
| BidSide.LinkBetween | src/main/java/com/gsr/engine/BidOrderBookProcessor.java:93-99 | a price between two levels is spliced between them and the chain stays linked (the corrected line 98, see Findings) |
| BidSide.LinkAtBottom | src/main/java/com/gsr/engine/BidOrderBookProcessor.java:102-106 | a price below every level is appended at the end of the chain |
| BidSide.InsertPriceInBookAsWritten | src/main/java/com/gsr/engine/BidOrderBookProcessor.java:85-110 | as written, the middle case links the current level's higher link to itself |
| BidSide.SelfLinkMakesCycle | src/main/java/com/gsr/engine/BidOrderBookProcessor.java:98 | bids 100.00 and 50.00, then 80.00 and 60.00 inserted as written, leave 50.00 and 60.00 pointing at each other as lower neighbours: a cycle |
| BidSide.CalculateAveragePrice | src/main/java/com/gsr/engine/BidOrderBookProcessor.java:20-40 | the walk's result is the bid average price of the abstract book |
| BidSide.CalculateAccumulatedQuantityOverLevels | src/main/java/com/gsr/engine/BidOrderBookProcessor.java:42-55 | the walk's result is the sum of the quantities of the first levels |
| BidSide.CalculateVwapOverLevels | src/main/java/com/gsr/engine/BidOrderBookProcessor.java:57-70 | the walk's result is the VWAP of the first levels |
| BidSide.GetTopOfBookPrice | src/main/java/com/gsr/engine/BidOrderBookProcessor.java:72-76 | the best bid in currency units, 0 on an empty book |
| OfferSide.InsertPriceInBook | src/main/java/com/gsr/engine/OfferOrderBookProcessor.java:27-48 | the walk splices the new level into the chain after every lower price, keeping the chain valid |
| OfferSide.LinkAsTop | src/main/java/com/gsr/engine/OfferOrderBookProcessor.java:30-33 | a price below the top becomes the new top |
| OfferSide.LinkBetween | src/main/java/com/gsr/engine/OfferOrderBookProcessor.java:34-39 | a price between two levels is spliced between them (the corrected line 35, see Findings) |
| OfferSide.LinkAtBottom | src/main/java/com/gsr/engine/OfferOrderBookProcessor.java:42-45 | a price above every level is appended at the end of the chain |
| OfferSide.InsertPriceInBookAsWritten | src/main/java/com/gsr/engine/OfferOrderBookProcessor.java:27-48 | as written, the middle case links the lower neighbour back to the current level instead of the new one |
| OfferSide.InsertedLevelSkipped | src/main/java/com/gsr/engine/OfferOrderBookProcessor.java:35 | offers 100.00 and 102.00, then 101.00 inserted as written: the walk up from the top skips 101.00 |
| OfferSide.CalculateAveragePrice | src/main/java/com/gsr/engine/OfferOrderBookProcessor.java:60-78 | the walk's result is the offer average price, over up to `levels + 1` levels |
| OfferSide.CalculateAccumulatedQuantityOverLevels | src/main/java/com/gsr/engine/OfferOrderBookProcessor.java:80-92 | the walk's result is the sum of the quantities of the first levels |
| OfferSide.CalculateVwapOverLevels | src/main/java/com/gsr/engine/OfferOrderBookProcessor.java:94-107 | the walk's result is the VWAP of the first levels |
| OfferSide.GetTopOfBookPrice | src/main/java/com/gsr/engine/OfferOrderBookProcessor.java:55-58 | the best offer in currency units, 0 on an empty book |
| Processor.Updates | src/main/java/com/gsr/engine/OrderBookProcessor.java:140-155 | the book updates a sequence of messages carries, one per message, in order |
| Processor.Populated | src/main/java/com/gsr/analytics/Request.java:38-44 | populating a slot fills it, and a filled slot keeps its value |
| Processor.PopulatedIdempotent | src/main/java/com/gsr/analytics/Request.java:42-44 | populating twice with the same value is populating once |
| Processor.SeedNeverTimesOut | src/main/java/com/gsr/engine/OrderBookProcessor.java:64-65 | against the `Long.MAX_VALUE` seed, no clock reading in [0, Long.MAX_VALUE] counts as time up |
| Processor.SeedTimesOutBeforeEpoch | src/main/java/com/gsr/engine/OrderBookProcessor.java:206 | against the same seed, a negative reading wraps to a huge difference and counts as time up |
| Processor.OrderBookProcessor.constructor | src/main/java/com/gsr/engine/OrderBookProcessor.java:33-45 | a processor over an empty, valid book with empty caches and both timestamps at `Long.MAX_VALUE` |
| Processor.OrderBookProcessor.LaunchOrderBookThread | src/main/java/com/gsr/engine/OrderBookProcessor.java:122-125 | sets the running flag |
| Processor.OrderBookProcessor.ShutDownOrderBookThread | src/main/java/com/gsr/engine/OrderBookProcessor.java:127-130 | clears the running flag |
| Processor.OrderBookProcessor.NanoTime | src/main/java/com/gsr/engine/OrderBookProcessor.java:76 | a clock reading is the next value of the clock sequence |
| Processor.OrderBookProcessor.IsTimeUp | src/main/java/com/gsr/engine/OrderBookProcessor.java:205-207 | true exactly when the queue has items and more than 20000 ns passed, in `long` arithmetic; the clock is read only for a non-empty queue |
| Processor.OrderBookProcessor.ClearCalculationResultCache | src/main/java/com/gsr/engine/OrderBookProcessor.java:212-216 | all three caches are empty |
| Processor.OrderBookProcessor.CalculateAveragePrice | src/main/java/com/gsr/engine/OrderBookProcessor.java:98-102 | the side's average-price walk gives the average price of the abstract book |
| Processor.OrderBookProcessor.CalculateAccumulatedQuantityOverLevels | src/main/java/com/gsr/engine/OrderBookProcessor.java:106 | the side's quantity walk gives the accumulated quantity of the abstract book |
| Processor.OrderBookProcessor.CalculateVwapOverLevels | src/main/java/com/gsr/engine/OrderBookProcessor.java:98 | the side's VWAP walk gives the VWAP of the abstract book |
| Processor.OrderBookProcessor.UnlinkLevel | src/main/java/com/gsr/engine/OrderBookProcessor.java:143-146 | the level leaves the chain, which stays linked, and the top of book moves to the next level when the top goes |
| Processor.OrderBookProcessor.RemovePriceLevel | src/main/java/com/gsr/engine/OrderBookProcessor.java:141-149 | the remove path: the book becomes the old book without that price; an absent price changes nothing |
| Processor.OrderBookProcessor.RemoveIndexedLevel | src/main/java/com/gsr/engine/OrderBookProcessor.java:142-146 | a price on the book loses its index entry and its level, and the book stays valid |
| Processor.OrderBookProcessor.AddNewPriceLevelToBook | src/main/java/com/gsr/engine/OrderBookProcessor.java:185-196 | a fresh level with the price and quantity is spliced into the chain; on an empty book it becomes the top |
| Processor.OrderBookProcessor.AdjustLevel | src/main/java/com/gsr/engine/OrderBookProcessor.java:172-174 | an existing level's quantity grows and the book is the adjusted book |
| Processor.OrderBookProcessor.AddOrUpdatePriceLevel | src/main/java/com/gsr/engine/OrderBookProcessor.java:165-177 | the upsert path: the book becomes the abstract upsert of the old book and stays valid |
| Processor.OrderBookProcessor.InsertNewLevel | src/main/java/com/gsr/engine/OrderBookProcessor.java:170-171 | an absent price gets a new level and index entry: the book is the abstract insertion |
| Processor.OrderBookProcessor.UpdateBook | src/main/java/com/gsr/engine/OrderBookProcessor.java:140-155 | the switch on the message type applies the remove or the upsert to the abstract book |
| Processor.OrderBookProcessor.ProcessMessage | src/main/java/com/gsr/engine/OrderBookProcessor.java:138-157 | the message's update is applied to the book, which stays valid, and the message goes back to the pool once |
| Processor.OrderBookProcessor.RemovePriceLevelAsWritten | src/main/java/com/gsr/engine/OrderBookProcessor.java:141-149 | as written: the index entry goes and the level unlinks itself, but the top of book is cleared only when the level was the last one |
| Processor.OrderBookProcessor.CachedVwap | src/main/java/com/gsr/engine/OrderBookProcessor.java:98 | `computeIfAbsent` on the VWAP cache returns the VWAP of the current book and keeps the cache consistent |
| Processor.OrderBookProcessor.CachedAveragePrice | src/main/java/com/gsr/engine/OrderBookProcessor.java:102 | `computeIfAbsent` on the price cache returns the current average price |
| Processor.OrderBookProcessor.CachedQuantity | src/main/java/com/gsr/engine/OrderBookProcessor.java:106 | `computeIfAbsent` on the quantity cache returns the current accumulated quantity |
| Processor.OrderBookProcessor.ServeRequest | src/main/java/com/gsr/engine/OrderBookProcessor.java:95-108 | an empty result slot receives the answer for the request's kind on the current book; a filled slot is kept |
| Processor.OrderBookProcessor.AnalyticsOverdue | src/main/java/com/gsr/engine/OrderBookProcessor.java:78 | true when more than 100 requests wait, or some wait and more than 20000 ns passed since the last one was served |
| Processor.OrderBookProcessor.MarketDataStep | src/main/java/com/gsr/engine/OrderBookProcessor.java:74-82 | one round of the market-data loop: the book gets the message's update, the message returns to the pool, `lastMdUpdate` is the new reading, and the stop signal is the break test |
| Processor.OrderBookProcessor.StampMarketData | src/main/java/com/gsr/engine/OrderBookProcessor.java:76-78 | `lastMdUpdate` takes the clock reading, then the break test runs |
| Processor.OrderBookProcessor.PollInbound | src/main/java/com/gsr/engine/OrderBookProcessor.java:71 | the poll yields the next unconsumed message, or null when all are consumed |
| Processor.OrderBookProcessor.MarketDataPhase | src/main/java/com/gsr/engine/OrderBookProcessor.java:69-84 | the market-data loop consumes a prefix of the inbound queue; the book is that prefix's updates applied in order; the pool got those messages back; the book changed flag is set exactly when some message was processed |
| Processor.OrderBookProcessor.MarketDataOverdue | src/main/java/com/gsr/engine/OrderBookProcessor.java:111 | true when at least 100 messages wait, or some wait and more than 20000 ns passed since the last one was processed |
| Processor.OrderBookProcessor.StampService | src/main/java/com/gsr/engine/OrderBookProcessor.java:110-111 | `lastService` takes the clock reading, then the break test runs |
| Processor.OrderBookProcessor.AnalyticsStep | src/main/java/com/gsr/engine/OrderBookProcessor.java:95-114 | one round of the analytics loop: the request is answered on the current book and appended to the result queue |
| Processor.OrderBookProcessor.ServeNext | src/main/java/com/gsr/engine/OrderBookProcessor.java:91-116 | the poll yields the next request, which is then served |
| Processor.OrderBookProcessor.AnalyticsPhase | src/main/java/com/gsr/engine/OrderBookProcessor.java:91-117 | the analytics loop serves a prefix of the request queue (at least one request when any waits), in order, onto the result queue; each served request holds its answer on the unchanged book; it stops early only when market data is overdue |
| Processor.OrderBookProcessor.RunPass | src/main/java/com/gsr/engine/OrderBookProcessor.java:67-117 | one pass of the engine loop: the book is a prefix of the inbound updates applied to the old book, and every request served holds the answer on that new book, whatever was cached before; each processed message is back in the pool exactly once, and each phase makes progress when its queue is not empty |
| Processor.OrderBookProcessor.MarketDataAndInvalidate | src/main/java/com/gsr/engine/OrderBookProcessor.java:69-89 | after the market-data phase and the conditional clear, every cache entry is right for the new book, each processed message is back in the pool exactly once, and a non-empty inbound queue yields at least one update |
| Processor.OrderBookProcessor.InvalidateIfUpdated | src/main/java/com/gsr/engine/OrderBookProcessor.java:86-89 | the caches are cleared exactly when the book was updated, so they are right for the current book |
| Processor.TopNotReseated | src/main/java/com/gsr/engine/OrderBookProcessor.java:143-146 | with bids 100.00 and 50.00, removing 100.00 as written leaves the top of book, read after the removal, at the removed 100.00 level, which is no longer in the index |
| Processor.TopReseated | src/main/java/com/gsr/engine/OrderBookProcessor.java:141-149 | with the corrected remove, the top of book moves to 50.00 |
| JavaText.SplitAll | src/main/java/com/gsr/feed/MessageSerializerImpl.java:72 | split yields at least one piece, and no piece contains the delimiter |
| JavaText.DropTrailingEmpty | src/main/java/com/gsr/feed/MessageSerializerImpl.java:72 | Java's `split` with limit 0 drops exactly the trailing empty pieces |
| JavaText.SplitAllNoDelimiter | src/main/java/com/gsr/feed/MessageSerializerImpl.java:116-119 | a string without the delimiter splits into itself alone |
| JavaText.JavaSplit | src/main/java/com/gsr/feed/MessageSerializerImpl.java:72 | Java's `split` with a one-character delimiter: no piece contains the delimiter, the string comes back whole exactly when the delimiter does not occur in it, and no trailing piece is empty |
| JavaText.SplitJoin | src/main/java/com/gsr/feed/MessageSerializerImpl.java:72 | splitting undoes joining pieces free of the delimiter |
| JavaText.JoinSplit | src/main/java/com/gsr/feed/MessageSerializerImpl.java:72 | joining undoes splitting |
| JavaText.JavaSplitJoin | src/main/java/com/gsr/feed/MessageSerializerImpl.java:72 | Java's `split` on a joined line gives back its pieces when the last one is not empty |
| JavaText.Decimal | src/main/java/com/gsr/feed/MessageSerializerImpl.java:119 | the decimal rendering of a number is a non-empty digit string, one digit long exactly below 10 |
| JavaText.DecimalValue | src/main/java/com/gsr/feed/MessageSerializerImpl.java:119 | the digits of the decimal rendering denote the number |
| JavaText.DigitsConcat | src/main/java/com/gsr/feed/MessageSerializerImpl.java:121 | two digit strings written one after the other denote the first times a power of ten plus the second |
| JavaText.ParseLong | src/main/java/com/gsr/feed/MessageSerializerImpl.java:81 | `Long.parseLong` gives a 64-bit value, non-negative without a minus sign |
| JavaText.ParseDecimal | src/main/java/com/gsr/feed/MessageSerializerImpl.java:95 | `parseLong` reads back every decimal rendering |
| JavaText.ParseDigits | src/main/java/com/gsr/feed/MessageSerializerImpl.java:121 | a digit string in the 64-bit range parses to its value |
| Serializer.ParsePrice | src/main/java/com/gsr/feed/MessageSerializerImpl.java:115-127 | `parsePrice` gives a 64-bit value; a whole number that fits is read as itself times 100 |
| Serializer.PriceRoundTrip | src/main/java/com/gsr/feed/MessageSerializerImpl.java:115-127 | `parsePrice` reads back every price written with two decimals |
| Serializer.TwoDecimals | src/main/java/com/gsr/feed/MessageSerializerImpl.java:120-125 | "a.bc" is read as a times 100 plus bc |
| Serializer.WholePrice | src/main/java/com/gsr/feed/MessageSerializerImpl.java:118-119 | a whole number n is read as n times 100 |
| Serializer.OneDecimalPrice | src/main/java/com/gsr/feed/MessageSerializerImpl.java:122-124 | a single decimal digit is padded: "a.b" is read as a times 100 plus b times 10 |
| Serializer.WholePriceSeven | src/main/java/com/gsr/feed/MessageSerializerImpl.java:119 | "7" is read as 700 |
| Serializer.OneDecimalTwelveFifty | src/main/java/com/gsr/feed/MessageSerializerImpl.java:122-124 | "12.5" is read as 1250 |
| Serializer.TwoDecimalsThreeFourteen | src/main/java/com/gsr/feed/MessageSerializerImpl.java:121 | "3.14" is read as 314 |
| Serializer.FormatTwelveFifty | src/main/java/com/gsr/feed/MessageSerializerImpl.java:113 | 1250 is written as "12.50" |
| Serializer.ThirdDecimalNotScaled | src/main/java/com/gsr/feed/MessageSerializerImpl.java:121-125 | a third decimal digit is not scaled down: "3.145" is read as 3145 |
| Serializer.PairNameRoundTrip | src/main/java/com/gsr/feed/MessageSerializerImpl.java:84 | `CcyPair.valueOf` accepts exactly the constant names and gives back the constant |
| Serializer.DecodeFieldKeeps | src/main/java/com/gsr/feed/MessageSerializerImpl.java:79-103 | a field sets only what its tag selects |
| Serializer.AbsentTagKeepsField | src/main/java/com/gsr/feed/MessageSerializerImpl.java:73-107 | a pooled message is not reset: what no field of the line sets keeps the message's previous value |
| Serializer.FieldSplit | src/main/java/com/gsr/feed/MessageSerializerImpl.java:81 | a `tag<kv>value` field splits into its tag and its value |
| Serializer.EncodedLineSplits | src/main/java/com/gsr/feed/MessageSerializerImpl.java:72 | a line written from five fields splits back into those five fields |
| Serializer.PositiveNotZeroText | src/main/java/com/gsr/feed/MessageSerializerImpl.java:91 | a positive quantity is never read as "remove" |
| Serializer.DecodeFieldOf | src/main/java/com/gsr/feed/MessageSerializerImpl.java:79-103 | a field with a known tag sets exactly its message field from its value |
| Serializer.TimeField | src/main/java/com/gsr/feed/MessageSerializerImpl.java:80-82 | a `t` field sets the time stamp |
| Serializer.PairField | src/main/java/com/gsr/feed/MessageSerializerImpl.java:83-85 | an `i` field sets the pair |
| Serializer.PriceField | src/main/java/com/gsr/feed/MessageSerializerImpl.java:86-88 | a `p` field written with two decimals sets the price |
| Serializer.QuantityField | src/main/java/com/gsr/feed/MessageSerializerImpl.java:89-97 | a positive `q` field makes the message an upsert of that quantity |
| Serializer.SideField | src/main/java/com/gsr/feed/MessageSerializerImpl.java:98-100 | an `s` field of "b" makes a bid and anything else an offer |
| Serializer.DecodeEncodedFields | src/main/java/com/gsr/feed/MessageSerializerImpl.java:77-105 | the five fields of an encoded message decode to that message as an upsert, whatever the pooled message held before |
| Serializer.DecodeEncodedLine | src/main/java/com/gsr/feed/MessageSerializerImpl.java:64-108 | decoding a line written in the reference layout `EncodeLine` yields the encoded message as an upsert, whatever the pooled message held before |
| Serializer.OfferBound | src/main/java/com/gsr/feed/MessageSerializerImpl.java:45-57 | one line takes at least two calls of `offer` in the worst case, and at least `retryCount + 2` |
| Serializer.MessageSerializer.constructor | src/main/java/com/gsr/feed/MessageSerializerImpl.java:23-31 | the serializer holds its queue, pool, retry count and delimiters |
| Serializer.MessageSerializer.ApplyField | src/main/java/com/gsr/feed/MessageSerializerImpl.java:79-103 | one field applied to the message is the decoded field |
| Serializer.MessageSerializer.DecodeInto | src/main/java/com/gsr/feed/MessageSerializerImpl.java:75-105 | the field loop applies the fields in order |
| Serializer.MessageSerializer.Deserialize | src/main/java/com/gsr/feed/MessageSerializerImpl.java:64-108 | a comment yields null and takes nothing from the pool; any other line yields a pooled or fresh message holding the decoded fields, and every other pooled message keeps its fields |
| Serializer.MessageSerializer.OfferWithRetries | src/main/java/com/gsr/feed/MessageSerializerImpl.java:45-58 | offers until one succeeds or the retries run out, within `OfferBound` calls; enqueued exactly when some call in the bound succeeds |
| Serializer.MessageSerializer.OnMessageAsWritten | src/main/java/com/gsr/feed/MessageSerializerImpl.java:37-61 | as written: true for every non-comment line, even when the message was dropped; the decoded message is appended to the queue exactly when some offer within the retry bound succeeds, and it holds the decoded fields, taken fresh or from the pool as in `deserialize`; every other pooled message keeps its fields |
| Serializer.MessageSerializer.OnMessage | src/main/java/com/gsr/feed/MessageSerializerImpl.java:33-61 | as documented: true exactly when the decoded message was enqueued; the queue gains that message and nothing else, and it holds the decoded fields, taken fresh or from the pool as in `deserialize`; every other pooled message keeps its fields |
| Serializer.SideLineEnqueued | src/main/java/com/gsr/feed/MessageSerializerImpl.java:37-45 | a side-only line whose first offer succeeds enqueues a bid message with every other field at its default |
| Serializer.DroppedMessageReported | src/main/java/com/gsr/feed/MessageSerializerImpl.java:60 | a line whose every offer is refused is reported as submitted, although nothing was queued |
| Distributor.QueueIndex | src/main/java/com/gsr/engine/OrderBookDistributor.java:49-69 | each book has a position below 6 in the queue lists, offers at even and bids at odd positions |
| Distributor.BookAt | src/main/java/com/gsr/engine/OrderBookDistributor.java:49-69 | every position below 6 belongs to a book |
| Distributor.BookAtQueueIndex | src/main/java/com/gsr/engine/OrderBookDistributor.java:49-69 | positions and books correspond one to one |
| Distributor.BuildRoutes | src/main/java/com/gsr/engine/OrderBookDistributor.java:43-69 | the table has an entry for every pair and side, routing each book to the queue at its position |
| Distributor.HeadsLength | src/main/java/com/gsr/engine/OrderBookDistributor.java:103-110 | a sweep collects at most one request per queue, and exactly one from each non-empty queue |
| Distributor.HeadsAreFronts | src/main/java/com/gsr/engine/OrderBookDistributor.java:103-110 | everything a sweep collects was at the head of some queue |
| Distributor.TargetsOfRoutes | src/main/java/com/gsr/engine/OrderBookDistributor.java:43-69 | a built table routes only to the first six queues of its list |
| Distributor.OrderBookDistributor.constructor | src/main/java/com/gsr/engine/OrderBookDistributor.java:31-69 | the running flag is set, and each of the three tables routes every book to its position in its queue list |
| Distributor.OrderBookDistributor.RouteMarketData | src/main/java/com/gsr/engine/OrderBookDistributor.java:75-78 | a polled message is appended to the market-data queue of its pair and side; an empty inbound queue changes nothing |
| Distributor.OrderBookDistributor.RouteRequest | src/main/java/com/gsr/engine/OrderBookDistributor.java:86-94 | a taken request is appended to the request queue of its pair and side |
| Distributor.OrderBookDistributor.ResponseQueue | src/main/java/com/gsr/engine/OrderBookDistributor.java:103-104 | every book's response queue is a target of the response table |
| Distributor.OrderBookDistributor.CollectResponses | src/main/java/com/gsr/engine/OrderBookDistributor.java:102-110 | one sweep appends the heads of the response queues, in sweep order, to the shared queue and polls each queue once |
| Distributor.OrderBookDistributor.CollectOne | src/main/java/com/gsr/engine/OrderBookDistributor.java:105-108 | one poll moves the head of a response queue, if any, to the shared queue |
| Distributor.OrderBookDistributor.Shutdown | src/main/java/com/gsr/engine/OrderBookDistributor.java:119-122 | clears the running flag and changes nothing else |

## Left out

- Threads, `volatile` fields, `AtomicReference` and the concurrent queues are modelled as sequential
  steps of one thread. Each loop is one method call. The processor's endless outer loop is modelled as
  one pass (`RunPass`), and each distributor thread as one round.
- `System.nanoTime` is a clock parameter, the sequence of readings. `System.out.println`, the logging,
  the thread names and `Thread.sleep` are left out.
- Java `double` arithmetic is modelled with exact reals: no rounding. Division by zero gives infinity
  or NaN, as Java's would.
- The 64-bit `long` arithmetic of the analytics walks is done on unbounded integers: the running
  quantity totals and the products `price * quantity` of the VWAP walks
  (`BidOrderBookProcessor.java` line 63, `OfferOrderBookProcessor.java` line 100) do not wrap around.
  The decoder's arithmetic is 64-bit: `Long.parseLong` range-checks its value, and `parsePrice` wraps
  its multiplications by 100 and by 10.
- `ObjectPool` is not part of the source. The message pool is a multiset of free messages; the
  price-level pool is `new PriceLevel()`, because the source never returns a level to it.
- `PriceLevel.removePriceFromBook` is called at line 143 of `OrderBookProcessor.java` but defined
  nowhere in the source. It is modelled as unlinking the level from its neighbours and reporting
  whether it had none.
- Levels.PriceLevel.RemovePriceFromBook: requires that the level is not its own neighbour, which holds
  on every valid chain.
- The decoder's delimiters are assumed to be single characters that `String.split` reads literally.
  Their values live in `com.gsr.data.Constants`, which is not part of this model; a regular-expression
  metacharacter such as an unescaped `|` would make `split` cut the line at every position.
- JavaText.ParseLong: reads ASCII digits only. `Long.parseLong` also accepts the decimal digits of
  other scripts (Arabic-Indic, fullwidth and so on); such values are outside the model's inputs, so the
  decoder members below do not cover them either.
- Serializer.MessageSerializer.ApplyField: requires `FieldOk`, so the inputs on which `deserialize`
  throws are not modelled: an empty field (`charAt(0)`, line 79), a known tag with no value after the
  key-value delimiter (`split(..)[1]`, lines 81-99), a time or quantity that `Long.parseLong` rejects,
  an unknown instrument name (`CcyPair.valueOf`), and a price `parsePrice` cannot read (for instance
  `"."`, whose split has no piece, line 121).
- Serializer.MessageSerializer.DecodeInto: requires `FieldOk` of every field, for the same reasons as
  `ApplyField`.
- Serializer.MessageSerializer.Deserialize: requires `LineOk`, so the empty line (`charAt(0)`, line 66)
  and every line with a field `ApplyField` excludes are not modelled. On those inputs the source throws
  after it has taken a message from the pool, which it never returns; the exception is not caught.
- Serializer.MessageSerializer.OnMessageAsWritten: requires `LineOk`, for the inputs `Deserialize`
  excludes. The `InterruptedException` path of the retry loop (lines 52-54), which returns false, is
  left out: the sleep between retries is not modelled and is never interrupted.
- Serializer.MessageSerializer.OnMessage: requires `LineOk`, and leaves out the `InterruptedException`
  path, as `OnMessageAsWritten` does.
- Requests.Request.GetResult: requires a filled slot. A call on an empty slot, made before any
  populate or as a second `getResult`, gets null from `getAndSet(null)` and throws a
  `NullPointerException` when unboxing it to `double` (`Request.java` lines 46-48); that call is not
  modelled.
- `Enum.hashCode` is a parameter of `Keys.HashCode`: it is an identity hash in the JVM.
- Processor.OrderBookProcessor.ProcessMessage: requires a non-null message type. The source's `switch`
  on a null enum throws.
- The result caches are stale during the market-data phase of a pass; the model states only that they
  are right whenever the analytics phase reads them.
- Distributor.OrderBookDistributor.RouteMarketData: requires a message with a pair and a side. The
  source throws a `NullPointerException` on a null one.
- Distributor.OrderBookDistributor.RouteRequest: the blocking `take` is modelled as a no-op on an
  empty queue, and the `InterruptedException` path is left out.
- Distributor.OrderBookDistributor.CollectResponses: the `HashMap` iteration order is an input, and
  the response queues must be six distinct queues.
- Distributor.OrderBookDistributor.constructor: requires that the distributor's own queues are none
  of the per-book queues, and that each list has at least six queues. The source would throw on a
  shorter list.
- `MatchingEngineRunner`, `OrderBookReplicatorRunner`, `FileLoader` and the tests are not part of this
  model.

## Findings

| source | as written | input that shows it | evidently intended | confidence | as-written member | corrected member |
|---|---|---|---|---|---|---|
| src/main/java/com/gsr/engine/PriceLevel.java:18 | `populate` stores the initial quantity into the price | price 100.00 (10000), quantity 5: the level's price is 5 | the level takes the given price | not executed | Levels.PriceLevel.PopulateAsWritten, Levels.PopulateLosesPrice | Levels.PriceLevel.Populate |
| src/main/java/com/gsr/engine/BidOrderBookProcessor.java:98 | the middle-of-book case sets the current level's higher link to itself | bids 100.00, 50.00, then 80.00 and 60.00: 50.00 and 60.00 become each other's lower neighbour, and the walk cycles | `currentPriceLevel.setNextHigher(priceToInsert)` | not executed | BidSide.InsertPriceInBookAsWritten, BidSide.SelfLinkMakesCycle | BidSide.LinkBetween |
| src/main/java/com/gsr/engine/OfferOrderBookProcessor.java:35 | the middle-of-book case links the lower neighbour's higher link to the current level | offers 100.00 and 102.00, then 101.00: walking up from 100.00 goes straight to 102.00 | `lowerBelowCurrent.setNextHigher(newPriceLevel)` | not executed | OfferSide.InsertPriceInBookAsWritten, OfferSide.InsertedLevelSkipped | OfferSide.LinkBetween |
| src/main/java/com/gsr/engine/OrderBookProcessor.java:143-146 | the top of book is reset only when the removed level was the last one | bids 100.00 and 50.00, remove 100.00: the top of book still holds the removed level | the top of book moves to the next level | not executed | Processor.OrderBookProcessor.RemovePriceLevelAsWritten, Processor.TopNotReseated | Processor.OrderBookProcessor.RemovePriceLevel, Processor.TopReseated |
| src/main/java/com/gsr/feed/MessageSerializerImpl.java:60 | `onMessage` returns true after the retry loop, even when every offer failed | a side-only line with every offer refused: true is returned and nothing is queued | return whether the message was enqueued, as the method's documentation says | not executed | Serializer.MessageSerializer.OnMessageAsWritten, Serializer.DroppedMessageReported | Serializer.MessageSerializer.OnMessage |
