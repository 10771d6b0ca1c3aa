/** The processor of one side of one instrument's book: the price index kept in step with the chain of
    levels, the market-data updates, the three per-level-count result caches, and one pass of the
    processing loop, which alternates a bounded market-data phase with a bounded analytics phase. */
module Processor {
  import opened Data
  import opened BookSpec
  import opened Analytics
  import opened Levels
  import opened Books
  import opened Messages
  import opened Pools
  import opened Requests
  import opened Queues
  import opened JavaText
  import BidSide
  import OfferSide

  const MaxPendingMdUpdates: int := 100
  const MaxPendingAnalyticsReq: int := 100
  const MaxWaitNanos: int := 20000

  /** The book update a market-data message of the given type carries. */
  function UpdateOf(kind: MessageType, price: int, quantity: int): Update
  {
    if kind == RemovePriceLevel then Remove(price) else Upsert(price, quantity)
  }

  /** A pool that took back the messages of a prefix and then the next one holds the messages of
      the prefix one longer. */
  lemma TakenNext(free: multiset<Message>, ms: seq<Message>, n: nat)
    requires n < |ms|
    ensures free + multiset(ms[..n]) + multiset{ms[n]} == free + multiset(ms[..n + 1])
  {
    assert ms[..n + 1] == ms[..n] + [ms[n]];
  }

  /** The book updates a sequence of messages carries, in order. */
  ghost function Updates(ms: seq<Message>): (us: seq<Update>)
    requires forall k :: 0 <= k < |ms| ==> ms[k].kind != None
    reads ms
    ensures |us| == |ms|
    ensures forall k :: 0 <= k < |ms| ==> us[k] == UpdateOf(ms[k].kind.value, ms[k].price, ms[k].quantity)
  {
    if ms == [] then []
    else Updates(ms[..|ms| - 1]) + [UpdateOf(ms[|ms| - 1].kind.value, ms[|ms| - 1].price, ms[|ms| - 1].quantity)]
  }

  /** `populateResult` on a slot: the first value stored wins. */
  function Populated(slot: Option<Num>, value: Num): (r: Option<Num>)
    ensures r != None
    ensures slot != None ==> r == slot
  {
    if slot == None then Some(value) else slot
  }

  /** Populating a slot a second time with the same value changes nothing. */
  lemma PopulatedIdempotent(slot: Option<Num>, value: Num)
    ensures Populated(Populated(slot, value), value) == Populated(slot, value)
  {
  }

  /** A prefix one longer is the prefix followed by the next element, so an element is in it iff it
      is in the prefix or is the next element. */
  lemma PrefixNext<T>(s: seq<T>, n: nat)
    requires n < |s|
    ensures s[..n + 1] == s[..n] + [s[n]]
    ensures forall x :: x in s[..n + 1] <==> x in s[..n] || x == s[n]
  {
    assert s[..n + 1] == s[..n] + [s[n]];
  }

  /** `isTimeUp`: the queue has pending items and more than `MaxWaitNanos` passed since `last`, the
      difference taken in 64-bit `long` arithmetic. */
  predicate TimeIsUp(last: int, pending: nat, now: int)
  {
    pending > 0 && Wrap64(now - last) > MaxWaitNanos
  }

  /** Against the `Long.MAX_VALUE` seed of the timestamps (lines 64-65), a clock reading between zero
      and `Long.MAX_VALUE` never counts as time up: the difference is not positive. */
  lemma SeedNeverTimesOut(pending: nat, now: int)
    requires 0 <= now <= LongMax
    ensures !TimeIsUp(LongMax, pending, now)
  {
  }

  /** A negative clock reading, which `System.nanoTime` allows, against the same seed wraps around to
      a huge positive difference: time is up at once. */
  lemma SeedTimesOutBeforeEpoch()
    ensures TimeIsUp(LongMax, 1, -2)
  {
    assert Wrap64(-2 - LongMax) == LongMax;
  }

  class OrderBookProcessor {
    const pair: CcyPair
    const side: Side
    const book: OrderBook
    const messagePool: MessagePool
    const inbound: Queue<Message>
    const requests: Queue<Request>
    const outbound: Queue<Request>
    /** The successive readings of `System.nanoTime`: the `k`-th reading is `clock(k)`. */
    const clock: nat -> int
    /** How many times the clock was read. */
    var ticks: nat
    /** The latest reading of the clock. */
    ghost var now: int
    var running: bool
    var lastMdUpdate: int
    var lastService: int
    var quantityCache: map<int, int>
    var vwapCache: map<int, Num>
    var priceCache: map<int, Num>

    /** Every cached entry is what the calculation would give on the book `s`. */
    ghost predicate CachedFor(s: seq<Level>)
      reads `quantityCache, `vwapCache, `priceCache
    {
      (forall l :: l in quantityCache ==> quantityCache[l] == AccumulatedQuantity(s, l)) &&
      (forall l :: l in vwapCache ==> vwapCache[l] == VwapOf(s, l)) &&
      (forall l :: l in priceCache ==> priceCache[l] == Analytics.AveragePrice(side, s, l))
    }

    /** The result slots of the queued requests, in queue order, are `slots`. */
    ghost predicate ResultsAre(slots: seq<Option<Num>>)
      reads requests, requests.items
    {
      |slots| == |requests.items| && forall k :: 0 <= k < |slots| ==> requests.items[k].result == slots[k]
    }

    /** The book belongs to this processor's side and keeps its invariant; the request queue and the
        result queue are two queues. */
    ghost predicate Valid()
      reads book, book.chain`nextHigher, book.chain`nextLower, book.chain`price, book.chain`quantity
    {
      book.side == side && book.Valid() && requests != outbound
    }

    /** A processor over an empty book with empty caches. Both timestamps start at `Long.MAX_VALUE`. */
    constructor (pair: CcyPair, side: Side, messagePool: MessagePool, inbound: Queue<Message>,
                 requests: Queue<Request>, outbound: Queue<Request>, clock: nat -> int)
      requires requests != outbound
      ensures this.pair == pair && this.side == side && this.messagePool == messagePool
      ensures this.inbound == inbound && this.requests == requests && this.outbound == outbound
      ensures this.clock == clock && ticks == 0
      ensures fresh(book) && book.Levels() == [] && !running
      ensures lastMdUpdate == LongMax && lastService == LongMax
      ensures Valid() && CachedFor(book.Levels())
    {
      this.pair, this.side, this.messagePool := pair, side, messagePool;
      this.inbound, this.requests, this.outbound, this.clock := inbound, requests, outbound, clock;
      book := new OrderBook(side);
      ticks, now := 0, LongMax;
      running := false;
      lastMdUpdate, lastService := LongMax, LongMax;
      quantityCache, vwapCache, priceCache := map[], map[], map[];
    }

    method LaunchOrderBookThread()
      modifies `running
      ensures running
    {
      running := true;
    }

    method ShutDownOrderBookThread()
      modifies `running
      ensures !running
    {
      running := false;
    }

    method NanoTime() returns (t: int)
      modifies `ticks, `now
      ensures t == clock(old(ticks)) && ticks == old(ticks) + 1 && now == t
    {
      t := clock(ticks);
      ticks := ticks + 1;
      now := t;
    }

    /** The clock is read only when the queue has pending items. */
    method IsTimeUp(last: int, pending: nat) returns (up: bool)
      modifies `ticks, `now
      ensures pending > 0 ==> ticks == old(ticks) + 1 && now == clock(old(ticks))
      ensures pending == 0 ==> ticks == old(ticks) && now == old(now)
      ensures up == TimeIsUp(last, pending, now)
    {
      if pending == 0 {
        return false;
      }
      var t := NanoTime();
      up := Wrap64(t - last) > MaxWaitNanos;
    }

    method ClearCalculationResultCache()
      modifies `quantityCache, `vwapCache, `priceCache
      ensures quantityCache == map[] && vwapCache == map[] && priceCache == map[]
    {
      priceCache := map[];
      vwapCache := map[];
      quantityCache := map[];
    }

    method CalculateAveragePrice(levels: int) returns (r: Num)
      requires book.side == side && book.ChainValid()
      ensures r == Analytics.AveragePrice(side, book.Levels(), levels)
    {
      if side == Bid {
        r := BidSide.CalculateAveragePrice(book, levels);
      } else {
        r := OfferSide.CalculateAveragePrice(book, levels);
      }
    }

    method CalculateAccumulatedQuantityOverLevels(levels: int) returns (r: int)
      requires book.side == side && book.ChainValid()
      ensures r == AccumulatedQuantity(book.Levels(), levels)
    {
      if side == Bid {
        r := BidSide.CalculateAccumulatedQuantityOverLevels(book, levels);
      } else {
        r := OfferSide.CalculateAccumulatedQuantityOverLevels(book, levels);
      }
    }

    method CalculateVwapOverLevels(levels: int) returns (r: Num)
      requires book.side == side && book.ChainValid()
      ensures r == VwapOf(book.Levels(), levels)
    {
      if side == Bid {
        r := BidSide.CalculateVwapOverLevels(book, levels);
      } else {
        r := OfferSide.CalculateVwapOverLevels(book, levels);
      }
    }

    /** Takes `level`, the `i`-th level, out of the chain. Where the source only clears the top of book
        when the last level goes, the top of book also moves to the next level when the best level goes
        (see `RemovePriceLevelAsWritten`). */
    method UnlinkLevel(level: PriceLevel, ghost i: nat)
      requires book.ChainValid() && i < |book.chain| && level == book.chain[i]
      modifies book`top, book`chain, book.chain`nextHigher, book.chain`nextLower
      ensures book.Linked()
      ensures book.chain == old(book.chain)[..i] + old(book.chain)[i + 1..]
    {
      ghost var c := book.chain;
      book.ChainDistinct();
      Neighbours(book, i);
      var next := Worse(book.side, level);
      var wasTop := book.top == level;
      ghost var better := Better(book.side, level);
      label before:
      var wasLast := level.RemovePriceFromBook();
      if wasLast {
        book.top := null;
      } else if wasTop {
        book.top := next;
      }
      book.chain := c[..i] + c[i + 1..];
      forall j | 0 <= j < |c| - 1 && j != i - 1 && j != i
        ensures Worse(book.side, c[j]) == c[j + 1] && Better(book.side, c[j + 1]) == c[j]
      {
        assert old@before(Worse(book.side, c[j])) == c[j + 1];
        assert old@before(Better(book.side, c[j + 1])) == c[j];
      }
      assert better != null ==> Worse(book.side, better) == next;
      assert next != null ==> Better(book.side, next) == better;
      UnspliceLinked(book, c, i);
    }

    /** The remove path (lines 141-149): a price on the book loses its index entry and its level; any
        other price changes nothing. */
    method RemovePriceLevel(price: int)
      requires book.Valid()
      modifies book`top, book`chain, book`index, book.chain`nextHigher, book.chain`nextLower
      ensures book.Valid()
      ensures book.Levels() == RemovePrice(old(book.Levels()), price)
      ensures forall x :: x in book.chain ==> x in old(book.chain) || fresh(x)
    {
      book.IndexedPrice(price);
      if price in book.index {
        RemoveIndexedLevel(price);
      } else {
        RemoveAbsent(book.Levels(), price);
      }
    }

    /** The remove path for a price on the book (lines 142-148): its index entry and its level go. */
    method RemoveIndexedLevel(price: int)
      requires book.Valid() && price in book.index
      modifies book`top, book`chain, book`index, book.chain`nextHigher, book.chain`nextLower
      ensures book.Valid()
      ensures book.Levels() == RemovePrice(old(book.Levels()), price)
      ensures forall x :: x in book.chain ==> x in old(book.chain)
    {
      ghost var c, v := book.chain, book.Levels();
      var level := book.index[price];
      ghost var i := book.IndexPosition(price);
      IndexRemove(book.index, c, i);
      UnsplicedLevels(book.side, c, v, i);
      var m := book.index - {price};
      DetachLevel(level, i, RemovePrice(v, price), m);
      RemovedFromChain(c, i);
      book.SetIndex(m);
    }

    /** Unlinking the `i`-th level keeps the prices and quantities of the others: the book becomes
        the view `w` and the index `m` of the chain without that level. */
    method DetachLevel(level: PriceLevel, ghost i: nat, ghost w: seq<Level>, ghost m: map<int, PriceLevel>)
      requires book.ChainValid() && i < |book.chain| && level == book.chain[i]
      requires View(book.chain[..i] + book.chain[i + 1..]) == w && IndexOf(m, book.chain[..i] + book.chain[i + 1..])
      modifies book`top, book`chain, book.chain`nextHigher, book.chain`nextLower
      ensures book.Linked() && book.Levels() == w && IndexOf(m, book.chain)
      ensures book.chain == old(book.chain)[..i] + old(book.chain)[i + 1..]
    {
      UnlinkLevel(level, i);
    }

    /** A new level for a price not on the book, linked in at its place: as the top of book on an empty
        book (the compare-and-set from null), otherwise by the side's insertion walk from the top. */
    method AddNewPriceLevelToBook(price: int, quantity: int) returns (x: PriceLevel, ghost pos: nat)
      requires book.side == side && book.ChainValid()
      requires forall k :: 0 <= k < |book.chain| ==> book.chain[k].price != price
      modifies book`top, book`chain, book.chain`nextHigher, book.chain`nextLower
      ensures fresh(x) && x.price == price && x.quantity == quantity
      ensures book.ChainValid()
      ensures pos <= |old(book.chain)| && book.chain == old(book.chain)[..pos] + [x] + old(book.chain)[pos..]
    {
      x := new PriceLevel();
      x.Populate(price, quantity);
      if book.top == null {
        book.top := x;
        book.chain := [x];
        pos := 0;
      } else if side == Bid {
        pos := BidSide.InsertPriceInBook(book, x, book.top, 0);
      } else {
        pos := OfferSide.InsertPriceInBook(book, x, book.top, 0);
      }
    }

    /** The update path for a price already on the book: its level's quantity grows by `quantity`. */
    method AdjustLevel(level: PriceLevel, ghost i: nat, quantity: int)
      requires book.side == side && book.Valid() && i < |book.chain| && level == book.chain[i]
      modifies level`quantity
      ensures book.Valid()
      ensures book.Levels() == Adjust(old(book.Levels()), level.price, quantity)
    {
      ghost var c, v := book.chain, book.Levels();
      book.ChainDistinct();
      level.AdjustQuantity(quantity);
      assert book.Linked();
      assert IndexOf(book.index, c);
      AdjustAt(side, v, i, quantity);
      ghost var w := v[i := Level(level.price, v[i].quantity + quantity)];
      forall k | 0 <= k < |c| ensures book.Levels()[k] == w[k] {
        if k != i {
          assert c[k] != level;
        }
      }
      assert book.Levels() == w;
      ApplySorted(side, v, Upsert(level.price, quantity));
      assert v[i].price in Prices(v);
      assert Sorted(side, book.Levels());
    }

    /** The upsert path (`compute` on the index, lines 165-177): an existing level's quantity grows, an
        absent price gets a new level and an index entry. */
    method AddOrUpdatePriceLevel(price: int, quantity: int)
      requires book.side == side && book.Valid()
      modifies book`top, book`chain, book`index, book.chain`nextHigher, book.chain`nextLower, book.chain`quantity
      ensures book.Valid()
      ensures book.Levels() == Apply(side, old(book.Levels()), Upsert(price, quantity))
      ensures forall x :: x in book.chain ==> x in old(book.chain) || fresh(x)
    {
      ghost var c, v := book.chain, book.Levels();
      book.IndexedPrice(price);
      if price in book.index {
        var level := book.index[price];
        ghost var i := book.IndexPosition(price);
        AdjustLevel(level, i, quantity);
      } else {
        forall k | 0 <= k < |c| ensures c[k].price != price {
          assert v[k].price in Prices(v);
        }
        var level := InsertNewLevel(price, quantity);
      }
    }

    /** The `limit == null` branch of the upsert: a new level for an absent price is linked into the
        chain and indexed under its price. */
    method InsertNewLevel(price: int, quantity: int) returns (level: PriceLevel)
      requires book.side == side && book.Valid()
      requires forall k :: 0 <= k < |book.chain| ==> book.chain[k].price != price
      modifies book`top, book`chain, book`index, book.chain`nextHigher, book.chain`nextLower
      ensures book.Valid()
      ensures book.Levels() == InsertLevel(side, old(book.Levels()), Level(price, quantity))
      ensures forall x :: x in book.chain ==> x in old(book.chain) || fresh(x)
    {
      ghost var c, v := book.chain, book.Levels();
      ghost var pos;
      level, pos := AddNewPriceLevelToBook(price, quantity);
      assert View(c) == v && IndexOf(book.index, c);
      SplicedLevels(side, c, v, pos, level);
      SplicedIntoChain(c, pos, level);
      IndexInsert(book.index, c, pos, level);
      book.SetIndex(book.index[price := level]);
    }

    /** The switch of `processMessage` on the message type: the remove path or the upsert path. */
    method UpdateBook(kind: MessageType, price: int, quantity: int)
      requires book.side == side && book.Valid()
      modifies book`top, book`chain, book`index, book.chain`nextHigher, book.chain`nextLower, book.chain`quantity
      ensures book.Valid()
      ensures book.Levels() == Apply(side, old(book.Levels()), UpdateOf(kind, price, quantity))
      ensures forall x :: x in book.chain ==> x in old(book.chain) || fresh(x)
    {
      match kind {
        case RemovePriceLevel =>
          RemovePriceLevel(price);
        case AddOrUpdatePriceLevel =>
          AddOrUpdatePriceLevel(price, quantity);
      }
    }

    /** `processMessage`: the update the message carries is applied to the book, and the message goes
        back to the pool, once, whatever its type. */
    method ProcessMessage(m: Message)
      requires book.side == side && book.Valid() && m.kind != None
      modifies book`top, book`chain, book`index, book.chain`nextHigher, book.chain`nextLower, book.chain`quantity
      modifies messagePool`free
      ensures book.Valid()
      ensures book.Levels() == Apply(side, old(book.Levels()), UpdateOf(m.kind.value, m.price, m.quantity))
      ensures forall x :: x in book.chain ==> x in old(book.chain) || fresh(x)
      ensures messagePool.free == old(messagePool.free) + multiset{m}
    {
      UpdateBook(m.kind.value, m.price, m.quantity);
      label updated:
      messagePool.ReturnObject(m);
      Untouched@updated(book);
    }

    /** The remove path as written (lines 141-149): the index entry goes and the level unlinks itself
        from its neighbours, but the top of book is cleared only when the level was the last one. When
        the best level goes while others remain, the top of book still holds the removed level. */
    method RemovePriceLevelAsWritten(price: int) returns (removed: PriceLevel?)
      requires book.Valid()
      modifies book`top, book`index, book.chain`nextHigher, book.chain`nextLower
      ensures book.index == old(book.index) - {price}
      ensures removed == if price in old(book.index) then old(book.index)[price] else null
      ensures removed != null ==> removed.nextHigher == null && removed.nextLower == null
      ensures book.top == if removed != null && old(book.chain) == [removed] then null else old(book.top)
    {
      book.IndexedPrice(price);
      removed := if price in book.index then book.index[price] else null;
      if removed != null {
        ghost var i := book.IndexPosition(price);
        book.Detachable(i);
      }
      book.index := book.index - {price};
      if removed != null {
        var wasLast := removed.RemovePriceFromBook();
        if wasLast {
          book.top := null;
        }
      }
    }

    /** `vwapCalculationsCache.computeIfAbsent`: the cached value for `levels`, computed and cached on
        a miss. */
    method CachedVwap(levels: int) returns (v: Num)
      requires Valid() && CachedFor(book.Levels())
      modifies `vwapCache
      ensures CachedFor(book.Levels()) && levels in vwapCache
      ensures v == VwapOf(book.Levels(), levels)
    {
      if levels in vwapCache {
        v := vwapCache[levels];
      } else {
        v := CalculateVwapOverLevels(levels);
        vwapCache := vwapCache[levels := v];
      }
    }

    /** `priceCalculationsCache.computeIfAbsent`. */
    method CachedAveragePrice(levels: int) returns (v: Num)
      requires Valid() && CachedFor(book.Levels())
      modifies `priceCache
      ensures CachedFor(book.Levels()) && levels in priceCache
      ensures v == Analytics.AveragePrice(side, book.Levels(), levels)
    {
      if levels in priceCache {
        v := priceCache[levels];
      } else {
        v := CalculateAveragePrice(levels);
        priceCache := priceCache[levels := v];
      }
    }

    /** `quantityCalculationsCache.computeIfAbsent`. */
    method CachedQuantity(levels: int) returns (v: int)
      requires Valid() && CachedFor(book.Levels())
      modifies `quantityCache
      ensures CachedFor(book.Levels()) && levels in quantityCache
      ensures v == AccumulatedQuantity(book.Levels(), levels)
    {
      if levels in quantityCache {
        v := quantityCache[levels];
      } else {
        v := CalculateAccumulatedQuantityOverLevels(levels);
        quantityCache := quantityCache[levels := v];
      }
    }

    /** The switch of the analytics loop (lines 95-108): the request's result slot receives the answer
        for its kind, through the result caches. A slot that already holds a value keeps it. */
    method ServeRequest(r: Request)
      requires Valid() && CachedFor(book.Levels())
      modifies r`result, `quantityCache, `vwapCache, `priceCache
      ensures Valid() && CachedFor(book.Levels())
      ensures r.result == if old(r.result) == None then Some(Answer(side, book.Levels(), r.kind, r.levels)) else old(r.result)
    {
      label start:
      var v, q := Finite(0.0), 0;
      match r.kind {
        case Vwap =>
          v := CachedVwap(r.levels);
        case AveragePrice =>
          v := CachedAveragePrice(r.levels);
        case AverageQuantity =>
          q := CachedQuantity(r.levels);
      }
      Untouched@start(book);
      label computed:
      if r.kind == AverageQuantity {
        r.PopulateResultFromLong(q);
      } else {
        var _ := r.PopulateResult(v);
      }
      Untouched@computed(book);
    }

    /** The break test of the market-data loop (line 78): more than `MaxPendingAnalyticsReq` requests
        wait, or some wait and more than `MaxWaitNanos` passed since the last one was served. The
        clock is read only when the first test fails and a request waits. */
    method AnalyticsOverdue() returns (stop: bool)
      modifies `ticks, `now
      ensures ticks >= old(ticks)
      ensures stop <==> |requests.items| > MaxPendingAnalyticsReq || TimeIsUp(lastService, |requests.items|, now)
    {
      stop := |requests.items| > MaxPendingAnalyticsReq;
      if !stop {
        stop := IsTimeUp(lastService, |requests.items|);
      }
    }

    /** One round of the market-data loop (lines 74-82): the message is processed, the clock is read
        into `lastMdUpdate`, and the loop is told to stop when more than `MaxPendingAnalyticsReq`
        requests wait or, failing that, when some wait and more than `MaxWaitNanos` passed since the
        last request was served (the second reading of the clock happens only then). */
    method MarketDataStep(m: Message) returns (stop: bool)
      requires Valid() && m.kind != None
      modifies book`top, book`chain, book`index, book.chain`nextHigher, book.chain`nextLower, book.chain`quantity
      modifies messagePool`free, `ticks, `now, `lastMdUpdate
      ensures Valid()
      ensures book.Levels() == Apply(side, old(book.Levels()), UpdateOf(m.kind.value, m.price, m.quantity))
      ensures forall x :: x in book.chain ==> x in old(book.chain) || fresh(x)
      ensures messagePool.free == old(messagePool.free) + multiset{m}
      ensures lastMdUpdate == clock(old(ticks)) && ticks > old(ticks)
      ensures stop <==> |requests.items| > MaxPendingAnalyticsReq || TimeIsUp(lastService, |requests.items|, now)
    {
      ProcessMessage(m);
      label processed:
      stop := StampMarketData();
      Untouched@processed(book);
    }

    /** The tail of a round of the market-data loop (lines 76-78): the clock is read into
        `lastMdUpdate`, then the break test runs. */
    method StampMarketData() returns (stop: bool)
      modifies `ticks, `now, `lastMdUpdate
      ensures lastMdUpdate == clock(old(ticks)) && ticks > old(ticks)
      ensures stop <==> |requests.items| > MaxPendingAnalyticsReq || TimeIsUp(lastService, |requests.items|, now)
    {
      lastMdUpdate := NanoTime();
      stop := AnalyticsOverdue();
    }

    /** The poll at the head of the market-data loop (line 71) and, when it yields a message, one
        round of the loop on it. `n` messages of `ms` were consumed before. */
    method ConsumeNext(ghost ms: seq<Message>, ghost us: seq<Update>, ghost levels0: seq<Level>,
                       ghost free0: multiset<Message>, ghost n: nat) returns (consumed: bool, stop: bool)
      requires Valid()
      requires n <= |ms| == |us| && inbound.items == ms[n..]
      requires n < |ms| ==> ms[n].kind != None && us[n] == UpdateOf(ms[n].kind.value, ms[n].price, ms[n].quantity)
      requires book.Levels() == ApplyAll(side, levels0, us[..n])
      requires messagePool.free == free0 + multiset(ms[..n])
      modifies book`top, book`chain, book`index, book.chain`nextHigher, book.chain`nextLower, book.chain`quantity
      modifies messagePool`free, inbound`items, `ticks, `now, `lastMdUpdate
      ensures Valid()
      ensures forall x :: x in book.chain ==> x in old(book.chain) || fresh(x)
      ensures consumed <==> n < |ms|
      ensures !consumed ==> !stop && book.Levels() == old(book.Levels()) && messagePool.free == old(messagePool.free)
      ensures inbound.items == ms[if consumed then n + 1 else n..]
      ensures consumed ==> book.Levels() == ApplyAll(side, levels0, us[..n + 1])
      ensures consumed ==> messagePool.free == free0 + multiset(ms[..n + 1])
      ensures stop ==> |requests.items| > MaxPendingAnalyticsReq || TimeIsUp(lastService, |requests.items|, now)
    {
      label start:
      var next := PollInbound(ms, n);
      Untouched@start(book);
      if next.None? {
        return false, false;
      }
      consumed := true;
      stop := MarketDataStep(next.value);
      ApplyAllNext(side, levels0, us, n);
      TakenNext(free0, ms, n);
    }

    /** The poll of the inbound queue (lines 71 and 83), which holds the messages of `ms` after the
        first `n`. */
    method PollInbound(ghost ms: seq<Message>, ghost n: nat) returns (next: Option<Message>)
      requires n <= |ms| && inbound.items == ms[n..]
      modifies inbound`items
      ensures next.None? <==> n == |ms|
      ensures next.Some? ==> next.value == ms[n]
      ensures inbound.items == ms[if next.Some? then n + 1 else n..]
    {
      next := inbound.Poll();
    }

    /** The market-data loop of one pass (lines 69-84): messages are polled and processed one by one
        until the queue is empty or `MarketDataStep` says to give way to analytics. `n` is the number
        of messages processed. */
    method MarketDataPhase(ghost us: seq<Update>) returns (updated: bool, ghost n: nat)
      requires Valid()
      requires forall k :: 0 <= k < |inbound.items| ==> inbound.items[k].kind != None
      requires us == Updates(inbound.items)
      modifies book`top, book`chain, book`index, book.chain`nextHigher, book.chain`nextLower, book.chain`quantity
      modifies messagePool`free, inbound`items, `ticks, `now, `lastMdUpdate
      ensures Valid()
      ensures n <= |old(inbound.items)| && inbound.items == old(inbound.items)[n..]
      ensures updated <==> n > 0
      ensures old(inbound.items) != [] ==> n > 0
      ensures book.Levels() == ApplyAll(side, old(book.Levels()), us[..n])
      ensures messagePool.free == old(messagePool.free) + multiset(old(inbound.items)[..n])
      ensures n < |old(inbound.items)| ==>
        |requests.items| > MaxPendingAnalyticsReq || TimeIsUp(lastService, |requests.items|, now)
    {
      ghost var ms, levels0, free0 := inbound.items, book.Levels(), messagePool.free;
      updated, n := false, 0;
      while true
        invariant Valid()
        invariant n <= |ms| && inbound.items == ms[n..] && (updated <==> n > 0)
        invariant book.Levels() == ApplyAll(side, levels0, us[..n])
        invariant messagePool.free == free0 + multiset(ms[..n])
        invariant forall x :: x in book.chain ==> x in old(book.chain) || fresh(x)
        decreases |ms| - n
      {
        var consumed, stop := ConsumeNext(ms, us, levels0, free0, n);
        if !consumed {
          break;
        }
        updated, n := true, n + 1;
        if stop {
          break;
        }
      }
    }

    /** The break test of the analytics loop (line 111): at least `MaxPendingMdUpdates` messages wait,
        or some wait and more than `MaxWaitNanos` passed since the last message was processed. */
    method MarketDataOverdue() returns (stop: bool)
      modifies `ticks, `now
      ensures ticks >= old(ticks)
      ensures stop <==> |inbound.items| >= MaxPendingMdUpdates || TimeIsUp(lastMdUpdate, |inbound.items|, now)
    {
      stop := |inbound.items| >= MaxPendingMdUpdates;
      if !stop {
        stop := IsTimeUp(lastMdUpdate, |inbound.items|);
      }
    }

    /** The tail of a round of the analytics loop (lines 110-111): the clock is read into
        `lastService`, then the break test runs. */
    method StampService() returns (stop: bool)
      modifies `ticks, `now, `lastService
      ensures lastService == clock(old(ticks)) && ticks > old(ticks)
      ensures stop <==> |inbound.items| >= MaxPendingMdUpdates || TimeIsUp(lastMdUpdate, |inbound.items|, now)
    {
      lastService := NanoTime();
      stop := MarketDataOverdue();
    }

    /** One round of the analytics loop (lines 95-114): the request is answered from the caches and
        handed to the result queue, the clock is read into `lastService`, and the loop is told to
        stop when market data has piled up or waited too long. */
    method AnalyticsStep(r: Request) returns (stop: bool)
      requires Valid() && CachedFor(book.Levels())
      modifies r`result, outbound`items, `quantityCache, `vwapCache, `priceCache, `ticks, `now, `lastService
      ensures Valid() && CachedFor(book.Levels()) && book.Levels() == old(book.Levels())
      ensures r.result == Populated(old(r.result), Answer(side, book.Levels(), r.kind, r.levels))
      ensures outbound.items == old(outbound.items) + [r]
      ensures lastService == clock(old(ticks)) && ticks > old(ticks)
      ensures stop <==> |inbound.items| >= MaxPendingMdUpdates || TimeIsUp(lastMdUpdate, |inbound.items|, now)
    {
      ghost var w := book.Levels();
      label start:
      ServeRequest(r);
      Untouched@start(book);
      label served:
      outbound.Add(r);
      stop := StampService();
      Untouched@served(book);
      assert CachedFor(w);
    }

    /** The poll at the head of the analytics loop (lines 91 and 116) and, when it yields a request,
        one round of the loop on it. `n` requests of `rs` were served before. */
    method ServeNext(ghost rs: seq<Request>, ghost n: nat) returns (served: bool, stop: bool)
      requires Valid() && CachedFor(book.Levels())
      requires n <= |rs| && requests.items == rs[n..]
      modifies (if n < |rs| then {rs[n]} else {})`result
      modifies requests`items, outbound`items, `quantityCache, `vwapCache, `priceCache, `ticks, `now, `lastService
      ensures Valid() && CachedFor(book.Levels()) && book.Levels() == old(book.Levels())
      ensures served <==> n < |rs|
      ensures requests.items == rs[if served then n + 1 else n..]
      ensures outbound.items == old(outbound.items) + if served then [rs[n]] else []
      ensures served ==> rs[n].result == Populated(old(rs[n].result), Answer(side, book.Levels(), rs[n].kind, rs[n].levels))
      ensures stop ==> |inbound.items| >= MaxPendingMdUpdates || TimeIsUp(lastMdUpdate, |inbound.items|, now)
    {
      label start:
      var next := requests.Poll();
      Untouched@start(book);
      if next.None? {
        return false, false;
      }
      served := true;
      stop := AnalyticsStep(next.value);
    }

    /** The analytics loop of one pass (lines 91-117): requests are polled and answered one by one
        until the queue is empty or `AnalyticsStep` says to give way to market data. `served` is the
        number of requests answered; `rs` is the request queue as the phase found it, and `slots` are
        the result slots of its requests then. */
    method AnalyticsPhase(ghost slots: seq<Option<Num>>) returns (ghost rs: seq<Request>, ghost served: nat)
      requires Valid() && CachedFor(book.Levels())
      requires ResultsAre(slots)
      modifies requests.items`result
      modifies requests`items, outbound`items, `quantityCache, `vwapCache, `priceCache, `ticks, `now, `lastService
      ensures rs == old(requests.items)
      ensures Valid() && CachedFor(book.Levels()) && book.Levels() == old(book.Levels())
      ensures served <= |rs| && requests.items == rs[served..]
      ensures outbound.items == old(outbound.items) + rs[..served]
      ensures inbound.items == old(inbound.items)
      ensures rs != [] ==> served > 0
      ensures forall k :: 0 <= k < |rs| ==>
        rs[k].result == (if rs[k] in rs[..served]
                         then Populated(slots[k], Answer(side, book.Levels(), rs[k].kind, rs[k].levels))
                         else slots[k])
      ensures served < |rs| ==>
        |inbound.items| >= MaxPendingMdUpdates || TimeIsUp(lastMdUpdate, |inbound.items|, now)
    {
      rs, served := requests.items, 0;
      ghost var w, out0 := book.Levels(), outbound.items;
      while true
        invariant Valid() && CachedFor(book.Levels()) && book.Levels() == w
        invariant served <= |rs| && requests.items == rs[served..]
        invariant outbound.items == out0 + rs[..served]
        invariant forall k :: 0 <= k < |rs| ==>
          rs[k].result == (if rs[k] in rs[..served]
                           then Populated(slots[k], Answer(side, w, rs[k].kind, rs[k].levels))
                           else slots[k])
        decreases |rs| - served
      {
        var ok, stop := ServeNext(rs, served);
        if !ok {
          break;
        }
        PrefixNext(rs, served);
        PopulatedIdempotent(slots[served], Answer(side, w, rs[served].kind, rs[served].levels));
        served := served + 1;
        if stop {
          break;
        }
      }
    }

    /** One pass of the engine loop (lines 69-117): the market-data phase, the cache clear when the
        book changed (lines 86-89), then the analytics phase. Every request served in the pass is
        answered on the book as the market-data phase left it, whatever was cached before. */
    method RunPass(ghost us: seq<Update>, ghost slots: seq<Option<Num>>) returns (ghost n: nat, ghost rs: seq<Request>, ghost served: nat)
      requires Valid() && CachedFor(book.Levels())
      requires forall k :: 0 <= k < |inbound.items| ==> inbound.items[k].kind != None
      requires us == Updates(inbound.items)
      requires ResultsAre(slots)
      modifies book`top, book`chain, book`index, book.chain`nextHigher, book.chain`nextLower, book.chain`quantity
      modifies messagePool`free, inbound`items, requests.items`result, requests`items, outbound`items
      modifies `quantityCache, `vwapCache, `priceCache, `ticks, `now, `lastMdUpdate, `lastService
      ensures Valid() && CachedFor(book.Levels())
      ensures n <= |old(inbound.items)| && inbound.items == old(inbound.items)[n..]
      ensures book.Levels() == ApplyAll(side, old(book.Levels()), us[..n])
      ensures old(inbound.items) != [] ==> n > 0
      ensures messagePool.free == old(messagePool.free) + multiset(old(inbound.items)[..n])
      ensures rs == old(requests.items) && served <= |rs| && requests.items == rs[served..]
      ensures rs != [] ==> served > 0
      ensures outbound.items == old(outbound.items) + rs[..served]
      ensures forall k :: 0 <= k < |rs| ==>
        rs[k].result == (if rs[k] in rs[..served]
                         then Populated(slots[k], Answer(side, book.Levels(), rs[k].kind, rs[k].levels))
                         else slots[k])
    {
      ghost var items0, free0 := inbound.items, messagePool.free;
      n := MarketDataAndInvalidate(us);
      ghost var pending, levels, free := inbound.items, book.Levels(), messagePool.free;
      assert free == free0 + multiset(items0[..n]);
      rs, served := AnalyticsPhase(slots);
      assert inbound.items == pending && book.Levels() == levels && messagePool.free == free;
    }

    /** The market-data phase and the cache clear that follows it when the book changed (lines 69-89):
        the caches then hold only entries that are right for the updated book. */
    method MarketDataAndInvalidate(ghost us: seq<Update>) returns (ghost n: nat)
      requires Valid() && CachedFor(book.Levels())
      requires forall k :: 0 <= k < |inbound.items| ==> inbound.items[k].kind != None
      requires us == Updates(inbound.items)
      modifies book`top, book`chain, book`index, book.chain`nextHigher, book.chain`nextLower, book.chain`quantity
      modifies messagePool`free, inbound`items, `quantityCache, `vwapCache, `priceCache, `ticks, `now, `lastMdUpdate
      ensures Valid() && CachedFor(book.Levels())
      ensures n <= |old(inbound.items)| && inbound.items == old(inbound.items)[n..]
      ensures book.Levels() == ApplyAll(side, old(book.Levels()), us[..n])
      ensures old(inbound.items) != [] ==> n > 0
      ensures messagePool.free == old(messagePool.free) + multiset(old(inbound.items)[..n])
    {
      ghost var s0, free0, items0 := book.Levels(), messagePool.free, inbound.items;
      var updated;
      updated, n := MarketDataPhase(us);
      ghost var s, free := book.Levels(), messagePool.free;
      assert free == free0 + multiset(items0[..n]);
      InvalidateIfUpdated(updated, s0, s);
      assert messagePool.free == free;
    }

    /** Lines 86-89: the caches are cleared exactly when the market-data phase changed the book, so
        caches right for the book `s0` before the phase are right for the book `s` after it. */
    method InvalidateIfUpdated(updated: bool, ghost s0: seq<Level>, ghost s: seq<Level>)
      requires Valid() && book.Levels() == s
      requires CachedFor(s0) && (!updated ==> s == s0)
      modifies `quantityCache, `vwapCache, `priceCache
      ensures Valid() && book.Levels() == s && CachedFor(s)
      ensures updated ==> quantityCache == map[] && vwapCache == map[] && priceCache == map[]
      ensures !updated ==> quantityCache == old(quantityCache) && vwapCache == old(vwapCache) && priceCache == old(priceCache)
    {
      if updated {
        ClearCalculationResultCache();
      }
    }
  }

  /** A bid book processor holding 100.00 and 50.00, five of each. */
  method TwoBidBook() returns (p: OrderBookProcessor)
    ensures fresh(p) && fresh(p.book) && forall x :: x in p.book.chain ==> fresh(x)
    ensures p.book.side == Bid && p.side == Bid && p.book.Valid()
    ensures p.book.Levels() == [Level(10000, 5), Level(5000, 5)]
  {
    p := OneBidBook();
    TwoBidLevels();
    p.UpdateBook(AddOrUpdatePriceLevel, 5000, 5);
  }

  /** A bid book processor holding five at 100.00. */
  method OneBidBook() returns (p: OrderBookProcessor)
    ensures fresh(p) && fresh(p.book) && forall x :: x in p.book.chain ==> fresh(x)
    ensures p.book.side == Bid && p.side == Bid && p.book.Valid()
    ensures p.book.Levels() == [Level(10000, 5)]
  {
    var pool := new MessagePool();
    var inbound := new Queue<Message>();
    var requests := new Queue<Request>();
    var outbound := new Queue<Request>();
    p := new OrderBookProcessor(BTCUSD, Bid, pool, inbound, requests, outbound, t => 0);
    TwoBidLevels();
    p.UpdateBook(AddOrUpdatePriceLevel, 10000, 5);
  }

  /** The book of the two bids, on values. */
  lemma TwoBidLevels()
    ensures Apply(Bid, [], UpdateOf(AddOrUpdatePriceLevel, 10000, 5)) == [Level(10000, 5)]
    ensures Apply(Bid, [Level(10000, 5)], UpdateOf(AddOrUpdatePriceLevel, 5000, 5)) == [Level(10000, 5), Level(5000, 5)]
    ensures RemovePrice([Level(10000, 5), Level(5000, 5)], 10000) == [Level(5000, 5)]
  {
    assert InsertLevel(Bid, [Level(10000, 5)], Level(5000, 5)) == [Level(10000, 5), Level(5000, 5)];
  }

  /** The defect on one input: with bids at 100.00 and 50.00, removing 100.00 as written takes it
      out of the index but leaves the top of book on its level, so the book's best bid still reads
      100.00; `TopReseated` shows the corrected removal making 50.00 the top. */
  method TopNotReseated() returns (top: PriceLevel?, index: map<int, PriceLevel>)
    ensures top != null && top.price == 10000 && 10000 !in index
  {
    var p := TwoBidBook();
    ghost var t0 := p.book.top;
    assert t0 == p.book.chain[0] && |p.book.chain| == 2;
    assert t0.price == 10000;
    var _ := p.RemovePriceLevelAsWritten(10000);
    top := p.book.top;
    index := p.book.index;
  }

  /** The corrected removal on the same input: the top of book becomes the level at 50.00. */
  method TopReseated() returns (top: PriceLevel?)
    ensures top != null && top.price == 5000
  {
    var p := TwoBidBook();
    p.RemovePriceLevel(10000);
    TwoBidLevels();
    top := p.book.top;
    assert top == p.book.chain[0];
  }
}
