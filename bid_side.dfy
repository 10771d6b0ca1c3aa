/** The bid side of a book: levels run from the highest price down along `nextLower`. Insertion of a
    new level and the three analytics walks. */
module BidSide {
  import opened Data
  import opened BookSpec
  import opened Analytics
  import opened Levels
  import opened Books

  /** Insert the new level `x` into the chain, walking down from `cur`, the `k`-th level. A price above
      `cur` goes right above it (as the new top of book when `cur` has no higher neighbour); a price
      below every level goes below the lowest one. The result `pos` is the position `x` takes. */
  method InsertPriceInBook(book: OrderBook, x: PriceLevel, cur: PriceLevel, ghost k: nat) returns (ghost pos: nat)
    requires book.side == Bid && book.ChainValid()
    requires k < |book.chain| && cur == book.chain[k]
    requires x !in book.chain && x.nextHigher == null && x.nextLower == null
    requires forall i :: 0 <= i < |book.chain| ==> book.chain[i].price != x.price
    requires forall i :: 0 <= i < k ==> book.chain[i].price > x.price
    modifies book`top, book`chain, book.chain`nextHigher, book.chain`nextLower, x`nextHigher, x`nextLower
    ensures book.ChainValid()
    ensures k <= pos <= |old(book.chain)|
    ensures book.chain == old(book.chain)[..pos] + [x] + old(book.chain)[pos..]
    decreases |book.chain| - k
  {
    ghost var c := book.chain;
    assert k > 0 ==> Better(Bid, book.chain[k]) == book.chain[k - 1];
    assert k < |book.chain| - 1 ==> Worse(Bid, book.chain[k]) == book.chain[k + 1];
    if x.price > cur.price {
      var above := cur.nextHigher;
      if above == null {
        LinkAsTop(book, x, cur);
        pos := 0;
        assert c[..0] == [] && c[0..] == c;
      } else {
        LinkBetween(book, above, x, cur, k);
        pos := k;
      }
    } else if cur.nextLower == null {
      LinkAtBottom(book, x, cur);
      pos := |c|;
      assert c[..pos] == c && c[pos..] == [];
    } else {
      pos := InsertPriceInBook(book, x, cur.nextLower, k + 1);
    }
  }

  /** A price above the top of book becomes the new top, linked above the old one. */
  method LinkAsTop(book: OrderBook, x: PriceLevel, cur: PriceLevel)
    requires book.side == Bid && book.ChainValid() && book.chain != [] && cur == book.chain[0]
    requires x !in book.chain && x.nextHigher == null && x.price > cur.price
    modifies book`top, book`chain, cur`nextHigher, x`nextLower
    ensures book.ChainValid()
    ensures book.chain == [x] + old(book.chain)
  {
    ghost var c, v := book.chain, book.Levels();
    book.ChainDistinct();
    cur.SetNextHigher(x);
    x.SetNextLower(cur);
    book.top := x;
    book.chain := [x] + c;
    assert c[0..] == c && c[..0] == [];
    SpliceLinked(book, c, 0, x);
    SpliceSorted(book, c, v, 0, x);
  }

  /** A price between the levels `above` and `cur` is linked in between them. Line 98 of the source
      links `cur` to itself instead of to `x` (see `InsertPriceInBookAsWritten`). */
  method LinkBetween(book: OrderBook, above: PriceLevel, x: PriceLevel, cur: PriceLevel, ghost k: nat)
    requires book.side == Bid && book.ChainValid() && 0 < k < |book.chain|
    requires above == book.chain[k - 1] && cur == book.chain[k]
    requires x !in book.chain && above.price > x.price > cur.price
    modifies book`chain, above`nextLower, cur`nextHigher, x`nextHigher, x`nextLower
    ensures book.ChainValid()
    ensures book.chain == old(book.chain)[..k] + [x] + old(book.chain)[k..]
  {
    ghost var c, v := book.chain, book.Levels();
    book.ChainDistinct();
    above.SetNextLower(x);
    x.SetNextHigher(above);
    x.SetNextLower(cur);
    cur.SetNextHigher(x);
    book.chain := c[..k] + [x] + c[k..];
    SpliceLinked(book, c, k, x);
    SpliceSorted(book, c, v, k, x);
  }

  /** A price below every level is linked below the lowest one. */
  method LinkAtBottom(book: OrderBook, x: PriceLevel, cur: PriceLevel)
    requires book.side == Bid && book.ChainValid() && book.chain != [] && cur == book.chain[|book.chain| - 1]
    requires x !in book.chain && x.nextLower == null && cur.price > x.price
    modifies book`chain, cur`nextLower, x`nextHigher
    ensures book.ChainValid()
    ensures book.chain == old(book.chain) + [x]
  {
    ghost var c, v := book.chain, book.Levels();
    book.ChainDistinct();
    cur.SetNextLower(x);
    x.SetNextHigher(cur);
    book.chain := c + [x];
    assert c[..|c|] == c && c[|c|..] == [];
    SpliceLinked(book, c, |c|, x);
    SpliceSorted(book, c, v, |c|, x);
  }

  /** `insertPriceInBook` as written, on any linked levels. `path` lists the levels the walk visits from
      `cur`: it moves down past every level whose price is not below `x`'s and stops at the first level
      below `x` or at the lowest level. At a stop above a level `a`, line 98 links the stop level up to
      itself, where `x` was intended. */
  method InsertPriceInBookAsWritten(book: OrderBook, x: PriceLevel, cur: PriceLevel, ghost path: seq<PriceLevel>)
    requires path != [] && path[0] == cur
    requires forall i :: 0 <= i < |path| - 1 ==> path[i].price >= x.price && path[i].nextLower == path[i + 1]
    requires x.price > path[|path| - 1].price || path[|path| - 1].nextLower == null
    requires x !in path && forall i :: 0 <= i < |path| ==> path[i].nextHigher != x
    modifies book`top, x`nextHigher, x`nextLower, {path[|path| - 1]}`nextHigher, {path[|path| - 1]}`nextLower
    modifies (if path[|path| - 1].nextHigher == null then {} else {path[|path| - 1].nextHigher})`nextLower
    ensures var c, a := path[|path| - 1], old(path[|path| - 1].nextHigher);
      if x.price > c.price && a == null then
        c.nextHigher == x && x.nextLower == c && book.top == x &&
        c.nextLower == old(c.nextLower) && x.nextHigher == old(x.nextHigher)
      else if x.price > c.price then
        a.nextLower == x && x.nextHigher == a && x.nextLower == c && c.nextHigher == c &&
        (a != c ==> c.nextLower == old(c.nextLower)) && book.top == old(book.top)
      else
        c.nextLower == x && x.nextHigher == c &&
        c.nextHigher == old(c.nextHigher) && x.nextLower == old(x.nextLower) && book.top == old(book.top)
    decreases |path|
  {
    assert |path| > 1 ==> path[0].price >= x.price && path[0].nextLower == path[1];
    if x.price > cur.price {
      var above := cur.nextHigher;
      if above == null {
        cur.SetNextHigher(x);
        x.SetNextLower(cur);
        book.top := x;
      } else {
        above.SetNextLower(x);
        x.SetNextHigher(above);
        x.SetNextLower(cur);
        cur.SetNextHigher(cur);
      }
    } else if cur.nextLower == null {
      cur.SetNextLower(x);
      x.SetNextHigher(cur);
    } else {
      InsertPriceInBookAsWritten(book, x, cur.nextLower, path[1..]);
    }
  }

  /** The defect on one input: bids at 100.00 and 50.00, then 80.00 and 60.00 inserted as written,
      leave the levels at 50.00 and 60.00 each other's lower neighbour, so a walk down from the top
      never reaches the end of the book. */
  method SelfLinkMakesCycle() returns (b: PriceLevel, e: PriceLevel)
    ensures b.price == 5000 && e.price == 6000
    ensures b.nextLower == e && e.nextLower == b
  {
    var book, t, m;
    book, t, m, b := SelfLinkedBook();
    e := new PriceLevel();
    e.Populate(6000, 1);
    InsertPriceInBookAsWritten(book, e, t, [t, m, b]);
  }

  /** The first steps of `SelfLinkMakesCycle`: bids at 100.00 and 50.00, then 80.00 inserted as
      written, which leaves the level at 50.00 linked up to itself. */
  method SelfLinkedBook() returns (book: OrderBook, t: PriceLevel, m: PriceLevel, b: PriceLevel)
    ensures fresh(book) && fresh(t) && fresh(m) && fresh(b)
    ensures t.price == 10000 && m.price == 8000 && b.price == 5000
    ensures t.nextLower == m && m.nextLower == b && b.nextHigher == b
    ensures t.nextHigher == null && m.nextHigher == t
  {
    book := new OrderBook(Bid);
    t := new PriceLevel();
    t.Populate(10000, 1);
    book.top := t;
    b := new PriceLevel();
    b.Populate(5000, 1);
    InsertPriceInBookAsWritten(book, b, t, [t]);
    m := new PriceLevel();
    m.Populate(8000, 1);
    InsertPriceInBookAsWritten(book, m, t, [t, b]);
  }

  /** The price walk: the mean of the prices of the first `maxLevel` levels, in currency units. */
  method CalculateAveragePrice(book: OrderBook, maxLevel: int) returns (r: Num)
    requires book.side == Bid && book.ChainValid()
    ensures r == BidAveragePrice(book.Levels(), maxLevel)
  {
    var current := book.top;
    var totalPrice := 0;
    if current == null {
      return Finite(totalPrice as real);
    }
    var ptr := 0;
    while ptr < maxLevel && current != null
      invariant 0 <= ptr <= |book.chain| && (ptr == 0 || ptr <= maxLevel)
      invariant current == if ptr < |book.chain| then book.chain[ptr] else null
      invariant totalPrice == TotalPrice(book.Levels()[..ptr])
      decreases |book.chain| - ptr
    {
      TotalsStep(book.Levels(), ptr);
      totalPrice := totalPrice + current.price;
      current := current.nextLower;
      ptr := ptr + 1;
    }
    assert book.Levels()[..ptr] == Visited(book.Levels(), maxLevel);
    r := Divide(totalPrice, ptr * 100);
  }

  /** The quantity walk: the sum of the quantities of the first `maxPriceLevel` levels. */
  method CalculateAccumulatedQuantityOverLevels(book: OrderBook, maxPriceLevel: int) returns (r: int)
    requires book.side == Bid && book.ChainValid()
    ensures r == AccumulatedQuantity(book.Levels(), maxPriceLevel)
  {
    var ptr := 0;
    var current := book.top;
    var totalQty := 0;
    while ptr < maxPriceLevel && current != null
      invariant 0 <= ptr <= |book.chain| && (ptr == 0 || ptr <= maxPriceLevel)
      invariant current == if ptr < |book.chain| then book.chain[ptr] else null
      invariant totalQty == TotalQuantity(book.Levels()[..ptr])
      decreases |book.chain| - ptr
    {
      TotalsStep(book.Levels(), ptr);
      totalQty := totalQty + current.quantity;
      ptr := ptr + 1;
      current := current.nextLower;
    }
    assert book.Levels()[..ptr] == Visited(book.Levels(), maxPriceLevel);
    r := totalQty;
  }

  /** The VWAP walk: the sum of price times quantity over the first `levels` levels, divided by 100
      times the accumulated quantity over the same levels. */
  method CalculateVwapOverLevels(book: OrderBook, levels: int) returns (r: Num)
    requires book.side == Bid && book.ChainValid()
    ensures r == VwapOf(book.Levels(), levels)
  {
    var ptr := 0;
    var current := book.top;
    var totalPriceWeight := 0;
    while ptr < levels && current != null
      invariant 0 <= ptr <= |book.chain| && (ptr == 0 || ptr <= levels)
      invariant current == if ptr < |book.chain| then book.chain[ptr] else null
      invariant totalPriceWeight == TotalWeight(book.Levels()[..ptr])
      decreases |book.chain| - ptr
    {
      TotalsStep(book.Levels(), ptr);
      totalPriceWeight := totalPriceWeight + current.price * current.quantity;
      ptr := ptr + 1;
      current := current.nextLower;
    }
    assert book.Levels()[..ptr] == Visited(book.Levels(), levels);
    var quantity := CalculateAccumulatedQuantityOverLevels(book, levels);
    r := Divide(totalPriceWeight, quantity * 100);
  }

  /** The best bid in currency units, zero on an empty book. */
  function GetTopOfBookPrice(book: OrderBook): (r: Num)
    requires book.side == Bid && book.ChainValid()
    reads book`top, book`chain, book.chain`nextHigher, book.chain`nextLower, book.chain`price, book.chain`quantity
    ensures r == TopOfBookPrice(book.Levels())
  {
    if book.top == null then Finite(0.0) else Finite(book.top.price as real / 100.0)
  }
}
