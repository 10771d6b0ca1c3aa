/** The offer side of a book: levels run from the lowest price up along `nextHigher`. Insertion of a
    new level and the three analytics walks, mirroring the bid side. */
module OfferSide {
  import opened Data
  import opened BookSpec
  import opened Analytics
  import opened Levels
  import opened Books

  /** Insert the new level `x` into the chain, walking up from `cur`, the `k`-th level. A price below
      `cur` goes right below it (as the new top of book when `cur` has no lower neighbour); a price
      above every level goes above the highest one. The result `pos` is the position `x` takes. */
  method InsertPriceInBook(book: OrderBook, x: PriceLevel, cur: PriceLevel, ghost k: nat) returns (ghost pos: nat)
    requires book.side == Offer && book.ChainValid()
    requires k < |book.chain| && cur == book.chain[k]
    requires x !in book.chain && x.nextHigher == null && x.nextLower == null
    requires forall i :: 0 <= i < |book.chain| ==> book.chain[i].price != x.price
    requires forall i :: 0 <= i < k ==> book.chain[i].price < x.price
    modifies book`top, book`chain, book.chain`nextHigher, book.chain`nextLower, x`nextHigher, x`nextLower
    ensures book.ChainValid()
    ensures k <= pos <= |old(book.chain)|
    ensures book.chain == old(book.chain)[..pos] + [x] + old(book.chain)[pos..]
    decreases |book.chain| - k
  {
    ghost var c := book.chain;
    assert k > 0 ==> Better(Offer, book.chain[k]) == book.chain[k - 1];
    assert k < |book.chain| - 1 ==> Worse(Offer, book.chain[k]) == book.chain[k + 1];
    if x.price < cur.price {
      var below := cur.nextLower;
      if below == null {
        LinkAsTop(book, x, cur);
        pos := 0;
        assert c[..0] == [] && c[0..] == c;
      } else {
        LinkBetween(book, below, x, cur, k);
        pos := k;
      }
    } else if cur.nextHigher == null {
      LinkAtBottom(book, x, cur);
      pos := |c|;
      assert c[..pos] == c && c[pos..] == [];
    } else {
      pos := InsertPriceInBook(book, x, cur.nextHigher, k + 1);
    }
  }

  /** A price below the top of book becomes the new top, linked below the old one. */
  method LinkAsTop(book: OrderBook, x: PriceLevel, cur: PriceLevel)
    requires book.side == Offer && book.ChainValid() && book.chain != [] && cur == book.chain[0]
    requires x !in book.chain && x.nextLower == null && x.price < cur.price
    modifies book`top, book`chain, cur`nextLower, x`nextHigher
    ensures book.ChainValid()
    ensures book.chain == [x] + old(book.chain)
  {
    ghost var c, v := book.chain, book.Levels();
    book.ChainDistinct();
    cur.SetNextLower(x);
    x.SetNextHigher(cur);
    book.top := x;
    book.chain := [x] + c;
    assert c[0..] == c && c[..0] == [];
    SpliceLinked(book, c, 0, x);
    SpliceSorted(book, c, v, 0, x);
  }

  /** A price between the levels `below` and `cur` is linked in between them. Line 35 of the source
      links `below` up to `cur` instead of to `x` (see `InsertPriceInBookAsWritten`). */
  method LinkBetween(book: OrderBook, below: PriceLevel, x: PriceLevel, cur: PriceLevel, ghost k: nat)
    requires book.side == Offer && book.ChainValid() && 0 < k < |book.chain|
    requires below == book.chain[k - 1] && cur == book.chain[k]
    requires x !in book.chain && below.price < x.price < cur.price
    modifies book`chain, below`nextHigher, cur`nextLower, x`nextHigher, x`nextLower
    ensures book.ChainValid()
    ensures book.chain == old(book.chain)[..k] + [x] + old(book.chain)[k..]
  {
    ghost var c, v := book.chain, book.Levels();
    book.ChainDistinct();
    below.SetNextHigher(x);
    x.SetNextLower(below);
    x.SetNextHigher(cur);
    cur.SetNextLower(x);
    book.chain := c[..k] + [x] + c[k..];
    SpliceLinked(book, c, k, x);
    SpliceSorted(book, c, v, k, x);
  }

  /** A price above every level is linked above the highest one, at the far end of the book. */
  method LinkAtBottom(book: OrderBook, x: PriceLevel, cur: PriceLevel)
    requires book.side == Offer && book.ChainValid() && book.chain != [] && cur == book.chain[|book.chain| - 1]
    requires x !in book.chain && x.nextHigher == null && cur.price < x.price
    modifies book`chain, cur`nextHigher, x`nextLower
    ensures book.ChainValid()
    ensures book.chain == old(book.chain) + [x]
  {
    ghost var c, v := book.chain, book.Levels();
    book.ChainDistinct();
    cur.SetNextHigher(x);
    x.SetNextLower(cur);
    book.chain := c + [x];
    assert c[..|c|] == c && c[|c|..] == [];
    SpliceLinked(book, c, |c|, x);
    SpliceSorted(book, c, v, |c|, x);
  }

  /** `insertPriceInBook` as written, on any linked levels. `path` lists the levels the walk visits from
      `cur`: it moves up past every level whose price is not above `x`'s and stops at the first level
      above `x` or at the highest level. At a stop above a lower level `b`, line 35 links `b` up to the
      stop level, where `x` was intended, so `b` keeps skipping `x`. */
  method InsertPriceInBookAsWritten(book: OrderBook, x: PriceLevel, cur: PriceLevel, ghost path: seq<PriceLevel>)
    requires path != [] && path[0] == cur
    requires forall i :: 0 <= i < |path| - 1 ==> path[i].price <= x.price && path[i].nextHigher == path[i + 1]
    requires x.price < path[|path| - 1].price || path[|path| - 1].nextHigher == null
    requires x !in path && forall i :: 0 <= i < |path| ==> path[i].nextLower != x
    modifies book`top, x`nextHigher, x`nextLower, {path[|path| - 1]}`nextHigher, {path[|path| - 1]}`nextLower
    modifies (if path[|path| - 1].nextLower == null then {} else {path[|path| - 1].nextLower})`nextHigher
    ensures var c, b := path[|path| - 1], old(path[|path| - 1].nextLower);
      if x.price < c.price && b == null then
        c.nextLower == x && x.nextHigher == c && book.top == x &&
        c.nextHigher == old(c.nextHigher) && x.nextLower == old(x.nextLower)
      else if x.price < c.price then
        b.nextHigher == c &&
        x.nextLower == b && x.nextHigher == c && c.nextLower == x &&
        (b != c ==> c.nextHigher == old(c.nextHigher)) && book.top == old(book.top)
      else
        c.nextHigher == x && x.nextLower == c &&
        c.nextLower == old(c.nextLower) && x.nextHigher == old(x.nextHigher) && book.top == old(book.top)
    decreases |path|
  {
    assert |path| > 1 ==> path[0].price <= x.price && path[0].nextHigher == path[1];
    if x.price < cur.price {
      var below := cur.nextLower;
      if below == null {
        cur.SetNextLower(x);
        x.SetNextHigher(cur);
        book.top := x;
      } else {
        below.SetNextHigher(cur);
        x.SetNextLower(below);
        x.SetNextHigher(cur);
        cur.SetNextLower(x);
      }
    } else if cur.nextHigher == null {
      cur.SetNextHigher(x);
      x.SetNextLower(cur);
    } else {
      InsertPriceInBookAsWritten(book, x, cur.nextHigher, path[1..]);
    }
  }

  /** The defect on one input: offers at 100.00 and 102.00, then 101.00 inserted as written. The top
      level still links up to 102.00, so the walk from the top never visits 101.00. */
  method InsertedLevelSkipped() returns (t: PriceLevel, m: PriceLevel, c: PriceLevel)
    ensures t.price == 10000 && m.price == 10100 && c.price == 10200
    ensures t.nextHigher == c && c.nextHigher == null
    ensures m.nextLower == t && m.nextHigher == c && c.nextLower == m
  {
    var book := new OrderBook(Offer);
    t := new PriceLevel();
    t.Populate(10000, 1);
    book.top := t;
    c := new PriceLevel();
    c.Populate(10200, 1);
    InsertPriceInBookAsWritten(book, c, t, [t]);
    m := new PriceLevel();
    m.Populate(10100, 1);
    InsertPriceInBookAsWritten(book, m, t, [t, c]);
  }

  /** The price walk: the mean of the prices of the first `levels` + 1 levels (the loop runs while
      `ptr <= levels`), in currency units. */
  method CalculateAveragePrice(book: OrderBook, levels: int) returns (r: Num)
    requires book.side == Offer && book.ChainValid()
    ensures r == OfferAveragePrice(book.Levels(), levels)
  {
    var ptr := 0;
    var current := book.top;
    if current == null {
      return Finite(0.0);
    }
    var totalPrice := 0;
    while ptr <= levels && current != null
      invariant 0 <= ptr <= |book.chain| && (ptr == 0 || ptr <= levels + 1)
      invariant current == if ptr < |book.chain| then book.chain[ptr] else null
      invariant totalPrice == TotalPrice(book.Levels()[..ptr])
      decreases |book.chain| - ptr
    {
      TotalsStep(book.Levels(), ptr);
      totalPrice := totalPrice + current.price;
      ptr := ptr + 1;
      current := current.nextHigher;
    }
    assert book.Levels()[..ptr] == Visited(book.Levels(), levels + 1);
    r := Divide(totalPrice, ptr * 100);
  }

  /** The quantity walk: the sum of the quantities of the first `levels` levels. */
  method CalculateAccumulatedQuantityOverLevels(book: OrderBook, levels: int) returns (r: int)
    requires book.side == Offer && book.ChainValid()
    ensures r == AccumulatedQuantity(book.Levels(), levels)
  {
    var ptr := 0;
    var current := book.top;
    var totalQty := 0;
    while ptr < levels && current != null
      invariant 0 <= ptr <= |book.chain| && (ptr == 0 || ptr <= levels)
      invariant current == if ptr < |book.chain| then book.chain[ptr] else null
      invariant totalQty == TotalQuantity(book.Levels()[..ptr])
      decreases |book.chain| - ptr
    {
      TotalsStep(book.Levels(), ptr);
      totalQty := totalQty + current.quantity;
      ptr := ptr + 1;
      current := current.nextHigher;
    }
    assert book.Levels()[..ptr] == Visited(book.Levels(), levels);
    r := totalQty;
  }

  /** The VWAP walk: the sum of price times quantity over the first `levels` levels, divided by 100
      times the accumulated quantity over the same levels. */
  method CalculateVwapOverLevels(book: OrderBook, levels: int) returns (r: Num)
    requires book.side == Offer && book.ChainValid()
    ensures r == VwapOf(book.Levels(), levels)
  {
    var ptr := 0;
    var current := book.top;
    var totalPriceWeight := 0;
    while ptr < levels && current != null
      invariant 0 <= ptr <= |book.chain| && (ptr == 0 || ptr <= levels)
      invariant current == if ptr < |book.chain| then book.chain[ptr] else null
      invariant totalPriceWeight == TotalWeight(book.Levels()[..ptr])
      decreases |book.chain| - ptr
    {
      TotalsStep(book.Levels(), ptr);
      totalPriceWeight := totalPriceWeight + current.price * current.quantity;
      ptr := ptr + 1;
      current := current.nextHigher;
    }
    assert book.Levels()[..ptr] == Visited(book.Levels(), levels);
    var quantity := CalculateAccumulatedQuantityOverLevels(book, levels);
    r := Divide(totalPriceWeight, quantity * 100);
  }

  /** The best offer in currency units, zero on an empty book. */
  function GetTopOfBookPrice(book: OrderBook): (r: Num)
    requires book.side == Offer && book.ChainValid()
    reads book`top, book`chain, book.chain`nextHigher, book.chain`nextLower, book.chain`price, book.chain`quantity
    ensures r == TopOfBookPrice(book.Levels())
  {
    if book.top == null then Finite(0.0) else Finite(book.top.price as real / 100.0)
  }
}
