/** One price level of one side of a book: a price, the quantity resting there, and the two links of
    the doubly-linked chain the book keeps its levels in. */
module Levels {

  class PriceLevel {
    /** Price in fixed point: the price times 100. */
    var price: int
    var quantity: int
    var nextHigher: PriceLevel?
    var nextLower: PriceLevel?

    /** A fresh level: price and quantity zero, no neighbours. */
    constructor ()
      ensures price == 0 && quantity == 0
      ensures nextHigher == null && nextLower == null
    {
      price := 0;
      quantity := 0;
      nextHigher := null;
      nextLower := null;
    }

    /** `populate` as written: the quantity is stored into the price as well, and the price argument
        is never read (PriceLevel.java line 18). The links are left as they were. */
    method PopulateAsWritten(price: int, initialQuantity: int)
      modifies `price, `quantity
      ensures this.price == initialQuantity && quantity == initialQuantity
    {
      this.price := initialQuantity;
      quantity := initialQuantity;
    }

    /** `populate` as intended: the level takes the given price and initial quantity. The links are
        left as they were, so a reused level would keep stale neighbours. */
    method Populate(price: int, initialQuantity: int)
      modifies `price, `quantity
      ensures this.price == price && quantity == initialQuantity
    {
      this.price := price;
      quantity := initialQuantity;
    }

    method AdjustQuantity(adjustment: int)
      modifies `quantity
      ensures quantity == old(quantity) + adjustment
    {
      quantity := quantity + adjustment;
    }

    method SetNextHigher(n: PriceLevel?)
      modifies `nextHigher
      ensures nextHigher == n
    {
      nextHigher := n;
    }

    method SetNextLower(n: PriceLevel?)
      modifies `nextLower
      ensures nextLower == n
    {
      nextLower := n;
    }

    /** Takes this level out of the chain: its two neighbours are linked to each other and its own
        links are cleared. The result is true iff the level had no neighbour, i.e. it was the last
        level of its book. (The book processor calls this operation, but its body is not part of the
        sources; this is the contract the caller relies on.) */
    method RemovePriceFromBook() returns (wasLast: bool)
      requires nextHigher != this && nextLower != this
      requires nextHigher != null ==> nextHigher != nextLower
      modifies `nextHigher, `nextLower
      modifies (if nextHigher == null then {} else {nextHigher})`nextLower
      modifies (if nextLower == null then {} else {nextLower})`nextHigher
      ensures wasLast <==> old(nextHigher) == null && old(nextLower) == null
      ensures old(nextHigher) != null ==> old(nextHigher).nextLower == old(nextLower)
      ensures old(nextLower) != null ==> old(nextLower).nextHigher == old(nextHigher)
      ensures nextHigher == null && nextLower == null
    {
      var higher, lower := nextHigher, nextLower;
      if higher != null {
        higher.nextLower := lower;
      }
      if lower != null {
        lower.nextHigher := higher;
      }
      nextHigher := null;
      nextLower := null;
      wasLast := higher == null && lower == null;
    }
  }

  /** The defect of `PopulateAsWritten` on one input: a level populated with price 100.00 (10000) and
      quantity 5 ends up with price 5. */
  method PopulateLosesPrice() returns (stored: int, intended: int)
    ensures stored == 5 && intended == 10000
  {
    var a := new PriceLevel();
    a.PopulateAsWritten(10000, 5);
    var b := new PriceLevel();
    b.Populate(10000, 5);
    stored, intended := a.price, b.price;
  }
}
