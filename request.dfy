/** An analytics request: what to compute over how many levels of which book, and a single-shot slot
    for the result. */
module Requests {
  import opened Data

  class Request {
    const id: int
    const levels: int
    const kind: RequestType
    const side: Side
    const pair: CcyPair
    /** The result slot: `None` while empty. */
    var result: Option<Num>

    constructor (id: int, levels: int, kind: RequestType, side: Side, pair: CcyPair)
      ensures this.id == id && this.levels == levels && this.kind == kind
      ensures this.side == side && this.pair == pair
      ensures result == None
    {
      this.id, this.levels, this.kind, this.side, this.pair := id, levels, kind, side, pair;
      result := None;
    }

    /** The `long` overload: the value is widened to a double and stored only into an empty slot. */
    method PopulateResultFromLong(value: int)
      modifies `result
      ensures result == if old(result) == None then Some(Finite(value as real)) else old(result)
    {
      if result == None {
        result := Some(Finite(value as real));
      }
    }

    /** The `double` overload: stores into an empty slot and says whether it did. */
    method PopulateResult(value: Num) returns (stored: bool)
      modifies `result
      ensures stored <==> old(result) == None
      ensures result == if stored then Some(value) else old(result)
    {
      stored := result == None;
      if stored {
        result := Some(value);
      }
    }

    /** Takes the result out, leaving the slot empty. An empty slot would fail unboxing null. */
    method GetResult() returns (v: Num)
      requires result != None
      modifies `result
      ensures Some(v) == old(result) && result == None
    {
      v := result.value;
      result := None;
    }
  }

  /** The result slot keeps the first value: a second populate through either overload is ignored. */
  method FirstResultWins() returns (first: Num, second: bool)
    ensures first == Finite(3.0) && !second
  {
    var r := new Request(1, 5, AverageQuantity, Bid, BTCUSD);
    r.PopulateResultFromLong(3);
    r.PopulateResultFromLong(4);
    second := r.PopulateResult(Finite(7.5));
    first := r.GetResult();
  }
}
