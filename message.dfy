/** The market-data message: a mutable record that the feed fills in and the book processor reads.
    Messages are pooled and reused, so every field keeps its last value until it is overwritten. */
module Messages {
  import opened Data

  /** The six fields of a message as one value. A Java enum field that was never set is null, here
      `None`. */
  datatype Fields = Fields(kind: Option<MessageType>, pair: Option<CcyPair>, side: Option<Side>,
                           quantity: int, price: int, time: int)

  class Message {
    /** The message type (`type` in the source). */
    var kind: Option<MessageType>
    var pair: Option<CcyPair>
    var side: Option<Side>
    var quantity: int
    /** Price in fixed point: the price times 100. */
    var price: int
    var time: int

    /** A fresh message, as Java default-initialises it: null enums and zero numbers. */
    constructor ()
      ensures Snapshot() == Fields(None, None, None, 0, 0, 0)
    {
      kind, pair, side := None, None, None;
      quantity, price, time := 0, 0, 0;
    }

    function Snapshot(): Fields
      reads this
    {
      Fields(kind, pair, side, quantity, price, time)
    }

    method SetKind(kind: Option<MessageType>)
      modifies `kind
      ensures this.kind == kind
    {
      this.kind := kind;
    }

    method SetPair(pair: Option<CcyPair>)
      modifies `pair
      ensures this.pair == pair
    {
      this.pair := pair;
    }

    method SetSide(side: Option<Side>)
      modifies `side
      ensures this.side == side
    {
      this.side := side;
    }

    method SetQuantity(quantity: int)
      modifies `quantity
      ensures this.quantity == quantity
    {
      this.quantity := quantity;
    }

    method SetPrice(price: int)
      modifies `price
      ensures this.price == price
    {
      this.price := price;
    }

    method SetTime(time: int)
      modifies `time
      ensures this.time == time
    {
      this.time := time;
    }

    /** Copies type, pair, side, quantity and price from `m`; the time stamp stays this message's own. */
    method PopulateFields(m: Message)
      modifies `kind, `pair, `side, `quantity, `price
      ensures Snapshot() == old(m.Snapshot()).(time := old(time))
    {
      var k, p, s, q, pr := m.kind, m.pair, m.side, m.quantity, m.price;
      kind, pair, side, quantity, price := k, p, s, q, pr;
    }
  }

  /** The price as `toString` shows it: `price / 100` in Java `long` arithmetic, then widened to
      `double`, so the cents are cut off (toward zero) before the conversion. */
  function DisplayPrice(price: int): (r: real)
    ensures r == r.Floor as real
    ensures 0 <= price ==> 0.0 <= r * 100.0 <= price as real < r * 100.0 + 100.0
    ensures price < 0 ==> r * 100.0 - 100.0 < price as real <= r * 100.0 <= 0.0
  {
    TruncatedQuotient(price, 100) as real
  }

  /** 123.45 and -123.45 are both shown without their cents. */
  lemma DisplayDropsCents()
    ensures DisplayPrice(12345) == 123.0 && DisplayPrice(-12345) == -123.0
  {
    assert TruncatedQuotient(12345, 100) == 123;
    assert TruncatedQuotient(-12345, 100) == -123;
  }
}
