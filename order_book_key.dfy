/** The key of one book: an instrument and a side. */
module Keys {
  import opened Data

  datatype OrderBookKey = OrderBookKey(pair: CcyPair, side: Side)

  /** What `equals` can be handed: null, an order book key, or an object of any other class. */
  datatype Candidate = Null | Key(key: OrderBookKey) | Other

  /** `equals`: a key equals another key with the same pair and the same side, and nothing else. The
      identity test comes first in the source; an object is always equal to its own components, so
      it returns what the component comparison would. */
  function Equals(k: OrderBookKey, o: Candidate): (r: bool)
    ensures r <==> o == Key(k)
  {
    match o
    case Null => false
    case Other => false
    case Key(that) => k.pair == that.pair && k.side == that.side
  }

  /** `hashCode`: `Objects.hash(pair, side)`, that is `31 * (31 + h(pair)) + h(side)` in 32-bit
      arithmetic, where `h` is the enum constants' identity hash (an input here). */
  function HashCode(k: OrderBookKey, pairHash: CcyPair -> int, sideHash: Side -> int): (r: int)
    ensures -0x8000_0000 <= r < 0x8000_0000
  {
    Wrap32(Wrap32(31 * Wrap32(31 + pairHash(k.pair))) + sideHash(k.side))
  }

  lemma EqualsReflexive(k: OrderBookKey)
    ensures Equals(k, Key(k))
  {
  }

  lemma EqualsSymmetric(a: OrderBookKey, b: OrderBookKey)
    ensures Equals(a, Key(b)) <==> Equals(b, Key(a))
  {
  }

  lemma NotEqualToNullOrOther(k: OrderBookKey)
    ensures !Equals(k, Null) && !Equals(k, Other)
  {
  }

  /** Equal keys hash alike, whatever the enum hashes are. */
  lemma EqualKeysHashAlike(a: OrderBookKey, b: OrderBookKey, pairHash: CcyPair -> int, sideHash: Side -> int)
    requires Equals(a, Key(b))
    ensures HashCode(a, pairHash, sideHash) == HashCode(b, pairHash, sideHash)
  {
  }
}
