/** Value types shared by every component: the instruments, the two sides of a book, the kinds of
    market-data message and analytics request, and the numeric results the analytics produce. */
module Data {

  /** The instruments the engine routes. The routing table of the distributor names exactly these. */
  datatype CcyPair = BTCUSD | ETHUSD | SOLUSD

  datatype Side = Bid | Offer

  datatype MessageType = RemovePriceLevel | AddOrUpdatePriceLevel

  datatype RequestType = Vwap | AveragePrice | AverageQuantity

  /** A Java reference that may be null. */
  datatype Option<T> = None | Some(value: T)

  /** A Java `double` produced by the analytics. Finite values are exact (no rounding); a division by
      zero yields one of the three non-finite values, as IEEE 754 prescribes. */
  datatype Num = Finite(value: real) | PosInf | NegInf | NaN

  /** Java's `n / d` where both operands are widened to `double` before dividing. */
  function Divide(n: int, d: int): (r: Num)
    ensures r.Finite? <==> d != 0
    ensures d != 0 ==> r.value * (d as real) == n as real
    ensures r.NaN? <==> d == 0 && n == 0
  {
    if d != 0 then Finite(n as real / d as real)
    else if n > 0 then PosInf
    else if n < 0 then NegInf
    else NaN
  }

  /** Java's integer `/` on a positive divisor: the quotient truncated toward zero (Dafny's own `/`
      rounds toward negative infinity for a negative dividend). */
  function TruncatedQuotient(a: int, b: int): (q: int)
    requires b > 0
    ensures 0 <= a ==> q * b <= a < q * b + b
    ensures a < 0 ==> q * b - b < a <= q * b
  {
    if a >= 0 then a / b else -((-a) / b)
  }

  /** Java `int` arithmetic: the value reduced into the 32-bit two's complement range. */
  function Wrap32(x: int): (r: int)
    ensures -0x8000_0000 <= r < 0x8000_0000
    ensures (x - r) % 0x1_0000_0000 == 0
  {
    (x + 0x8000_0000) % 0x1_0000_0000 - 0x8000_0000
  }

  /** Java `long` arithmetic: the value reduced into the 64-bit two's complement range. */
  function Wrap64(x: int): (r: int)
    ensures -0x8000_0000_0000_0000 <= r < 0x8000_0000_0000_0000
    ensures (x - r) % 0x1_0000_0000_0000_0000 == 0
    ensures -0x8000_0000_0000_0000 <= x < 0x8000_0000_0000_0000 ==> r == x
  {
    (x + 0x8000_0000_0000_0000) % 0x1_0000_0000_0000_0000 - 0x8000_0000_0000_0000
  }
}
