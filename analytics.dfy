/** The three analytics a book answers over its first levels, on the abstract book value. Sums are
    exact integers; the final division is the `Num` division of `Data`. */
module Analytics {
  import opened Data
  import opened BookSpec

  /** How many levels a walk that stops after `limit` steps visits on a book of `n` levels. */
  function Clamp(limit: int, n: nat): (r: nat)
    ensures r <= n
    ensures limit <= 0 ==> r == 0
    ensures 0 <= limit <= n ==> r == limit
    ensures limit >= n ==> r == n
  {
    if limit <= 0 then 0 else if limit < n then limit else n
  }

  /** The levels a walk from the top of book visits when bounded by `limit`. */
  function Visited(s: seq<Level>, limit: int): seq<Level>
  {
    s[..Clamp(limit, |s|)]
  }

  function TotalPrice(s: seq<Level>): int
  {
    if s == [] then 0 else TotalPrice(s[..|s| - 1]) + s[|s| - 1].price
  }

  function TotalQuantity(s: seq<Level>): int
  {
    if s == [] then 0 else TotalQuantity(s[..|s| - 1]) + s[|s| - 1].quantity
  }

  /** The sum of price times quantity. */
  function TotalWeight(s: seq<Level>): int
  {
    if s == [] then 0 else TotalWeight(s[..|s| - 1]) + s[|s| - 1].price * s[|s| - 1].quantity
  }

  /** The "average quantity" query: the sum of quantities over the first `limit` levels. */
  function AccumulatedQuantity(s: seq<Level>, limit: int): int
  {
    TotalQuantity(Visited(s, limit))
  }

  /** Mean price of the levels a walk bounded by `limit` visits, in currency units. Zero on an empty
      book; a walk that visits nothing divides zero by zero. */
  function MeanPrice(s: seq<Level>, limit: int): Num
  {
    if s == [] then Finite(0.0)
    else Divide(TotalPrice(Visited(s, limit)), |Visited(s, limit)| * 100)
  }

  /** The bid side walks at most `limit` levels. */
  function BidAveragePrice(s: seq<Level>, limit: int): Num
  {
    MeanPrice(s, limit)
  }

  /** The offer side's loop runs while `ptr <= levels`, so it walks up to `limit + 1` levels. */
  function OfferAveragePrice(s: seq<Level>, limit: int): Num
  {
    MeanPrice(s, limit + 1)
  }

  function AveragePrice(side: Side, s: seq<Level>, limit: int): Num
  {
    if side == Bid then BidAveragePrice(s, limit) else OfferAveragePrice(s, limit)
  }

  /** Volume-weighted average price over the first `limit` levels, with no guard on a zero quantity. */
  function VwapOf(s: seq<Level>, limit: int): Num
  {
    Divide(TotalWeight(Visited(s, limit)), AccumulatedQuantity(s, limit) * 100)
  }

  /** The best price in currency units, zero on an empty book. */
  function TopOfBookPrice(s: seq<Level>): Num
  {
    if s == [] then Finite(0.0) else Finite(s[0].price as real / 100.0)
  }

  /** The value a book processor stores into a request of the given kind. The accumulated quantity, a
      Java `long`, is widened to `double`. */
  function Answer(side: Side, s: seq<Level>, kind: RequestType, limit: int): Num
  {
    match kind
    case Vwap => VwapOf(s, limit)
    case AveragePrice => AveragePrice(side, s, limit)
    case AverageQuantity => Finite(AccumulatedQuantity(s, limit) as real)
  }

  lemma VisitedLength(s: seq<Level>, limit: int)
    ensures |Visited(s, limit)| == Clamp(limit, |s|)
    ensures limit >= |s| ==> Visited(s, limit) == s
  {
  }

  /** Sums over a prefix one level longer add that level. */
  lemma TotalsStep(s: seq<Level>, k: nat)
    requires k < |s|
    ensures TotalPrice(s[..k + 1]) == TotalPrice(s[..k]) + s[k].price
    ensures TotalQuantity(s[..k + 1]) == TotalQuantity(s[..k]) + s[k].quantity
    ensures TotalWeight(s[..k + 1]) == TotalWeight(s[..k]) + s[k].price * s[k].quantity
  {
    assert s[..k + 1][..k] == s[..k];
  }

  /** The mean of prices that lie in [lo, hi] lies in [lo, hi]: the sum is bounded by count times
      each bound. */
  lemma {:induction false} TotalPriceBounds(s: seq<Level>, lo: int, hi: int)
    requires forall k :: 0 <= k < |s| ==> lo <= s[k].price <= hi
    ensures lo * |s| <= TotalPrice(s) <= hi * |s|
  {
    if s != [] {
      TotalPriceBounds(s[..|s| - 1], lo, hi);
      assert lo * |s| == lo * (|s| - 1) + lo;
      assert hi * |s| == hi * (|s| - 1) + hi;
    }
  }

  /** With non-negative quantities and prices in [lo, hi], the weight sum lies between lo and hi
      times the quantity sum. */
  lemma {:induction false} TotalWeightBounds(s: seq<Level>, lo: int, hi: int)
    requires forall k :: 0 <= k < |s| ==> lo <= s[k].price <= hi && s[k].quantity >= 0
    ensures lo * TotalQuantity(s) <= TotalWeight(s) <= hi * TotalQuantity(s)
  {
    if s != [] {
      var n := |s| - 1;
      TotalWeightBounds(s[..n], lo, hi);
      WeightStep(lo, hi, s[n].price, s[n].quantity, TotalQuantity(s[..n]), TotalWeight(s[..n]));
    }
  }

  /** One more level, priced in [lo, hi], keeps a weight sum between lo and hi times its quantity sum. */
  lemma WeightStep(lo: int, hi: int, p: int, q: int, total: int, weight: int)
    requires lo <= p <= hi && q >= 0 && lo * total <= weight <= hi * total
    ensures lo * (total + q) <= weight + p * q <= hi * (total + q)
  {
    assert (p - lo) * q >= 0;
    assert (hi - p) * q >= 0;
    assert lo * (total + q) == lo * total + lo * q;
    assert hi * (total + q) == hi * total + hi * q;
  }

  /** Non-negative quantities make the accumulated quantity grow with the level count. */
  lemma {:induction false} TotalQuantityPrefix(s: seq<Level>, i: nat, j: nat)
    requires i <= j <= |s|
    requires forall k :: 0 <= k < |s| ==> s[k].quantity >= 0
    ensures TotalQuantity(s[..i]) <= TotalQuantity(s[..j])
    decreases j - i
  {
    if i < j {
      TotalsStep(s, j - 1);
      TotalQuantityPrefix(s, i, j - 1);
    }
  }

  lemma AccumulatedQuantityMonotone(s: seq<Level>, l1: int, l2: int)
    requires l1 <= l2
    requires forall k :: 0 <= k < |s| ==> s[k].quantity >= 0
    ensures 0 <= AccumulatedQuantity(s, l1) <= AccumulatedQuantity(s, l2)
  {
    TotalQuantityPrefix(s, 0, Clamp(l1, |s|));
    TotalQuantityPrefix(s, Clamp(l1, |s|), Clamp(l2, |s|));
    assert s[..0] == [];
  }

  /** On a bid book, sorted from the highest price down, the mean of the first levels lies between
      the last visited price and the top of book price. */
  lemma BidAverageWithinVisited(s: seq<Level>, limit: int)
    requires Sorted(Bid, s) && s != [] && limit > 0
    ensures var v := Visited(s, limit);
      BidAveragePrice(s, limit).Finite? &&
      v[|v| - 1].price as real / 100.0 <= BidAveragePrice(s, limit).value <= TopOfBookPrice(s).value
  {
    var v := Visited(s, limit);
    var n := |v|;
    assert n >= 1;
    forall k | 0 <= k < n ensures v[n - 1].price <= v[k].price <= v[0].price {
      assert v[k] == s[k] && v[0] == s[0] && v[n - 1] == s[n - 1];
    }
    TotalPriceBounds(v, v[n - 1].price, v[0].price);
    MeanWithin(TotalPrice(v), n, v[n - 1].price, v[0].price);
  }

  /** On an offer book, sorted from the lowest price up, the mean of the first levels lies between
      the top of book price and the last visited price. */
  lemma OfferAverageWithinVisited(s: seq<Level>, limit: int)
    requires Sorted(Offer, s) && s != [] && limit >= 0
    ensures var v := Visited(s, limit + 1);
      OfferAveragePrice(s, limit).Finite? &&
      TopOfBookPrice(s).value <= OfferAveragePrice(s, limit).value <= v[|v| - 1].price as real / 100.0
  {
    var v := Visited(s, limit + 1);
    var n := |v|;
    assert n >= 1;
    forall k | 0 <= k < n ensures v[0].price <= v[k].price <= v[n - 1].price {
      assert v[k] == s[k] && v[0] == s[0] && v[n - 1] == s[n - 1];
    }
    TotalPriceBounds(v, v[0].price, v[n - 1].price);
    MeanWithin(TotalPrice(v), n, v[0].price, v[n - 1].price);
  }

  /** An integer total of n values in [lo, hi], divided by n * 100, lies in [lo / 100, hi / 100]. */
  lemma MeanWithin(total: int, n: int, lo: int, hi: int)
    requires n > 0 && lo * n <= total <= hi * n
    ensures Divide(total, n * 100).Finite?
    ensures lo as real / 100.0 <= Divide(total, n * 100).value <= hi as real / 100.0
  {
    var d := (n * 100) as real;
    var r := Divide(total, n * 100).value;
    var l, h := lo as real / 100.0, hi as real / 100.0;
    assert r * d == total as real;
    assert l * d == (lo * n) as real;
    assert h * d == (hi * n) as real;
    NonNegativeFactor(r - l, d);
    NonNegativeFactor(h - r, d);
  }

  lemma NonNegativeFactor(x: real, d: real)
    requires d > 0.0 && x * d >= 0.0
    ensures x >= 0.0
  {
  }

  /** With positive quantities, the VWAP over the first levels lies between the lowest and the highest
      visited price. */
  lemma VwapWithinVisited(s: seq<Level>, limit: int, lo: int, hi: int)
    requires forall k :: 0 <= k < |Visited(s, limit)| ==>
      lo <= Visited(s, limit)[k].price <= hi && Visited(s, limit)[k].quantity > 0
    requires Visited(s, limit) != []
    ensures VwapOf(s, limit).Finite?
    ensures lo as real / 100.0 <= VwapOf(s, limit).value <= hi as real / 100.0
  {
    var v := Visited(s, limit);
    TotalWeightBounds(v, lo, hi);
    PositiveQuantity(v);
    MeanWithin(TotalWeight(v), TotalQuantity(v), lo, hi);
  }

  lemma {:induction false} PositiveQuantity(s: seq<Level>)
    requires s != [] && forall k :: 0 <= k < |s| ==> s[k].quantity > 0
    ensures TotalQuantity(s) > 0
  {
    if |s| > 1 {
      PositiveQuantity(s[..|s| - 1]);
    }
  }

  /** An empty book answers 0 for the average price and the quantity, and NaN for the VWAP (zero
      divided by zero, since the VWAP has no guard). */
  lemma EmptyBookAnswers(side: Side, limit: int)
    ensures AveragePrice(side, [], limit) == Finite(0.0)
    ensures AccumulatedQuantity([], limit) == 0
    ensures VwapOf([], limit) == NaN
    ensures TopOfBookPrice([]) == Finite(0.0)
  {
  }

  /** A walk bounded by a non-positive level count visits nothing; the bid average then divides zero
      by zero, while the offer average still visits the top level. */
  lemma NonPositiveLimit(s: seq<Level>)
    requires s != []
    ensures BidAveragePrice(s, 0) == NaN
    ensures OfferAveragePrice(s, 0) == Finite(s[0].price as real / 100.0)
  {
    assert Visited(s, 1) == [s[0]];
    assert [s[0]][..0] == [];
  }

  /** The offer average covers one level more than asked: with levels at 100.00 and 102.00, the
      average over one level is 101.00, while the bid average over one level is the top price. */
  lemma OfferAverageCoversExtraLevel()
    ensures OfferAveragePrice([Level(10000, 1), Level(10200, 1)], 1) == Finite(101.0)
    ensures BidAveragePrice([Level(10200, 1), Level(10000, 1)], 1) == Finite(102.0)
  {
    var s := [Level(10000, 1), Level(10200, 1)];
    assert Visited(s, 2) == s;
    assert s[..1] == [s[0]];
    assert [s[0]][..0] == [];
    assert TotalPrice(s) == 20200;
    var b := [Level(10200, 1), Level(10000, 1)];
    assert Visited(b, 1) == [b[0]];
    assert [b[0]][..0] == [];
    assert TotalPrice([b[0]]) == 10200;
  }

  /** A bid at 100.00 with quantity 10 on an empty book: the average price over one level is 100.00. */
  lemma ScenarioSingleBid()
    ensures AveragePrice(Bid, Apply(Bid, [], Upsert(10000, 10)), 1) == Finite(100.0)
  {
    var s := Apply(Bid, [], Upsert(10000, 10));
    assert s == [Level(10000, 10)];
    assert Visited(s, 1) == s;
    assert s[..0] == [];
  }

  /** Offers at 100.00, 101.00 and 102.00 with quantity 5 each: the quantity over three levels is 15
      and the VWAP over three levels is 101.00. */
  lemma ScenarioThreeOffers()
    ensures var s := ApplyAll(Offer, [], [Upsert(10000, 5), Upsert(10100, 5), Upsert(10200, 5)]);
      s == [Level(10000, 5), Level(10100, 5), Level(10200, 5)] &&
      Answer(Offer, s, RequestType.AverageQuantity, 3) == Finite(15.0) &&
      Answer(Offer, s, RequestType.Vwap, 3) == Finite(101.0)
  {
    var us := [Upsert(10000, 5), Upsert(10100, 5), Upsert(10200, 5)];
    var a, b, c := Level(10000, 5), Level(10100, 5), Level(10200, 5);
    assert us[..2][..1] == us[..1];
    assert us[..1][..0] == [];
    assert ApplyAll(Offer, [], us[..1]) == Apply(Offer, [], us[0]);
    assert Apply(Offer, [], us[0]) == [a];
    assert ApplyAll(Offer, [], us[..2]) == Apply(Offer, [a], us[1]);
    assert 10100 !in Prices([a]);
    assert [a][1..] == [];
    assert InsertLevel(Offer, [a], b) == [a] + InsertLevel(Offer, [], b);
    assert Apply(Offer, [a], us[1]) == [a, b];
    var s := ApplyAll(Offer, [], us);
    assert s == Apply(Offer, [a, b], us[2]);
    assert 10200 !in Prices([a, b]);
    assert [a, b][1..] == [b];
    assert [b][1..] == [];
    assert InsertLevel(Offer, [b], c) == [b, c];
    assert s == [a, b, c];
    assert Visited(s, 3) == s;
    assert s[..2] == [a, b];
    assert [a, b][..1] == [a];
    assert [a][..0] == [];
    assert TotalQuantity([a]) == 5 && TotalWeight([a]) == 50000;
    assert TotalQuantity([a, b]) == 10 && TotalWeight([a, b]) == 100500;
    assert TotalQuantity(s) == 15;
    assert TotalWeight(s) == 151500;
  }
}
