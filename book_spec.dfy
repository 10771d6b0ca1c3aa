/** The abstract value of one side of a book: the price levels in walking order from the top of book
    outward, and the effect of one market-data update on it. The linked chain of `PriceLevel`
    objects is proved to implement these functions. */
module BookSpec {
  import opened Data

  /** One price level: price in fixed point (price times 100) and the quantity resting there. */
  datatype Level = Level(price: int, quantity: int)

  /** A market-data instruction, as the book processor reads it from a message. */
  datatype Update = Upsert(price: int, quantity: int) | Remove(price: int)

  /** Price a is strictly better than price b: higher for bids, lower for offers. */
  predicate Beats(side: Side, a: int, b: int)
  {
    if side == Bid then a > b else a < b
  }

  /** Strictly sorted from best to worst, hence without duplicate prices. */
  predicate Sorted(side: Side, s: seq<Level>)
  {
    forall i, j :: 0 <= i < j < |s| ==> Beats(side, s[i].price, s[j].price)
  }

  function Prices(s: seq<Level>): set<int>
  {
    set i | 0 <= i < |s| :: s[i].price
  }

  /** Walk from the top and place x before the first level it beats, or at the end. */
  function InsertLevel(side: Side, s: seq<Level>, x: Level): seq<Level>
  {
    if s == [] then [x]
    else if Beats(side, x.price, s[0].price) then [x] + s
    else [s[0]] + InsertLevel(side, s[1..], x)
  }

  /** Every level at price p taken out. */
  function RemovePrice(s: seq<Level>, p: int): seq<Level>
  {
    if s == [] then []
    else if s[0].price == p then RemovePrice(s[1..], p)
    else [s[0]] + RemovePrice(s[1..], p)
  }

  /** The quantity at price p changed by d; every other level as it was. */
  function Adjust(s: seq<Level>, p: int, d: int): seq<Level>
  {
    if s == [] then []
    else (if s[0].price == p then [Level(p, s[0].quantity + d)] else [s[0]]) + Adjust(s[1..], p, d)
  }

  /** One update: an upsert adds to an existing level or inserts a new one; a remove drops the level. */
  function Apply(side: Side, s: seq<Level>, u: Update): seq<Level>
  {
    match u
    case Upsert(p, q) => if p in Prices(s) then Adjust(s, p, q) else InsertLevel(side, s, Level(p, q))
    case Remove(p) => RemovePrice(s, p)
  }

  function ApplyAll(side: Side, s: seq<Level>, us: seq<Update>): seq<Level>
  {
    if us == [] then s else Apply(side, ApplyAll(side, s, us[..|us| - 1]), us[|us| - 1])
  }

  lemma BeatsAsymmetric(side: Side, a: int, b: int)
    ensures Beats(side, a, b) ==> !Beats(side, b, a) && a != b
  {
  }

  lemma {:induction false} SortedTail(side: Side, s: seq<Level>)
    requires Sorted(side, s) && s != []
    ensures Sorted(side, s[1..])
    ensures forall i :: 0 < i < |s| ==> Beats(side, s[0].price, s[i].price)
  {
  }

  lemma PricesCons(x: Level, s: seq<Level>)
    ensures Prices([x] + s) == {x.price} + Prices(s)
  {
    var t := [x] + s;
    forall p | p in Prices(t) ensures p in {x.price} + Prices(s) {
      var i :| 0 <= i < |t| && t[i].price == p;
      if i > 0 { assert s[i - 1].price == p; }
    }
    forall p | p in Prices(s) ensures p in Prices(t) {
      var i :| 0 <= i < |s| && s[i].price == p;
      assert t[i + 1].price == p;
    }
    assert t[0].price == x.price;
  }

  /** The walk stops at the first level `x` beats: `x` goes in at that position. */
  lemma {:induction false} InsertLevelAt(side: Side, s: seq<Level>, x: Level) returns (pos: nat)
    ensures pos <= |s| && InsertLevel(side, s, x) == s[..pos] + [x] + s[pos..]
    ensures forall i :: 0 <= i < pos ==> !Beats(side, x.price, s[i].price)
    ensures pos < |s| ==> Beats(side, x.price, s[pos].price)
  {
    if s == [] || Beats(side, x.price, s[0].price) {
      pos := 0;
      assert s[0..] == s;
    } else {
      var p := InsertLevelAt(side, s[1..], x);
      pos := p + 1;
      assert s[..pos] == [s[0]] + s[1..][..p];
      assert s[pos..] == s[1..][p..];
      forall i | 0 <= i < pos ensures !Beats(side, x.price, s[i].price) {
        if i > 0 { assert s[i] == s[1..][i - 1]; }
      }
    }
  }

  lemma PricesSplice(s: seq<Level>, pos: nat, x: Level)
    requires pos <= |s|
    ensures Prices(s[..pos] + [x] + s[pos..]) == Prices(s) + {x.price}
  {
    var d := s[..pos] + [x] + s[pos..];
    forall p | p in Prices(d) ensures p in Prices(s) + {x.price} {
      var i :| 0 <= i < |d| && d[i].price == p;
      if i < pos { assert d[i] == s[i]; } else if i > pos { assert d[i] == s[i - 1]; }
    }
    forall p | p in Prices(s) ensures p in Prices(d) {
      var i :| 0 <= i < |s| && s[i].price == p;
      if i < pos { assert d[i] == s[i]; } else { assert d[i + 1] == s[i]; }
    }
    assert d[pos] == x;
  }

  /** Inserting a new price keeps the book strictly sorted, adds exactly that price and one level. */
  lemma InsertLevelSorted(side: Side, s: seq<Level>, x: Level)
    requires Sorted(side, s) && x.price !in Prices(s)
    ensures Sorted(side, InsertLevel(side, s, x))
    ensures Prices(InsertLevel(side, s, x)) == Prices(s) + {x.price}
    ensures |InsertLevel(side, s, x)| == |s| + 1
  {
    var pos := InsertLevelAt(side, s, x);
    if pos > 0 {
      assert s[pos - 1].price in Prices(s);
      assert !Beats(side, x.price, s[pos - 1].price);
    }
    SortedSplice(side, s, pos, x);
    PricesSplice(s, pos, x);
  }

  /** The walk's insertion point is the only one that leaves the book sorted. */
  lemma {:induction false} InsertionPointUnique(side: Side, s: seq<Level>, x: Level, pos: nat)
    requires pos <= |s|
    requires Sorted(side, s[..pos] + [x] + s[pos..])
    ensures s[..pos] + [x] + s[pos..] == InsertLevel(side, s, x)
  {
    var t := s[..pos] + [x] + s[pos..];
    if pos == 0 {
      assert t == [x] + s;
      if s != [] { assert t[1] == s[0]; assert Beats(side, t[0].price, t[1].price); }
    } else {
      assert t[0] == s[0];
      assert t[pos] == x;
      assert Beats(side, s[0].price, x.price);
      BeatsAsymmetric(side, s[0].price, x.price);
      var u := s[1..][..pos - 1] + [x] + s[1..][pos - 1..];
      assert u == t[1..];
      SortedTail(side, t);
      InsertionPointUnique(side, s[1..], x, pos - 1);
      assert t == [s[0]] + u;
    }
  }

  /** Removing a price that is on the book leaves out exactly its level. */
  lemma {:induction false} RemovePriceAt(side: Side, s: seq<Level>, i: nat)
    requires Sorted(side, s) && i < |s|
    ensures RemovePrice(s, s[i].price) == s[..i] + s[i + 1..]
  {
    var p := s[i].price;
    if i == 0 {
      SortedTail(side, s);
      forall k | 0 <= k < |s[1..]| ensures s[1..][k].price != p {
        BeatsAsymmetric(side, p, s[k + 1].price);
      }
      AbsentPrice(s[1..], p);
      RemoveAbsent(s[1..], p);
    } else {
      SortedTail(side, s);
      BeatsAsymmetric(side, s[0].price, p);
      RemovePriceAt(side, s[1..], i - 1);
      assert s[1..][i - 1] == s[i];
      assert s[..i] + s[i + 1..] == [s[0]] + (s[1..][..i - 1] + s[1..][i..]);
    }
  }

  lemma AbsentPrice(s: seq<Level>, p: int)
    requires forall k :: 0 <= k < |s| ==> s[k].price != p
    ensures p !in Prices(s)
  {
  }

  /** Removing a price that is not on the book changes nothing. */
  lemma {:induction false} RemoveAbsent(s: seq<Level>, p: int)
    requires p !in Prices(s)
    ensures RemovePrice(s, p) == s
  {
    if s != [] {
      forall k | 0 <= k < |s[1..]| ensures s[1..][k].price != p {
        assert s[k + 1].price in Prices(s);
      }
      AbsentPrice(s[1..], p);
      RemoveAbsent(s[1..], p);
    }
  }

  /** Adjusting the quantity at a price on the book changes that one level's quantity only. */
  lemma {:induction false} AdjustAt(side: Side, s: seq<Level>, i: nat, d: int)
    requires Sorted(side, s) && i < |s|
    ensures Adjust(s, s[i].price, d) == s[i := Level(s[i].price, s[i].quantity + d)]
  {
    var p := s[i].price;
    SortedTail(side, s);
    if i == 0 {
      forall k | 0 <= k < |s[1..]| ensures s[1..][k].price != p {
        BeatsAsymmetric(side, p, s[k + 1].price);
      }
      AdjustAbsent(s[1..], p, d);
      assert s[0 := Level(p, s[0].quantity + d)] == [Level(p, s[0].quantity + d)] + s[1..];
    } else {
      BeatsAsymmetric(side, s[0].price, p);
      AdjustAt(side, s[1..], i - 1, d);
      assert s[1..][i - 1] == s[i];
      assert s[i := Level(p, s[i].quantity + d)]
          == [s[0]] + s[1..][i - 1 := Level(p, s[i].quantity + d)];
    }
  }

  lemma {:induction false} AdjustAbsent(s: seq<Level>, p: int, d: int)
    requires forall k :: 0 <= k < |s| ==> s[k].price != p
    ensures Adjust(s, p, d) == s
  {
    if s != [] {
      AdjustAbsent(s[1..], p, d);
      assert s == [s[0]] + s[1..];
    }
  }

  /** Removing keeps the book sorted and takes exactly price p out of the price set. */
  lemma {:induction false} RemovePriceSorted(side: Side, s: seq<Level>, p: int)
    requires Sorted(side, s)
    ensures Sorted(side, RemovePrice(s, p))
    ensures Prices(RemovePrice(s, p)) == Prices(s) - {p}
  {
    if s != [] {
      SortedTail(side, s);
      RemovePriceSorted(side, s[1..], p);
      PricesCons(s[0], s[1..]);
      assert s == [s[0]] + s[1..];
      var rest := RemovePrice(s[1..], p);
      if s[0].price == p {
        forall k | 0 <= k < |s[1..]| ensures s[1..][k].price != p {
          BeatsAsymmetric(side, s[0].price, s[k + 1].price);
        }
        AbsentPrice(s[1..], p);
      } else {
        PricesCons(s[0], rest);
        var t := [s[0]] + rest;
        forall i, j | 0 <= i < j < |t| ensures Beats(side, t[i].price, t[j].price) {
          if i == 0 {
            assert t[j].price in Prices(rest);
            var n :| 0 <= n < |s[1..]| && s[1..][n].price == t[j].price;
            assert s[n + 1].price == t[j].price;
          }
        }
      }
    }
  }

  /** An adjustment changes quantities only, so order and price set are those of the input. */
  lemma {:induction false} AdjustKeepsPrices(s: seq<Level>, p: int, d: int)
    ensures |Adjust(s, p, d)| == |s|
    ensures forall k :: 0 <= k < |s| ==> Adjust(s, p, d)[k].price == s[k].price
  {
    if s != [] {
      AdjustKeepsPrices(s[1..], p, d);
      var t := Adjust(s, p, d);
      forall k | 0 <= k < |s| ensures t[k].price == s[k].price {
        if k > 0 { assert t[k] == Adjust(s[1..], p, d)[k - 1]; }
      }
    }
  }

  lemma SamePricesSorted(side: Side, s: seq<Level>, t: seq<Level>)
    requires Sorted(side, s) && |t| == |s|
    requires forall k :: 0 <= k < |s| ==> t[k].price == s[k].price
    ensures Sorted(side, t) && Prices(t) == Prices(s)
  {
    assert forall i, j :: 0 <= i < j < |t| ==> t[i].price == s[i].price && t[j].price == s[j].price;
    forall p | p in Prices(t) ensures p in Prices(s) {
      var k :| 0 <= k < |t| && t[k].price == p;
      assert s[k].price == p;
    }
    forall p | p in Prices(s) ensures p in Prices(t) {
      var k :| 0 <= k < |s| && s[k].price == p;
      assert t[k].price == p;
    }
  }

  /** The structural invariant of a book: every update keeps it strictly sorted; an upsert adds its
      price to the price set and a remove takes its price out. */
  lemma ApplySorted(side: Side, s: seq<Level>, u: Update)
    requires Sorted(side, s)
    ensures Sorted(side, Apply(side, s, u))
    ensures u.Upsert? ==> Prices(Apply(side, s, u)) == Prices(s) + {u.price}
    ensures u.Remove? ==> Prices(Apply(side, s, u)) == Prices(s) - {u.price}
  {
    match u
    case Upsert(p, q) =>
      if p in Prices(s) {
        AdjustKeepsPrices(s, p, q);
        SamePricesSorted(side, s, Adjust(s, p, q));
      } else {
        InsertLevelSorted(side, s, Level(p, q));
      }
    case Remove(p) =>
      RemovePriceSorted(side, s, p);
  }

  /** For any sequence of upserts and removes applied to any sorted book (the empty book included),
      the levels stay strictly sorted from the top of book outward, with no duplicate price. */
  lemma {:induction false} ApplyAllSorted(side: Side, s: seq<Level>, us: seq<Update>)
    requires Sorted(side, s)
    ensures Sorted(side, ApplyAll(side, s, us))
  {
    if us != [] {
      ApplyAllSorted(side, s, us[..|us| - 1]);
      ApplySorted(side, ApplyAll(side, s, us[..|us| - 1]), us[|us| - 1]);
    }
  }

  /** Applying one more update of a stream to the book of its prefix gives the book of the longer
      prefix. */
  lemma ApplyAllNext(side: Side, s: seq<Level>, us: seq<Update>, n: nat)
    requires n < |us|
    ensures ApplyAll(side, s, us[..n + 1]) == Apply(side, ApplyAll(side, s, us[..n]), us[n])
  {
    assert us[..n + 1][..n] == us[..n];
  }

  /** Two upserts at one price accumulate quantity into a single level. */
  lemma UpsertTwiceAccumulates(side: Side, s: seq<Level>, p: int, q1: int, q2: int)
    requires Sorted(side, s) && p !in Prices(s)
    ensures var t := Apply(side, Apply(side, s, Upsert(p, q1)), Upsert(p, q2));
      |t| == |s| + 1 && p in Prices(t) &&
      forall k :: 0 <= k < |t| && t[k].price == p ==> t[k].quantity == q1 + q2
  {
    InsertLevelSorted(side, s, Level(p, q1));
    var t1 := InsertLevel(side, s, Level(p, q1));
    assert p in Prices(t1);
    var i :| 0 <= i < |t1| && t1[i].price == p;
    InsertedQuantity(side, s, Level(p, q1));
    AdjustAt(side, t1, i, q2);
    var t := t1[i := Level(p, t1[i].quantity + q2)];
    forall k | 0 <= k < |t| && t[k].price == p ensures t[k].quantity == q1 + q2 {
      SortedPriceUnique(side, t1, i, k);
    }
    assert t[i].price == p;
  }

  lemma {:induction false} InsertedQuantity(side: Side, s: seq<Level>, x: Level)
    requires x.price !in Prices(s)
    ensures forall k :: 0 <= k < |InsertLevel(side, s, x)| && InsertLevel(side, s, x)[k].price == x.price ==>
              InsertLevel(side, s, x)[k] == x
  {
    if s != [] {
      assert forall k :: 0 <= k < |s| ==> s[k].price in Prices(s);
      forall k | 0 <= k < |s[1..]| ensures s[1..][k].price != x.price {
        assert s[k + 1].price in Prices(s);
      }
      AbsentPrice(s[1..], x.price);
      InsertedQuantity(side, s[1..], x);
      var t := InsertLevel(side, s, x);
      if !Beats(side, x.price, s[0].price) {
        assert t == [s[0]] + InsertLevel(side, s[1..], x);
      } else {
        assert t == [x] + s;
      }
    }
  }

  /** Removing the only level empties the book. */
  lemma RemoveOnlyLevel(side: Side, x: Level)
    ensures Apply(side, [x], Remove(x.price)) == []
  {
    assert [x][1..] == [];
    assert RemovePrice([x], x.price) == RemovePrice([], x.price);
  }

  /** In a sorted book a price occurs at one position only. */
  lemma SortedPriceUnique(side: Side, s: seq<Level>, i: nat, k: nat)
    requires Sorted(side, s) && i < |s| && k < |s| && s[i].price == s[k].price
    ensures i == k
  {
  }

  /** The top of a sorted book is its best price. */
  lemma TopIsBest(side: Side, s: seq<Level>, i: nat)
    requires Sorted(side, s) && 0 < i < |s|
    ensures Beats(side, s[0].price, s[i].price)
  {
  }

  /** A level whose price lies strictly between its two new neighbours keeps a sorted book sorted. */
  lemma {:induction false} SortedSplice(side: Side, s: seq<Level>, pos: nat, x: Level)
    requires Sorted(side, s) && pos <= |s|
    requires pos > 0 ==> Beats(side, s[pos - 1].price, x.price)
    requires pos < |s| ==> Beats(side, x.price, s[pos].price)
    ensures Sorted(side, s[..pos] + [x] + s[pos..])
  {
    var d := s[..pos] + [x] + s[pos..];
    forall i, j | 0 <= i < j < |d| ensures Beats(side, d[i].price, d[j].price) {
      if j < pos {
        assert d[i] == s[i] && d[j] == s[j];
      } else if i > pos {
        assert d[i] == s[i - 1] && d[j] == s[j - 1];
      } else if i < pos && j > pos {
        assert d[i] == s[i] && d[j] == s[j - 1];
        assert Beats(side, s[i].price, s[pos - 1].price) || i == pos - 1;
      } else if i == pos && j > pos {
        assert d[j] == s[j - 1];
        assert Beats(side, s[pos].price, s[j - 1].price) || j - 1 == pos;
      } else if i < pos && j == pos {
        assert d[i] == s[i];
        assert Beats(side, s[i].price, s[pos - 1].price) || i == pos - 1;
      }
    }
  }
}
