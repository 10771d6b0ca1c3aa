/** The state of one side of one instrument's book: the top of book, the index from price to level,
    and (as ghost state) the chain of levels in walking order. `ChainValid` is the linked-list
    invariant; `Levels` is the abstract value the analytics and the update rules of `BookSpec` are
    stated on. */
module Books {
  import opened Data
  import opened BookSpec
  import opened Levels

  /** The neighbour one step toward the top of book: the higher level for bids, the lower for offers. */
  function Better(side: Side, n: PriceLevel): PriceLevel?
    reads n`nextHigher, n`nextLower
  {
    if side == Bid then n.nextHigher else n.nextLower
  }

  /** The neighbour one step away from the top of book. */
  function Worse(side: Side, n: PriceLevel): PriceLevel?
    reads n`nextHigher, n`nextLower
  {
    if side == Bid then n.nextLower else n.nextHigher
  }

  /** The price levels a chain of level objects holds, in chain order. */
  ghost function View(c: seq<PriceLevel>): (r: seq<Level>)
    reads c`price, c`quantity
    ensures |r| == |c|
    ensures forall i :: 0 <= i < |c| ==> r[i] == Level(c[i].price, c[i].quantity)
  {
    if c == [] then [] else View(c[..|c| - 1]) + [Level(c[|c| - 1].price, c[|c| - 1].quantity)]
  }

  lemma {:induction false} ViewAppend(a: seq<PriceLevel>, b: seq<PriceLevel>)
    ensures View(a + b) == View(a) + View(b)
  {
    if b != [] {
      ViewAppend(a, b[..|b| - 1]);
      assert (a + b)[..|a + b| - 1] == a + b[..|b| - 1];
    } else {
      assert a + b == a;
    }
  }

  lemma ViewSplice(c: seq<PriceLevel>, pos: nat, x: PriceLevel)
    requires pos <= |c|
    ensures View(c[..pos] + [x] + c[pos..]) == View(c)[..pos] + [Level(x.price, x.quantity)] + View(c)[pos..]
  {
    ViewAppend(c[..pos] + [x], c[pos..]);
    ViewAppend(c[..pos], [x]);
    ViewAppend(c[..pos], c[pos..]);
    assert c[..pos] + c[pos..] == c;
    assert View([x]) == [Level(x.price, x.quantity)];
  }

  /** The links of a chain spliced with `x` at position `pos` are right when `x` and its neighbours are
      linked to each other and every other link is as it was in the old chain `c`. */
  lemma SpliceLinked(book: OrderBook, c: seq<PriceLevel>, pos: nat, x: PriceLevel)
    requires pos <= |c| && book.chain == c[..pos] + [x] + c[pos..] && book.top == book.chain[0]
    requires forall i :: 0 <= i < |c| - 1 && i != pos - 1 ==>
      Worse(book.side, c[i]) == c[i + 1] && Better(book.side, c[i + 1]) == c[i]
    requires pos > 0 ==> Worse(book.side, c[pos - 1]) == x && Better(book.side, x) == c[pos - 1]
    requires pos < |c| ==> Worse(book.side, x) == c[pos] && Better(book.side, c[pos]) == x
    requires pos == 0 ==> Better(book.side, x) == null
    requires pos == |c| ==> Worse(book.side, x) == null
    requires pos > 0 ==> Better(book.side, c[0]) == null
    requires pos < |c| ==> Worse(book.side, c[|c| - 1]) == null
    ensures book.Linked()
  {
    var side, d := book.side, book.chain;
    forall i | 0 <= i < |d| - 1 ensures Worse(side, d[i]) == d[i + 1] && Better(side, d[i + 1]) == d[i] {
      if i < pos - 1 {
        assert d[i] == c[i] && d[i + 1] == c[i + 1];
      } else if i >= pos + 1 {
        assert d[i] == c[i - 1] && d[i + 1] == c[i];
      }
    }
  }

  /** After splicing `x` into the chain at `pos`, the abstract book is the old one with x's level
      spliced in at the same position; it stays sorted when x's price fits there. */
  lemma SpliceSorted(book: OrderBook, c: seq<PriceLevel>, v: seq<Level>, pos: nat, x: PriceLevel)
    requires pos <= |c| && book.chain == c[..pos] + [x] + c[pos..] && View(c) == v
    requires Sorted(book.side, v)
    requires pos > 0 ==> Beats(book.side, v[pos - 1].price, x.price)
    requires pos < |c| ==> Beats(book.side, x.price, v[pos].price)
    ensures book.Levels() == v[..pos] + [Level(x.price, x.quantity)] + v[pos..]
    ensures Sorted(book.side, book.Levels())
  {
    ViewSplice(c, pos, x);
    SortedSplice(book.side, v, pos, Level(x.price, x.quantity));
  }

  /** The neighbours of the `i`-th level of a linked chain are the levels next to it in the chain. */
  lemma Neighbours(book: OrderBook, i: nat)
    requires book.Linked() && i < |book.chain|
    ensures Better(book.side, book.chain[i]) == if i == 0 then null else book.chain[i - 1]
    ensures Worse(book.side, book.chain[i]) == if i == |book.chain| - 1 then null else book.chain[i + 1]
  {
  }

  lemma ViewRemove(c: seq<PriceLevel>, i: nat)
    requires i < |c|
    ensures View(c[..i] + c[i + 1..]) == View(c)[..i] + View(c)[i + 1..]
  {
    ViewAppend(c[..i], c[i + 1..]);
    ViewAppend(c[..i], c[i..]);
    ViewAppend(c[..i + 1], c[i + 1..]);
    assert c[..i] + c[i..] == c && c[..i + 1] + c[i + 1..] == c;
  }

  /** A chain with one level taken out holds only levels of the old chain. */
  lemma RemovedFromChain(c: seq<PriceLevel>, i: nat)
    requires i < |c|
    ensures forall x :: x in c[..i] + c[i + 1..] ==> x in c
  {
    forall x | x in c[..i] + c[i + 1..] ensures x in c {
      var k :| 0 <= k < |c[..i] + c[i + 1..]| && (c[..i] + c[i + 1..])[k] == x;
      assert x == if k < i then c[k] else c[k + 1];
    }
  }

  /** A chain with a level spliced in holds only that level and levels of the old chain. */
  lemma SplicedIntoChain(c: seq<PriceLevel>, pos: nat, y: PriceLevel)
    requires pos <= |c|
    ensures forall x :: x in c[..pos] + [y] + c[pos..] ==> x in c || x == y
  {
    forall x | x in c[..pos] + [y] + c[pos..] ensures x in c || x == y {
      var d := c[..pos] + [y] + c[pos..];
      var k :| 0 <= k < |d| && d[k] == x;
      assert x == if k < pos then c[k] else if k == pos then y else c[k - 1];
    }
  }

  /** Taking the `i`-th level out of a sorted chain shows the abstract book without that level's price,
      still sorted. */
  lemma UnsplicedLevels(side: Side, c: seq<PriceLevel>, v: seq<Level>, i: nat)
    requires View(c) == v && Sorted(side, v) && i < |c|
    ensures View(c[..i] + c[i + 1..]) == RemovePrice(v, v[i].price)
    ensures Sorted(side, RemovePrice(v, v[i].price))
  {
    ViewRemove(c, i);
    RemovePriceAt(side, v, i);
    RemovePriceSorted(side, v, v[i].price);
  }

  /** A level spliced in wherever the chain stays sorted sits where the insertion walk puts it. */
  lemma SplicedLevels(side: Side, c: seq<PriceLevel>, v: seq<Level>, pos: nat, x: PriceLevel)
    requires View(c) == v && pos <= |c|
    requires Sorted(side, View(c[..pos] + [x] + c[pos..]))
    ensures View(c[..pos] + [x] + c[pos..]) == InsertLevel(side, v, Level(x.price, x.quantity))
  {
    ViewSplice(c, pos, x);
    InsertionPointUnique(side, v, Level(x.price, x.quantity), pos);
  }

  /** The links of a chain with its `i`-th level `c[i]` taken out are right when the two levels that
      surrounded it are linked to each other and every other link is as it was in the old chain `c`. */
  lemma UnspliceLinked(book: OrderBook, c: seq<PriceLevel>, i: nat)
    requires i < |c| && book.chain == c[..i] + c[i + 1..]
    requires book.top == if book.chain == [] then null else book.chain[0]
    requires forall j :: 0 <= j < |c| - 1 && j != i - 1 && j != i ==>
      Worse(book.side, c[j]) == c[j + 1] && Better(book.side, c[j + 1]) == c[j]
    requires 0 < i < |c| - 1 ==> Worse(book.side, c[i - 1]) == c[i + 1] && Better(book.side, c[i + 1]) == c[i - 1]
    requires i == 0 && |c| > 1 ==> Better(book.side, c[1]) == null
    requires 0 < i && i == |c| - 1 ==> Worse(book.side, c[i - 1]) == null
    requires i > 0 ==> Better(book.side, c[0]) == null
    requires i < |c| - 1 ==> Worse(book.side, c[|c| - 1]) == null
    ensures book.Linked()
  {
    var side, d := book.side, book.chain;
    forall j | 0 <= j < |d| - 1 ensures Worse(side, d[j]) == d[j + 1] && Better(side, d[j + 1]) == d[j] {
      if j < i - 1 {
        assert d[j] == c[j] && d[j + 1] == c[j + 1];
      } else if j == i - 1 {
        assert d[j] == c[i - 1] && d[j + 1] == c[i + 1];
      } else {
        assert d[j] == c[j + 1] && d[j + 1] == c[j + 2];
      }
    }
    if d != [] {
      if i == 0 {
        assert d[0] == c[1];
      } else {
        assert d[0] == c[0];
      }
      if i == |c| - 1 {
        assert d[|d| - 1] == c[i - 1];
      } else {
        assert d[|d| - 1] == c[|c| - 1];
      }
    }
  }

  /** `index` maps the price of each level of `c` to that level, and nothing else. */
  ghost predicate IndexOf(index: map<int, PriceLevel>, c: seq<PriceLevel>)
    reads c`price
  {
    (forall k :: 0 <= k < |c| ==> c[k].price in index && index[c[k].price] == c[k]) &&
    (forall p :: p in index ==> index[p] in c && index[p].price == p)
  }

  /** Taking the `i`-th level out of the chain and its price out of the index keeps them in step. */
  lemma IndexRemove(index: map<int, PriceLevel>, c: seq<PriceLevel>, i: nat)
    requires IndexOf(index, c) && i < |c|
    requires forall k :: 0 <= k < |c| && k != i ==> c[k].price != c[i].price
    ensures IndexOf(index - {c[i].price}, c[..i] + c[i + 1..])
  {
    var d, m := c[..i] + c[i + 1..], index - {c[i].price};
    forall k | 0 <= k < |d| ensures d[k].price in m && m[d[k].price] == d[k] {
      var j := if k < i then k else k + 1;
      assert d[k] == c[j];
    }
    forall p | p in m ensures m[p] in d {
      var j :| 0 <= j < |c| && c[j] == index[p];
      if j < i {
        assert d[j] == c[j];
      } else {
        assert d[j - 1] == c[j];
      }
    }
  }

  /** Splicing a level with a new price into the chain and indexing it keeps them in step. */
  lemma IndexInsert(index: map<int, PriceLevel>, c: seq<PriceLevel>, pos: nat, x: PriceLevel)
    requires IndexOf(index, c) && pos <= |c| && x.price !in index
    ensures IndexOf(index[x.price := x], c[..pos] + [x] + c[pos..])
  {
    var d, m := c[..pos] + [x] + c[pos..], index[x.price := x];
    forall k | 0 <= k < |d| ensures d[k].price in m && m[d[k].price] == d[k] {
      if k < pos {
        assert d[k] == c[k];
      } else if k > pos {
        assert d[k] == c[k - 1];
      }
    }
    forall p | p in m ensures m[p] in d {
      if p != x.price {
        var j :| 0 <= j < |c| && c[j] == index[p];
        if j < pos {
          assert d[j] == c[j];
        } else {
          assert d[j + 1] == c[j];
        }
      } else {
        assert d[pos] == x;
      }
    }
  }

  /** A step that touches neither the book nor any level of its chain leaves the book as it was. */
  twostate lemma Untouched(book: OrderBook)
    requires old(book.Valid()) && unchanged(book) && unchanged(old(book.chain))
    ensures book.Valid() && book.Levels() == old(book.Levels())
  {
  }

  class OrderBook {
    const side: Side
    var top: PriceLevel?
    /** The price index: each price on the book to its level. */
    var index: map<int, PriceLevel>
    /** The levels reachable from the top of book, best first. */
    ghost var chain: seq<PriceLevel>

    constructor (side: Side)
      ensures this.side == side && top == null && index == map[] && chain == []
      ensures Valid()
    {
      this.side := side;
      top := null;
      index := map[];
      chain := [];
    }

    /** The chain starts at the top of book, is linked both ways and ends at both sides with a null
        link. */
    ghost predicate Linked()
      reads `top, `chain, chain`nextHigher, chain`nextLower
    {
      (top == null <==> chain == []) &&
      (chain != [] ==>
        top == chain[0] && Better(side, chain[0]) == null && Worse(side, chain[|chain| - 1]) == null) &&
      (forall i :: 0 <= i < |chain| - 1 ==>
        Worse(side, chain[i]) == chain[i + 1] && Better(side, chain[i + 1]) == chain[i])
    }

    /** The linked-list invariant: the chain is linked, and its prices get strictly worse away from
        the top of book. */
    ghost predicate ChainValid()
      reads `top, `chain, chain`nextHigher, chain`nextLower, chain`price, chain`quantity
    {
      Linked() && Sorted(side, Levels())
    }

    /** The chain invariant, and the index holds exactly the chain's levels, each under its own price. */
    ghost predicate Valid()
      reads this, chain`nextHigher, chain`nextLower, chain`price, chain`quantity
    {
      ChainValid() && IndexOf(index, chain)
    }

    /** The abstract book: the levels from the top of book outward. */
    ghost function Levels(): seq<Level>
      reads `chain, chain`price, chain`quantity
    {
      View(chain)
    }

    /** Distinct prices make distinct levels: no level occurs twice in a valid chain. */
    lemma ChainDistinct()
      requires ChainValid()
      ensures forall i, j :: 0 <= i < j < |chain| ==> chain[i] != chain[j]
    {
      forall i, j | 0 <= i < j < |chain| ensures chain[i] != chain[j] {
        assert Levels()[i].price != Levels()[j].price;
      }
    }

    /** The `i`-th level can unlink itself: it is not its own neighbour, its two neighbours differ
        and lie on the chain, and it has no neighbour exactly when it is the only level. */
    lemma Detachable(i: nat)
      requires ChainValid() && i < |chain|
      ensures chain[i].nextHigher != chain[i] && chain[i].nextLower != chain[i]
      ensures chain[i].nextHigher != null ==> chain[i].nextHigher != chain[i].nextLower
      ensures (chain[i].nextHigher == null && chain[i].nextLower == null) <==> chain == [chain[i]]
      ensures chain[i].nextHigher == null || chain[i].nextHigher in chain
      ensures chain[i].nextLower == null || chain[i].nextLower in chain
    {
      ChainDistinct();
      Neighbours(this, i);
      if |chain| > 1 && i == 0 {
        Neighbours(this, 1);
      }
    }

    /** Replaces the price index by `m`, which indexes the chain as it stands. */
    method SetIndex(m: map<int, PriceLevel>)
      requires ChainValid() && IndexOf(m, chain)
      modifies `index
      ensures index == m && Valid()
      ensures top == old(top) && chain == old(chain) && Levels() == old(Levels())
    {
      index := m;
    }

    /** A price is indexed exactly when it is on the book. */
    lemma IndexedPrice(p: int)
      requires Valid()
      ensures p in index <==> p in Prices(Levels())
    {
      if p in index {
        var i :| 0 <= i < |chain| && chain[i] == index[p];
        assert Levels()[i].price == p;
      }
      if p in Prices(Levels()) {
        var i :| 0 <= i < |chain| && Levels()[i].price == p;
        assert chain[i].price == p;
      }
    }

    /** The level the index holds for a price is the only level of the chain at that price. */
    lemma IndexPosition(p: int) returns (i: nat)
      requires Valid() && p in index
      ensures i < |chain| && chain[i] == index[p] && Levels()[i].price == p
      ensures forall k :: 0 <= k < |chain| && k != i ==> chain[k].price != p
    {
      i :| 0 <= i < |chain| && chain[i] == index[p];
      forall k | 0 <= k < |chain| && k != i ensures chain[k].price != p {
        if k < i {
          assert Beats(side, Levels()[k].price, Levels()[i].price);
        } else {
          assert Beats(side, Levels()[i].price, Levels()[k].price);
        }
      }
    }

    /** Index and chain agree on membership: the index keys are the prices of the abstract book. */
    lemma IndexMatchesLevels()
      requires Valid()
      ensures index.Keys == Prices(Levels())
    {
      forall p | p in index ensures p in Prices(Levels()) {
        var i :| 0 <= i < |chain| && chain[i] == index[p];
        assert Levels()[i].price == p;
      }
    }
  }
}
