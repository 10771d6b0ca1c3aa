/** The distributor: it routes market data and analytics requests to the queues of the book they are
    for, and collects the books' answers into one response queue. Each of its three threads is
    modelled as one round of its loop. */
module Distributor {
  import opened Data
  import opened Messages
  import opened Requests
  import opened Queues

  /** The number of books: three instruments, two sides each. */
  const BookCount := 6

  /** The position of a book's queue in the lists handed to the constructor (lines 49-69): each pair
      takes two consecutive positions, its offer side first. */
  function QueueIndex(pair: CcyPair, side: Side): (i: nat)
    ensures i < BookCount
    ensures i % 2 == 0 <==> side == Offer
  {
    var first := match pair case BTCUSD => 0 case ETHUSD => 2 case SOLUSD => 4;
    if side == Offer then first else first + 1
  }

  /** The book whose queue sits at position `i`. */
  function BookAt(i: nat): (r: (CcyPair, Side))
    requires i < BookCount
    ensures QueueIndex(r.0, r.1) == i
  {
    (if i < 2 then BTCUSD else if i < 4 then ETHUSD else SOLUSD, if i % 2 == 0 then Offer else Bid)
  }

  /** Every book has its own position, and the position gives the book back. */
  lemma BookAtQueueIndex(pair: CcyPair, side: Side)
    ensures BookAt(QueueIndex(pair, side)) == (pair, side)
    ensures forall p: CcyPair, s: Side :: QueueIndex(p, s) == QueueIndex(pair, side) ==> p == pair && s == side
  {
    forall p: CcyPair, s: Side | QueueIndex(p, s) == QueueIndex(pair, side)
      ensures p == pair && s == side
    {
      assert BookAt(QueueIndex(p, s)) == (p, s);
    }
  }

  /** A routing table has an entry for every pair and, under it, for every side. */
  ghost predicate Complete<T>(table: map<CcyPair, map<Side, T>>)
  {
    (forall p: CcyPair :: p in table) && (forall p: CcyPair, s: Side :: p in table ==> s in table[p])
  }

  /** A routing table sends every book to the queue at that book's position in `qs`. */
  ghost predicate Routes<T>(table: map<CcyPair, map<Side, T>>, qs: seq<T>)
  {
    |qs| >= BookCount && Complete(table) &&
    forall p: CcyPair, s: Side :: table[p][s] == qs[QueueIndex(p, s)]
  }

  /** The table building of lines 43-69: an empty inner map per pair, then one `put` per book. */
  method BuildRoutes<T>(qs: seq<T>) returns (table: map<CcyPair, map<Side, T>>)
    requires |qs| >= BookCount
    ensures Routes(table, qs)
  {
    table := map[BTCUSD := map[], ETHUSD := map[], SOLUSD := map[]];
    table := table[BTCUSD := table[BTCUSD][Offer := qs[0]]];
    table := table[BTCUSD := table[BTCUSD][Bid := qs[1]]];
    table := table[ETHUSD := table[ETHUSD][Offer := qs[2]]];
    table := table[ETHUSD := table[ETHUSD][Bid := qs[3]]];
    table := table[SOLUSD := table[SOLUSD][Offer := qs[4]]];
    table := table[SOLUSD := table[SOLUSD][Bid := qs[5]]];
    forall p: CcyPair ensures p in table && Offer in table[p] && Bid in table[p] {
      match p
      case BTCUSD =>
      case ETHUSD =>
      case SOLUSD =>
    }
    forall p: CcyPair, s: Side ensures s in table[p] && table[p][s] == qs[QueueIndex(p, s)] {
      match s
      case Offer =>
      case Bid =>
    }
  }

  /** The queues a routing table sends to. */
  function Targets<T>(table: map<CcyPair, map<Side, T>>): set<T>
  {
    set p, s | p in table && s in table[p] :: table[p][s]
  }

  /** What one poll of each queue yields, in order: the heads of the non-empty queues. */
  function Heads<T>(qs: seq<seq<T>>): seq<T>
  {
    if qs == [] then [] else Heads(qs[..|qs| - 1]) + Front(qs[|qs| - 1])
  }

  /** The head of a queue as a sequence of at most one element. */
  function Front<T>(q: seq<T>): seq<T>
  {
    if q == [] then [] else [q[0]]
  }

  /** A queue after one poll. */
  function Rest<T>(q: seq<T>): seq<T>
  {
    if q == [] then [] else q[1..]
  }

  /** One poll per queue moves at most one element from each, and exactly one from each non-empty
      queue. */
  lemma {:induction false} HeadsLength<T>(qs: seq<seq<T>>)
    ensures |Heads(qs)| <= |qs|
    ensures (forall j :: 0 <= j < |qs| ==> qs[j] != []) ==> |Heads(qs)| == |qs|
  {
    if qs != [] {
      HeadsLength(qs[..|qs| - 1]);
    }
  }

  /** Polling one more queue adds its head, if any. */
  lemma HeadsNext<T>(qs: seq<seq<T>>, k: nat)
    requires k < |qs|
    ensures Heads(qs[..k + 1]) == Heads(qs[..k]) + Front(qs[k])
  {
    assert qs[..k + 1][..k] == qs[..k];
  }

  /** Concatenation regroups freely; stated once so that the collection loop can regroup the
      response queue without unfolding it. */
  lemma AppendAssociative<T>(a: seq<T>, b: seq<T>, c: seq<T>)
    ensures (a + b) + c == a + (b + c)
  {
  }

  /** Everything one poll per queue yields is the head of one of the queues. */
  lemma {:induction false} HeadsAreFronts<T>(qs: seq<seq<T>>, x: T)
    requires x in Heads(qs)
    ensures exists j :: 0 <= j < |qs| && qs[j] != [] && x == qs[j][0]
  {
    var n := |qs| - 1;
    if x in Heads(qs[..n]) {
      HeadsAreFronts(qs[..n], x);
      var j :| 0 <= j < n && qs[..n][j] != [] && x == qs[..n][j][0];
      assert qs[j] == qs[..n][j];
    } else {
      assert qs[n] != [] && x == qs[n][0];
    }
  }

  class OrderBookDistributor {
    const incomingMarketData: Queue<Message>
    const incomingRequests: Queue<Request>
    /** The shared queue answered requests are collected into. */
    const responses: Queue<Request>
    /** Per book: the market-data queue its processor reads. */
    const mdRoutes: map<CcyPair, map<Side, Queue<Message>>>
    /** Per book: the queue its processor takes requests from. */
    const requestRoutes: map<CcyPair, map<Side, Queue<Request>>>
    /** Per book: the queue its processor puts answered requests on. */
    const responseRoutes: map<CcyPair, map<Side, Queue<Request>>>
    var running: bool

    /** Every book has its three queues, and the distributor's own queues are none of them. */
    ghost predicate Valid()
    {
      Complete(mdRoutes) && Complete(requestRoutes) && Complete(responseRoutes) &&
      incomingMarketData !in Targets(mdRoutes) &&
      incomingRequests !in Targets(requestRoutes) &&
      responses !in Targets(responseRoutes)
    }

    /** The constructor (lines 31-69): the `i`-th queue of each list serves the book at position
        `i`; the same position is used for all three lists. The threads are not started here. */
    constructor (incomingMarketData: Queue<Message>, incomingRequests: Queue<Request>,
                 engineQueues: seq<Queue<Message>>, requestQueues: seq<Queue<Request>>,
                 responseQueues: seq<Queue<Request>>, responseQueue: Queue<Request>)
      requires |engineQueues| >= BookCount && |requestQueues| >= BookCount && |responseQueues| >= BookCount
      requires incomingMarketData !in engineQueues[..BookCount]
      requires incomingRequests !in requestQueues[..BookCount]
      requires responseQueue !in responseQueues[..BookCount]
      ensures Valid() && running
      ensures this.incomingMarketData == incomingMarketData && this.incomingRequests == incomingRequests
      ensures responses == responseQueue
      ensures Routes(mdRoutes, engineQueues) && Routes(requestRoutes, requestQueues)
      ensures Routes(responseRoutes, responseQueues)
    {
      this.incomingMarketData, this.incomingRequests, responses := incomingMarketData, incomingRequests, responseQueue;
      var md := BuildRoutes(engineQueues);
      var rq := BuildRoutes(requestQueues);
      var rs := BuildRoutes(responseQueues);
      mdRoutes, requestRoutes, responseRoutes := md, rq, rs;
      running := true;
      new;
      TargetsOfRoutes(md, engineQueues);
      TargetsOfRoutes(rq, requestQueues);
      TargetsOfRoutes(rs, responseQueues);
    }

    /** One round of the market-data thread (lines 75-78): a message polled from the inbound queue
        is added to the queue of its pair and side; no other book's queue changes. An empty poll
        changes nothing. */
    method RouteMarketData() returns (routed: Option<Message>)
      requires Valid()
      requires incomingMarketData.items != [] ==>
        incomingMarketData.items[0].pair != None && incomingMarketData.items[0].side != None
      modifies incomingMarketData`items, Targets(mdRoutes)`items
      ensures old(incomingMarketData.items) == [] ==>
        routed == None && incomingMarketData.items == [] &&
        forall q :: q in Targets(mdRoutes) ==> q.items == old(q.items)
      ensures old(incomingMarketData.items) != [] ==>
        routed == Some(old(incomingMarketData.items)[0]) &&
        incomingMarketData.items == old(incomingMarketData.items)[1..]
      ensures routed.Some? ==>
        var target := mdRoutes[routed.value.pair.value][routed.value.side.value];
        target.items == old(target.items) + [routed.value] &&
        forall q :: q in Targets(mdRoutes) && q != target ==> q.items == old(q.items)
    {
      routed := incomingMarketData.Poll();
      if routed.Some? {
        var m := routed.value;
        var target := mdRoutes[m.pair.value][m.side.value];
        target.Add(m);
      }
    }

    /** One round of the request thread (lines 86-94): a request taken from the inbound queue is
        added to the queue of its pair and side; no other book's queue changes. The blocking take
        on an empty queue is a round that waits: nothing changes. */
    method RouteRequest() returns (routed: Option<Request>)
      requires Valid()
      modifies incomingRequests`items, Targets(requestRoutes)`items
      ensures old(incomingRequests.items) == [] ==>
        routed == None && incomingRequests.items == [] &&
        forall q :: q in Targets(requestRoutes) ==> q.items == old(q.items)
      ensures old(incomingRequests.items) != [] ==>
        routed == Some(old(incomingRequests.items)[0]) &&
        incomingRequests.items == old(incomingRequests.items)[1..]
      ensures routed.Some? ==>
        var target := requestRoutes[routed.value.pair][routed.value.side];
        target.items == old(target.items) + [routed.value] &&
        forall q :: q in Targets(requestRoutes) && q != target ==> q.items == old(q.items)
    {
      routed := incomingRequests.Poll();
      if routed.Some? {
        var r := routed.value;
        var target := requestRoutes[r.pair][r.side];
        target.Add(r);
      }
    }

    /** The response queue of the book `b`. */
    function ResponseQueue(b: (CcyPair, Side)): (q: Queue<Request>)
      requires Complete(responseRoutes)
      ensures q in Targets(responseRoutes)
    {
      responseRoutes[b.0][b.1]
    }

    /** The response queues of the books in `order` hold `before` with one element polled from
        each of the first `k`. */
    ghost predicate Swept(order: seq<(CcyPair, Side)>, before: seq<seq<Request>>, k: nat)
      requires Complete(responseRoutes) && |before| == |order|
      reads Targets(responseRoutes)
    {
      forall j :: 0 <= j < |order| ==> ResponseQueue(order[j]).items == (if j < k then Rest(before[j]) else before[j])
    }

    /** One sweep of the collector thread (lines 103-110): each book's response queue is polled once
        and what it yields goes onto the shared queue. The books are visited in `order`, the
        iteration order of the nested hash maps, and `before` holds their queues at the start. */
    method CollectResponses(order: seq<(CcyPair, Side)>, ghost before: seq<seq<Request>>)
      requires Valid() && |order| == BookCount
      requires forall i, j :: 0 <= i < j < |order| ==> ResponseQueue(order[i]) != ResponseQueue(order[j])
      requires |before| == |order| && forall j :: 0 <= j < |order| ==> before[j] == ResponseQueue(order[j]).items
      modifies responses`items, Targets(responseRoutes)`items
      ensures responses.items == old(responses.items) + Heads(before)
      ensures forall j :: 0 <= j < |order| ==> ResponseQueue(order[j]).items == Rest(before[j])
    {
      var k := 0;
      while k < |order|
        invariant k <= |order| && Swept(order, before, k)
        invariant responses.items == old(responses.items) + Heads(before[..k])
      {
        CollectStep(order, before, k, old(responses.items));
        k := k + 1;
      }
      assert before[..k] == before;
    }

    /** The `k`-th poll of a sweep. */
    method CollectStep(order: seq<(CcyPair, Side)>, ghost before: seq<seq<Request>>, k: nat,
                       ghost start: seq<Request>)
      requires Valid() && k < |order|
      requires forall i, j :: 0 <= i < j < |order| ==> ResponseQueue(order[i]) != ResponseQueue(order[j])
      requires |before| == |order| && Swept(order, before, k)
      requires responses.items == start + Heads(before[..k])
      modifies responses`items, ResponseQueue(order[k])`items
      ensures Swept(order, before, k + 1)
      ensures responses.items == start + Heads(before[..k + 1])
    {
      CollectOne(ResponseQueue(order[k]));
      HeadsNext(before, k);
      AppendAssociative(start, Heads(before[..k]), Front(before[k]));
    }

    /** One poll of one book's response queue, the inner loop body (lines 105-108). */
    method CollectOne(q: Queue<Request>)
      requires Valid() && q in Targets(responseRoutes)
      modifies q`items, responses`items
      ensures q.items == Rest(old(q.items))
      ensures responses.items == old(responses.items) + Front(old(q.items))
    {
      var r := q.Poll();
      if r.Some? {
        responses.Add(r.value);
      }
    }

    /** `shutdown` (lines 119-122): the running flag is cleared and nothing else changes. */
    method Shutdown()
      modifies `running
      ensures !running
    {
      running := false;
    }
  }

  /** A table built by `BuildRoutes` is complete and sends only to the first `BookCount` queues. */
  lemma TargetsOfRoutes<T>(table: map<CcyPair, map<Side, T>>, qs: seq<T>)
    requires Routes(table, qs)
    ensures Targets(table) <= set q | q in qs[..BookCount]
  {
    forall q | q in Targets(table) ensures q in qs[..BookCount] {
      var p, s :| p in table && s in table[p] && table[p][s] == q;
      assert q == qs[..BookCount][QueueIndex(p, s)];
    }
  }
}
