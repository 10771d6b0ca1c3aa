/** The FIFO queues the engine's threads hand messages and requests over: `add` at the tail, `poll` at
    the head. One thread's view of a queue is modelled; other threads' concurrent additions are not. */
module Queues {
  import opened Data

  class Queue<T> {
    var items: seq<T>

    constructor ()
      ensures items == []
    {
      items := [];
    }

    method Add(x: T)
      modifies `items
      ensures items == old(items) + [x]
    {
      items := items + [x];
    }

    /** The head, taken off the queue, or `None` (Java's null) when the queue is empty. */
    method Poll() returns (r: Option<T>)
      modifies `items
      ensures old(items) == [] ==> r == None && items == []
      ensures old(items) != [] ==> r == Some(old(items)[0]) && items == old(items)[1..]
    {
      if items == [] {
        r := None;
      } else {
        r := Some(items[0]);
        items := items[1..];
      }
    }
  }
}
