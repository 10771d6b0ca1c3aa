/** The object pool the feed takes messages from and the book processor gives them back to. Only its
    two operations are modelled: a free list, acquire and return. Objects are handed back as they are,
    with no field reset. */
module Pools {
  import opened Data
  import opened Messages

  class MessagePool {
    /** The messages waiting to be reused. */
    var free: multiset<Message>

    constructor ()
      ensures free == multiset{}
    {
      free := multiset{};
    }

    /** A pooled message if there is one (with its old field values), a new one otherwise. */
    method AcquireObject() returns (m: Message)
      modifies `free
      ensures old(free) == multiset{} ==> fresh(m) && m.Snapshot() == Fields(None, None, None, 0, 0, 0) && free == old(free)
      ensures old(free) != multiset{} ==> m in old(free) && free == old(free) - multiset{m}
    {
      if free == multiset{} {
        m := new Message();
      } else {
        m :| m in free;
        free := free - multiset{m};
      }
    }

    method ReturnObject(m: Message)
      modifies `free
      ensures free == old(free) + multiset{m}
    {
      free := free + multiset{m};
    }
  }
}
