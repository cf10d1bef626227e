/** The queue between the relay threads and the main loop.  Every method runs under the queue's lock,
    so each call is one step. */
module ThreadsafeQueue {

  class TQueue<T> {
    var maxNumberOfItems: nat
    var queue: seq<T>

    constructor ()
      ensures maxNumberOfItems == 10 && queue == []
    {
      maxNumberOfItems, queue := 10, [];
    }

    method SetMaxSize(maxSize: nat)
      modifies this`maxNumberOfItems
      ensures maxNumberOfItems == maxSize
    {
      maxNumberOfItems := maxSize;
    }

    /** The bound is raised by every push, before it is looked at; an item that does not fit is
        dropped.  A queue within its bound takes the item and stays within it. */
    method Push(item: T) returns (ghost accepted: bool)
      modifies this
      ensures accepted <==> |old(queue)| <= old(maxNumberOfItems)
      ensures queue == if accepted then old(queue) + [item] else old(queue)
      ensures maxNumberOfItems == old(maxNumberOfItems) + 1
    {
      accepted := false;
      maxNumberOfItems := maxNumberOfItems + 1;
      if |queue| < maxNumberOfItems {
        queue := queue + [item];
        accepted := true;
      }
    }

    /** Called when the wait for an item is over. */
    method Pop() returns (item: T)
      requires queue != []
      modifies this`queue
      ensures [item] + queue == old(queue)
    {
      item := queue[0];
      queue := queue[1..];
    }

    /** Leaves `item0` in place when there is nothing to take. */
    method TryPop(item0: T) returns (found: bool, item: T)
      modifies this`queue
      ensures found <==> old(queue) != []
      ensures if found then [item] + queue == old(queue) else item == item0 && queue == old(queue)
    {
      if queue == [] {
        return false, item0;
      }
      item := queue[0];
      queue := queue[1..];
      found := true;
    }
  }
}
