/** The FIFO of core/locked_queue.h, whose front can be borrowed while the queue stays locked. */
module Queues {
  import opened Wrappers

  class LockedQueue<T> {
    var items: seq<T>
    /** The mutex is held by whoever borrowed the front. */
    var held: bool

    constructor ()
      ensures items == [] && !held
    {
      items := [];
      held := false;
    }

    /** Another caller would block while the front is borrowed. */
    method PushBack(item: T)
      requires !held
      modifies this
      ensures items == old(items) + [item] && !held
    {
      items := items + [item];
    }

    method BorrowFront() returns (front: Option<T>)
      requires !held
      modifies this
      ensures items == old(items)
      ensures held == (items != [])
      ensures front == if items == [] then None else Some(items[0])
    {
      if items == [] {
        return None;
      }
      held := true;
      return Some(items[0]);
    }

    /** Unlocks whether or not the front was borrowed. */
    method ReturnFront()
      modifies this
      ensures items == old(items) && !held
    {
      held := false;
    }

    method PopFront()
      modifies this
      ensures items == (if old(items) == [] then [] else old(items)[1..]) && !held
    {
      ReturnFront();
      if items != [] {
        items := items[1..];
      }
    }

    /** A write to the item that `BorrowFront` handed out. */
    method WriteFront(item: T)
      requires held && items != []
      modifies this
      ensures items == old(items)[0 := item] && held
    {
      items := items[0 := item];
    }

    method Size() returns (n: nat)
      requires !held
      ensures n == |items|
    {
      n := |items|;
    }
  }
}
