/** The function queue of queue/func_queue.go: a bounded queue of `*Item`
    entries (a function and its cancel callback) that, when cleared, calls
    every still-queued entry's `Cancel` before clearing. */
module FuncQueues {
  import opened Values
  import opened Queues

  /** An `*Item`: identifies the pair of callbacks `F` and `Cancel`. */
  datatype FuncItem = FuncItem(id: nat)

  class FuncQueue {
    const queue: Queue<FuncItem>
    /** The `Cancel` callbacks invoked so far, in call order. The callbacks
        are caller code; this log stands for their effect. */
    ghost var Cancelled: seq<FuncItem>

    ghost predicate Valid()
      reads queue
    {
      queue.Valid()
    }

    /** `NewFuncQueue(capacity)`: an empty bounded queue of that capacity. */
    constructor (capacity: int)
      ensures Valid() && fresh(queue)
      ensures queue.State() == Empty(capacity) && Cancelled == []
    {
      queue := new Queue(capacity);
      Cancelled := [];
    }

    /** `Add`: exactly the inner queue's `Add`. */
    method Add(e: FuncItem) returns (ok: bool)
      requires Valid()
      modifies queue
      ensures Valid()
      ensures (queue.State(), ok) == AfterAdd(old(queue.State()), e)
    {
      ok := queue.Add(e);
    }

    /** `Pop`: the oldest queued item, or `None` (nil) when empty or stopped. */
    method Pop() returns (r: Option<FuncItem>)
      requires Valid()
      modifies queue
      ensures Valid()
      ensures (queue.State(), r) == AfterPop(old(queue.State()))
    {
      r := queue.Pop();
    }

    /** `ClearAndStop`: calls `Cancel` once on each queued item, oldest first,
        then clears and stops the inner queue. Items already popped are not
        cancelled. */
    method ClearAndStop()
      requires Valid()
      modifies this, queue
      ensures Valid()
      ensures Cancelled == old(Cancelled) + old(queue.items)
      ensures queue.State() == AfterClearAndStop(old(queue.State()))
    {
      var all := queue.All();
      for i := 0 to |all|
        invariant Cancelled == old(Cancelled) + all[..i]
      {
        Cancelled := Cancelled + [all[i]];
      }
      queue.ClearAndStop();
    }
  }
}
