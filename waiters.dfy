/** The rendezvous point of channel/waiter.go: a `waitCalled` flag and a
    bounded FIFO buffer of `QueueSize` values for fires that arrive while
    nobody waits. Only the flag and buffer bookkeeping is modelled: the
    blocking hand-off on the unbuffered Go channel is represented by the
    value it would deliver, passed in as a parameter. */
module Waiters {
  import opened Values
  import opened Queues

  const QueueSize: int := 5

  /** What a `Fire(obj)` does to the buffer: bypassed while a wait is in
      progress (the value goes to the waiting call), otherwise an `Add` that
      drops the value when the buffer is full. */
  function FireEffect(buffer: QueueState<Value>, waitCalled: bool, obj: Value): QueueState<Value>
  {
    if waitCalled then buffer else AfterAdd(buffer, obj).0
  }

  /** Fires that arrive while nobody waits are kept oldest first up to
      `QueueSize`; the rest are dropped. Waiting as often as values were kept
      reads them back in the order they were fired. */
  lemma {:induction false} FiresReadBackInOrder(vs: seq<Value>)
    ensures var kept := Min(|vs|, QueueSize);
      var buffer := AddAll(Empty<Value>(QueueSize), vs).0;
      && buffer.items == vs[..kept]
      && |PopN(buffer, kept).1| == kept
      && (forall i | 0 <= i < kept :: PopN(buffer, kept).1[i] == Some(vs[i]))
      && PopN(buffer, kept).0.items == []
  {
    var kept := Min(|vs|, QueueSize);
    AddAllKeepsOldest(Empty<Value>(QueueSize), vs);
    var buffer := AddAll(Empty<Value>(QueueSize), vs).0;
    assert buffer.items == vs[..kept];
    PopNIsFifo(buffer, kept);
  }

  class Waiter {
    /** The waiter's identity (a uuid in the source). */
    const id: nat
    var waitCalled: bool
    const buffer: Queue<Value>

    ghost predicate Valid()
      reads buffer
    {
      buffer.Valid() && buffer.capacity == QueueSize && !buffer.stop
    }

    /** `NewWaiter`: not waiting, with a fresh empty buffer of `QueueSize`. */
    constructor (id: nat)
      ensures Valid() && fresh(buffer)
      ensures this.id == id && !waitCalled && buffer.items == []
    {
      this.id := id;
      waitCalled := false;
      buffer := new Queue(QueueSize);
    }

    /** `Wait`: returns the oldest buffered value if there is one; otherwise
        the value `handoff` that a concurrent `Fire` passes over the
        unbuffered channel. The flag is set for the call and reset on return. */
    method Wait(handoff: Value) returns (r: Value)
      requires Valid()
      modifies this, buffer
      ensures Valid() && !waitCalled
      ensures old(buffer.items) != [] ==> r == old(buffer.items)[0] && buffer.items == old(buffer.items)[1..]
      ensures old(buffer.items) == [] ==> r == handoff && buffer.items == []
    {
      waitCalled := true;
      var n := buffer.Len();
      if n > 0 {
        var popped := buffer.Pop();
        r := popped.value;
      } else {
        r := handoff;
      }
      waitCalled := false;
    }

    /** `WaitWithContext`: `ctxDone` says which case of the `select` is taken.
        A done context yields an error value; otherwise the handed-over value.
        The buffer is never read. */
    method WaitWithContext(ctxDone: bool, handoff: Value) returns (r: Value)
      requires Valid()
      modifies this
      ensures Valid() && !waitCalled
      ensures r == if ctxDone then Error("") else handoff
      ensures buffer.items == old(buffer.items)
    {
      waitCalled := true;
      if ctxDone {
        r := Error("");
      } else {
        r := handoff;
      }
      waitCalled := false;
    }

    /** `Fire`: enqueues `obj` when nobody waits (dropped when the buffer is
        full); while a wait is in progress the buffer is left alone. */
    method Fire(obj: Value)
      requires Valid()
      modifies buffer
      ensures Valid()
      ensures buffer.State() == FireEffect(old(buffer.State()), waitCalled, obj)
    {
      if !waitCalled {
        var _ := buffer.Add(obj);
      }
    }
  }
}
