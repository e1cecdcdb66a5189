/** The broadcast registry of channel/channel.go: a map from waiter id to
    waiter, and a `cancelled` flag. Waiter ids come from a counter (the source
    draws a uuid), so a new id is never already registered. */
module Channels {
  import opened Values
  import opened Queues
  import opened Waiters

  class Channel {
    var registers: map<nat, Waiter>
    var cancelled: bool
    /** The next id handed to a registered waiter. */
    var nextId: nat

    /** The buffers of the registered waiters: what a broadcast may change. */
    function Buffers(): set<Queue<Value>>
      reads this
    {
      set id | id in registers :: registers[id].buffer
    }

    /** Every registered waiter is stored under its own id, below `nextId`,
        is valid, and owns a buffer that no other member shares. */
    ghost predicate Valid()
      reads this, Buffers()
    {
      && (forall id | id in registers ::
            registers[id].id == id && id < nextId && registers[id].Valid())
      && (forall i, j | i in registers && j in registers && i != j ::
            registers[i].buffer != registers[j].buffer)
    }

    /** `New`: an empty registry, not cancelled. */
    constructor ()
      ensures Valid() && registers == map[] && !cancelled
    {
      registers := map[];
      cancelled := false;
      nextId := 0;
    }

    /** `Register`: adds exactly one new waiter under a fresh id and returns it,
        whether or not the registry is cancelled. */
    method Register() returns (w: Waiter)
      requires Valid()
      modifies this
      ensures Valid() && fresh(w) && fresh(w.buffer)
      ensures w.id !in old(registers) && registers == old(registers)[w.id := w]
      ensures !w.waitCalled && w.buffer.items == []
      ensures cancelled == old(cancelled)
    {
      w := new Waiter(nextId);
      registers := registers[w.id := w];
      nextId := nextId + 1;
    }

    /** `DeRegister`: removes the waiter's id if present; a no-op otherwise;
        other members are untouched. */
    method DeRegister(waiter: Waiter)
      requires Valid()
      // ids are uuids in the source: a waiter never shares its id with a member
      requires waiter.id in registers ==> registers[waiter.id] == waiter
      modifies this
      ensures Valid()
      ensures registers == old(registers) - {waiter.id}
      ensures waiter !in registers.Values
      ensures cancelled == old(cancelled)
    {
      if waiter.id in registers {
        registers := registers - {waiter.id};
      }
    }

    /** `FireToAll`: fires `obj` once on every registered waiter, whatever the
        `cancelled` flag says; membership is unchanged. */
    method FireToAll(obj: Value)
      requires Valid()
      modifies Buffers()
      ensures Valid()
      ensures forall id | id in registers ::
        registers[id].buffer.State() ==
          FireEffect(old(registers[id].buffer.State()), registers[id].waitCalled, obj)
    {
      var todo := registers.Keys;
      while todo != {}
        invariant todo <= registers.Keys
        invariant Valid()
        invariant forall id | id in registers && id !in todo ::
          registers[id].buffer.State() ==
            FireEffect(old(registers[id].buffer.State()), registers[id].waitCalled, obj)
        invariant forall id | id in todo ::
          registers[id].buffer.State() == old(registers[id].buffer.State())
        decreases todo
      {
        var id :| id in todo;
        registers[id].Fire(obj);
        todo := todo - {id};
      }
    }

    /** `FireOnceToAll`: `FireToAll(obj)`, then the registry is cancelled. */
    method FireOnceToAll(obj: Value)
      requires Valid()
      modifies this, Buffers()
      ensures Valid() && cancelled
      ensures registers == old(registers)
      ensures forall id | id in registers ::
        registers[id].buffer.State() ==
          FireEffect(old(registers[id].buffer.State()), registers[id].waitCalled, obj)
    {
      FireToAll(obj);
      cancelled := true;
    }

    /** `CancelAll`: the registry is cancelled, then nil is fired to every member. */
    method CancelAll()
      requires Valid()
      modifies this, Buffers()
      ensures Valid() && cancelled
      ensures registers == old(registers)
      ensures forall id | id in registers ::
        registers[id].buffer.State() ==
          FireEffect(old(registers[id].buffer.State()), registers[id].waitCalled, Nil)
    {
      cancelled := true;
      FireToAll(Nil);
    }
  }
}
