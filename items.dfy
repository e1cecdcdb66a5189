/** The stateful queue entry of queue/item.go: a payload, its policy manager,
    and a private waiter on which the entry's fate is announced with one of
    two state tags. */
module Items {
  import opened Values
  import opened Waiters
  import Policies

  /** The `ItemState` tags. */
  const ItemPopped: int := 1
  const ItemCancelled: int := 2

  /** The two tags are distinct, so a listener can tell the outcomes apart. */
  lemma TagsDistinct()
    ensures ItemState(ItemPopped) != ItemState(ItemCancelled)
  {
  }

  class StatefulItem {
    const item: Value
    const waiter: Waiter
    const manager: Policies.PolicyManager

    ghost predicate Valid()
      reads waiter.buffer
    {
      waiter.Valid()
    }

    /** `NewItem(i, policyManager)`: keeps the payload and manager as given and
        creates a fresh waiter (`waiterId` stands for its uuid). */
    constructor (i: Value, policyManager: Policies.PolicyManager, waiterId: nat)
      ensures Valid() && fresh(waiter) && fresh(waiter.buffer)
      ensures Item() == i && PolicyManager() == policyManager
      ensures Waiter().id == waiterId && !Waiter().waitCalled && Waiter().buffer.items == []
    {
      item := i;
      manager := policyManager;
      waiter := new Waiter(waiterId);
    }

    /** `PolicyManager()`: the manager given to `NewItem`. */
    function PolicyManager(): Policies.PolicyManager
    {
      manager
    }

    /** `Item()`: the payload given to `NewItem`. */
    function Item(): Value
    {
      item
    }

    /** `Waiter()`: the same waiter for the whole life of the item. */
    function Waiter(): Waiter
    {
      waiter
    }

    /** `Popped`: fires the popped tag on the item's own waiter. */
    method Popped()
      requires Valid()
      modifies waiter.buffer
      ensures Valid()
      ensures waiter.buffer.State() ==
        FireEffect(old(waiter.buffer.State()), waiter.waitCalled, ItemState(ItemPopped))
    {
      waiter.Fire(ItemState(ItemPopped));
    }

    /** `Cancelled`: fires the cancelled tag on the item's own waiter. */
    method Cancelled()
      requires Valid()
      modifies waiter.buffer
      ensures Valid()
      ensures waiter.buffer.State() ==
        FireEffect(old(waiter.buffer.State()), waiter.waitCalled, ItemState(ItemCancelled))
    {
      waiter.Fire(ItemState(ItemCancelled));
    }
  }
}
