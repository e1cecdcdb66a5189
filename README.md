# go-threading: bounded queues, eviction policies, waiters and broadcast channels

This project is a Dafny model of the sequential core of the go-threading toolkit:

- **`Queues`** (`queues.dfy`): the bounded FIFO queue. It holds a slice, a capacity bound and a one-way `stop` latch. The pure functions `AfterAdd`, `AfterPop` and `AfterClearAndStop` on `QueueState` give each operation's effect. The class `Queue<T>` updates its fields in place, and each of its methods is proved against those functions. The lemmas cover whole runs: the capacity bound and the latch hold in every reachable state, FIFO order holds, a full queue keeps its oldest values and drops later ones, and a stopped queue refuses every later `Add`.
- **`FuncQueues`** (`func_queues.dfy`): the function queue that wraps a bounded queue. Before clearing, its `ClearAndStop` calls `Cancel` on every item still queued. A ghost log records those calls.
- **`Policies`** (`policies.dfy`) covers the `policies` package:
  - the time policy, whose deadline is fixed at construction;
  - the cancelled marker;
  - the factories that build a fresh policy for each entry;
  - the class `PolicyManager`, whose `Evacuate` loop ORs the policies in insertion order and whose `AddPolicy` appends in place.
- **`LegacyPolicies`** (`legacy_policy.dfy`): the older `queue/policy.go` layer. There a policy manager is itself a policy that wraps an item, so managers can nest.
- **`Waiters`** (`waiters.dfy`): the waiter. It has a `waitCalled` flag and a FIFO buffer of `QueueSize` = 5 values. The buffer is the bounded queue above, with that capacity.
- **`Channels`** (`channels.dfy`): the broadcast registry. It maps waiter ids to waiters and has a `cancelled` flag.
- **`Items`** (`items.dfy`): the stateful item. It announces `ItemPopped` (1) or `ItemCancelled` (2) on its own waiter.

External inputs become parameters:

- The wall clock (`time.Now()`) is an explicit integer `now`, in nanoseconds.
- Waiter uuids come from a counter in the channel. Standalone waiters and items take their id as a constructor argument.
- A blocking receive on the unbuffered Go channel is represented by `handoff`, the value it would deliver.
- The `select` in `WaitWithContext` becomes `ctxDone`, which says which of its cases is taken.
- A Go `nil` meaning "no value" is `None`. A `nil` passed as a value is `Value.Nil`.

Behaviour of the code that the model reproduces as written:

- **Firing into a full buffer.** `Fire` never blocks on a full buffer. channel/waiter.go:77 ignores the `false` that `Add` returns, so the value is dropped. `Waiters.FiresReadBackInOrder` states this drop behaviour.
- **`Register` after cancellation.** The comment at channel/channel.go:22 says `Register` returns nil once the channel is cancelled, but the code never reads `cancelled`. `Channels.Channel.Register` always adds a waiter.
- **`FireToAll` after cancellation.** The code fires whatever the `cancelled` flag says.
- **No closed value.** channel/channel.go defines no "closed" value. `CancelAll` fires nil.

## Model

| member | source | states |
|---|---|---|
| `Queues.NewIsEmpty` | queue/queue.go:23-30 | a new queue is empty, not stopped, has the given capacity and satisfies the queue invariant |
| `Queues.AddAcceptsIffRoom` | queue/queue.go:33-46 | `Add` succeeds iff length < capacity and not stopped; success appends at the tail, refusal leaves the queue unchanged |
| `Queues.StepPreservesWellFormed` | queue/queue.go:33-85 | each of Add, Pop and ClearAndStop keeps length ≤ capacity (or the queue empty), keeps a stopped queue empty, never changes the capacity and never unsets `stop` |
| `Queues.RunPreservesWellFormed` | queue/queue.go:33-85 | over any sequence of calls, the length never exceeds the capacity, and a stopped queue stays stopped and empty |
| `Queues.StoppedRefusesForever` | queue/queue.go:41-43 | once stopped, after any further calls every `Add` returns false and changes nothing |
| `Queues.ClearAndStopIdempotent` | queue/queue.go:79-85 | ClearAndStop leaves the queue empty and stopped; a second call changes nothing |
| `Queues.AddAllKeepsOldest` | queue/queue.go:33-46 | adding a batch to a running queue appends the oldest values up to the capacity, drops the rest, and the i-th Add returns true iff there was room for it |
| `Queues.PopNIsFifo` | queue/queue.go:50-66 | n pops on a running queue return its first n values in order (FIFO) and leave the remainder in order |
| `Queues.FifoRoundTrip` | queue/queue.go:33-66 | values added to a new queue with room for all are all accepted and come back from Pop in insertion order |
| `Queues.PopEmptyOrStopped` | queue/queue.go:56-65 | Pop on an empty or stopped queue returns nil and changes nothing |
| `Queues.Queue.constructor` | queue/queue.go:23-30 | `New(capacity)`: empty, not stopped, with that capacity |
| `Queues.Queue.Add` | queue/queue.go:33-47 | result and new state are those of `AfterAdd` on the old state; the invariant is kept |
| `Queues.Queue.Pop` | queue/queue.go:50-66 | result and new state are those of `AfterPop` on the old state; the invariant is kept |
| `Queues.Queue.All` | queue/queue.go:68-72 | returns the stored elements, oldest first |
| `Queues.Queue.Len` | queue/queue.go:74-76 | returns the number of stored elements |
| `Queues.Queue.ClearAndStop` | queue/queue.go:79-85 | afterwards the queue is empty and stopped, with the same capacity |
| `FuncQueues.FuncQueue.constructor` | queue/func_queue.go:28-34 | `NewFuncQueue(capacity)` starts from an empty bounded queue of that capacity, with nothing cancelled |
| `FuncQueues.FuncQueue.Add` | queue/func_queue.go:37-39 | returns exactly the inner queue's Add result, with the same effect on its contents |
| `FuncQueues.FuncQueue.Pop` | queue/func_queue.go:42-45 | returns the oldest queued item, or nil when the queue is empty or stopped |
| `FuncQueues.FuncQueue.ClearAndStop` | queue/func_queue.go:48-53 | Cancel is invoked exactly once on each still-queued item, in queue order, and on nothing else; then the queue is empty and stopped |
| `Policies.TimeOutPolicy` | queue/policies/time.go:5-21 | yields a factory iff the first argument is a duration (otherwise the source panics); each call at time now builds a new time policy with deadline now + d, so calls at different times get independent deadlines |
| `Policies.CancelledPolicyFactory` | queue/policies/cancelled.go:3-7 | ignores its arguments; every policy the factory builds evacuates from the moment it is built |
| `Policies.AnyEvacuates` | queue/policies/manager.go:20-27 | the in-order, short-circuit OR is true iff some policy in the list evacuates, and false for the empty list |
| `Policies.TimePolicyDeadline` | queue/policies/time.go:17-25 | a time policy evacuates iff now > construction time + d; with d ≥ 0 it does not evacuate at its construction instant |
| `Policies.EvacuateMonotone` | queue/policies/time.go:23-25 | a policy that evacuates at t1 evacuates at every t2 ≥ t1 |
| `Policies.AnyEvacuatesMonotoneInTime` | queue/policies/manager.go:20-27 | the manager's answer, once true, stays true as the clock advances |
| `Policies.AnyEvacuatesAppend` | queue/policies/manager.go:20-31 | after an append the OR equals the old OR or the new policy's answer, so appending never turns true into false; appending a cancelled policy makes it true |
| `Policies.PolicyManager.constructor` | queue/policies/manager.go:14-18 | `NewPolicyManager` keeps the given list as it is, in order |
| `Policies.PolicyManager.Evacuate` | queue/policies/manager.go:20-27 | returns true iff some policy evacuates; the loop stops at the first evacuating policy, and every policy before it does not evacuate |
| `Policies.PolicyManager.AddPolicy` | queue/policies/manager.go:29-31 | appends the policy at the end and keeps the earlier ones in order |
| `LegacyPolicies.EvacuatesFrom` | queue/policy.go:52-59 | the manager loop from position i is true iff some policy at or after i evacuates |
| `LegacyPolicies.TimeOutPolicy` | queue/policy.go:7-12 | yields a factory iff the first argument is a duration; each call at time now builds a time policy with deadline now + d |
| `LegacyPolicies.TimePolicyEvacuate` | queue/policy.go:25-37 | a time policy evacuates iff now is strictly after construction time + d, and its `Item` is nil |
| `LegacyPolicies.ManagerEvacuate` | queue/policy.go:45-63 | a manager evacuates iff one of its policies does (never when the list is empty), and `Item` returns the wrapped item unchanged |
| `LegacyPolicies.EvacuateMonotone` | queue/policy.go:31-59 | evacuation is monotone in time, through any nesting of managers |
| `Waiters.FiresReadBackInOrder` | channel/waiter.go:72-78 | fires into an idle waiter's empty buffer keep the first `QueueSize` values and drop the rest; waiting that many times returns them in fired order and leaves the buffer empty |
| `Waiters.Waiter.constructor` | channel/waiter.go:24-32 | `NewWaiter`: not waiting, with a fresh empty buffer bounded by `QueueSize` = 5 |
| `Waiters.Waiter.Wait` | channel/waiter.go:36-48 | with a non-empty buffer, returns and removes its oldest value; otherwise returns the value handed over and leaves the buffer empty; `waitCalled` is false on return |
| `Waiters.Waiter.WaitWithContext` | channel/waiter.go:57-70 | returns an error value when the context is done, else the handed-over value; never touches the buffer; `waitCalled` is false on return |
| `Waiters.Waiter.Fire` | channel/waiter.go:73-79 | while a wait is in progress the buffer is unchanged; otherwise the value is enqueued if there is room and dropped if not |
| `Channels.Channel.constructor` | channel/channel.go:14-20 | `New`: no members, not cancelled |
| `Channels.Channel.Register` | channel/channel.go:23-30 | adds exactly one fresh waiter under a new id, even after cancellation, and returns it |
| `Channels.Channel.DeRegister` | channel/channel.go:32-39 | removes the waiter's id if present, so the waiter is no longer a member; for a waiter that is not registered it is a no-op; every other member stays in place |
| `Channels.Channel.FireToAll` | channel/channel.go:42-49 | fires the value once on every member's waiter, whatever `cancelled` says; membership and the flag are unchanged |
| `Channels.Channel.FireOnceToAll` | channel/channel.go:52-55 | the effect of FireToAll(obj), after which `cancelled` is true |
| `Channels.Channel.CancelAll` | channel/channel.go:58-61 | `cancelled` becomes true and nil is fired once to every member |
| `Items.TagsDistinct` | queue/item.go:10-13 | the popped and cancelled tags are different values |
| `Items.StatefulItem.constructor` | queue/item.go:34-52 | `NewItem`: the `Item()` and `PolicyManager()` accessors return what was passed in; `Waiter()` is a fresh, idle waiter with the given id and an empty buffer, fixed for the item's life |
| `Items.StatefulItem.Popped` | queue/item.go:54-56 | fires `ItemPopped` (1) on the item's own waiter |
| `Items.StatefulItem.Cancelled` | queue/item.go:58-60 | fires `ItemCancelled` (2) on the item's own waiter |

## Left out

- The indexed FIFO/LIFO queue (`Index`, `DefaultItemIndex`, `PopWait`, `AddStateful`, `CancelAndClose`) that queue/queue_test.go, queue/policy_test.go and queue/func_queue_test.go exercise. Its implementation is not part of this model. The `New(FIFO, size)` call in channel/waiter.go:30 is modelled with the bounded FIFO of queue/queue.go.
- The blocking hand-off on the unbuffered Go channel, in both `Wait` and `Fire` while a wait is in progress. It is concurrency; the model keeps only the flag and buffer effects and takes the delivered value as the parameter `handoff`.
- Waiters.Waiter.WaitWithContext: which `select` case wins (a race in the source) is the parameter `ctxDone`.
- `WaitWithTimeout`: a context timer wrapped around `WaitWithContext`. Its timer is not modelled.
- Locks, `sync` mutexes and the `threadsafe` boxes are plain fields in this sequential model. The same goes for the unlocked `Len()` read at the start of `Add` and `Pop`, which is a race, not logic.
- timer/timer.go, functions/ and threadsafe/ are not part of this model. They are goroutine, timer and panic-recovery wrappers.
- The open `Policy` interface of queue/policies/policy.go is a closed datatype here: time and cancelled. A `policyManager` can itself satisfy that interface, but as a policy nested in another list it is not modelled.
- Time arithmetic: `time.Now().Add(d)` is `now + d` on unbounded integers. int64 overflow and monotonic-clock readings are not modelled.
- Queues.Queue.All: returns a copy of the contents. The Go slice aliases the queue's storage, and that aliasing is not modelled.
- The unused `stop` field and the mutex of `funcQueue` are not modelled.
- A nil `*Item` passed to `FuncQueue.Add`, which would panic in `ClearAndStop`, is not modelled: a `FuncItem` is never nil.
- Go's random map iteration order in `FireToAll`: the loop picks any remaining id, and the contract does not depend on the order.
- Exactly-once notification of a stateful item is not modelled. queue/item.go has no guard against firing twice; ensuring a single `Popped` or `Cancelled` would fall to the indexed queue, which is not part of this model.
- The `ChannelClosed` value that channel/channel_test.go expects is not defined in channel/channel.go. `CancelAll` fires nil, as the code does.
- Channels.Channel.DeRegister: requires that a waiter whose id is registered is that very member. This holds in the source because ids are uuids (channel/waiter.go:26). In the model, ids are unique only within one channel's counter, and standalone waiters and items take any id.
- FuncQueues.FuncQueue.ClearAndStop: `Cancel` is caller code (queue/func_queue.go:50) and is modelled only as an entry in a ghost log. A `Cancel` that panics would abort the loop before line 52, leaving the queue neither cleared nor stopped. Calls from `Cancel` back into the queue are not modelled either.
- Policies.PolicyManager.AddPolicy: `NewPolicyManager` keeps the caller's slice (queue/policies/manager.go:15-17), and `append` (line 30) can write into a backing array shared with the caller or another manager. The model holds the list as a value, so this sharing is not captured.
