/** The bounded FIFO queue of queue/queue.go: a slice, a capacity bound and a
    one-way `stop` latch. The pure functions on `QueueState` say what each
    operation does; the class `Queue` is the in-place object whose methods are
    proved against them; the lemmas state what the queue promises over whole
    runs of operations. */
module Queues {
  import opened Values

  /** The abstract state of a queue: the latch, the stored elements (oldest
      first) and the capacity fixed by `New`. */
  datatype QueueState<T> = QueueState(stop: bool, items: seq<T>, capacity: int)

  /** What every reachable queue satisfies: never more elements than the
      capacity allows, and nothing stored once stopped. */
  predicate WellFormed<T>(q: QueueState<T>)
  {
    && (|q.items| == 0 || |q.items| <= q.capacity)
    && (q.stop ==> q.items == [])
  }

  function Empty<T>(capacity: int): QueueState<T>
  {
    QueueState(false, [], capacity)
  }

  /** `Add`: refused when full (length at least the capacity) or stopped;
      otherwise appended at the tail. */
  function AfterAdd<T>(q: QueueState<T>, e: T): (QueueState<T>, bool)
  {
    if |q.items| >= q.capacity then (q, false)
    else if q.stop then (q, false)
    else (q.(items := q.items + [e]), true)
  }

  /** `Pop`: `None` (Go's nil) when stopped or empty; otherwise the head. */
  function AfterPop<T>(q: QueueState<T>): (QueueState<T>, Option<T>)
  {
    if q.stop then (q, None)
    else if |q.items| > 0 then (q.(items := q.items[1..]), Some(q.items[0]))
    else (q, None)
  }

  function AfterClearAndStop<T>(q: QueueState<T>): QueueState<T>
  {
    q.(stop := true, items := [])
  }

  /** One call on the queue, for stating properties of whole runs. */
  datatype Op<T> = AddOp(e: T) | PopOp | ClearAndStopOp

  function Step<T>(q: QueueState<T>, op: Op<T>): QueueState<T>
  {
    match op
    case AddOp(e) => AfterAdd(q, e).0
    case PopOp => AfterPop(q).0
    case ClearAndStopOp => AfterClearAndStop(q)
  }

  function Run<T>(q: QueueState<T>, ops: seq<Op<T>>): QueueState<T>
    decreases |ops|
  {
    if ops == [] then q else Run(Step(q, ops[0]), ops[1..])
  }

  /** Adds `xs` one by one, collecting what each `Add` returned. */
  function AddAll<T>(q: QueueState<T>, xs: seq<T>): (QueueState<T>, seq<bool>)
    decreases |xs|
  {
    if xs == [] then (q, [])
    else
      var (q1, ok) := AfterAdd(q, xs[0]);
      var (q2, oks) := AddAll(q1, xs[1..]);
      (q2, [ok] + oks)
  }

  /** Pops `n` times, collecting what each `Pop` returned. */
  function PopN<T>(q: QueueState<T>, n: nat): (QueueState<T>, seq<Option<T>>)
    decreases n
  {
    if n == 0 then (q, [])
    else
      var (q1, r) := AfterPop(q);
      var (q2, rs) := PopN(q1, n - 1);
      (q2, [r] + rs)
  }

  /** A new queue is empty, not stopped, holds the given capacity, and is valid. */
  lemma NewIsEmpty<T>(capacity: int)
    ensures var q := Empty<T>(capacity);
      WellFormed(q) && q.items == [] && !q.stop && q.capacity == capacity
  {
  }

  /** `Add` accepts exactly when there is room and the queue is not stopped;
      an accepted element goes to the tail, a refused one changes nothing. */
  lemma AddAcceptsIffRoom<T>(q: QueueState<T>, e: T)
    ensures AfterAdd(q, e).1 <==> |q.items| < q.capacity && !q.stop
    ensures AfterAdd(q, e).0 == if AfterAdd(q, e).1 then q.(items := q.items + [e]) else q
  {
  }

  /** Each single operation keeps the capacity bound and the latch. */
  lemma StepPreservesWellFormed<T>(q: QueueState<T>, op: Op<T>)
    requires WellFormed(q)
    ensures WellFormed(Step(q, op))
    ensures Step(q, op).capacity == q.capacity
    ensures q.stop ==> Step(q, op).stop
  {
  }

  /** Capacity invariant and latch over any run of operations: the length never
      exceeds the capacity, and once stopped the queue stays stopped and empty. */
  lemma {:induction false} RunPreservesWellFormed<T>(q: QueueState<T>, ops: seq<Op<T>>)
    requires WellFormed(q)
    ensures WellFormed(Run(q, ops))
    ensures Run(q, ops).capacity == q.capacity
    ensures q.stop ==> Run(q, ops).stop && Run(q, ops).items == []
    decreases |ops|
  {
    if ops != [] {
      StepPreservesWellFormed(q, ops[0]);
      RunPreservesWellFormed(Step(q, ops[0]), ops[1..]);
    }
  }

  /** After any run that starts from a stopped queue, every further `Add` is refused. */
  lemma StoppedRefusesForever<T>(q: QueueState<T>, ops: seq<Op<T>>, e: T)
    requires WellFormed(q) && q.stop
    ensures !AfterAdd(Run(q, ops), e).1
    ensures AfterAdd(Run(q, ops), e).0 == Run(q, ops)
  {
    RunPreservesWellFormed(q, ops);
  }

  /** `ClearAndStop` empties and latches; a second call changes nothing. */
  lemma ClearAndStopIdempotent<T>(q: QueueState<T>)
    ensures AfterClearAndStop(q).items == [] && AfterClearAndStop(q).stop
    ensures AfterClearAndStop(AfterClearAndStop(q)) == AfterClearAndStop(q)
  {
  }

  /** Adding a batch to a running queue keeps the oldest elements: everything
      up to the capacity is appended in order, later elements are dropped,
      and the i-th `Add` succeeds exactly when there was room for it. */
  lemma {:induction false} AddAllKeepsOldest<T>(q: QueueState<T>, xs: seq<T>)
    requires !q.stop && |q.items| <= q.capacity
    ensures var (q2, oks) := AddAll(q, xs);
      && q2 == q.(items := (q.items + xs)[..Min(|q.items| + |xs|, q.capacity)])
      && |oks| == |xs|
      && forall i | 0 <= i < |xs| :: oks[i] <==> |q.items| + i < q.capacity
    decreases |xs|
  {
    if xs != [] {
      var (q1, ok) := AfterAdd(q, xs[0]);
      AddAllKeepsOldest(q1, xs[1..]);
      var (q2, oks) := AddAll(q1, xs[1..]);
      assert AddAll(q, xs) == (q2, [ok] + oks);
      if ok {
        assert q.items + xs == q1.items + xs[1..];
      } else {
        assert q1 == q && |q.items| == q.capacity;
        assert (q.items + xs)[..q.capacity] == q.items;
        assert (q.items + xs[1..])[..q.capacity] == q.items;
      }
    }
  }

  /** Pops on a running queue return the oldest elements, in order, and keep the rest. */
  lemma {:induction false} PopNIsFifo<T>(q: QueueState<T>, n: nat)
    requires !q.stop && n <= |q.items|
    ensures var (q2, rs) := PopN(q, n);
      && q2 == q.(items := q.items[n..])
      && |rs| == n
      && forall i | 0 <= i < n :: rs[i] == Some(q.items[i])
    decreases n
  {
    if n > 0 {
      var (q1, r) := AfterPop(q);
      PopNIsFifo(q1, n - 1);
      assert q1.items[n - 1..] == q.items[n..];
    }
  }

  /** FIFO round trip: elements added to a new queue with room for them all
      come back from `Pop` in the order they were added. */
  lemma FifoRoundTrip<T>(capacity: int, xs: seq<T>)
    requires |xs| <= capacity
    ensures var (q, oks) := AddAll(Empty<T>(capacity), xs);
      && q.items == xs
      && |oks| == |xs| && (forall i | 0 <= i < |xs| :: oks[i])
      && |PopN(q, |xs|).1| == |xs|
      && forall i | 0 <= i < |xs| :: PopN(q, |xs|).1[i] == Some(xs[i])
  {
    var e := Empty<T>(capacity);
    AddAllKeepsOldest(e, xs);
    var q := AddAll(e, xs).0;
    assert e.items + xs == xs;
    assert q.items == xs;
    PopNIsFifo(q, |xs|);
  }

  /** Pop on an empty or stopped queue returns `None` and changes nothing. */
  lemma PopEmptyOrStopped<T>(q: QueueState<T>)
    requires q.stop || q.items == []
    ensures AfterPop(q) == (q, None)
  {
  }

  /** The in-place queue object. `capacity` is fixed by `New`. */
  class Queue<T> {
    var stop: bool
    var items: seq<T>
    const capacity: int

    function State(): QueueState<T>
      reads this
    {
      QueueState(stop, items, capacity)
    }

    ghost predicate Valid()
      reads this
    {
      WellFormed(State())
    }

    /** `New(capacity)`. */
    constructor (capacity: int)
      ensures Valid() && State() == Empty(capacity)
    {
      stop := false;
      items := [];
      this.capacity := capacity;
    }

    method Add(e: T) returns (ok: bool)
      requires Valid()
      modifies this
      ensures Valid()
      ensures (State(), ok) == AfterAdd(old(State()), e)
    {
      var n := Len();
      if n >= capacity {
        return false;
      }
      if stop {
        return false;
      }
      items := items + [e];
      return true;
    }

    method Pop() returns (r: Option<T>)
      requires Valid()
      modifies this
      ensures Valid()
      ensures (State(), r) == AfterPop(old(State()))
    {
      var n := Len();
      if stop {
        return None;
      }
      if n > 0 {
        r := Some(items[0]);
        items := items[1..];
        return;
      }
      return None;
    }

    /** `All`: the stored elements, oldest first. */
    method All() returns (s: seq<T>)
      ensures s == items
    {
      s := items;
    }

    method Len() returns (n: nat)
      ensures n == |items|
    {
      var s := All();
      n := |s|;
    }

    method ClearAndStop()
      modifies this
      ensures State() == AfterClearAndStop(old(State()))
      ensures Valid()
    {
      stop := true;
      items := [];
    }
  }
}
