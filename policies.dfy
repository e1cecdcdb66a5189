/** The eviction policies of queue/policies: a time policy whose deadline is
    fixed at construction, a cancelled-marker policy that always evacuates,
    the factories that build a fresh policy per queue entry, and the policy
    manager that ORs a growing list of policies. The wall clock is the
    explicit parameter `now` (nanoseconds). */
module Policies {
  import opened Values

  /** The closed set of policy variants. */
  datatype Policy =
    | TimePolicy(deadline: int)
    | CancelledPolicy
  {
    /** `Evacuate`: a time policy once `now` is strictly after its deadline;
        the cancelled marker always. */
    predicate Evacuate(now: int)
    {
      match this
      case TimePolicy(deadline) => now > deadline
      case CancelledPolicy => true
    }
  }

  /** `NewTimePolicy(d)` at clock reading `now`: the deadline is `now + d`. */
  function NewTimePolicy(d: int, now: int): Policy
  {
    TimePolicy(now + d)
  }

  function NewCancelledPolicy(): Policy
  {
    CancelledPolicy
  }

  /** A factory (`func() Policy`) as returned by `TimeOutPolicy` or `CancelledPolicy`. */
  datatype PolicyFactory = TimeOutFactory(d: int) | CancelledFactory
  {
    /** Calling the factory at clock reading `now`. */
    function Apply(now: int): Policy
    {
      match this
      case TimeOutFactory(d) => NewTimePolicy(d, now)
      case CancelledFactory => NewCancelledPolicy()
    }
  }

  /** `TimeOutPolicy(i...)`: takes its duration from the first argument. Go's
      `i[0].(time.Duration)` panics on no arguments or a non-duration first
      argument; that panic is `None` here. */
  function TimeOutPolicy(args: seq<Value>): (f: Option<PolicyFactory>)
    ensures f.Some? <==> |args| > 0 && args[0].Duration?
    ensures f.Some? ==> forall now :: f.value.Apply(now) == TimePolicy(now + args[0].nanos)
  {
    if |args| > 0 && args[0].Duration? then Some(TimeOutFactory(args[0].nanos)) else None
  }

  /** `CancelledPolicy(i...)`: ignores its arguments. */
  function CancelledPolicyFactory(args: seq<Value>): (f: PolicyFactory)
    ensures forall now :: f.Apply(now).Evacuate(now)
  {
    CancelledFactory
  }

  /** The OR over a policy list, evaluated in list order and stopping at the
      first policy that evacuates. */
  function AnyEvacuates(ps: seq<Policy>, now: int): (r: bool)
    ensures r <==> exists i | 0 <= i < |ps| :: ps[i].Evacuate(now)
    ensures ps == [] ==> !r
  {
    if ps == [] then false
    else if ps[0].Evacuate(now) then true
    else AnyEvacuates(ps[1..], now)
  }

  /** A time policy evaluated at its construction instant with a non-negative
      duration does not evacuate; it evacuates exactly when the clock is past
      construction time plus duration. */
  lemma TimePolicyDeadline(d: int, created: int, now: int)
    ensures NewTimePolicy(d, created).Evacuate(now) <==> now > created + d
    ensures d >= 0 ==> !NewTimePolicy(d, created).Evacuate(created)
  {
  }

  /** Every policy is monotone in time: once it evacuates, it evacuates at
      every later clock reading. */
  lemma EvacuateMonotone(p: Policy, t1: int, t2: int)
    requires t1 <= t2 && p.Evacuate(t1)
    ensures p.Evacuate(t2)
  {
  }

  /** The manager's OR is monotone in time. */
  lemma {:induction false} AnyEvacuatesMonotoneInTime(ps: seq<Policy>, t1: int, t2: int)
    requires t1 <= t2 && AnyEvacuates(ps, t1)
    ensures AnyEvacuates(ps, t2)
  {
    var i :| 0 <= i < |ps| && ps[i].Evacuate(t1);
    EvacuateMonotone(ps[i], t1, t2);
  }

  /** Appending a policy never turns the OR from true to false, and appending
      a cancelled marker makes it true. */
  lemma {:induction false} AnyEvacuatesAppend(ps: seq<Policy>, p: Policy, now: int)
    ensures AnyEvacuates(ps + [p], now) <==> AnyEvacuates(ps, now) || p.Evacuate(now)
    ensures AnyEvacuates(ps, now) ==> AnyEvacuates(ps + [p], now)
    ensures p == NewCancelledPolicy() ==> AnyEvacuates(ps + [p], now)
  {
    if AnyEvacuates(ps, now) {
      var i :| 0 <= i < |ps| && ps[i].Evacuate(now);
      assert (ps + [p])[i] == ps[i];
    }
    if p.Evacuate(now) {
      assert (ps + [p])[|ps|] == p;
    }
    if AnyEvacuates(ps + [p], now) {
      var i :| 0 <= i < |ps| + 1 && (ps + [p])[i].Evacuate(now);
      if i < |ps| {
        assert ps[i] == (ps + [p])[i];
      }
    }
  }

  /** `policyManager`: a list of policies that `AddPolicy` extends in place. */
  class PolicyManager {
    var policies: seq<Policy>

    /** `NewPolicyManager(policies)` keeps the list as given. */
    constructor (policies: seq<Policy>)
      ensures this.policies == policies
    {
      this.policies := policies;
    }

    /** `Evacuate`: checks the policies in insertion order and returns true at
        the first that evacuates. The ghost `checked` is the position where
        the loop stopped: the evacuating policy, or the end of the list. */
    method Evacuate(now: int) returns (evacuate: bool, ghost checked: nat)
      ensures evacuate <==> AnyEvacuates(policies, now)
      ensures checked <= |policies|
      ensures evacuate <==> checked < |policies|
      ensures evacuate ==> policies[checked].Evacuate(now)
      ensures forall j | 0 <= j < checked :: !policies[j].Evacuate(now)
    {
      for i := 0 to |policies|
        invariant forall j | 0 <= j < i :: !policies[j].Evacuate(now)
      {
        if policies[i].Evacuate(now) {
          return true, i;
        }
      }
      return false, |policies|;
    }

    /** `AddPolicy`: appends at the end; earlier policies keep their order. */
    method AddPolicy(policy: Policy)
      modifies this
      ensures policies == old(policies) + [policy]
    {
      policies := policies + [policy];
    }
  }
}
