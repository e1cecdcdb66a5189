/** The older policy layer of queue/policy.go. Here the policy manager is
    itself a policy (it wraps an item and a list of policies, which may hold
    other managers), and every policy has an `Item` accessor. Nothing is
    mutated after construction, so policies are plain values; the clock is the
    explicit parameter `now`. */
module LegacyPolicies {
  import opened Values

  datatype Policy =
    | TimePolicy(t: int)
    | PolicyManager(policies: seq<Policy>, item: Value)
  {
    /** `Item`: nil for a time policy, the wrapped item for a manager. */
    function Item(): (v: Value)
    {
      match this
      case TimePolicy(_) => Nil
      case PolicyManager(_, item) => item
    }
  }

  /** `TimePolicy.Evacuate` and `PolicyManager.Evacuate`. */
  predicate Evacuate(p: Policy, now: int)
    decreases p, 1
  {
    match p
    case TimePolicy(t) => now > t
    case PolicyManager(ps, _) => EvacuatesFrom(p, 0, now)
  }

  /** The manager's loop from position `i` on: true at the first policy that
      evacuates, false past the end. */
  predicate EvacuatesFrom(m: Policy, i: nat, now: int)
    requires m.PolicyManager? && i <= |m.policies|
    ensures EvacuatesFrom(m, i, now) <==>
      exists j | i <= j < |m.policies| :: Evacuate(m.policies[j], now)
    decreases m, 0, |m.policies| - i
  {
    if i == |m.policies| then false
    else if Evacuate(m.policies[i], now) then true
    else EvacuatesFrom(m, i + 1, now)
  }

  /** `NewTimePolicy(d)` at clock reading `now`. */
  function NewTimePolicy(d: int, now: int): Policy
  {
    TimePolicy(now + d)
  }

  function NewPolicyManager(item: Value, policies: seq<Policy>): Policy
  {
    PolicyManager(policies, item)
  }

  /** The factory returned by `TimeOutPolicy`. */
  datatype PolicyFactory = TimeOutFactory(d: int)
  {
    function Apply(now: int): Policy
    {
      NewTimePolicy(d, now)
    }
  }

  /** `TimeOutPolicy(i...)`: `None` stands for the panic of `i[0].(time.Duration)`
      on no arguments or a first argument that is not a duration. */
  function TimeOutPolicy(args: seq<Value>): (f: Option<PolicyFactory>)
    ensures f.Some? <==> |args| > 0 && args[0].Duration?
    ensures f.Some? ==> forall now :: f.value.Apply(now) == TimePolicy(now + args[0].nanos)
  {
    if |args| > 0 && args[0].Duration? then Some(TimeOutFactory(args[0].nanos)) else None
  }

  /** A time policy evacuates exactly when the clock is strictly past its
      deadline, and its `Item` is nil. */
  lemma TimePolicyEvacuate(d: int, created: int, now: int)
    ensures Evacuate(NewTimePolicy(d, created), now) <==> now > created + d
    ensures NewTimePolicy(d, created).Item() == Nil
  {
  }

  /** A manager evacuates iff one of its policies does (so never when empty),
      and its `Item` is the wrapped item unchanged. */
  lemma ManagerEvacuate(item: Value, ps: seq<Policy>, now: int)
    ensures Evacuate(NewPolicyManager(item, ps), now) <==>
      exists j | 0 <= j < |ps| :: Evacuate(ps[j], now)
    ensures ps == [] ==> !Evacuate(NewPolicyManager(item, ps), now)
    ensures NewPolicyManager(item, ps).Item() == item
  {
  }

  /** Evacuation is monotone in time, through any nesting of managers. */
  lemma {:induction false} EvacuateMonotone(p: Policy, t1: int, t2: int)
    requires t1 <= t2 && Evacuate(p, t1)
    ensures Evacuate(p, t2)
    decreases p
  {
    match p
    case TimePolicy(_) =>
    case PolicyManager(ps, _) =>
      var j :| 0 <= j < |ps| && Evacuate(ps[j], t1);
      EvacuateMonotone(ps[j], t1, t2);
      assert EvacuatesFrom(p, 0, t2);
  }
}
