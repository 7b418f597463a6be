/** What the executor does to every action of a plan, read off the registry's tables alone. */
module ExecutorContract {
  import opened Options
  import opened PlanDomain
  import opened PlanExecutor
  import opened ExecutorTheorems

  // ----- the registry's word on one action -----

  /** The registered call an action stands for: its own, or the one with the provider's name in front of the tool. */
  ghost predicate Names(registry: Registry, a: Action, call: Call) {
    var own, spelled := a.call, a.call.(tool := a.call.provider + "." + a.call.tool);
    var key, longKey := (own.provider, own.tool), (spelled.provider, spelled.tool);
    || (key in registry.validators && registry.validators[key](own.arguments) && call == own)
    || (key !in registry.validators && longKey in registry.validators
        && registry.validators[longKey](own.arguments) && call == spelled)
  }

  /** The action has a registered call with valid arguments, and the turn offered its tool under either name. */
  ghost predicate Admitted(turn: Turn, a: Action) {
    && (exists call :: Names(turn.registry, a, call))
    && (turn.offered.None?
        || a.call.tool in turn.offered.value
        || (a.call.provider != "" && a.call.provider + "." + a.call.tool in turn.offered.value))
  }

  ghost predicate AllAdmitted(turn: Turn, plan: seq<Action>) {
    forall a :: a in plan ==> Admitted(turn, a)
  }

  ghost predicate HasPolicy(registry: Registry, call: Call) {
    (call.provider, call.tool) in registry.policies
  }

  ghost function PolicyOf(registry: Registry, call: Call): Policy
    requires HasPolicy(registry, call)
  {
    registry.policies[(call.provider, call.tool)]
  }

  /** The call has a policy that neither forbids it nor asks for confirmation. */
  ghost predicate Unguarded(registry: Registry, call: Call) {
    && HasPolicy(registry, call)
    && !PolicyOf(registry, call).risk.Forbidden? && !PolicyOf(registry, call).risk.Confirmation?
    && !PolicyOf(registry, call).requiresConfirmation
  }

  ghost predicate Permitted(registry: Registry, call: Call) {
    Unguarded(registry, call) && call.provider in registry.providers
  }

  ghost predicate Repeatable(registry: Registry, call: Call) {
    HasPolicy(registry, call) && PolicyOf(registry, call).idempotent && !call.arguments.nonIdempotent
  }

  ghost predicate SharesCall(registry: Registry, a: Action, b: Action, call: Call) {
    Names(registry, a, call) && Names(registry, b, call) && Repeatable(registry, call)
  }

  /** Action i asks for the idempotent call of an earlier action. */
  ghost predicate Repeats(turn: Turn, plan: seq<Action>, i: nat)
    requires i < |plan|
  {
    exists j, call :: 0 <= j < i && SharesCall(turn.registry, plan[j], plan[i], call)
  }

  // ----- the executor's definitions say the same -----

  lemma CanonicalMeans(turn: Turn, a: Action, call: Call)
    requires Names(turn.registry, a, call)
    ensures ValidateAction(turn.registry, a) == Some(a.(call := call))
    ensures Canonical(turn, a) == a.(call := call)
  {
  }

  lemma AcceptedMeans(turn: Turn, a: Action)
    ensures Accepted(turn, a) <==> Admitted(turn, a)
  {
    if Accepted(turn, a) { assert Names(turn.registry, a, ValidateAction(turn.registry, a).value.call); }
  }

  lemma AllAcceptedMeans(turn: Turn, plan: seq<Action>)
    ensures AllAccepted(turn, plan) <==> AllAdmitted(turn, plan)
  {
    hide Accepted, Admitted;
    forall a ensures Accepted(turn, a) <==> Admitted(turn, a) { AcceptedMeans(turn, a); }
  }

  lemma SignatureMeans(turn: Turn, a: Action, call: Call)
    requires Names(turn.registry, a, call)
    ensures Signature(turn, a) == if Repeatable(turn.registry, call) then Some(call) else None
  {
    CanonicalMeans(turn, a, call);
    hide Canonical, Names;
  }

  lemma ParallelSafeMeans(turn: Turn, a: Action, call: Call)
    requires Names(turn.registry, a, call) && Unguarded(turn.registry, call)
    ensures ParallelSafe(turn, a) <==> PolicyOf(turn.registry, call).parallelSafe
  {
    CanonicalMeans(turn, a, call);
    hide Canonical, Names;
  }

  /** Exactly the permitted calls are not refused; the code tells a policy's refusal from a missing provider. */
  lemma RefusalMeans(turn: Turn, a: Action, call: Call)
    requires Names(turn.registry, a, call)
    ensures Refusal(turn, a).None? <==> Permitted(turn.registry, call)
    ensures Refusal(turn, a).Some? ==>
              RefusedWith(a, Refusal(turn, a).value, if Unguarded(turn.registry, call) then Invalid else Blocked)
  {
    CanonicalMeans(turn, a, call);
    hide Canonical, Names;
  }

  ghost predicate RefusedWith(a: Action, answer: Answer, code: Code) {
    && !answer.ok && answer.code == code && answer.requested == Some(a.call.arguments)
    && answer.target == None && answer.observed == None
  }

  lemma OneName(registry: Registry, a: Action, c: Call, d: Call)
    requires Names(registry, a, c) && Names(registry, a, d)
    ensures c == d
  {
  }

  lemma SharedSignature(turn: Turn, a: Action, b: Action)
    requires Admitted(turn, a) && Admitted(turn, b)
    ensures Signature(turn, a).Some? && Signature(turn, a) == Signature(turn, b) <==>
            exists call :: SharesCall(turn.registry, a, b, call)
  {
    var c :| Names(turn.registry, a, c);
    var d :| Names(turn.registry, b, d);
    SignatureMeans(turn, a, c);
    SignatureMeans(turn, b, d);
    hide Signature;
    if c == d && Repeatable(turn.registry, c) { assert SharesCall(turn.registry, a, b, c); }
    forall call | SharesCall(turn.registry, a, b, call) ensures call == c == d {
      OneName(turn.registry, a, call, c);
      OneName(turn.registry, b, call, d);
    }
  }

  lemma DuplicateMeans(turn: Turn, plan: seq<Action>, i: nat)
    requires UniqueIds(plan) && AllAdmitted(turn, plan) && i < |plan|
    ensures Duplicate(turn, plan, plan[i]) <==> Repeats(turn, plan, i)
  {
    hide Leader, Signature, Names, SharesCall, Admitted;
    var j := LeaderFacts(turn, plan, i);
    assert plan[i] in plan && plan[j] in plan;
    forall h | 0 <= h < |plan| ensures
        Signature(turn, plan[h]).Some? && Signature(turn, plan[h]) == Signature(turn, plan[i])
        <==> exists call :: SharesCall(turn.registry, plan[h], plan[i], call)
    {
      assert plan[h] in plan;
      SharedSignature(turn, plan[h], plan[i]);
    }
    if Duplicate(turn, plan, plan[i]) {
      NoSignatureNoDuplicate(turn, plan, plan[i]);
      assert j < i;
    }
  }

  lemma NoSignatureNoDuplicate(turn: Turn, plan: seq<Action>, a: Action)
    ensures Duplicate(turn, plan, a) ==> Signature(turn, a).Some?
  {
    hide Signature;
  }
}
