/** The plan executor: screening, coalescing, waves, barriers, cancellation. */
module PlanExecutor {
  import opened Options
  import opened PlanDomain

  datatype Risk = Low | Confirmation | Forbidden

  datatype Policy = Policy(risk: Risk, idempotent: bool, parallelSafe: bool, requiresConfirmation: bool)

  datatype Registry = Registry(
    validators: map<(string, string), Arguments -> bool>,
    policies: map<(string, string), Policy>,
    providers: set<string>)

  /** What one provider call comes to. An in-flight cancellation is one the turn asked for. */
  datatype Outcome = Answered(answer: Answer) | Raised | CancelledInFlight

  /**
   * Everything a run depends on: the registry, the tools this turn offered (None: no restriction),
   * what the provider does when an action is invoked in pass k, and whether the cancellation flag
   * is up when pass k begins.
   */
  datatype Turn = Turn(
    registry: Registry,
    offered: Option<set<string>>,
    provider: (Action, nat) -> Outcome,
    cancelRequested: nat -> bool)

  // ----- registry -----

  function ValidateAction(registry: Registry, action: Action): Option<Action> {
    var call := action.call;
    var key := (call.provider, call.tool);
    var namespaced := call.provider + "." + call.tool;
    if key in registry.validators then
      if registry.validators[key](call.arguments) then Some(action) else None
    else if (call.provider, namespaced) in registry.validators then
      if registry.validators[(call.provider, namespaced)](call.arguments)
      then Some(action.(call := call.(tool := namespaced)))
      else None
    else None
  }

  function PolicyFor(registry: Registry, call: Call): Option<Policy> {
    var key := (call.provider, call.tool);
    if key in registry.policies then Some(registry.policies[key]) else None
  }

  function AddressedTools(call: Call): set<string> {
    {call.tool} + if call.provider != "" then {call.provider + "." + call.tool} else {}
  }

  predicate Offered(turn: Turn, action: Action) {
    turn.offered.None? || AddressedTools(action.call) * turn.offered.value != {}
  }

  predicate Accepted(turn: Turn, action: Action) {
    ValidateAction(turn.registry, action).Some? && Offered(turn, action)
  }

  predicate AllAccepted(turn: Turn, plan: seq<Action>) {
    forall a | a in plan :: Accepted(turn, a)
  }

  function Canonical(turn: Turn, action: Action): Action {
    var v := ValidateAction(turn.registry, action);
    if v.Some? then v.value else action
  }

  /** The call two actions must share to be coalesced; None when the action may not be. */
  function Signature(turn: Turn, action: Action): Option<Call> {
    var call := Canonical(turn, action).call;
    var policy := PolicyFor(turn.registry, call);
    if policy.Some? && policy.value.idempotent && !call.arguments.nonIdempotent then Some(call) else None
  }

  // ----- refusals -----

  function Refused(action: Action, code: Code, message: string): Answer {
    Answer(false, code, None, Some(action.call.arguments), None, message)
  }

  function Screened(turn: Turn, action: Action): ToolResult {
    ToolResult(action.id,
      if ValidateAction(turn.registry, action).None?
      then Refused(action, Invalid, "Action did not match an allowlisted semantic tool schema")
      else if !Offered(turn, action)
      then Refused(action, Invalid, "Action names a tool this turn did not offer")
      else Refused(action, Blocked, "Plan contains an unsupported action; nothing was executed"))
  }

  /** The policy's reason for not invoking a canonical action, if it has one. */
  function Refusal(turn: Turn, action: Action): Option<Answer> {
    var canonical := Canonical(turn, action);
    var policy := PolicyFor(turn.registry, canonical.call);
    if policy.None? then Some(Refused(action, Blocked, "Capability has no execution policy"))
    else if policy.value.risk.Forbidden? then Some(Refused(action, Blocked, "Capability policy blocks this operation"))
    else if policy.value.risk.Confirmation? || policy.value.requiresConfirmation then
      Some(Refused(action, Blocked, "Capability requires an explicit confirmation turn"))
    else if canonical.call.provider !in turn.registry.providers then
      Some(Refused(action, Invalid, "Action did not match an allowlisted semantic tool schema"))
    else None
  }

  predicate ParallelSafe(turn: Turn, action: Action) {
    var policy := PolicyFor(turn.registry, Canonical(turn, action).call);
    policy.Some? && policy.value.risk.Low? && policy.value.parallelSafe && !policy.value.requiresConfirmation
  }

  function CancelledAnswer(action: Action): Answer {
    Refused(action, Cancelled, "Action was cancelled before provider side effects")
  }

  function UnresolvedAnswer(action: Action): Answer {
    Refused(action, Invalid, "Action dependency graph could not be resolved")
  }

  function BlockedAnswer(action: Action): Answer {
    Refused(action, Blocked, "Action dependency failed")
  }

  function CopyOf(source: Answer): Answer {
    source.(requested := None, message := "Duplicate idempotent action coalesced")
  }

  /** The answer recorded for an action invoked in pass k. */
  function Invoke(turn: Turn, action: Action, k: nat): Answer {
    var canonical := Canonical(turn, action);
    match turn.provider(canonical, k)
    case Answered(answer) => answer
    case Raised => Refused(canonical, BackendError, "Capability provider failed while executing the action")
    case CancelledInFlight => Refused(canonical, Cancelled, "Capability execution was cancelled by request")
  }

  function InvokeIn(turn: Turn, k: nat): Action -> Answer {
    (action: Action) => Invoke(turn, action, k)
  }

  // ----- coalescing -----

  /** The first of the first n actions with the given signature. */
  function First(turn: Turn, plan: seq<Action>, n: nat, signature: Call): Option<Action>
    requires n <= |plan|
  {
    if n == 0 then None
    else
      var f := First(turn, plan, n - 1, signature);
      if f.Some? then f
      else if Signature(turn, plan[n - 1]) == Some(signature) then Some(plan[n - 1])
      else None
  }

  /** The id of the action whose answer this action shares: its own unless it is a duplicate. */
  function Leader(turn: Turn, plan: seq<Action>, action: Action): Id {
    var signature := Signature(turn, action);
    if signature.None? then action.id
    else
      var first := First(turn, plan, |plan|, signature.value);
      if first.Some? then first.value.id else action.id
  }

  predicate Duplicate(turn: Turn, plan: seq<Action>, action: Action) {
    Leader(turn, plan, action) != action.id
  }

  // ----- one pass -----

  type Book = map<Id, ToolResult>

  datatype State = State(byId: Book, results: seq<ToolResult>, finished: bool)

  const START := State(map[], [], false)

  function Record(st: State, action: Action, answer: Answer): State {
    var result := ToolResult(action.id, answer);
    st.(byId := st.byId[action.id := result], results := st.results + [result])
  }

  function Pending(plan: seq<Action>, book: Book): seq<Action> {
    if plan == [] then []
    else (if plan[0].id in book then [] else [plan[0]]) + Pending(plan[1..], book)
  }

  predicate Known(action: Action, book: Book) {
    forall d | d in action.dependsOn :: d in book
  }

  predicate Satisfied(action: Action, book: Book) {
    forall d | d in action.dependsOn :: d in book && book[d].answer.ok
  }

  function Ready(plan: seq<Action>, book: Book): seq<Action> {
    if plan == [] then []
    else (if plan[0].id !in book && Known(plan[0], book) then [plan[0]] else []) + Ready(plan[1..], book)
  }

  datatype Triage = Triage(st: State, runnable: seq<Action>)

  /** Decides one ready action: wait, settle it without a call, or queue it for this wave. */
  function TriageOne(turn: Turn, plan: seq<Action>, action: Action, t: Triage): Triage {
    var leader := Leader(turn, plan, action);
    if leader != action.id && leader !in t.st.byId then t
    else if !Satisfied(action, t.st.byId) then t.(st := Record(t.st, action, BlockedAnswer(action)))
    else if leader != action.id then t.(st := Record(t.st, action, CopyOf(t.st.byId[leader].answer)))
    else
      var refusal := Refusal(turn, action);
      if refusal.Some? then t.(st := Record(t.st, action, refusal.value))
      else t.(runnable := t.runnable + [action])
  }

  /** The state after the first n ready actions have been decided. */
  function TriageFirst(turn: Turn, plan: seq<Action>, ready: seq<Action>, n: nat, st: State): Triage
    requires n <= |ready|
  {
    if n == 0 then Triage(st, [])
    else TriageOne(turn, plan, ready[n - 1], TriageFirst(turn, plan, ready, n - 1, st))
  }

  function FirstSerial(turn: Turn, runnable: seq<Action>): (n: nat)
    ensures n <= |runnable|
    ensures forall i :: 0 <= i < n ==> ParallelSafe(turn, runnable[i])
    ensures n < |runnable| ==> !ParallelSafe(turn, runnable[n])
  {
    if runnable == [] || !ParallelSafe(turn, runnable[0]) then 0 else 1 + FirstSerial(turn, runnable[1..])
  }

  /** A leading serial action alone, or the leading parallel-safe ones together. */
  function Wave(turn: Turn, runnable: seq<Action>): seq<Action> {
    if runnable == [] then []
    else if FirstSerial(turn, runnable) == 0 then runnable[..1]
    else runnable[..FirstSerial(turn, runnable)]
  }

  function RecordAll(actions: seq<Action>, n: nat, answer: Action -> Answer, st: State): State
    requires n <= |actions|
  {
    if n == 0 then st
    else Record(RecordAll(actions, n - 1, answer, st), actions[n - 1], answer(actions[n - 1]))
  }

  /** Whether pass k gets as far as deciding ready actions. */
  predicate Deciding(turn: Turn, plan: seq<Action>, st: State, k: nat) {
    && !st.finished
    && Pending(plan, st.byId) != []
    && !turn.cancelRequested(k)
    && Ready(plan, st.byId) != []
  }

  function Triaged(turn: Turn, plan: seq<Action>, st: State): Triage {
    var ready := Ready(plan, st.byId);
    TriageFirst(turn, plan, ready, |ready|, st)
  }

  /** One iteration of the executor's loop. A finished state stays as it is. */
  function Pass(turn: Turn, plan: seq<Action>, st: State, k: nat): State {
    var pending := Pending(plan, st.byId);
    if st.finished then st
    else if pending == [] then st.(finished := true)
    else if turn.cancelRequested(k) then RecordAll(pending, |pending|, CancelledAnswer, st).(finished := true)
    else if Ready(plan, st.byId) == [] then RecordAll(pending, |pending|, UnresolvedAnswer, st).(finished := true)
    else
      var t := Triaged(turn, plan, st);
      var wave := Wave(turn, t.runnable);
      RecordAll(wave, |wave|, InvokeIn(turn, k), t.st)
  }

  /** The executor's state when pass n begins. */
  function After(turn: Turn, plan: seq<Action>, n: nat): State {
    if n == 0 then START else Pass(turn, plan, After(turn, plan, n - 1), n - 1)
  }

  /** The actions pass k hands to providers when it begins in state st. */
  function WaveOf(turn: Turn, plan: seq<Action>, st: State, k: nat): seq<Action> {
    if Deciding(turn, plan, st, k) then Wave(turn, Triaged(turn, plan, st).runnable) else []
  }

  /** The run's log of invocations, pass by pass. */
  function LaunchedAt(turn: Turn, plan: seq<Action>, k: nat): seq<Action> {
    WaveOf(turn, plan, After(turn, plan, k), k)
  }

  function InPass(wave: seq<Action>, k: nat): seq<(Action, nat)> {
    seq(|wave|, i requires 0 <= i < |wave| => (wave[i], k))
  }

  /** All provider calls of the first n passes, in order, each with its pass. */
  function Invocations(turn: Turn, plan: seq<Action>, n: nat): seq<(Action, nat)> {
    if n == 0 then [] else Invocations(turn, plan, n - 1) + InPass(LaunchedAt(turn, plan, n - 1), n - 1)
  }
}
