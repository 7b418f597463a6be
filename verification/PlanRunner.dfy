/** The executor as it runs: loops over mutable tables, proved against its pass-by-pass meaning. */
module PlanRunner {
  import opened StableSort
  import opened Options
  import opened PlanDomain
  import opened PlanExecutor
  import opened ExecutorPasses
  import opened ExecutorTheorems
  import opened ExecutorTermination
  import opened ExecutorMeaning
  import opened ExecutorContract
  import opened ExecutorGuarantees

  // ----- screening and coalescing -----

  /** Validates every action and maps each duplicate to the action whose result it will copy. */
  method Screen(turn: Turn, ordered: seq<Action>) returns (invalid: set<Id>, duplicateOf: map<Id, Id>)
    requires UniqueIds(ordered)
    ensures invalid == {} <==> AllAccepted(turn, ordered)
    ensures invalid == {} ==> Coalesces(turn, ordered, duplicateOf)
  {
    hide Signature, Accepted, First;
    invalid, duplicateOf := {}, map[];
    var seen: map<Call, Id> := map[];
    SeenAtStart(turn, ordered);
    for i := 0 to |ordered|
      invariant invalid == {} <==> forall j :: 0 <= j < i ==> Accepted(turn, ordered[j])
      invariant invalid == {} ==> SeenIs(turn, ordered, i, seen)
      invariant invalid == {} ==> forall id :: id in duplicateOf ==> exists j :: 0 <= j < i && ordered[j].id == id
      invariant invalid == {} ==> forall j :: 0 <= j < i ==> Coalesced(turn, ordered, j, duplicateOf)
    {
      var action := ordered[i];
      ghost var before := duplicateOf;
      if !Accepted(turn, action) {
        invalid := invalid + {action.id};
      } else {
        if invalid == {} { SeenStep(turn, ordered, i, seen); }
        var signature := Signature(turn, action);
        if signature.Some? {
          if signature.value in seen {
            duplicateOf := duplicateOf[action.id := seen[signature.value]];
          } else {
            seen := seen[signature.value := action.id];
          }
        }
        assert invalid == {} ==> Coalesced(turn, ordered, i, duplicateOf);
        forall j | 0 <= j < i && invalid == {} ensures Coalesced(turn, ordered, j, duplicateOf) {
          assert Coalesced(turn, ordered, j, before) && ordered[j].id != action.id;
        }
      }
    }
    forall i | 0 <= i < |ordered| && invalid == {}
      ensures ordered[i].id in duplicateOf <==> Duplicate(turn, ordered, ordered[i])
      ensures ordered[i].id in duplicateOf ==> duplicateOf[ordered[i].id] == Leader(turn, ordered, ordered[i])
    {
      CoalescedIsLeader(turn, ordered, i, duplicateOf);
    }
  }

  /** `duplicateOf` maps exactly the duplicates, each to its leader. */
  ghost predicate Coalesces(turn: Turn, plan: seq<Action>, duplicateOf: map<Id, Id>) {
    forall a :: a in plan ==>
      && (a.id in duplicateOf <==> Duplicate(turn, plan, a))
      && (a.id in duplicateOf ==> duplicateOf[a.id] == Leader(turn, plan, a))
  }

  /** The signature table after n actions holds the first action of each signature. */
  ghost predicate SeenIs(turn: Turn, plan: seq<Action>, n: nat, seen: map<Call, Id>)
    requires n <= |plan|
  {
    forall c :: (c in seen <==> First(turn, plan, n, c).Some?)
                && (c in seen ==> seen[c] == First(turn, plan, n, c).value.id)
  }

  lemma SeenAtStart(turn: Turn, plan: seq<Action>)
    ensures SeenIs(turn, plan, 0, map[])
  {
  }

  lemma SeenStep(turn: Turn, plan: seq<Action>, n: nat, seen: map<Call, Id>)
    requires n < |plan| && SeenIs(turn, plan, n, seen)
    ensures var signature := Signature(turn, plan[n]);
            SeenIs(turn, plan, n + 1,
              if signature.Some? && signature.value !in seen then seen[signature.value := plan[n].id] else seen)
  {
    hide Signature;
  }

  /** What the screening loop has decided about action j when it moves on. */
  ghost predicate Coalesced(turn: Turn, plan: seq<Action>, j: nat, duplicateOf: map<Id, Id>)
    requires j < |plan|
  {
    var signature := Signature(turn, plan[j]);
    var earlier := if signature.Some? then First(turn, plan, j, signature.value) else None;
    && (plan[j].id in duplicateOf <==> earlier.Some?)
    && (earlier.Some? ==> duplicateOf[plan[j].id] == earlier.value.id)
  }

  lemma {:induction false} FirstIsStable(turn: Turn, plan: seq<Action>, m: nat, n: nat, call: Call)
    requires m <= n <= |plan| && First(turn, plan, m, call).Some?
    ensures First(turn, plan, n, call) == First(turn, plan, m, call)
  {
    if m < n { FirstIsStable(turn, plan, m, n - 1, call); }
  }

  lemma CoalescedIsLeader(turn: Turn, plan: seq<Action>, j: nat, duplicateOf: map<Id, Id>)
    requires UniqueIds(plan) && j < |plan| && Coalesced(turn, plan, j, duplicateOf)
    ensures plan[j].id in duplicateOf <==> Duplicate(turn, plan, plan[j])
    ensures plan[j].id in duplicateOf ==> duplicateOf[plan[j].id] == Leader(turn, plan, plan[j])
  {
    hide Signature;
    if Signature(turn, plan[j]).Some? {
      var call := Signature(turn, plan[j]).value;
      FirstFacts(turn, plan, j, call);
      if First(turn, plan, j, call).Some? {
        FirstIsStable(turn, plan, j, |plan|, call);
      } else {
        assert First(turn, plan, j + 1, call) == Some(plan[j]);
        FirstIsStable(turn, plan, j + 1, |plan|, call);
      }
    }
  }

  // ----- the executor -----

  /** `pending.pop(id)` on an insertion-ordered table. */
  function Without(pending: seq<Action>, id: Id): seq<Action> {
    if pending == [] then []
    else (if pending[0].id == id then [] else [pending[0]]) + Without(pending[1..], id)
  }

  lemma {:induction false} WithoutIsPending(plan: seq<Action>, book: Book, id: Id, r: ToolResult)
    ensures Without(Pending(plan, book), id) == Pending(plan, book[id := r])
  {
    if plan != [] {
      WithoutIsPending(plan[1..], book, id, r);
      if plan[0].id !in book {
        assert Pending(plan, book) == [plan[0]] + Pending(plan[1..], book);
        assert Pending(plan, book)[1..] == Pending(plan[1..], book);
      } else {
        assert Pending(plan, book) == Pending(plan[1..], book);
      }
    }
  }

  lemma {:induction false} PendingIsOrdered(plan: seq<Action>, book: Book)
    requires Ordered(plan, ByOrder)
    ensures Ordered(Pending(plan, book), ByOrder)
  {
    if plan != [] {
      PendingIsOrdered(plan[1..], book);
      PendingFacts(plan[1..], book);
      var rest := Pending(plan[1..], book);
      forall j | 0 <= j < |rest| ensures ByOrder(plan[0]).AtMost(ByOrder(rest[j])) {
        assert rest[j] in plan[1..];
      }
    }
  }

  lemma {:induction false} PendingOfNothing(plan: seq<Action>)
    ensures Pending(plan, map[]) == plan
  {
    if plan != [] { PendingOfNothing(plan[1..]); }
  }

  /** The executor's tables, updated by `append_result`. */
  class Ledger {
    var pending: seq<Action>
    var byId: Book
    var results: seq<ToolResult>

    /** Every provider call made so far, with its pass. */
    ghost var invoked: seq<(Action, nat)>

    ghost const plan: seq<Action>

    ghost predicate Valid() reads this {
      pending == Pending(plan, byId)
    }

    ghost function Value(): State reads this {
      State(byId, results, false)
    }

    constructor (ordered: seq<Action>)
      ensures Valid() && Value() == START && plan == ordered && invoked == []
    {
      pending, byId, results, plan, invoked := ordered, map[], [], ordered, [];
      new;
      PendingOfNothing(ordered);
    }

    method Append(action: Action, answer: Answer)
      requires Valid()
      modifies this
      ensures Valid() && Value() == Record(old(Value()), action, answer) && invoked == old(invoked)
    {
      WithoutIsPending(plan, byId, action.id, ToolResult(action.id, answer));
      pending := Without(pending, action.id);
      byId := byId[action.id := ToolResult(action.id, answer)];
      results := results + [ToolResult(action.id, answer)];
    }

    /** Asks the action's provider, once. */
    method Ask(turn: Turn, action: Action, k: nat) returns (answer: Answer)
      modifies this`invoked
      ensures answer == Invoke(turn, action, k) && invoked == old(invoked) + [(action, k)]
    {
      invoked := invoked + [(action, k)];
      answer := Invoke(turn, action, k);
    }

    /** Settles everything still pending, in order. */
    method AppendAll(answer: Action -> Answer)
      requires Valid() && Ordered(plan, ByOrder)
      modifies this
      ensures Valid() && Value() ==
              RecordAll(Pending(plan, old(byId)), |Pending(plan, old(byId))|, answer, old(Value()))
      ensures invoked == old(invoked)
    {
      var rest := Sort(pending, ByOrder);
      PendingIsOrdered(plan, byId);
      SortLeavesOrdered(pending, ByOrder);
      for i := 0 to |rest|
        invariant Valid() && Value() == RecordAll(rest, i, answer, old(Value())) && invoked == old(invoked)
      {
        Append(rest[i], answer(rest[i]));
      }
    }
  }

  /** Decides the ready actions of one pass: settles what needs no call and queues the rest. */
  method Triage(turn: Turn, ledger: Ledger, ready: seq<Action>, duplicateOf: map<Id, Id>)
    returns (runnable: seq<Action>)
    requires ledger.Valid() && Coalesces(turn, ledger.plan, duplicateOf)
    requires forall a :: a in ready ==> a in ledger.plan && Known(a, ledger.byId)
    modifies ledger
    ensures ledger.Valid()
    ensures PlanExecutor.Triage(ledger.Value(), runnable) ==
            TriageFirst(turn, ledger.plan, ready, |ready|, old(ledger.Value()))
    ensures ledger.invoked == old(ledger.invoked)
  {
    hide Leader, Refusal;
    runnable := [];
    for i := 0 to |ready|
      invariant ledger.Valid() && old(ledger.byId).Keys <= ledger.byId.Keys
      invariant ledger.invoked == old(ledger.invoked)
      invariant PlanExecutor.Triage(ledger.Value(), runnable) ==
                TriageFirst(turn, ledger.plan, ready, i, old(ledger.Value()))
    {
      var action := ready[i];
      assert action in ready;
      if action.id in duplicateOf && duplicateOf[action.id] !in ledger.byId {
        // wait until the leader has answered
      } else if exists d :: d in action.dependsOn && !ledger.byId[d].answer.ok {
        ledger.Append(action, BlockedAnswer(action));
      } else if action.id in duplicateOf {
        ledger.Append(action, CopyOf(ledger.byId[duplicateOf[action.id]].answer));
      } else {
        var refusal := Refusal(turn, action);
        if refusal.Some? {
          ledger.Append(action, refusal.value);
        } else {
          runnable := runnable + [action];
        }
      }
    }
  }

  /** Invokes one wave, each action once: a leading serial action alone, or the leading parallel-safe ones. */
  method LaunchWave(turn: Turn, ledger: Ledger, runnable: seq<Action>, k: nat)
    requires ledger.Valid()
    modifies ledger
    ensures ledger.Valid()
    ensures ledger.Value() ==
            RecordAll(Wave(turn, runnable), |Wave(turn, runnable)|, InvokeIn(turn, k), old(ledger.Value()))
    ensures ledger.invoked == old(ledger.invoked) + InPass(Wave(turn, runnable), k)
  {
    hide Invoke;
    var firstSerial := FirstSerial(turn, runnable);
    if runnable == [] {
    } else if firstSerial == 0 {
      var answer := ledger.Ask(turn, runnable[0], k);
      ledger.Append(runnable[0], answer);
      assert InPass([runnable[0]], k) == [(runnable[0], k)];
    } else {
      var wave := runnable[..firstSerial];
      for i := 0 to |wave|
        invariant ledger.Valid() && ledger.Value() == RecordAll(wave, i, InvokeIn(turn, k), old(ledger.Value()))
        invariant ledger.invoked == old(ledger.invoked) + InPass(wave, k)[..i]
      {
        var answer := ledger.Ask(turn, wave[i], k);
        ledger.Append(wave[i], answer);
        assert InPass(wave, k)[..i + 1] == InPass(wave, k)[..i] + [(wave[i], k)];
      }
      assert InPass(wave, k)[..|wave|] == InPass(wave, k);
    }
  }

  /** One loop iteration; `done` when the run was cancelled or its dependency graph has no ready action. */
  method OnePass(turn: Turn, ledger: Ledger, ordered: seq<Action>, duplicateOf: map<Id, Id>, k: nat)
    returns (done: bool)
    requires ledger.Valid() && ledger.pending != [] && ledger.plan == ordered && Ordered(ordered, ByOrder)
    requires Coalesces(turn, ordered, duplicateOf)
    modifies ledger
    ensures ledger.Valid()
    ensures ledger.Value().(finished := done) == Pass(turn, ordered, old(ledger.Value()), k)
    ensures !done ==> Deciding(turn, ordered, old(ledger.Value()), k)
    ensures ledger.invoked == old(ledger.invoked) + InPass(WaveOf(turn, ordered, old(ledger.Value()), k), k)
  {
    hide TriageFirst, RecordAll, Coalesces, Wave, Invoke;
    assert InPass([], k) == [];
    if turn.cancelRequested(k) {
      ledger.AppendAll(CancelledAnswer);
      return true;
    }
    ReadyFacts(ordered, ledger.byId);
    var ready := Ready(ordered, ledger.byId);
    if ready == [] {
      ledger.AppendAll(UnresolvedAnswer);
      return true;
    }
    var runnable := Triage(turn, ledger, ready, duplicateOf);
    LaunchWave(turn, ledger, runnable, k);
    done := false;
  }

  /**
   * Executes a plan. Refuses all of it if any action is unacceptable; otherwise returns the report
   * of the run that the pass function describes, in `passes` loop iterations. Without cancellation,
   * and with distinct orders, that report is the recursive meaning of the plan. `calls` are the
   * provider calls actually made: those of the run, all permitted, none of them twice.
   */
  method ExecutePlan(turn: Turn, actions: seq<Action>)
    returns (results: seq<ToolResult>, passes: nat, ghost calls: seq<(Action, nat)>)
    requires UniqueIds(Declared(actions))
    requires AllAccepted(turn, Declared(actions)) ==> Finishes(turn, Declared(actions))
    ensures !AllAccepted(turn, Declared(actions)) ==>
              && calls == []
              && results == seq(|Declared(actions)|,
                            i requires 0 <= i < |Declared(actions)| => Screened(turn, Declared(actions)[i]))
    ensures AllAccepted(turn, Declared(actions)) ==>
              && After(turn, Declared(actions), passes).finished
              && results == Report(Declared(actions), After(turn, Declared(actions), passes))
              && calls == Invocations(turn, Declared(actions), passes)
    ensures AllAccepted(turn, Declared(actions)) && PlainRun(turn, Declared(actions)) ==>
              results == Meanings(turn, Declared(actions))
    ensures CallsAreDistinct(turn, calls)
    ensures !AllAdmitted(turn, Declared(actions)) ==> calls == [] && RefusesAll(turn, Declared(actions), results)
    ensures AllAdmitted(turn, Declared(actions)) ==>
              CallsArePermitted(turn, Declared(actions), calls) && CallsAreSingle(turn, calls)
    ensures AllAdmitted(turn, Declared(actions)) && WellFormed(Declared(actions)) ==>
              AllAccounted(turn, Declared(actions), passes)
  {
    hide CallsArePermitted, CallsAreSingle, AllAccounted, RefusesAll, AllAdmitted, WellFormed;
    hide Pass, Finishes, AllAccepted, Coalesces, After, Screened, PlainRun, Meanings, Report, UniqueIds, SameCall;
    hide Invocations;
    var ordered := Declared(actions);
    SortIsOrderedPermutation(actions, ByOrder);
    passes, calls := 0, [];
    AllAcceptedMeans(turn, ordered);
    var invalid, duplicateOf := Screen(turn, ordered);
    if invalid != {} {
      results := seq(|ordered|, i requires 0 <= i < |ordered| => Screened(turn, ordered[i]));
      ScreenedRefusesAll(turn, ordered);
      return;
    }
    results, passes, calls := RunPasses(turn, ordered, duplicateOf);
    NothingIsCalledTwice(turn, ordered, passes);
    OnlyPermittedCallsAreMade(turn, ordered, passes);
    NoCallIsMadeTwice(turn, ordered, passes);
    if WellFormed(ordered) { FinishedRunIsAccounted(turn, ordered, passes); }
    if PlainRun(turn, ordered) { PlainRunReportsMeaning(turn, ordered, passes); }
  }

  /** Never cancelled, steady providers, and a well-formed plan with distinct orders. */
  ghost predicate PlainRun(turn: Turn, plan: seq<Action>) {
    && WellFormed(plan) && Steady(turn)
    && (forall k :: !turn.cancelRequested(k))
    && forall i, j :: 0 <= i < j < |plan| ==> plan[i].order != plan[j].order
  }

  lemma PlainRunReportsMeaning(turn: Turn, plan: seq<Action>, n: nat)
    requires PlainRun(turn, plan) && Ordered(plan, ByOrder) && After(turn, plan, n).finished
    ensures Report(plan, After(turn, plan, n)) == Meanings(turn, plan)
  {
    hide After, Report, Meanings;
    ExecutionReportsMeaning(turn, plan, n);
  }

  /** The loop of the executor, from empty tables to the report. */
  method RunPasses(turn: Turn, ordered: seq<Action>, duplicateOf: map<Id, Id>)
    returns (results: seq<ToolResult>, passes: nat, ghost calls: seq<(Action, nat)>)
    requires Ordered(ordered, ByOrder) && Coalesces(turn, ordered, duplicateOf) && Finishes(turn, ordered)
    ensures After(turn, ordered, passes).finished
    ensures calls == Invocations(turn, ordered, passes)
    ensures results == Report(ordered, After(turn, ordered, passes))
  {
    ghost var enough: nat :| After(turn, ordered, enough).finished;
    hide Pass, Coalesces, After, WaveOf, Deciding, Invocations;
    AfterStart(turn, ordered);
    passes := 0;
    var ledger := new Ledger(ordered);
    var done := false;
    while ledger.pending != [] && !done
      invariant fresh(ledger) && ledger.Valid() && ledger.plan == ordered
      invariant ledger.Value().(finished := done) == After(turn, ordered, passes)
      invariant ledger.invoked == Invocations(turn, ordered, passes)
      decreases enough - passes
    {
      UnfinishedIsEarlier(turn, ordered, passes, enough);
      AfterStep(turn, ordered, passes);
      assert ledger.Value() == After(turn, ordered, passes);
      done := OnePass(turn, ledger, ordered, duplicateOf, passes);
      passes := passes + 1;
    }
    if !done {
      AfterStep(turn, ordered, passes);
      EmptyPassFinishes(turn, ordered, ledger.Value(), passes);
      passes := passes + 1;
    }
    results, calls := Sort(ledger.results, InDeclaredOrder(ordered)), ledger.invoked;
  }

  lemma UnfinishedIsEarlier(turn: Turn, plan: seq<Action>, m: nat, n: nat)
    requires !After(turn, plan, m).finished && After(turn, plan, n).finished
    ensures m < n
  {
    hide After;
    if n <= m { FinishedForGood(turn, plan, n, m); }
  }

  lemma AfterStart(turn: Turn, plan: seq<Action>)
    ensures After(turn, plan, 0) == START && Invocations(turn, plan, 0) == []
  {
  }

  lemma AfterStep(turn: Turn, plan: seq<Action>, n: nat)
    ensures After(turn, plan, n + 1) == Pass(turn, plan, After(turn, plan, n), n)
    ensures Invocations(turn, plan, n + 1) ==
            Invocations(turn, plan, n) + InPass(WaveOf(turn, plan, After(turn, plan, n), n), n)
  {
  }

  lemma EmptyPassFinishes(turn: Turn, plan: seq<Action>, st: State, k: nat)
    requires !st.finished && Pending(plan, st.byId) == []
    ensures Pass(turn, plan, st, k) == st.(finished := true) && InPass(WaveOf(turn, plan, st, k), k) == []
  {
  }
}
