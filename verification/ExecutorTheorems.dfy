/** What every run of the plan executor satisfies, under any cancellation schedule. */
module ExecutorTheorems {
  import opened Options
  import opened PlanDomain
  import opened PlanExecutor
  import opened ExecutorPasses

  // ----- runs -----

  lemma {:induction false} AfterConsistent(turn: Turn, plan: seq<Action>, n: nat)
    requires UniqueIds(plan)
    ensures Consistent(plan, After(turn, plan, n))
  {
    hide PlanExecutor.Pass, PlanExecutor.WaveOf, PlanExecutor.Triaged;
    if n > 0 {
      AfterConsistent(turn, plan, n - 1);
      PassFacts(turn, plan, After(turn, plan, n - 1), n - 1);
    }
  }

  lemma {:induction false} AfterExtends(turn: Turn, plan: seq<Action>, m: nat, n: nat)
    requires UniqueIds(plan) && m <= n
    ensures Extends(After(turn, plan, m).byId, After(turn, plan, n).byId)
  {
    hide PlanExecutor.Pass, PlanExecutor.WaveOf, PlanExecutor.Triaged;
    if m < n {
      AfterExtends(turn, plan, m, n - 1);
      AfterConsistent(turn, plan, n - 1);
      PassFacts(turn, plan, After(turn, plan, n - 1), n - 1);
    }
  }

  ghost predicate RecordedIn(turn: Turn, plan: seq<Action>, m: nat, a: Action) {
    && a.id !in After(turn, plan, m).byId
    && a.id in After(turn, plan, m + 1).byId
    && Explained(turn, plan, After(turn, plan, m), After(turn, plan, m + 1), m, a)
  }

  /** The pass that recorded an action's answer. */
  lemma {:induction false} Origin(turn: Turn, plan: seq<Action>, n: nat, a: Action) returns (m: nat)
    requires UniqueIds(plan) && a in plan && a.id in After(turn, plan, n).byId
    ensures m < n && RecordedIn(turn, plan, m, a)
  {
    m := n - 1;
    AfterConsistent(turn, plan, m);
    PassFacts(turn, plan, After(turn, plan, m), m);
    if a.id in After(turn, plan, m).byId {
      m := Origin(turn, plan, m, a);
    }
  }

  lemma LaunchedFacts(turn: Turn, plan: seq<Action>, k: nat, a: Action)
    requires UniqueIds(plan) && a in LaunchedAt(turn, plan, k)
    ensures a in plan && Launchable(turn, plan, After(turn, plan, k).byId, a)
    ensures a.id !in After(turn, plan, k).byId && a.id in After(turn, plan, k + 1).byId
    ensures UniqueIds(LaunchedAt(turn, plan, k))
    ensures !ParallelSafe(turn, a) ==> LaunchedAt(turn, plan, k) == [a]
  {
    var st := After(turn, plan, k);
    WaveFacts(turn, Triaged(turn, plan, st).runnable);
    ReadyFacts(plan, st.byId);
    WaveOfFacts(turn, plan, st, k);
    DecidingShape(turn, plan, st, k);
    assert a.id in Ids(WaveOf(turn, plan, st, k));
  }

  /** Answers other than a provider's are never ok. */
  lemma RefusalsAreNotOk(turn: Turn, a: Action)
    ensures !CancelledAnswer(a).ok && !UnresolvedAnswer(a).ok && !BlockedAnswer(a).ok
    ensures Refusal(turn, a).Some? ==> !Refusal(turn, a).value.ok
  {
  }

  // ----- safety: dependencies and signatures -----

  /** No action reaches a provider unless every dependency has already answered ok. */
  lemma InvokedOnlyWhenDependenciesOk(turn: Turn, plan: seq<Action>, k: nat, a: Action, d: Id)
    requires UniqueIds(plan) && a in LaunchedAt(turn, plan, k) && d in a.dependsOn
    ensures d in After(turn, plan, k).byId && After(turn, plan, k).byId[d].answer.ok
  {
    LaunchedFacts(turn, plan, k, a);
  }

  lemma OkMeansSatisfied(turn: Turn, plan: seq<Action>, n: nat, a: Action)
    requires UniqueIds(plan) && a in plan
    requires a.id in After(turn, plan, n).byId && After(turn, plan, n).byId[a.id].answer.ok
    ensures Satisfied(a, After(turn, plan, n).byId)
  {
    hide PlanExecutor.Pass, PlanExecutor.WaveOf, PlanExecutor.Triaged;
    var m := Origin(turn, plan, n, a);
    AfterExtends(turn, plan, m + 1, n);
    AfterExtends(turn, plan, m, n);
    RefusalsAreNotOk(turn, a);
    if a in LaunchedAt(turn, plan, m) {
      LaunchedFacts(turn, plan, m, a);
    }
  }

  ghost predicate Chain(plan: seq<Action>, path: seq<Action>) {
    && path != []
    && (forall a :: a in path ==> a in plan)
    && forall i :: 0 < i < |path| ==> path[i - 1].id in path[i].dependsOn
  }

  /** Every action transitively downstream of a result that is not ok is itself not ok. */
  lemma {:induction false} FailureSpreads(turn: Turn, plan: seq<Action>, n: nat, path: seq<Action>)
    requires UniqueIds(plan) && Chain(plan, path)
    requires var book := After(turn, plan, n).byId;
             path[0].id in book && !book[path[0].id].answer.ok && path[|path| - 1].id in book
    ensures !After(turn, plan, n).byId[path[|path| - 1].id].answer.ok
  {
    var book := After(turn, plan, n).byId;
    var last := path[|path| - 1];
    if |path| > 1 && book[last.id].answer.ok {
      OkMeansSatisfied(turn, plan, n, last);
      assert path[|path| - 2].id in last.dependsOn;
      FailureSpreads(turn, plan, n, path[..|path| - 1]);
    }
  }

  ghost predicate IsFirst(turn: Turn, plan: seq<Action>, i: nat, signature: Call) {
    && i < |plan| && Signature(turn, plan[i]) == Some(signature)
    && forall j :: 0 <= j < i ==> Signature(turn, plan[j]) != Some(signature)
  }

  lemma {:induction false} FirstFacts(turn: Turn, plan: seq<Action>, n: nat, signature: Call)
    requires n <= |plan|
    ensures var f := First(turn, plan, n, signature);
            if f.Some? then (exists i: nat :: i < n && IsFirst(turn, plan, i, signature) && plan[i] == f.value)
            else forall j :: 0 <= j < n ==> Signature(turn, plan[j]) != Some(signature)
  {
    if n > 0 {
      FirstFacts(turn, plan, n - 1, signature);
    }
  }

  /** An action's leader is an action of the plan, not later than it, with the same signature, and leads itself. */
  lemma LeaderFacts(turn: Turn, plan: seq<Action>, i: nat) returns (j: nat)
    requires UniqueIds(plan) && i < |plan|
    ensures j <= i && plan[j].id == Leader(turn, plan, plan[i])
    ensures Signature(turn, plan[j]) == Signature(turn, plan[i]) && !Duplicate(turn, plan, plan[j])
    ensures Duplicate(turn, plan, plan[i]) ==> j < i
    ensures Signature(turn, plan[i]).Some? ==>
              forall l :: 0 <= l < j ==> Signature(turn, plan[l]) != Signature(turn, plan[i])
  {
    hide First;
    j := i;
    if Signature(turn, plan[i]).Some? {
      FirstFacts(turn, plan, |plan|, Signature(turn, plan[i]).value);
      var signature := Signature(turn, plan[i]).value;
      j :| j < |plan| && IsFirst(turn, plan, j, signature) && plan[j] == First(turn, plan, |plan|, signature).value;
    }
  }

  /** Each action, and each idempotent signature, reaches a provider at most once in a run. */
  lemma InvokedAtMostOnce(turn: Turn, plan: seq<Action>, k: nat, l: nat, a: Action, b: Action)
    requires UniqueIds(plan) && a in LaunchedAt(turn, plan, k) && b in LaunchedAt(turn, plan, l)
    requires a == b || (Signature(turn, a).Some? && Signature(turn, a) == Signature(turn, b))
    ensures a == b && k == l
    ensures UniqueIds(LaunchedAt(turn, plan, k))
  {
    hide PlanExecutor.Pass, PlanExecutor.WaveOf, PlanExecutor.Triaged;
    LaunchedFacts(turn, plan, k, a);
    LaunchedFacts(turn, plan, l, b);
    if a != b {
      var i, j :| 0 <= i < |plan| && 0 <= j < |plan| && plan[i] == a && plan[j] == b;
      var i' := LeaderFacts(turn, plan, i);
      var j' := LeaderFacts(turn, plan, j);
    }
    if k < l {
      AfterExtends(turn, plan, k + 1, l);
    } else if l < k {
      AfterExtends(turn, plan, l + 1, k);
    }
  }

  lemma {:induction false} InvocationsAreLaunches(turn: Turn, plan: seq<Action>, n: nat)
    ensures forall c :: c in Invocations(turn, plan, n) <==> c.1 < n && c.0 in LaunchedAt(turn, plan, c.1)
  {
    hide LaunchedAt;
    if n > 0 {
      InvocationsAreLaunches(turn, plan, n - 1);
      var wave := LaunchedAt(turn, plan, n - 1);
      forall a ensures a in wave <==> (a, n - 1) in InPass(wave, n - 1) {
        if a in wave {
          var i :| 0 <= i < |wave| && wave[i] == a;
          assert InPass(wave, n - 1)[i] == (a, n - 1);
        }
      }
    }
  }

  /** No two provider calls are for the same action, or for actions that share a signature. */
  ghost predicate CallsAreDistinct(turn: Turn, calls: seq<(Action, nat)>) {
    forall i, j :: 0 <= i < j < |calls| ==> !SameCall(turn, calls[i].0, calls[j].0)
  }

  predicate SameCall(turn: Turn, a: Action, b: Action) {
    a == b || (Signature(turn, a).Some? && Signature(turn, a) == Signature(turn, b))
  }

  /** Call by call, a run asks providers for nothing twice. */
  lemma {:induction false} NothingIsCalledTwice(turn: Turn, plan: seq<Action>, n: nat)
    requires UniqueIds(plan)
    ensures CallsAreDistinct(turn, Invocations(turn, plan, n))
  {
    hide LaunchedAt, Signature;
    if n > 0 {
      var k := n - 1;
      NothingIsCalledTwice(turn, plan, k);
      InvocationsAreLaunches(turn, plan, k);
      var before, wave := Invocations(turn, plan, k), LaunchedAt(turn, plan, k);
      var calls := before + InPass(wave, k);
      forall i, j | 0 <= i < j < |calls| && j >= |before| ensures !SameCall(turn, calls[i].0, calls[j].0) {
        assert calls[j] == (wave[j - |before|], k);
        if SameCall(turn, calls[i].0, calls[j].0) {
          assert i < |before| ==> calls[i] in before;
          InvokedAtMostOnce(turn, plan, calls[i].1, k, calls[i].0, calls[j].0);
        }
      }
    }
  }

  // ----- declared order of serial actions -----

  /** No dependency of an action declared before position i is a coalesced duplicate. */
  ghost predicate DependenciesAreLeaders(turn: Turn, plan: seq<Action>, i: nat) {
    forall j, h :: 0 <= j < i && j < |plan| && 0 <= h < |plan| && plan[h].id in plan[j].dependsOn ==>
      !Duplicate(turn, plan, plan[h])
  }

  /** An ok answer of an action that is not a duplicate can only come from a provider. */
  lemma OkMeansInvoked(turn: Turn, plan: seq<Action>, n: nat, a: Action) returns (m: nat)
    requires UniqueIds(plan) && !Duplicate(turn, plan, a) && a in plan
    requires a.id in After(turn, plan, n).byId && After(turn, plan, n).byId[a.id].answer.ok
    ensures m < n && a in LaunchedAt(turn, plan, m) && a.id in After(turn, plan, m + 1).byId
  {
    hide Pass, WaveOf, Triaged, Launchable, Refusal, Invoke;
    m := Origin(turn, plan, n, a);
    AfterExtends(turn, plan, m + 1, n);
    RefusalsAreNotOk(turn, a);
  }

  /** An action that depends, through any number of steps, on a coalesced duplicate with no answer yet. */
  ghost predicate WaitsForDuplicate(turn: Turn, plan: seq<Action>, book: Book, a: Action) {
    exists path :: WaitingChain(turn, plan, book, a, path)
  }

  ghost predicate WaitingChain(turn: Turn, plan: seq<Action>, book: Book, a: Action, path: seq<Action>) {
    && Chain(plan, path) && path[|path| - 1] == a
    && Duplicate(turn, plan, path[0]) && path[0].id !in book
  }

  /**
   * An earlier action invoked no sooner than a serial one waits for a duplicate: either directly, or
   * it waits for a still earlier action that is invoked no sooner than the serial one.
   */
  lemma {:induction false} LateActionWaits(turn: Turn, plan: seq<Action>, i: nat, j: nat, k: nat, l: nat)
    returns (path: seq<Action>)
    requires WellFormed(plan) && j < i < |plan| && !ParallelSafe(turn, plan[i])
    requires plan[i] in LaunchedAt(turn, plan, k) && plan[j] in LaunchedAt(turn, plan, l) && k <= l
    ensures WaitingChain(turn, plan, After(turn, plan, k).byId, plan[j], path)
    ensures |path| > 1 && exists h :: 0 <= h <= j && plan[h] == path[1]
    decreases j
  {
    hide Pass, LaunchedAt, After, ParallelSafe, Refusal, Leader;
    var book := After(turn, plan, k).byId;
    LaunchedFacts(turn, plan, k, plan[i]);
    LaunchedFacts(turn, plan, l, plan[j]);
    AfterExtends(turn, plan, k, l);
    if Known(plan[j], book) {
      assert Satisfied(plan[j], book);
      EarlierIsNotLaunchable(turn, plan, i, j, k);
    }
    var d :| d in plan[j].dependsOn && d !in book;
    assert NamedBefore(plan, j, d);
    var h :| 0 <= h < j && plan[h].id == d;
    if Duplicate(turn, plan, plan[h]) {
      path := [plan[h], plan[j]];
    } else {
      var m := OkMeansInvoked(turn, plan, l, plan[h]);
      if m < k { AfterExtends(turn, plan, m + 1, k); }
      path := LateActionWaits(turn, plan, i, h, k, m);
      path := ChainGrows(plan, path, plan[j]);
    }
  }

  lemma ChainGrows(plan: seq<Action>, path: seq<Action>, a: Action) returns (longer: seq<Action>)
    requires Chain(plan, path) && a in plan && path[|path| - 1].id in a.dependsOn
    ensures longer == path + [a] && Chain(plan, longer) && longer[0] == path[0]
  {
    longer := path + [a];
  }

  /** An ok answer has ok answers all the way up its chain of dependencies. */
  lemma {:induction false} OkReachesBack(turn: Turn, plan: seq<Action>, n: nat, path: seq<Action>)
    requires UniqueIds(plan) && Chain(plan, path)
    requires var book := After(turn, plan, n).byId;
             var last := path[|path| - 1];
             last.id in book && book[last.id].answer.ok
    ensures path[0].id in After(turn, plan, n).byId
  {
    if |path| > 1 {
      OkMeansSatisfied(turn, plan, n, path[|path| - 1]);
      assert path[|path| - 2].id in path[|path| - 1].dependsOn;
      OkReachesBack(turn, plan, n, path[..|path| - 1]);
    }
  }

  lemma WaitingActionIsLate(turn: Turn, plan: seq<Action>, j: nat, k: nat, l: nat, path: seq<Action>)
    requires UniqueIds(plan) && j < |plan| && plan[j] in LaunchedAt(turn, plan, l)
    requires WaitingChain(turn, plan, After(turn, plan, k).byId, plan[j], path)
    ensures k <= l
  {
    hide After, LaunchedAt, Leader;
    LaunchedFacts(turn, plan, l, plan[j]);
    if l < k {
      AfterExtends(turn, plan, l, k);
      AfterExtends(turn, plan, l + 1, k);
      assert |path| > 1;
      var before := path[..|path| - 1];
      assert Chain(plan, before) && before[|before| - 1].id in plan[j].dependsOn;
      OkReachesBack(turn, plan, l, before);
    }
  }

  /**
   * A serial action runs alone. An earlier action is invoked no sooner than it exactly when, as the
   * serial action is invoked, the earlier one still waits for a coalesced duplicate.
   */
  lemma SerialOrderBreaksExactlyWhen(turn: Turn, plan: seq<Action>, i: nat, j: nat, k: nat, l: nat)
    requires WellFormed(plan) && j < i < |plan| && !ParallelSafe(turn, plan[i])
    requires plan[i] in LaunchedAt(turn, plan, k) && plan[j] in LaunchedAt(turn, plan, l)
    ensures LaunchedAt(turn, plan, k) == [plan[i]]
    ensures k <= l <==> WaitsForDuplicate(turn, plan, After(turn, plan, k).byId, plan[j])
  {
    hide After, LaunchedAt, Chain;
    LaunchedFacts(turn, plan, k, plan[i]);
    if k <= l {
      var path := LateActionWaits(turn, plan, i, j, k, l);
      assert WaitingChain(turn, plan, After(turn, plan, k).byId, plan[j], path);
    }
    if path :| WaitingChain(turn, plan, After(turn, plan, k).byId, plan[j], path) {
      WaitingActionIsLate(turn, plan, j, k, l, path);
    }
  }

  /** So declared order holds in every plan whose earlier actions depend on no coalesced duplicate. */
  lemma SerialActionsKeepDeclaredOrder(turn: Turn, plan: seq<Action>, i: nat, j: nat, k: nat, l: nat)
    requires WellFormed(plan) && DependenciesAreLeaders(turn, plan, i)
    requires j < i < |plan| && !ParallelSafe(turn, plan[i])
    requires plan[i] in LaunchedAt(turn, plan, k) && plan[j] in LaunchedAt(turn, plan, l)
    ensures LaunchedAt(turn, plan, k) == [plan[i]]
    ensures l < k
  {
    hide After, LaunchedAt, Leader;
    LaunchedFacts(turn, plan, k, plan[i]);
    if k <= l {
      var path := LateActionWaits(turn, plan, i, j, k, l);
      LeadersRuleOutWaiting(turn, plan, i, path);
    }
  }

  lemma LeadersRuleOutWaiting(turn: Turn, plan: seq<Action>, i: nat, path: seq<Action>)
    requires i <= |plan| && DependenciesAreLeaders(turn, plan, i) && Chain(plan, path) && |path| > 1
    requires exists h :: 0 <= h < i && plan[h] == path[1]
    ensures !Duplicate(turn, plan, path[0])
  {
    hide Leader;
    assert path[0] in plan && path[0].id in path[1].dependsOn;
  }

  lemma EarlierIsNotLaunchable(turn: Turn, plan: seq<Action>, i: nat, j: nat, k: nat)
    requires UniqueIds(plan) && j < i < |plan| && LaunchedAt(turn, plan, k) == [plan[i]]
    requires plan[j].id !in After(turn, plan, k).byId
    requires Known(plan[j], After(turn, plan, k).byId)
    ensures !Launchable(turn, plan, After(turn, plan, k).byId, plan[j])
  {
    var st := After(turn, plan, k);
    var ready := Ready(plan, st.byId);
    WaveOfFacts(turn, plan, st, k);
    LaunchedFacts(turn, plan, k, plan[i]);
    ReadyFacts(plan, st.byId);
    if Launchable(turn, plan, st.byId, plan[j]) {
      var x, y := ReadyKeepsOrder(plan, st.byId, j, i);
      FirstLaunchable(turn, plan, st.byId, ready, y, x);
    }
  }

  lemma {:induction false} ReadyKeepsOrder(plan: seq<Action>, book: Book, j: nat, i: nat) returns (x: nat, y: nat)
    requires j < i < |plan|
    requires plan[j].id !in book && Known(plan[j], book) && plan[i].id !in book && Known(plan[i], book)
    ensures x < y < |Ready(plan, book)| && Ready(plan, book)[x] == plan[j] && Ready(plan, book)[y] == plan[i]
  {
    if j == 0 {
      x := 0;
      ReadyFacts(plan[1..], book);
      assert plan[1..][i - 1] in Ready(plan[1..], book);
      y :| 0 <= y < |Ready(plan[1..], book)| && Ready(plan[1..], book)[y] == plan[i];
      y := y + 1;
    } else {
      x, y := ReadyKeepsOrder(plan[1..], book, j - 1, i - 1);
      if plan[0].id !in book && Known(plan[0], book) { x, y := x + 1, y + 1; }
    }
  }
}
