/** The executor's guarantees in the registry's own terms, for every run and any cancellation schedule. */
module ExecutorGuarantees {
  import opened PlanDomain
  import opened PlanExecutor
  import opened ExecutorPasses
  import opened ExecutorTheorems
  import opened ExecutorTermination
  import opened ExecutorMeaning
  import opened ExecutorContract

  // ----- which calls are made -----

  /** What has to hold of action i when a provider is asked about it in pass k. */
  ghost predicate MayBeAsked(turn: Turn, plan: seq<Action>, i: nat, k: nat)
    requires i < |plan|
  {
    && Admitted(turn, plan[i]) && !Repeats(turn, plan, i)
    && (exists call :: Names(turn.registry, plan[i], call) && Permitted(turn.registry, call))
    && (forall d :: d in plan[i].dependsOn ==>
          d in After(turn, plan, k).byId && After(turn, plan, k).byId[d].answer.ok)
    && forall l: nat :: l <= k ==> !turn.cancelRequested(l)
  }

  lemma LaunchableMeans(turn: Turn, plan: seq<Action>, book: Book, i: nat, call: Call)
    requires UniqueIds(plan) && AllAdmitted(turn, plan) && i < |plan| && Names(turn.registry, plan[i], call)
    ensures Launchable(turn, plan, book, plan[i]) <==>
              && (forall d :: d in plan[i].dependsOn ==> d in book && book[d].answer.ok)
              && !Repeats(turn, plan, i) && Permitted(turn.registry, call)
  {
    hide AllAdmitted, Names, Repeats, Permitted, Duplicate, Refusal;
    DuplicateMeans(turn, plan, i);
    RefusalMeans(turn, plan[i], call);
  }

  /** A cancelled pass, and every later one, asks no provider anything. */
  lemma NothingIsAskedAfterCancellation(turn: Turn, plan: seq<Action>, k: nat, l: nat)
    requires turn.cancelRequested(k) && k <= l
    ensures LaunchedAt(turn, plan, l) == []
  {
    hide After, Triaged, Wave, Ready, Pending;
    if k < l {
      CancellationFinishes(turn, plan, k);
      FinishedForGood(turn, plan, k + 1, l);
      assert After(turn, plan, l).finished;
    }
    assert !Deciding(turn, plan, After(turn, plan, l), l);
  }

  lemma LaunchedMayBeAsked(turn: Turn, plan: seq<Action>, k: nat, i: nat)
    requires UniqueIds(plan) && AllAdmitted(turn, plan) && i < |plan| && plan[i] in LaunchedAt(turn, plan, k)
    ensures MayBeAsked(turn, plan, i, k)
  {
    hide After, LaunchedAt, Launchable, Names, Permitted, Repeats;
    assert Admitted(turn, plan[i]) by { assert plan[i] in plan; }
    LaunchedFacts(turn, plan, k, plan[i]);
    var call :| Names(turn.registry, plan[i], call);
    LaunchableMeans(turn, plan, After(turn, plan, k).byId, i, call);
    forall l: nat | l <= k ensures !turn.cancelRequested(l) {
      if turn.cancelRequested(l) { NothingIsAskedAfterCancellation(turn, plan, l, k); }
    }
  }

  /** The log of provider calls holds permitted calls of admitted actions only, each with its dependencies ok. */
  ghost predicate CallsArePermitted(turn: Turn, plan: seq<Action>, calls: seq<(Action, nat)>) {
    forall c :: c in calls ==> exists i :: 0 <= i < |plan| && plan[i] == c.0 && MayBeAsked(turn, plan, i, c.1)
  }

  lemma OnlyPermittedCallsAreMade(turn: Turn, plan: seq<Action>, n: nat)
    requires UniqueIds(plan) && AllAdmitted(turn, plan)
    ensures CallsArePermitted(turn, plan, Invocations(turn, plan, n))
  {
    hide LaunchedAt, MayBeAsked, AllAdmitted;
    InvocationsAreLaunches(turn, plan, n);
    forall c | c in Invocations(turn, plan, n)
      ensures exists i :: 0 <= i < |plan| && plan[i] == c.0 && MayBeAsked(turn, plan, i, c.1)
    {
      LaunchedFacts(turn, plan, c.1, c.0);
      var i :| 0 <= i < |plan| && plan[i] == c.0;
      LaunchedMayBeAsked(turn, plan, c.1, i);
    }
  }

  /** No two calls of the log are for one action, or for one idempotent call. */
  ghost predicate CallsAreSingle(turn: Turn, calls: seq<(Action, nat)>) {
    forall i, j :: 0 <= i < j < |calls| ==>
      calls[i].0 != calls[j].0 && forall call :: !SharesCall(turn.registry, calls[i].0, calls[j].0, call)
  }

  lemma NoCallIsMadeTwice(turn: Turn, plan: seq<Action>, n: nat)
    requires UniqueIds(plan) && AllAdmitted(turn, plan)
    ensures CallsAreSingle(turn, Invocations(turn, plan, n))
  {
    var calls := Invocations(turn, plan, n);
    NothingIsCalledTwice(turn, plan, n);
    InvocationsAreLaunches(turn, plan, n);
    hide Invocations, LaunchedAt, Admitted, SharesCall, Signature;
    forall i, j | 0 <= i < j < |calls|
      ensures calls[i].0 != calls[j].0 && forall call :: !SharesCall(turn.registry, calls[i].0, calls[j].0, call)
    {
      assert calls[i] in calls && calls[j] in calls;
      LaunchedFacts(turn, plan, calls[i].1, calls[i].0);
      LaunchedFacts(turn, plan, calls[j].1, calls[j].0);
      SharedSignature(turn, calls[i].0, calls[j].0);
      assert !SameCall(turn, calls[i].0, calls[j].0);
    }
  }

  // ----- what every action gets -----

  ghost predicate FailedDependency(book: Book, a: Action) {
    exists d :: d in a.dependsOn && d in book && !book[d].answer.ok
  }

  /** What a provider's reaction is recorded as. */
  ghost predicate Reports(outcome: Outcome, a: Action, answer: Answer) {
    match outcome
    case Answered(given) => answer == given
    case Raised => RefusedWith(a, answer, BackendError)
    case CancelledInFlight => RefusedWith(a, answer, Cancelled)
  }

  ghost predicate CopiesAnswer(answer: Answer, source: Answer) {
    && answer.ok == source.ok && answer.code == source.code
    && answer.target == source.target && answer.observed == source.observed
  }

  /** Action i copies the answer of the first action with its call. */
  ghost predicate CopiesFirst(turn: Turn, plan: seq<Action>, book: Book, i: nat)
    requires i < |plan| && plan[i].id in book
  {
    exists j, call ::
      && 0 <= j < i && SharesCall(turn.registry, plan[j], plan[i], call) && !Repeats(turn, plan, j)
      && plan[j].id in book && CopiesAnswer(book[plan[i].id].answer, book[plan[j].id].answer)
  }

  /** The answer of action i after n passes, when no cancellation abandoned it. */
  ghost predicate Settled(turn: Turn, plan: seq<Action>, book: Book, n: nat, i: nat)
    requires i < |plan| && plan[i].id in book
  {
    var a, answer := plan[i], book[plan[i].id].answer;
    && (forall d :: d in a.dependsOn ==> d in book)
    && exists call :: Names(turn.registry, a, call) &&
         if FailedDependency(book, a) then RefusedWith(a, answer, Blocked)
         else if Repeats(turn, plan, i) then CopiesFirst(turn, plan, book, i)
         else if !Unguarded(turn.registry, call) then RefusedWith(a, answer, Blocked)
         else if call.provider !in turn.registry.providers then RefusedWith(a, answer, Invalid)
         else exists k :: 0 <= k < n && plan[i] in LaunchedAt(turn, plan, k)
                          && Reports(turn.provider(a.(call := call), k), a, answer)
  }

  /** Either cancelled before any effect, in a pass that read the flag as raised, or settled. */
  ghost predicate Accounted(turn: Turn, plan: seq<Action>, n: nat, i: nat)
    requires i < |plan| && plan[i].id in After(turn, plan, n).byId
  {
    || (RefusedWith(plan[i], After(turn, plan, n).byId[plan[i].id].answer, Cancelled)
        && exists k :: 0 <= k < n && turn.cancelRequested(k))
    || Settled(turn, plan, After(turn, plan, n).byId, n, i)
  }

  lemma InvokeMeans(turn: Turn, a: Action, call: Call, k: nat)
    requires Names(turn.registry, a, call)
    ensures Reports(turn.provider(a.(call := call), k), a, Invoke(turn, a, k))
  {
    CanonicalMeans(turn, a, call);
    hide Canonical;
  }

  lemma LaunchedIsSettled(turn: Turn, plan: seq<Action>, m: nat, n: nat, i: nat)
    requires WellFormed(plan) && AllAdmitted(turn, plan) && i < |plan| && m < n
    requires plan[i] in LaunchedAt(turn, plan, m) && plan[i].id in After(turn, plan, m + 1).byId
    requires After(turn, plan, m + 1).byId[plan[i].id].answer == Invoke(turn, plan[i], m)
    ensures plan[i].id in After(turn, plan, n).byId && Settled(turn, plan, After(turn, plan, n).byId, n, i)
  {
    hide After, LaunchedAt, Invoke, Names, Permitted, Repeats, RefusedWith, WellFormed, Launchable, AllAdmitted;
    var book := After(turn, plan, n).byId;
    assert UniqueIds(plan) by { WellFormedIsUnique(plan); }
    AfterExtends(turn, plan, m, n);
    AfterExtends(turn, plan, m + 1, n);
    LaunchedMayBeAsked(turn, plan, m, i);
    var call :| Names(turn.registry, plan[i], call) && Permitted(turn.registry, call);
    PermittedMeans(turn.registry, call);
    InvokeMeans(turn, plan[i], call, m);
    assert !FailedDependency(book, plan[i]);
  }

  lemma WellFormedIsUnique(plan: seq<Action>)
    requires WellFormed(plan)
    ensures UniqueIds(plan)
  {
  }

  lemma PermittedMeans(registry: Registry, call: Call)
    ensures Permitted(registry, call) <==> Unguarded(registry, call) && call.provider in registry.providers
  {
  }

  lemma LeaderIsFirst(turn: Turn, plan: seq<Action>, i: nat) returns (j: nat, call: Call)
    requires UniqueIds(plan) && AllAdmitted(turn, plan) && i < |plan| && Repeats(turn, plan, i)
    ensures j < i && plan[j].id == Leader(turn, plan, plan[i])
    ensures SharesCall(turn.registry, plan[j], plan[i], call) && !Repeats(turn, plan, j)
  {
    hide Leader, Signature, Names, SharesCall, Repeats, Admitted;
    DuplicateMeans(turn, plan, i);
    j := LeaderFacts(turn, plan, i);
    DuplicateMeans(turn, plan, j);
    assert plan[i] in plan && plan[j] in plan;
    NoSignatureNoDuplicate(turn, plan, plan[i]);
    SharedSignature(turn, plan[j], plan[i]);
    call :| SharesCall(turn.registry, plan[j], plan[i], call);
  }

  lemma SettledByIsSettled(turn: Turn, plan: seq<Action>, book: Book, n: nat, i: nat)
    requires UniqueIds(plan) && AllAdmitted(turn, plan) && i < |plan| && plan[i].id in book
    requires SettledBy(turn, plan, book, plan[i], book[plan[i].id].answer)
    ensures Settled(turn, plan, book, n, i)
  {
    hide Leader, Names, SharesCall, Repeats, Refusal, Unguarded, LaunchedAt;
    var a := plan[i];
    assert Admitted(turn, a) by { assert a in plan; }
    var call :| Names(turn.registry, a, call);
    RefusalMeans(turn, a, call);
    DuplicateMeans(turn, plan, i);
    assert FailedDependency(book, a) <==> !Satisfied(a, book);
    assert FailedDependency(book, a) ==> RefusedWith(a, book[a.id].answer, Blocked);
    if !FailedDependency(book, a) && Repeats(turn, plan, i) {
      var j, shared := LeaderIsFirst(turn, plan, i);
      assert CopiesFirst(turn, plan, book, i);
    }
  }

  /** In a well-formed plan every recorded answer is accounted for by the registry, the provider or a cancellation. */
  lemma AnswersAreAccountedFor(turn: Turn, plan: seq<Action>, n: nat, i: nat)
    requires WellFormed(plan) && AllAdmitted(turn, plan) && i < |plan| && plan[i].id in After(turn, plan, n).byId
    ensures Accounted(turn, plan, n, i)
  {
    hide After, WaveOf, SettledBy, Settled, Ready, Invoke, AllAdmitted;
    var a := plan[i];
    var m := Origin(turn, plan, n, a);
    var book := After(turn, plan, n).byId;
    AfterExtends(turn, plan, m + 1, n);
    WellFormedAlwaysReady(plan, After(turn, plan, m).byId, i);
    CancelledMeans(a);
    var answer := After(turn, plan, m + 1).byId[a.id].answer;
    if SettledBy(turn, plan, After(turn, plan, m + 1).byId, a, answer) {
      SettledByExtends(turn, plan, After(turn, plan, m + 1).byId, book, a, answer);
      SettledByIsSettled(turn, plan, book, n, i);
    } else if a in LaunchedAt(turn, plan, m) && answer == Invoke(turn, a, m) {
      LaunchedIsSettled(turn, plan, m, n, i);
    }
  }

  lemma CancelledMeans(a: Action)
    ensures RefusedWith(a, CancelledAnswer(a), Cancelled)
  {
  }

  /** A finished run has asked a provider about every permitted action whose dependencies are ok, unless cancelled. */
  lemma EveryPermittedCallIsMade(turn: Turn, plan: seq<Action>, n: nat, i: nat, call: Call)
    requires WellFormed(plan) && AllAdmitted(turn, plan) && After(turn, plan, n).finished
    requires forall k :: !turn.cancelRequested(k)
    requires i < |plan| && Names(turn.registry, plan[i], call) && Permitted(turn.registry, call)
    requires !Repeats(turn, plan, i) && !FailedDependency(After(turn, plan, n).byId, plan[i])
    ensures exists k :: (plan[i], k) in Invocations(turn, plan, n)
  {
    hide After, LaunchedAt, Names, Repeats, Unguarded, AllAdmitted, RefusedWith;
    FinishedIsComplete(turn, plan, n);
    assert plan[i].id in Ids(plan) by { assert plan[i] in plan; }
    AnswersAreAccountedFor(turn, plan, n, i);
    var c :| Names(turn.registry, plan[i], c) &&
      (!Unguarded(turn.registry, c) || c.provider !in turn.registry.providers ||
       exists k :: 0 <= k < n && plan[i] in LaunchedAt(turn, plan, k));
    OneName(turn.registry, plan[i], c, call);
    var k :| 0 <= k < n && plan[i] in LaunchedAt(turn, plan, k);
    InvocationsAreLaunches(turn, plan, n);
    assert (plan[i], k) in Invocations(turn, plan, n);
  }

  ghost predicate AllAccounted(turn: Turn, plan: seq<Action>, n: nat) {
    forall i :: 0 <= i < |plan| ==> plan[i].id in After(turn, plan, n).byId && Accounted(turn, plan, n, i)
  }

  lemma FinishedRunIsAccounted(turn: Turn, plan: seq<Action>, n: nat)
    requires WellFormed(plan) && AllAdmitted(turn, plan) && After(turn, plan, n).finished
    ensures AllAccounted(turn, plan, n)
  {
    hide After, Accounted, AllAdmitted;
    FinishedIsComplete(turn, plan, n);
    forall i | 0 <= i < |plan| ensures plan[i].id in After(turn, plan, n).byId && Accounted(turn, plan, n, i) {
      assert plan[i] in plan && plan[i].id in Ids(plan);
      AnswersAreAccountedFor(turn, plan, n, i);
    }
  }

  /** A cancelled pass answers whatever had no answer as cancelled. */
  lemma CancellationAnswersTheRest(turn: Turn, plan: seq<Action>, k: nat, i: nat)
    requires UniqueIds(plan) && turn.cancelRequested(k) && !After(turn, plan, k).finished
    requires i < |plan| && plan[i].id !in After(turn, plan, k).byId
    ensures plan[i].id in After(turn, plan, k + 1).byId
    ensures RefusedWith(plan[i], After(turn, plan, k + 1).byId[plan[i].id].answer, Cancelled)
  {
    hide RecordAll, Triaged, Wave, Ready;
    var st := After(turn, plan, k);
    AfterConsistent(turn, plan, k);
    AbandonFacts(plan, CancelledAnswer, st);
    PendingFacts(plan, st.byId);
    assert plan[i] in plan && plan[i] in Pending(plan, st.byId);
    assert plan[i].id in Ids(plan);
  }

  /** The results of a plan that is refused as a whole: "invalid" for the actions at fault, "blocked" for the rest. */
  ghost predicate RefusesAll(turn: Turn, plan: seq<Action>, results: seq<ToolResult>) {
    && |results| == |plan|
    && forall i :: 0 <= i < |plan| ==>
         && results[i].actionId == plan[i].id
         && RefusedWith(plan[i], results[i].answer, if Admitted(turn, plan[i]) then Blocked else Invalid)
  }

  lemma ScreenedRefusesAll(turn: Turn, plan: seq<Action>)
    ensures RefusesAll(turn, plan, seq(|plan|, i requires 0 <= i < |plan| => Screened(turn, plan[i])))
  {
    hide Admitted;
    forall i | 0 <= i < |plan|
      ensures RefusedWith(plan[i], Screened(turn, plan[i]).answer, if Admitted(turn, plan[i]) then Blocked else Invalid)
    {
      AcceptedMeans(turn, plan[i]);
    }
  }

  // ----- what shares a wave -----

  /** Actions invoked in one pass are all marked as safe to run in parallel. */
  lemma WavesShareOnlyParallelSafe(turn: Turn, plan: seq<Action>, k: nat, i: nat, call: Call)
    requires UniqueIds(plan) && AllAdmitted(turn, plan) && i < |plan| && Names(turn.registry, plan[i], call)
    requires plan[i] in LaunchedAt(turn, plan, k) && LaunchedAt(turn, plan, k) != [plan[i]]
    ensures Unguarded(turn.registry, call) && PolicyOf(turn.registry, call).parallelSafe
  {
    hide After, LaunchedAt, Names, Repeats, Admitted, Launchable, ParallelSafe;
    LaunchedFacts(turn, plan, k, plan[i]);
    LaunchableMeans(turn, plan, After(turn, plan, k).byId, i, call);
    ParallelSafeMeans(turn, plan[i], call);
  }

  ghost predicate Before(xs: seq<Action>, a: Action, b: Action) {
    exists h, j :: 0 <= h < j < |xs| && xs[h] == a && xs[j] == b
  }

  lemma BeforeTail(xs: seq<Action>, a: Action, b: Action)
    requires xs != []
    ensures Before(xs[1..], a, b) ==> Before(xs, a, b)
    ensures b in xs[1..] ==> Before(xs, xs[0], b)
  {
    if h, j :| 0 <= h < j < |xs| - 1 && xs[1..][h] == a && xs[1..][j] == b {
      assert xs[h + 1] == a && xs[j + 1] == b;
    }
    if b in xs[1..] {
      var j :| 0 <= j < |xs| - 1 && xs[1..][j] == b;
      assert xs[j + 1] == b;
    }
  }

  lemma {:induction false} ReadyInOrder(plan: seq<Action>, book: Book, x: nat, y: nat)
    requires x < y < |Ready(plan, book)|
    ensures Before(plan, Ready(plan, book)[x], Ready(plan, book)[y])
  {
    hide Known, Before;
    var ready, rest := Ready(plan, book), Ready(plan[1..], book);
    assert ready == rest || ready == [plan[0]] + rest;
    BeforeTail(plan, ready[x], ready[y]);
    if ready == rest {
      ReadyInOrder(plan[1..], book, x, y);
    } else if x == 0 {
      ReadyFacts(plan[1..], book);
      assert rest[y - 1] in rest;
    } else {
      ReadyInOrder(plan[1..], book, x - 1, y - 1);
    }
  }

  lemma {:induction false} LaunchablesInOrder(turn: Turn, plan: seq<Action>, book: Book, xs: seq<Action>,
                                              x: nat, y: nat)
    requires x < y < |Launchables(turn, plan, book, xs)|
    ensures Before(xs, Launchables(turn, plan, book, xs)[x], Launchables(turn, plan, book, xs)[y])
  {
    hide Launchable;
    var init := xs[..|xs| - 1];
    var part := Launchables(turn, plan, book, init);
    if y < |part| {
      LaunchablesInOrder(turn, plan, book, init, x, y);
      var h, j :| 0 <= h < j < |init| && init[h] == part[x] && init[j] == part[y];
      assert xs[h] == part[x] && xs[j] == part[y];
    } else {
      LaunchablesFacts(turn, plan, book, init);
      assert part[x] in init;
      var h :| 0 <= h < |init| && init[h] == part[x];
      assert xs[h] == part[x] && xs[|xs| - 1] == Launchables(turn, plan, book, xs)[y];
    }
  }

  /** Of two queued actions the one queued first is declared first. */
  lemma QueuedInOrder(turn: Turn, plan: seq<Action>, book: Book, x: nat, y: nat)
    requires x < y < |Launchables(turn, plan, book, Ready(plan, book))|
    ensures var queue := Launchables(turn, plan, book, Ready(plan, book)); Before(plan, queue[x], queue[y])
  {
    hide Launchable;
    var ready := Ready(plan, book);
    var queue := Launchables(turn, plan, book, ready);
    LaunchablesInOrder(turn, plan, book, ready, x, y);
    var u, v :| 0 <= u < v < |ready| && ready[u] == queue[x] && ready[v] == queue[y];
    ReadyInOrder(plan, book, u, v);
  }

  /** Nothing keeps action i from running: it is unanswered, its dependencies are ok, and its own call is permitted. */
  ghost predicate CouldRun(turn: Turn, plan: seq<Action>, book: Book, i: nat, call: Call)
    requires i < |plan|
  {
    && plan[i].id !in book && (forall d :: d in plan[i].dependsOn ==> d in book && book[d].answer.ok)
    && Names(turn.registry, plan[i], call) && Permitted(turn.registry, call) && !Repeats(turn, plan, i)
  }

  lemma CouldRunMeansQueued(turn: Turn, plan: seq<Action>, book: Book, i: nat, call: Call)
    requires UniqueIds(plan) && AllAdmitted(turn, plan) && i < |plan| && CouldRun(turn, plan, book, i, call)
    ensures plan[i] in Launchables(turn, plan, book, Ready(plan, book))
  {
    hide Names, Permitted, Repeats, Launchable, Admitted;
    LaunchableMeans(turn, plan, book, i, call);
    ReadyFacts(plan, book);
    LaunchablesFacts(turn, plan, book, Ready(plan, book));
  }

  lemma QueuedCouldRun(turn: Turn, plan: seq<Action>, book: Book, i: nat) returns (call: Call)
    requires UniqueIds(plan) && AllAdmitted(turn, plan) && i < |plan|
    requires plan[i] in Launchables(turn, plan, book, Ready(plan, book))
    ensures CouldRun(turn, plan, book, i, call)
  {
    hide Names, Permitted, Repeats, Launchable;
    ReadyFacts(plan, book);
    LaunchablesFacts(turn, plan, book, Ready(plan, book));
    assert Admitted(turn, plan[i]) by { assert plan[i] in plan; }
    call :| Names(turn.registry, plan[i], call);
    LaunchableMeans(turn, plan, book, i, call);
  }

  /** The first action of the queue that the wave leaves out is kept out by a serial one, itself or in front of it. */
  lemma LeftOutBySerial(turn: Turn, runnable: seq<Action>, y: nat) returns (x: nat)
    requires y < |runnable| && runnable[y] !in Wave(turn, runnable)
    ensures x <= y && !ParallelSafe(turn, runnable[x])
  {
    x := FirstSerial(turn, runnable);
    hide ParallelSafe;
    assert x > 0 ==> forall i :: 0 <= i < x ==> runnable[i] == Wave(turn, runnable)[i];
  }

  /**
   * An action that could run in an unfinished, uncancelled pass and is not invoked in it is put off
   * by one that is declared no later, could run as well, and is not marked as safe to run in parallel.
   */
  lemma PutOffOnlyForSerial(turn: Turn, plan: seq<Action>, k: nat, j: nat, call: Call) returns (h: nat, serial: Call)
    requires UniqueIds(plan) && AllAdmitted(turn, plan) && j < |plan|
    requires !After(turn, plan, k).finished && !turn.cancelRequested(k)
    requires CouldRun(turn, plan, After(turn, plan, k).byId, j, call) && plan[j] !in LaunchedAt(turn, plan, k)
    ensures h <= j && CouldRun(turn, plan, After(turn, plan, k).byId, h, serial)
    ensures !PolicyOf(turn.registry, serial).parallelSafe
  {
    hide After, Names, Unguarded, Repeats, ParallelSafe, Launchables, Triaged, Wave, Admitted;
    var st := After(turn, plan, k);
    CouldRunMeansQueued(turn, plan, st.byId, j, call);
    LaunchablesFacts(turn, plan, st.byId, Ready(plan, st.byId));
    ReadyMeansDeciding(turn, plan, st, k);
    WaveOfFacts(turn, plan, st, k);
    var queue := Launchables(turn, plan, st.byId, Ready(plan, st.byId));
    var y :| 0 <= y < |queue| && queue[y] == plan[j];
    var x := LeftOutBySerial(turn, queue, y);
    if x == y {
      h := j;
    } else {
      QueuedInOrder(turn, plan, st.byId, x, y);
      var g :| 0 <= g < j && plan[g] == queue[x];
      h := g;
    }
    serial := QueuedCouldRun(turn, plan, st.byId, h);
    ParallelSafeMeans(turn, plan[h], serial);
  }
}
