/** When the executor's loop ends, and what it reports when it does. */
module ExecutorTermination {
  import opened PlanDomain
  import opened PlanExecutor
  import opened ExecutorPasses
  import opened ExecutorTheorems

  // ----- which actions can be settled at all -----

  predicate Resolves(turn: Turn, plan: seq<Action>, known: set<Id>, a: Action) {
    && (forall d | d in a.dependsOn :: d in known)
    && (Duplicate(turn, plan, a) ==> Leader(turn, plan, a) in known)
  }

  /** The actions settled after n rounds in which an action follows its dependencies and its leader. */
  function Resolved(turn: Turn, plan: seq<Action>, n: nat): set<Id> {
    if n == 0 then {}
    else set a | a in plan && Resolves(turn, plan, Resolved(turn, plan, n - 1), a) :: a.id
  }

  function Resolvable(turn: Turn, plan: seq<Action>): set<Id> {
    Resolved(turn, plan, |plan|)
  }

  /**
   * Some duplicate has all its dependencies resolvable while its leader is not: the executor keeps
   * finding it ready and keeps putting it off.
   */
  predicate Stallable(turn: Turn, plan: seq<Action>) {
    exists a | a in plan ::
      a.id !in Resolvable(turn, plan) && forall d | d in a.dependsOn :: d in Resolvable(turn, plan)
  }

  lemma {:induction false} ResolvedGrows(turn: Turn, plan: seq<Action>, n: nat)
    ensures Resolved(turn, plan, n) <= Resolved(turn, plan, n + 1) <= Ids(plan)
  {
    if n > 0 {
      ResolvedGrows(turn, plan, n - 1);
    }
  }

  lemma {:induction false} ResolvedStaysFixed(turn: Turn, plan: seq<Action>, m: nat, n: nat)
    requires m <= n && Resolved(turn, plan, m) == Resolved(turn, plan, m + 1)
    ensures Resolved(turn, plan, n) == Resolved(turn, plan, m)
  {
    if m < n {
      ResolvedStaysFixed(turn, plan, m, n - 1);
      assert Resolved(turn, plan, n) == Resolved(turn, plan, m + 1);
    }
  }

  /** Each round adds an id or is the last that could. */
  lemma {:induction false} ResolvedConverges(turn: Turn, plan: seq<Action>, n: nat)
    ensures |Resolved(turn, plan, n)| >= n || Resolved(turn, plan, n) == Resolved(turn, plan, n + 1)
  {
    hide Resolved, Resolves;
    if n > 0 {
      ResolvedConverges(turn, plan, n - 1);
      ResolvedGrows(turn, plan, n - 1);
      if Resolved(turn, plan, n - 1) == Resolved(turn, plan, n) {
        ResolvedStaysFixed(turn, plan, n - 1, n + 1);
      } else {
        CardinalityGrows(Resolved(turn, plan, n - 1), Resolved(turn, plan, n));
      }
    }
  }

  lemma CardinalityGrows<T>(a: set<T>, b: set<T>)
    requires a <= b
    ensures |a| <= |b|
    ensures a != b ==> |a| < |b|
  {
    assert b == a + (b - a);
    if a != b {
      var x :| x in b - a;
      assert |b - a| > 0;
    }
  }

  lemma {:induction false} AtMostOneIdEach(plan: seq<Action>)
    ensures |Ids(plan)| <= |plan|
  {
    if plan != [] {
      AtMostOneIdEach(plan[1..]);
      assert plan == [plan[0]] + plan[1..];
      assert Ids(plan) == {plan[0].id} + Ids(plan[1..]);
    }
  }

  /** An action whose dependencies and leader are resolvable is resolvable. */
  lemma ResolvableIsClosed(turn: Turn, plan: seq<Action>, a: Action)
    requires a in plan && Resolves(turn, plan, Resolvable(turn, plan), a)
    ensures a.id in Resolvable(turn, plan)
  {
    var n := |plan|;
    ResolvedConverges(turn, plan, n);
    ResolvedGrows(turn, plan, n);
    AtMostOneIdEach(plan);
    CardinalityGrows(Resolved(turn, plan, n), Ids(plan));
    if Resolved(turn, plan, n) != Resolved(turn, plan, n + 1) {
      CardinalityGrows(Resolved(turn, plan, n), Resolved(turn, plan, n + 1));
      CardinalityGrows(Resolved(turn, plan, n + 1), Ids(plan));
    }
    assert a.id in Resolved(turn, plan, n + 1);
  }

  /** A set of ids closed under resolution contains every resolvable one. */
  lemma {:induction false} ResolvedIsLeast(turn: Turn, plan: seq<Action>, n: nat, closed: set<Id>)
    requires forall a :: a in plan && Resolves(turn, plan, closed, a) ==> a.id in closed
    ensures Resolved(turn, plan, n) <= closed
  {
    if n > 0 {
      ResolvedIsLeast(turn, plan, n - 1, closed);
      forall a | a in plan && Resolves(turn, plan, Resolved(turn, plan, n - 1), a) ensures a.id in closed {
        assert Resolves(turn, plan, closed, a);
      }
    }
  }

  lemma {:induction false} WellFormedPlansResolve(turn: Turn, plan: seq<Action>, i: nat, n: nat)
    requires WellFormed(plan) && i < |plan| && i < n
    ensures plan[i].id in Resolved(turn, plan, n)
    decreases i
  {
    hide Leader, Signature, Resolved, Duplicate;
    forall d | d in plan[i].dependsOn ensures d in Resolved(turn, plan, n - 1) {
      assert NamedBefore(plan, i, d);
      var j :| 0 <= j < i && plan[j].id == d;
      WellFormedPlansResolve(turn, plan, j, n - 1);
    }
    if Duplicate(turn, plan, plan[i]) {
      var j := LeaderFacts(turn, plan, i);
      WellFormedPlansResolve(turn, plan, j, n - 1);
    }
    ResolvedStep(turn, plan, n, plan[i]);
  }

  lemma ResolvedStep(turn: Turn, plan: seq<Action>, n: nat, a: Action)
    requires a in plan && n > 0 && Resolves(turn, plan, Resolved(turn, plan, n - 1), a)
    ensures a.id in Resolved(turn, plan, n)
  {
  }

  /** A validated plan cannot stall. */
  lemma WellFormedPlansDoNotStall(turn: Turn, plan: seq<Action>)
    requires WellFormed(plan)
    ensures !Stallable(turn, plan)
  {
    forall i | 0 <= i < |plan| ensures plan[i].id in Resolvable(turn, plan) {
      WellFormedPlansResolve(turn, plan, i, |plan|);
    }
  }

  // ----- progress -----

  ghost predicate Waiting(turn: Turn, plan: seq<Action>, book: Book, a: Action) {
    Duplicate(turn, plan, a) && Leader(turn, plan, a) !in book
  }

  /** A deciding pass records something unless every ready action waits for its leader. */
  lemma DecidingPassProgresses(turn: Turn, plan: seq<Action>, st: State, k: nat, a: Action)
    requires UniqueIds(plan) && Deciding(turn, plan, st, k)
    requires a in Ready(plan, st.byId) && !Waiting(turn, plan, st.byId, a)
    ensures st.byId.Keys < Pass(turn, plan, st, k).byId.Keys
  {
    hide Pass, TriageFirst, SettledBy, RecordAll, Wave, Launchable;
    var ready := Ready(plan, st.byId);
    ReadyFacts(plan, st.byId);
    DecidingShape(turn, plan, st, k);
    WaveOfFacts(turn, plan, st, k);
    LaunchablesFacts(turn, plan, st.byId, ready);
    var i :| 0 <= i < |ready| && ready[i] == a;
    TriageDecides(turn, plan, st, ready, |ready|, i);
    var t := Triaged(turn, plan, st);
    if a.id !in t.st.byId {
      assert a in Launchables(turn, plan, st.byId, ready);
      var b := WaveOf(turn, plan, st, k)[0];
      assert b.id in Ids(WaveOf(turn, plan, st, k)) && b.id !in st.byId;
    }
  }

  /** When every ready action waits, a pass changes nothing. */
  lemma WaitingPassChangesNothing(turn: Turn, plan: seq<Action>, st: State, k: nat)
    requires UniqueIds(plan) && Deciding(turn, plan, st, k)
    requires forall a :: a in Ready(plan, st.byId) ==> Waiting(turn, plan, st.byId, a)
    ensures Pass(turn, plan, st, k) == st
  {
    var ready := Ready(plan, st.byId);
    WaitingTriage(turn, plan, st, ready, |ready|);
  }

  lemma {:induction false} WaitingTriage(turn: Turn, plan: seq<Action>, st: State, ready: seq<Action>, n: nat)
    requires n <= |ready| && forall a :: a in ready ==> Waiting(turn, plan, st.byId, a)
    ensures TriageFirst(turn, plan, ready, n, st) == Triage(st, [])
  {
    if n > 0 {
      WaitingTriage(turn, plan, st, ready, n - 1);
      assert ready[n - 1] in ready;
    }
  }

  /** Unless it has finished, the executor has settled resolvable actions only. */
  lemma {:induction false} OnlyResolvableSettled(turn: Turn, plan: seq<Action>, n: nat)
    requires UniqueIds(plan) && !After(turn, plan, n).finished
    ensures After(turn, plan, n).byId.Keys <= Resolvable(turn, plan)
  {
    if n > 0 {
      var k := n - 1;
      var st, st' := After(turn, plan, k), After(turn, plan, n);
      OnlyResolvableSettled(turn, plan, k);
      AfterConsistent(turn, plan, n);
      forall i | 0 <= i < |plan| && plan[i].id in st'.byId ensures plan[i].id in Resolvable(turn, plan) {
        NewlySettled(turn, plan, k, i);
      }
    }
  }

  /** What a pass that does not end the run newly settles had its dependencies, and its leader, settled. */
  lemma NewlySettledFacts(turn: Turn, plan: seq<Action>, k: nat, a: Action)
    requires UniqueIds(plan) && !After(turn, plan, k + 1).finished && a in plan
    requires a.id !in After(turn, plan, k).byId && a.id in After(turn, plan, k + 1).byId
    ensures Known(a, After(turn, plan, k).byId)
    ensures Duplicate(turn, plan, a) ==> Leader(turn, plan, a) in After(turn, plan, k + 1).byId
  {
    var st := After(turn, plan, k);
    assert After(turn, plan, k + 1) == Pass(turn, plan, st, k);
    assert Deciding(turn, plan, st, k) by { hide Triaged, Wave, RecordAll; }
    hide After, Pass, Deciding, Leader;
    NewlySettledIsReady(turn, plan, st, k, a);
    NewlySettledFollowsLeader(turn, plan, st, k, a);
  }

  lemma NewlySettledIsReady(turn: Turn, plan: seq<Action>, st: State, k: nat, a: Action)
    requires UniqueIds(plan) && Deciding(turn, plan, st, k)
    requires a in plan && a.id !in st.byId && a.id in Pass(turn, plan, st, k).byId
    ensures Known(a, st.byId) && Ready(plan, st.byId) != []
  {
    hide Pass, Triaged, Wave, Launchable, Ready, Leader;
    DecidingShape(turn, plan, st, k);
    WaveOfFacts(turn, plan, st, k);
    ReadyFacts(plan, st.byId);
    assert a.id in Ids(Ready(plan, st.byId)) by {
      assert forall b :: b in WaveOf(turn, plan, st, k) ==> b in Ready(plan, st.byId);
    }
  }

  lemma NewlySettledFollowsLeader(turn: Turn, plan: seq<Action>, st: State, k: nat, a: Action)
    requires UniqueIds(plan) && Deciding(turn, plan, st, k) && Ready(plan, st.byId) != []
    requires a in plan && a.id !in st.byId && a.id in Pass(turn, plan, st, k).byId
    ensures Duplicate(turn, plan, a) ==> Leader(turn, plan, a) in Pass(turn, plan, st, k).byId
  {
    DecidingExplains(turn, plan, st, k, a);
    DuplicatesAreNotInvoked(turn, plan, st, k, a);
    assert !turn.cancelRequested(k);
    hide Pass, WaveOf, Leader, Satisfied, Refusal, Deciding, Ready;
  }

  lemma NewlySettled(turn: Turn, plan: seq<Action>, k: nat, i: nat)
    requires UniqueIds(plan) && !After(turn, plan, k + 1).finished && i < |plan|
    requires After(turn, plan, k).byId.Keys <= Resolvable(turn, plan)
    requires plan[i].id in After(turn, plan, k + 1).byId
    ensures plan[i].id in Resolvable(turn, plan)
    decreases if Duplicate(turn, plan, plan[i]) then 1 else 0
  {
    hide After, Leader, Resolvable;
    if plan[i].id !in After(turn, plan, k).byId {
      NewlySettledFacts(turn, plan, k, plan[i]);
      if Duplicate(turn, plan, plan[i]) {
        var j := LeaderFacts(turn, plan, i);
        NewlySettled(turn, plan, k, j);
      }
      ResolvableIsClosed(turn, plan, plan[i]);
    }
  }

  lemma DuplicatesAreNotInvoked(turn: Turn, plan: seq<Action>, st: State, k: nat, a: Action)
    requires UniqueIds(plan)
    ensures Duplicate(turn, plan, a) ==> a !in WaveOf(turn, plan, st, k)
  {
    if Deciding(turn, plan, st, k) { WaveOfFacts(turn, plan, st, k); }
  }

  /** A pass that is begun by an unfinished run in a plan that cannot stall settles something or ends the run. */
  lemma PassMakesProgress(turn: Turn, plan: seq<Action>, n: nat)
    requires UniqueIds(plan) && !Stallable(turn, plan) && !After(turn, plan, n).finished
    ensures After(turn, plan, n + 1).finished
            || After(turn, plan, n).byId.Keys < After(turn, plan, n + 1).byId.Keys
  {
    hide Triaged, Wave, TriageFirst, RecordAll, Leader, Signature, Resolvable;
    var st := After(turn, plan, n);
    if Deciding(turn, plan, st, n) {
      if a :| a in Ready(plan, st.byId) && !Waiting(turn, plan, st.byId, a) {
        DecidingPassProgresses(turn, plan, st, n, a);
      } else {
        OnlyResolvableSettled(turn, plan, n);
        StuckMeansStallable(turn, plan, st.byId);
      }
    }
  }

  /** If every ready action waits for its leader, the settled ids are exactly the resolvable ones. */
  lemma StuckMeansStallable(turn: Turn, plan: seq<Action>, book: Book)
    requires UniqueIds(plan) && Ready(plan, book) != []
    requires book.Keys <= Resolvable(turn, plan)
    requires forall a :: a in Ready(plan, book) ==> Waiting(turn, plan, book, a)
    ensures Stallable(turn, plan)
  {
    ReadyFacts(plan, book);
    WaitingSettlesTheResolvable(turn, plan, book);
    var a := Ready(plan, book)[0];
    assert a in Ready(plan, book) && a.id !in Resolvable(turn, plan);
  }

  /** Under any cancellation schedule, a plan that cannot stall is done one pass after as many as it has actions. */
  lemma {:induction false} ExecutorTerminates(turn: Turn, plan: seq<Action>, n: nat)
    requires UniqueIds(plan) && !Stallable(turn, plan)
    ensures After(turn, plan, n).finished || |After(turn, plan, n).byId| >= n
    ensures n > |plan| ==> After(turn, plan, n).finished
  {
    hide Pass, Stallable;
    AfterConsistent(turn, plan, n);
    AtMostOneIdEach(plan);
    CardinalityGrows(After(turn, plan, n).byId.Keys, Ids(plan));
    if n > 0 {
      ExecutorTerminates(turn, plan, n - 1);
      if After(turn, plan, n - 1).finished {
        assert After(turn, plan, n) == Pass(turn, plan, After(turn, plan, n - 1), n - 1);
        FinishedStays(turn, plan, n - 1);
      } else {
        PassMakesProgress(turn, plan, n - 1);
        if After(turn, plan, n).finished { return; }
        CardinalityGrows(After(turn, plan, n - 1).byId.Keys, After(turn, plan, n).byId.Keys);
      }
    }
  }

  lemma FinishedStays(turn: Turn, plan: seq<Action>, n: nat)
    requires After(turn, plan, n).finished
    ensures After(turn, plan, n + 1) == After(turn, plan, n)
  {
  }

  lemma ResolvedFacts(turn: Turn, plan: seq<Action>, n: nat, a: Action)
    requires UniqueIds(plan) && a in plan && a.id in Resolved(turn, plan, n)
    ensures n > 0 && forall d :: d in a.dependsOn ==> d in Resolved(turn, plan, n - 1) && d in Ids(plan)
    ensures Duplicate(turn, plan, a) ==> Leader(turn, plan, a) in Resolved(turn, plan, n - 1)
  {
    hide Leader, Duplicate;
    var b :| b in plan && b.id == a.id && Resolves(turn, plan, Resolved(turn, plan, n - 1), b);
    assert a == b;
    ResolvedGrows(turn, plan, n - 1);
  }

  /** While something resolvable is unsettled, something is ready. */
  lemma {:induction false} ResolvableMeansReady(turn: Turn, plan: seq<Action>, book: Book, n: nat, a: Action)
    requires a in plan && a.id in Resolved(turn, plan, n) && a.id !in book && UniqueIds(plan)
    ensures Ready(plan, book) != []
  {
    hide Resolved;
    ReadyFacts(plan, book);
    ResolvedFacts(turn, plan, n, a);
    if Known(a, book) {
      assert a in Ready(plan, book);
    } else {
      var d :| d in a.dependsOn && d !in book;
      var c :| c in plan && c.id == d;
      ResolvableMeansReady(turn, plan, book, n - 1, c);
    }
  }

  /** In a stallable plan, an uncancelled run never finishes. */
  lemma {:induction false} StallableNeverFinishes(turn: Turn, plan: seq<Action>, n: nat)
    requires UniqueIds(plan) && Stallable(turn, plan)
    requires forall k :: !turn.cancelRequested(k)
    ensures !After(turn, plan, n).finished
  {
    hide Pass, Stallable, Resolvable;
    if n > 0 {
      StallableNeverFinishes(turn, plan, n - 1);
      OnlyResolvableSettled(turn, plan, n - 1);
      UnsettledForever(turn, plan, After(turn, plan, n - 1), n - 1);
    }
  }

  lemma UnsettledForever(turn: Turn, plan: seq<Action>, st: State, k: nat)
    requires UniqueIds(plan) && Stallable(turn, plan) && !st.finished && !turn.cancelRequested(k)
    requires st.byId.Keys <= Resolvable(turn, plan)
    ensures !Pass(turn, plan, st, k).finished
  {
    hide Leader, Triaged, TriageFirst, Wave, Resolved;
    var a :| a in plan && a.id !in Resolvable(turn, plan) && forall d | d in a.dependsOn :: d in Resolvable(turn, plan);
    PendingFacts(plan, st.byId);
    ReadyFacts(plan, st.byId);
    assert a in Pending(plan, st.byId);
    if !Known(a, st.byId) {
      var d :| d in a.dependsOn && d !in st.byId;
      ResolvableIdsAreActions(turn, plan);
      var c :| c in plan && c.id == d;
      ResolvableMeansReady(turn, plan, st.byId, |plan|, c);
    } else {
      assert a in Ready(plan, st.byId);
    }
    DecidingShape(turn, plan, st, k);
  }

  lemma ResolvableIdsAreActions(turn: Turn, plan: seq<Action>)
    ensures Resolvable(turn, plan) <= Ids(plan)
  {
    ResolvedGrows(turn, plan, |plan|);
  }

  // ----- where a stalled run comes to rest -----

  /** Something is ready, and all that is ready waits for its leader. */
  ghost predicate OnlyWaits(turn: Turn, plan: seq<Action>, st: State) {
    !st.finished && Ready(plan, st.byId) != []
    && forall a :: a in Ready(plan, st.byId) ==> Waiting(turn, plan, st.byId, a)
  }

  lemma UnfinishedPassDecides(turn: Turn, plan: seq<Action>, st: State, k: nat)
    requires !Pass(turn, plan, st, k).finished
    ensures !st.finished && Deciding(turn, plan, st, k)
  {
    hide Triaged, Wave, RecordAll;
  }

  lemma ReadyMeansDeciding(turn: Turn, plan: seq<Action>, st: State, k: nat)
    requires UniqueIds(plan) && !st.finished && Ready(plan, st.byId) != [] && !turn.cancelRequested(k)
    ensures Deciding(turn, plan, st, k)
  {
    ReadyFacts(plan, st.byId);
    PendingFacts(plan, st.byId);
    assert Ready(plan, st.byId)[0] in Pending(plan, st.byId);
  }

  /** Until it only waits, a stalled run settles an action in every pass. */
  lemma {:induction false} GrowsUntilItWaits(turn: Turn, plan: seq<Action>, n: nat)
    requires UniqueIds(plan) && Stallable(turn, plan) && forall k :: !turn.cancelRequested(k)
    ensures |After(turn, plan, n).byId| >= n || OnlyWaits(turn, plan, After(turn, plan, n))
  {
    hide Pass, Stallable, Ready, Waiting, Deciding;
    if n > 0 {
      var st := After(turn, plan, n - 1);
      GrowsUntilItWaits(turn, plan, n - 1);
      StallableNeverFinishes(turn, plan, n);
      UnfinishedPassDecides(turn, plan, st, n - 1);
      if OnlyWaits(turn, plan, st) {
        WaitingPassChangesNothing(turn, plan, st, n - 1);
      } else if Ready(plan, st.byId) == [] {
        DecidingMeansReady(turn, plan, st, n - 1);
      } else {
        var a :| a in Ready(plan, st.byId) && !Waiting(turn, plan, st.byId, a);
        DecidingPassProgresses(turn, plan, st, n - 1, a);
        CardinalityGrows(st.byId.Keys, After(turn, plan, n).byId.Keys);
      }
    }
  }

  lemma DecidingMeansReady(turn: Turn, plan: seq<Action>, st: State, k: nat)
    requires Deciding(turn, plan, st, k)
    ensures Ready(plan, st.byId) != []
  {
  }

  lemma DecidingLeavesWork(turn: Turn, plan: seq<Action>, st: State, k: nat)
    requires Deciding(turn, plan, st, k)
    ensures st.byId.Keys != Ids(plan)
  {
    PendingFacts(plan, st.byId);
    var a := Pending(plan, st.byId)[0];
    assert a in Pending(plan, st.byId) && a.id in Ids(plan);
  }

  lemma StalledRunWaits(turn: Turn, plan: seq<Action>)
    requires UniqueIds(plan) && Stallable(turn, plan) && forall k :: !turn.cancelRequested(k)
    ensures OnlyWaits(turn, plan, After(turn, plan, |plan|))
  {
    hide Pass, Stallable, Ready, Waiting;
    var st := After(turn, plan, |plan|);
    GrowsUntilItWaits(turn, plan, |plan|);
    AfterConsistent(turn, plan, |plan|);
    AtMostOneIdEach(plan);
    StallableNeverFinishes(turn, plan, |plan| + 1);
    UnfinishedPassDecides(turn, plan, st, |plan|);
    DecidingLeavesWork(turn, plan, st, |plan|);
    CardinalityGrows(st.byId.Keys, Ids(plan));
  }

  lemma WaitingSettlesTheResolvable(turn: Turn, plan: seq<Action>, book: Book)
    requires UniqueIds(plan) && book.Keys <= Resolvable(turn, plan)
    requires forall a :: a in Ready(plan, book) ==> Waiting(turn, plan, book, a)
    ensures book.Keys == Resolvable(turn, plan)
  {
    ReadyFacts(plan, book);
    ResolvedIsLeast(turn, plan, |plan|, book.Keys);
  }

  /**
   * After as many passes as it has actions, a stallable plan has settled exactly its resolvable
   * actions, and every later pass leaves the uncancelled run in that same state.
   */
  lemma {:induction false} StalledRunRepeats(turn: Turn, plan: seq<Action>, n: nat)
    requires UniqueIds(plan) && Stallable(turn, plan) && forall k :: !turn.cancelRequested(k)
    requires n >= |plan|
    ensures After(turn, plan, n) == After(turn, plan, |plan|) && !After(turn, plan, n).finished
    ensures After(turn, plan, n).byId.Keys == Resolvable(turn, plan)
  {
    hide Pass, Stallable, Resolvable, Ready, Waiting, Deciding;
    StalledRunWaits(turn, plan);
    if n == |plan| {
      OnlyResolvableSettled(turn, plan, n);
      WaitingSettlesTheResolvable(turn, plan, After(turn, plan, n).byId);
    } else {
      var st := After(turn, plan, n - 1);
      StalledRunRepeats(turn, plan, n - 1);
      ReadyMeansDeciding(turn, plan, st, n - 1);
      WaitingPassChangesNothing(turn, plan, st, n - 1);
    }
  }

  // ----- which runs finish -----

  ghost predicate Finishes(turn: Turn, plan: seq<Action>) {
    exists n: nat :: After(turn, plan, n).finished
  }

  lemma {:induction false} FinishedForGood(turn: Turn, plan: seq<Action>, m: nat, n: nat)
    requires m <= n && After(turn, plan, m).finished
    ensures After(turn, plan, n).finished
  {
    hide Pass;
    if m < n {
      FinishedForGood(turn, plan, m, n - 1);
      FinishedStays(turn, plan, n - 1);
    }
  }

  /** A cancelled pass is the last one. */
  lemma CancellationFinishes(turn: Turn, plan: seq<Action>, k: nat)
    requires turn.cancelRequested(k)
    ensures After(turn, plan, k + 1).finished
  {
    hide RecordAll, Triaged, Wave;
  }

  /** Without cancellation, exactly the stallable plans keep the executor looping for ever. */
  lemma FinishesUnlessStallable(turn: Turn, plan: seq<Action>)
    requires UniqueIds(plan) && forall k :: !turn.cancelRequested(k)
    ensures Finishes(turn, plan) <==> !Stallable(turn, plan)
  {
    hide After, Stallable;
    if Stallable(turn, plan) {
      forall n: nat ensures !After(turn, plan, n).finished {
        StallableNeverFinishes(turn, plan, n);
      }
    } else {
      ExecutorTerminates(turn, plan, |plan| + 1);
      assert After(turn, plan, |plan| + 1).finished;
    }
  }

  /**
   * Under any cancellation schedule a run finishes exactly when its plan cannot stall or some pass
   * reads the cancellation flag as raised. A stalled pass awaits nothing, so once a run has stalled
   * only a request made before can still be read.
   */
  lemma FinishesExactlyWhen(turn: Turn, plan: seq<Action>)
    requires UniqueIds(plan)
    ensures Finishes(turn, plan) <==> !Stallable(turn, plan) || exists k :: turn.cancelRequested(k)
  {
    hide After, Stallable;
    if k :| turn.cancelRequested(k) {
      CancellationFinishes(turn, plan, k);
    } else {
      FinishesUnlessStallable(turn, plan);
    }
  }
}
