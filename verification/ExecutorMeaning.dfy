/** What an executed plan means, and what it reports. */
module ExecutorMeaning {
  import opened StableSort
  import opened PlanDomain
  import opened PlanExecutor
  import opened ExecutorPasses
  import opened ExecutorTheorems

  // ----- the recursive meaning of a plan -----

  function Position(plan: seq<Action>, id: Id): (i: nat)
    ensures i < |plan| ==> plan[i].id == id
    ensures forall j :: 0 <= j < i && j < |plan| ==> plan[j].id != id
  {
    if plan == [] || plan[0].id == id then 0 else 1 + Position(plan[1..], id)
  }

  lemma PositionOf(plan: seq<Action>, i: nat)
    requires UniqueIds(plan) && i < |plan|
    ensures Position(plan, plan[i].id) == i
  {
  }

  /**
   * The answer of action i by recursion over the dependency graph, with no waves, barriers or
   * passes: blocked if a dependency is not ok, else a copy of its leader's answer, else the
   * policy's refusal, else the provider's answer.
   */
  ghost function Meaning(turn: Turn, plan: seq<Action>, i: nat): Answer
    requires WellFormed(plan) && i < |plan|
  {
    var a := plan[i];
    if exists j :: 0 <= j < i && plan[j].id in a.dependsOn && !Meaning(turn, plan, j).ok then BlockedAnswer(a)
    else if Duplicate(turn, plan, a) then
      LeaderIsEarlier(turn, plan, i);
      CopyOf(Meaning(turn, plan, Position(plan, Leader(turn, plan, a))))
    else
      var refusal := Refusal(turn, a);
      if refusal.Some? then refusal.value else Invoke(turn, a, 0)
  }

  lemma LeaderIsEarlier(turn: Turn, plan: seq<Action>, i: nat)
    requires UniqueIds(plan) && i < |plan| && Duplicate(turn, plan, plan[i])
    ensures Position(plan, Leader(turn, plan, plan[i])) < i
  {
    var j := LeaderFacts(turn, plan, i);
    PositionOf(plan, j);
  }

  /** A provider whose answers do not depend on when they are asked for. */
  ghost predicate Steady(turn: Turn) {
    forall a, k :: turn.provider(a, k) == turn.provider(a, 0)
  }

  lemma WellFormedAlwaysReady(plan: seq<Action>, book: Book, i: nat)
    requires WellFormed(plan) && i < |plan| && plan[i].id !in book
    ensures Ready(plan, book) != []
  {
    ReadyFacts(plan, book);
    if Known(plan[i], book) {
      assert plan[i] in Ready(plan, book);
    } else {
      var d :| d in plan[i].dependsOn && d !in book;
      assert NamedBefore(plan, i, d);
      var j :| 0 <= j < i && plan[j].id == d;
      WellFormedAlwaysReady(plan, book, j);
    }
  }

  /** What is recorded follows its dependencies, and is either settled from the book or invoked. */
  lemma RecordedAnswer(turn: Turn, plan: seq<Action>, m: nat, i: nat)
    requires WellFormed(plan) && !turn.cancelRequested(m) && i < |plan| && RecordedIn(turn, plan, m, plan[i])
    ensures var a, book := plan[i], After(turn, plan, m + 1).byId;
            && Known(a, book)
            && (SettledBy(turn, plan, book, a, book[a.id].answer)
                || (Launchable(turn, plan, book, a) && book[a.id].answer == Invoke(turn, a, m)))
  {
    hide Pass, WaveOf, Triaged, Leader, Refusal, Signature, Ready;
    var a := plan[i];
    var before := After(turn, plan, m).byId;
    AfterExtends(turn, plan, m, m + 1);
    WellFormedAlwaysReady(plan, before, i);
    if a in LaunchedAt(turn, plan, m) { LaunchedFacts(turn, plan, m, a); }
  }

  /** If dependencies and leader are answered as they mean, so is the action. */
  lemma MeaningFromBook(turn: Turn, plan: seq<Action>, book: Book, i: nat, m: nat)
    requires WellFormed(plan) && Steady(turn) && i < |plan| && plan[i].id in book && Known(plan[i], book)
    requires SettledBy(turn, plan, book, plan[i], book[plan[i].id].answer)
             || (Launchable(turn, plan, book, plan[i]) && book[plan[i].id].answer == Invoke(turn, plan[i], m))
    requires forall j :: 0 <= j < i && plan[j].id in book
               && (plan[j].id in plan[i].dependsOn || plan[j].id == Leader(turn, plan, plan[i]))
               ==> book[plan[j].id].answer == Meaning(turn, plan, j)
    ensures book[plan[i].id].answer == Meaning(turn, plan, i)
  {
    hide Leader, Refusal, Signature;
    var a := plan[i];
    DependenciesComeFirst(plan, i, book);
    assert Invoke(turn, a, m) == Invoke(turn, a, 0);
    hide Invoke, Steady;
    if Duplicate(turn, plan, a) {
      LeaderIsEarlier(turn, plan, i);
      var j := LeaderFacts(turn, plan, i);
      PositionOf(plan, j);
    }
  }

  /** Whatever waves are formed, an uncancelled run records the recursive meaning of every action. */
  lemma {:induction false} ExecutionIsMeaning(turn: Turn, plan: seq<Action>, n: nat, i: nat)
    requires WellFormed(plan) && Steady(turn) && forall k :: !turn.cancelRequested(k)
    requires i < |plan| && plan[i].id in After(turn, plan, n).byId
    ensures After(turn, plan, n).byId[plan[i].id].answer == Meaning(turn, plan, i)
    decreases i
  {
    hide After, RecordedIn, Meaning, Leader, Known;
    var m := Origin(turn, plan, n, plan[i]);
    var book := After(turn, plan, m + 1).byId;
    AfterExtends(turn, plan, m + 1, n);
    RecordedAnswer(turn, plan, m, i);
    assert plan[i].id in book by { RecordedIsKnown(turn, plan, m, plan[i]); }
    forall j | 0 <= j < i && plan[j].id in book ensures book[plan[j].id].answer == Meaning(turn, plan, j) {
      ExecutionIsMeaning(turn, plan, m + 1, j);
    }
    MeaningFromBook(turn, plan, book, i, m);
  }

  lemma RecordedIsKnown(turn: Turn, plan: seq<Action>, m: nat, a: Action)
    requires RecordedIn(turn, plan, m, a)
    ensures a.id in After(turn, plan, m + 1).byId
  {
    hide After, Explained;
  }

  lemma DependenciesComeFirst(plan: seq<Action>, i: nat, book: Book)
    requires WellFormed(plan) && i < |plan| && Known(plan[i], book)
    ensures Satisfied(plan[i], book) <==>
              forall j :: 0 <= j < i && plan[j].id in plan[i].dependsOn ==> book[plan[j].id].answer.ok
  {
    if !Satisfied(plan[i], book) {
      var d :| d in plan[i].dependsOn && !book[d].answer.ok;
      assert NamedBefore(plan, i, d);
    }
  }

  // ----- the report -----

  function OrderOf(plan: seq<Action>, id: Id): nat {
    var i := Position(plan, id);
    if i < |plan| then plan[i].order else 0
  }

  function InDeclaredOrder(plan: seq<Action>): ToolResult -> Key {
    (r: ToolResult) => Key(OrderOf(plan, r.actionId), 0)
  }

  /** The recorded results, arranged by the order of the actions they answer. */
  function Report(plan: seq<Action>, st: State): seq<ToolResult> {
    Sort(st.results, InDeclaredOrder(plan))
  }

  ghost function Declarations(plan: seq<Action>, book: Book): seq<ToolResult>
    requires Ids(plan) <= book.Keys
  {
    seq(|plan|, i requires 0 <= i < |plan| => (assert plan[i] in plan; book[plan[i].id]))
  }

  lemma {:induction false} CountsOfDistinct<T>(xs: seq<T>, x: T)
    requires forall i, j :: 0 <= i < j < |xs| ==> xs[i] != xs[j]
    ensures multiset(xs)[x] == if x in xs then 1 else 0
  {
    if xs != [] {
      CountsOfDistinct(xs[1..], x);
      assert xs == [xs[0]] + xs[1..];
    }
  }

  lemma SameMultiset<T(!new)>(xs: seq<T>, ys: seq<T>)
    requires forall i, j :: 0 <= i < j < |xs| ==> xs[i] != xs[j]
    requires forall i, j :: 0 <= i < j < |ys| ==> ys[i] != ys[j]
    requires forall x :: x in xs <==> x in ys
    ensures multiset(xs) == multiset(ys)
  {
    forall x ensures multiset(xs)[x] == multiset(ys)[x] {
      CountsOfDistinct(xs, x);
      CountsOfDistinct(ys, x);
    }
  }

  lemma {:induction false} FinishedIsComplete(turn: Turn, plan: seq<Action>, n: nat)
    requires UniqueIds(plan) && After(turn, plan, n).finished
    ensures After(turn, plan, n).byId.Keys == Ids(plan)
  {
    var k := n - 1;
    var st := After(turn, plan, k);
    AfterConsistent(turn, plan, k);
    if st.finished {
      FinishedIsComplete(turn, plan, k);
    } else if Deciding(turn, plan, st, k) {
      DecidingShape(turn, plan, st, k);
    } else if Pending(plan, st.byId) == [] {
      PendingFacts(plan, st.byId);
      forall id | id in Ids(plan) ensures id in st.byId {
        var a :| a in plan && a.id == id;
        assert a !in Pending(plan, st.byId);
      }
    } else {
      AbandonFacts(plan, if turn.cancelRequested(k) then CancelledAnswer else UnresolvedAnswer, st);
    }
  }

  lemma ResultsAreDeclarations(plan: seq<Action>, st: State)
    requires UniqueIds(plan) && Consistent(plan, st) && st.byId.Keys == Ids(plan)
    ensures multiset(st.results) == multiset(Declarations(plan, st.byId))
  {
    var declared := Declarations(plan, st.byId);
    assert forall i :: 0 <= i < |plan| ==> plan[i].id in Ids(plan) && declared[i] == st.byId[plan[i].id];
    forall x | x in st.results ensures x in declared {
      var a :| a in plan && a.id == x.actionId;
      var i :| 0 <= i < |plan| && plan[i] == a;
      assert declared[i] == x;
    }
    SameMultiset(st.results, declared);
  }

  /** A finished run reports every action exactly once, by `order`; with distinct orders, in the declared order. */
  lemma ReportIsComplete(turn: Turn, plan: seq<Action>, n: nat)
    requires UniqueIds(plan) && Ordered(plan, ByOrder) && After(turn, plan, n).finished
    ensures var st := After(turn, plan, n);
            && Ids(plan) == st.byId.Keys
            && multiset(Report(plan, st)) == multiset(Declarations(plan, st.byId))
            && Ordered(Report(plan, st), InDeclaredOrder(plan))
            && forall i :: 0 <= i < |plan| ==> st.byId[plan[i].id].actionId == plan[i].id
    ensures (forall i, j :: 0 <= i < j < |plan| ==> plan[i].order != plan[j].order) ==>
              Report(plan, After(turn, plan, n)) == Declarations(plan, After(turn, plan, n).byId)
  {
    hide After;
    var st := After(turn, plan, n);
    AfterConsistent(turn, plan, n);
    FinishedIsComplete(turn, plan, n);
    assert forall i :: 0 <= i < |plan| ==> plan[i].id in Ids(plan);
    var declared := Declarations(plan, st.byId);
    ResultsAreDeclarations(plan, st);
    SortIsOrderedPermutation(st.results, InDeclaredOrder(plan));
    if forall i, j :: 0 <= i < j < |plan| ==> plan[i].order != plan[j].order {
      DeclarationsAreOrdered(plan, st.byId);
      OrderedPermutationIsUnique(declared, Report(plan, st), InDeclaredOrder(plan));
    }
  }

  /** The results of a plan as its recursive meaning gives them, in declared order. */
  ghost function Meanings(turn: Turn, plan: seq<Action>): seq<ToolResult>
    requires WellFormed(plan)
  {
    seq(|plan|, i requires 0 <= i < |plan| => ToolResult(plan[i].id, Meaning(turn, plan, i)))
  }

  /** An uncancelled run that finishes reports the recursive meaning of its plan, action by action. */
  lemma ExecutionReportsMeaning(turn: Turn, plan: seq<Action>, n: nat)
    requires WellFormed(plan) && Ordered(plan, ByOrder) && Steady(turn) && forall k :: !turn.cancelRequested(k)
    requires forall i, j :: 0 <= i < j < |plan| ==> plan[i].order != plan[j].order
    requires After(turn, plan, n).finished
    ensures Report(plan, After(turn, plan, n)) == Meanings(turn, plan)
  {
    hide After, Meaning, Report, Steady;
    ReportIsComplete(turn, plan, n);
    var book := After(turn, plan, n).byId;
    forall i | 0 <= i < |plan| ensures Declarations(plan, book)[i] == Meanings(turn, plan)[i] {
      assert plan[i] in plan;
      ExecutionIsMeaning(turn, plan, n, i);
    }
  }

  lemma DeclarationsAreOrdered(plan: seq<Action>, book: Book)
    requires UniqueIds(plan) && Ordered(plan, ByOrder) && Ids(plan) <= book.Keys
    requires forall i :: 0 <= i < |plan| ==> plan[i].id in book && book[plan[i].id].actionId == plan[i].id
    requires forall i, j :: 0 <= i < j < |plan| ==> plan[i].order != plan[j].order
    ensures Ordered(Declarations(plan, book), InDeclaredOrder(plan))
    ensures forall x, y | x in Declarations(plan, book) && y in Declarations(plan, book) ::
              InDeclaredOrder(plan)(x) == InDeclaredOrder(plan)(y) ==> x == y
  {
    var declared, key := Declarations(plan, book), InDeclaredOrder(plan);
    forall i | 0 <= i < |plan| ensures key(declared[i]) == ByOrder(plan[i]) {
      PositionOf(plan, i);
    }
  }
}
