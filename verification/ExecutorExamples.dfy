/** Plans outside the executor's guarantees. */
module ExecutorExamples {
  import opened Options
  import opened PlanDomain
  import opened PlanExecutor
  import opened ExecutorPasses
  import opened ExecutorTheorems
  import opened ExecutorTermination

  const IDEMPOTENT := Call("p", "a", Arguments("", false))
  const PLAIN := Call("p", "b", Arguments("", true))

  /** Two serial tools that every turn offers; the provider always answers ok and is never cancelled. */
  function ExampleTurn(): Turn {
    var accept: Arguments -> bool := _ => true;
    var provider: (Action, nat) -> Outcome := (a, k) => Answered(Answer(true, Done, None, None, None, ""));
    var cancelRequested: nat -> bool := k => false;
    Turn(
      Registry(map[("p", "a") := accept, ("p", "b") := accept],
               map[("p", "a") := Policy(Low, true, false, false), ("p", "b") := Policy(Low, false, false, false)],
               {"p"}),
      None, provider, cancelRequested)
  }

  /** Action 1 depends on an action 9 that was dropped; action 2 repeats action 1's call. */
  const DROPPED: seq<Action> := [Action(1, 0, [9], IDEMPOTENT), Action(2, 1, [], IDEMPOTENT)]

  lemma ExampleSignatures(a: Action)
    ensures a.call == IDEMPOTENT ==> Accepted(ExampleTurn(), a) && Signature(ExampleTurn(), a) == Some(IDEMPOTENT)
    ensures a.call == PLAIN ==> Accepted(ExampleTurn(), a) && Signature(ExampleTurn(), a) == None
    ensures a.call == IDEMPOTENT || a.call == PLAIN ==>
              Refusal(ExampleTurn(), a) == None && !ParallelSafe(ExampleTurn(), a)
              && forall k :: Invoke(ExampleTurn(), a, k).ok
  {
    assert "a" != "b" by { assert "a"[0] != "b"[0]; }
    assert PLAIN.tool != IDEMPOTENT.tool;
  }

  /** An acceptable plan that lost a dependency: the executor loops for ever on it. */
  lemma DroppedDependencyStalls()
    ensures UniqueIds(DROPPED) && AllAccepted(ExampleTurn(), DROPPED) && Stallable(ExampleTurn(), DROPPED)
    ensures forall n: nat :: !After(ExampleTurn(), DROPPED, n).finished
  {
    var turn := ExampleTurn();
    var a, b := DROPPED[0], DROPPED[1];
    ExampleSignatures(a);
    ExampleSignatures(b);
    assert First(turn, DROPPED, 1, IDEMPOTENT) == Some(a);
    assert First(turn, DROPPED, 2, IDEMPOTENT) == Some(a);
    assert Leader(turn, DROPPED, b) == 1;
    assert 9 !in Ids(DROPPED);
    if 2 in Resolved(turn, DROPPED, 2) {
      ResolvedFacts(turn, DROPPED, 2, b);
      ResolvedFacts(turn, DROPPED, 1, a);
    }
    assert b in DROPPED && b.id !in Resolvable(turn, DROPPED);
    forall n: nat ensures !After(turn, DROPPED, n).finished {
      StallableNeverFinishes(turn, DROPPED, n);
    }
  }

  /**
   * Action 2 repeats action 1; action 3 depends on the repetition; action 4 depends on nothing.
   * No tool is parallel safe.
   */
  const COALESCED: seq<Action> := [
    Action(1, 0, [], IDEMPOTENT), Action(2, 1, [], IDEMPOTENT),
    Action(3, 2, [2], PLAIN), Action(4, 3, [], PLAIN)]

  lemma CoalescedLeaders()
    ensures var turn := ExampleTurn();
            Leader(turn, COALESCED, COALESCED[0]) == 1 && Leader(turn, COALESCED, COALESCED[1]) == 1
            && Leader(turn, COALESCED, COALESCED[2]) == 3 && Leader(turn, COALESCED, COALESCED[3]) == 4
  {
    var turn := ExampleTurn();
    ExampleSignatures(COALESCED[0]);
    ExampleSignatures(COALESCED[1]);
    ExampleSignatures(COALESCED[2]);
    ExampleSignatures(COALESCED[3]);
    assert First(turn, COALESCED, 1, IDEMPOTENT) == Some(COALESCED[0]);
    assert First(turn, COALESCED, 2, IDEMPOTENT) == Some(COALESCED[0]);
    assert First(turn, COALESCED, 3, IDEMPOTENT) == Some(COALESCED[0]);
  }

  lemma ReadyOfFour(book: Book)
    ensures var r := Ready(COALESCED, book);
            && (book.Keys == {} ==> r == [COALESCED[0], COALESCED[1], COALESCED[3]])
            && (book.Keys == {1} ==> r == [COALESCED[1], COALESCED[3]])
            && (book.Keys == {1, 2, 4} ==> r == [COALESCED[2]])
  {
    var p := COALESCED;
    assert p[1..] == [p[1], p[2], p[3]] && p[1..][1..] == [p[2], p[3]] && p[1..][1..][1..] == [p[3]];
    assert p[1..][1..][1..][1..] == [];
    assert Ready(p[1..][1..][1..], book) == if 4 in book then [] else [p[3]];
    assert Ready(p[1..][1..], book) == (if 3 !in book && 2 in book then [p[2]] else []) + Ready(p[1..][1..][1..], book);
    assert Ready(p[1..], book) == (if 2 in book then [] else [p[1]]) + Ready(p[1..][1..], book);
  }

  predicate AllOk(book: Book) {
    forall id | id in book :: book[id].answer.ok
  }

  /** A pass whose triage queues `queued` and whose book grows by `copied` launches the first queued action. */
  lemma CoalescedPass(st: State, k: nat, t: Triage)
    requires !st.finished && Ready(COALESCED, st.byId) != [] && t == Triaged(ExampleTurn(), COALESCED, st)
    requires t.runnable != [] && t.runnable[0] in COALESCED && AllOk(t.st.byId) && !t.st.finished
    ensures WaveOf(ExampleTurn(), COALESCED, st, k) == [t.runnable[0]]
    ensures var st' := Pass(ExampleTurn(), COALESCED, st, k);
            st'.byId.Keys == t.st.byId.Keys + {t.runnable[0].id} && AllOk(st'.byId) && !st'.finished
  {
    hide Leader, Refusal, Triaged, Signature;
    var turn := ExampleTurn();
    assert Pending(COALESCED, st.byId) != [] by {
      ReadyFacts(COALESCED, st.byId);
      PendingFacts(COALESCED, st.byId);
      assert Ready(COALESCED, st.byId)[0] in Pending(COALESCED, st.byId);
    }
    hide Pending, Ready;
    ExampleSignatures(t.runnable[0]);
    assert Wave(turn, t.runnable) == [t.runnable[0]];
    assert RecordAll([t.runnable[0]], 1, InvokeIn(turn, k), t.st)
        == Record(t.st, t.runnable[0], Invoke(turn, t.runnable[0], k));
    hide Wave, RecordAll;
  }

  /** What triage queues for the three states the run goes through, and what it copies. */
  lemma CoalescedTriage(st: State)
    requires !st.finished && AllOk(st.byId)
    requires st.byId.Keys == {} || st.byId.Keys == {1} || st.byId.Keys == {1, 2, 4}
    ensures Ready(COALESCED, st.byId) != []
    ensures var t := Triaged(ExampleTurn(), COALESCED, st);
            && t.runnable != [] && AllOk(t.st.byId) && !t.st.finished
            && (st.byId.Keys == {} ==> t.runnable[0] == COALESCED[0] && t.st.byId.Keys == {})
            && (st.byId.Keys == {1} ==> t.runnable[0] == COALESCED[3] && t.st.byId.Keys == {1, 2})
            && (st.byId.Keys == {1, 2, 4} ==> t.runnable[0] == COALESCED[2] && t.st.byId.Keys == {1, 2, 4})
  {
    hide Leader, Refusal, Ready;
    var turn, ready := ExampleTurn(), Ready(COALESCED, st.byId);
    ReadyOfFour(st.byId);
    CoalescedLeaders();
    forall a | a in COALESCED ensures Refusal(turn, a) == None { ExampleSignatures(a); }
    assert COALESCED[0] in COALESCED && COALESCED[2] in COALESCED && COALESCED[3] in COALESCED;
    var t1 := TriageOne(turn, COALESCED, ready[0], Triage(st, []));
    assert TriageFirst(turn, COALESCED, ready, 1, st) == t1;
    if |ready| > 1 {
      var t2 := TriageOne(turn, COALESCED, ready[1], t1);
      assert TriageFirst(turn, COALESCED, ready, 2, st) == t2;
      if |ready| > 2 {
        assert TriageFirst(turn, COALESCED, ready, 3, st) == TriageOne(turn, COALESCED, ready[2], t2);
      }
    }
  }

  lemma CoalescedRun(n: nat)
    requires n <= 2
    ensures var st := After(ExampleTurn(), COALESCED, n);
            !st.finished && AllOk(st.byId) && st.byId.Keys == [{}, {1}, {1, 2, 4}][n]
    ensures LaunchedAt(ExampleTurn(), COALESCED, n) == [COALESCED[[0, 3, 2][n]]]
  {
    hide Pass, Triaged, WaveOf;
    var turn := ExampleTurn();
    if n > 0 {
      CoalescedRun(n - 1);
      var st0 := After(turn, COALESCED, n - 1);
      CoalescedTriage(st0);
      CoalescedPass(st0, n - 1, Triaged(turn, COALESCED, st0));
    }
    var st := After(turn, COALESCED, n);
    assert n == 0 ==> st.byId.Keys == {};
    assert n == 1 ==> st.byId.Keys == {1};
    assert n == 2 ==> st.byId.Keys == {1, 2, 4};
    CoalescedTriage(st);
    CoalescedPass(st, n, Triaged(turn, COALESCED, st));
  }

  /** With a coalesced dependency the declared order is lost: action 4 is invoked before action 3. */
  lemma CoalescedDependencyBreaksOrder()
    ensures WellFormed(COALESCED) && AllAccepted(ExampleTurn(), COALESCED)
    ensures COALESCED[3] in LaunchedAt(ExampleTurn(), COALESCED, 1)
    ensures COALESCED[2] in LaunchedAt(ExampleTurn(), COALESCED, 2)
  {
    CoalescedIsAccepted();
    CoalescedRun(1);
    CoalescedRun(2);
    hide *;
    assert [COALESCED[3]] == [COALESCED[[0, 3, 2][1]]];
    assert [COALESCED[2]] == [COALESCED[[0, 3, 2][2]]];
  }

  /** The plan meets the conditions of the ordering theorem, which names the reason: action 3 waits for a duplicate. */
  lemma CoalescedOrderIsExplained()
    ensures WaitsForDuplicate(ExampleTurn(), COALESCED, After(ExampleTurn(), COALESCED, 1).byId, COALESCED[2])
  {
    hide After, LaunchedAt, WellFormed, WaitsForDuplicate;
    CoalescedDependencyBreaksOrder();
    ExampleSignatures(COALESCED[3]);
    SerialOrderBreaksExactlyWhen(ExampleTurn(), COALESCED, 3, 2, 1, 2);
  }

  lemma CoalescedIsAccepted()
    ensures WellFormed(COALESCED) && AllAccepted(ExampleTurn(), COALESCED)
  {
    forall a | a in COALESCED ensures Accepted(ExampleTurn(), a) { ExampleSignatures(a); }
    assert NamedBefore(COALESCED, 2, 2) by { assert COALESCED[1].id == 2; }
  }
}
