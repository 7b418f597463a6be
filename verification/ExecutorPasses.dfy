/** What one pass of the plan executor does, and why each new answer was recorded. */
module ExecutorPasses {
  import opened Options
  import opened PlanDomain
  import opened PlanExecutor

  // ----- bookkeeping -----

  ghost predicate Extends(book: Book, later: Book) {
    forall id :: id in book ==> id in later && later[id] == book[id]
  }

  /** `results` holds every entry of `byId` exactly once, all for actions of the plan. */
  ghost predicate Consistent(plan: seq<Action>, st: State) {
    && st.byId.Keys <= Ids(plan)
    && (forall r :: r in st.results ==> r.actionId in st.byId && st.byId[r.actionId] == r)
    && (forall id :: id in st.byId ==> st.byId[id] in st.results && st.byId[id].actionId == id)
    && (forall i, j :: 0 <= i < j < |st.results| ==> st.results[i].actionId != st.results[j].actionId)
  }

  lemma RecordFacts(plan: seq<Action>, st: State, a: Action, answer: Answer)
    requires Consistent(plan, st) && a in plan && a.id !in st.byId
    ensures Consistent(plan, Record(st, a, answer))
    ensures Extends(st.byId, Record(st, a, answer).byId)
  {
  }

  lemma NotYetNamed(actions: seq<Action>, n: nat)
    requires n < |actions| && UniqueIds(actions)
    ensures actions[n].id !in Ids(actions[..n])
  {
  }

  lemma {:induction false} RecordAllFacts(actions: seq<Action>, n: nat, answer: Action -> Answer, st: State)
    requires n <= |actions| && UniqueIds(actions)
    requires forall a :: a in actions ==> a.id !in st.byId
    ensures var later := RecordAll(actions, n, answer, st);
            && Extends(st.byId, later.byId) && later.finished == st.finished
            && later.byId.Keys == st.byId.Keys + Ids(actions[..n])
            && forall i :: 0 <= i < n ==> later.byId[actions[i].id].answer == answer(actions[i])
  {
    hide Ids;
    if n > 0 {
      RecordAllFacts(actions, n - 1, answer, st);
      IdsOfPrefix(actions, n - 1);
      NotYetNamed(actions, n - 1);
    } else {
      IdsOfNothing();
      assert actions[..0] == [];
    }
  }

  lemma {:induction false} RecordAllConsistent(plan: seq<Action>, actions: seq<Action>, n: nat,
                                               answer: Action -> Answer, st: State)
    requires n <= |actions| && UniqueIds(actions) && Consistent(plan, st)
    requires forall a :: a in actions ==> a in plan && a.id !in st.byId
    ensures Consistent(plan, RecordAll(actions, n, answer, st))
  {
    hide Consistent;
    if n > 0 {
      RecordAllConsistent(plan, actions, n - 1, answer, st);
      RecordAllFacts(actions, n - 1, answer, st);
      NotYetNamed(actions, n - 1);
      RecordFacts(plan, RecordAll(actions, n - 1, answer, st), actions[n - 1], answer(actions[n - 1]));
    }
  }

  lemma {:induction false} PendingFacts(plan: seq<Action>, book: Book)
    ensures forall a :: a in Pending(plan, book) <==> a in plan && a.id !in book
    ensures UniqueIds(plan) ==> UniqueIds(Pending(plan, book))
  {
    if plan != [] {
      PendingFacts(plan[1..], book);
      assert plan == [plan[0]] + plan[1..];
    }
  }

  lemma {:induction false} ReadyFacts(plan: seq<Action>, book: Book)
    ensures forall a :: a in Ready(plan, book) <==> a in plan && a.id !in book && Known(a, book)
    ensures UniqueIds(plan) ==> UniqueIds(Ready(plan, book))
  {
    if plan != [] {
      ReadyFacts(plan[1..], book);
      assert plan == [plan[0]] + plan[1..];
    }
  }

  // ----- deciding the ready actions -----

  /** Nothing but a provider call stands between the action and its answer. */
  predicate Launchable(turn: Turn, plan: seq<Action>, book: Book, a: Action) {
    Satisfied(a, book) && !Duplicate(turn, plan, a) && Refusal(turn, a).None?
  }

  /** The answer an action gets without being invoked, read off the given book. */
  ghost predicate SettledBy(turn: Turn, plan: seq<Action>, book: Book, a: Action, answer: Answer) {
    && Known(a, book)
    && (Duplicate(turn, plan, a) ==> Leader(turn, plan, a) in book)
    && if !Satisfied(a, book) then answer == BlockedAnswer(a)
       else if Duplicate(turn, plan, a) then answer == CopyOf(book[Leader(turn, plan, a)].answer)
       else Refusal(turn, a) == Some(answer)
  }

  function Launchables(turn: Turn, plan: seq<Action>, book: Book, xs: seq<Action>): seq<Action> {
    if xs == [] then []
    else Launchables(turn, plan, book, xs[..|xs| - 1])
         + (if Launchable(turn, plan, book, xs[|xs| - 1]) then [xs[|xs| - 1]] else [])
  }

  lemma {:induction false} LaunchablesFacts(turn: Turn, plan: seq<Action>, book: Book, xs: seq<Action>)
    ensures forall a :: a in Launchables(turn, plan, book, xs) <==> a in xs && Launchable(turn, plan, book, a)
    ensures UniqueIds(xs) ==> UniqueIds(Launchables(turn, plan, book, xs))
  {
    if xs != [] {
      var init, last := xs[..|xs| - 1], xs[|xs| - 1];
      assert xs == init + [last];
      assert forall i :: 0 <= i < |init| ==> init[i] == xs[i];
      LaunchablesFacts(turn, plan, book, init);
      var some := Launchables(turn, plan, book, init);
      if UniqueIds(xs) {
        forall i | 0 <= i < |some| ensures some[i].id != last.id {
          assert some[i] in init;
        }
      }
    }
  }

  /** No action of xs in front of the first launchable one is launchable. */
  lemma {:induction false} FirstLaunchable(turn: Turn, plan: seq<Action>, book: Book, xs: seq<Action>, i: nat, j: nat)
    requires j < i < |xs| && Launchable(turn, plan, book, xs[j])
    ensures Launchables(turn, plan, book, xs) != [] && Launchables(turn, plan, book, xs)[0] in xs[..i]
  {
    var init, last := xs[..|xs| - 1], xs[|xs| - 1];
    if i == |xs| - 1 {
      LaunchablesFacts(turn, plan, book, init);
      assert xs[j] in init;
      assert Launchables(turn, plan, book, init)[0] in init;
      assert xs[..i] == init;
    } else {
      FirstLaunchable(turn, plan, book, init, i, j);
      assert xs[..i] == init[..i];
    }
  }

  /** What triage made of one ready action: settled, left launchable, or waiting for its leader. */
  ghost predicate Decided(turn: Turn, plan: seq<Action>, start: Book, book: Book, a: Action) {
    if a.id in book then SettledBy(turn, plan, book, a, book[a.id].answer)
    else Launchable(turn, plan, start, a)
         || (Duplicate(turn, plan, a) && Leader(turn, plan, a) !in start)
  }

  lemma DecidedExtends(turn: Turn, plan: seq<Action>, start: Book, book: Book, later: Book, a: Action)
    requires Decided(turn, plan, start, book, a) && Extends(book, later)
    requires a.id in later ==> a.id in book
    ensures Decided(turn, plan, start, later, a)
  {
    if a.id in book {
      assert Satisfied(a, book) == Satisfied(a, later);
    }
  }

  lemma TriageOneFacts(turn: Turn, plan: seq<Action>, start: Book, a: Action, t: Triage)
    requires Known(a, start) && a.id !in t.st.byId && Extends(start, t.st.byId)
    ensures var t' := TriageOne(turn, plan, a, t);
            && Extends(t.st.byId, t'.st.byId) && t'.st.finished == t.st.finished
            && t'.st.byId.Keys <= t.st.byId.Keys + {a.id}
            && t'.runnable == t.runnable + (if Launchable(turn, plan, start, a) then [a] else [])
            && Decided(turn, plan, start, t'.st.byId, a)
  {
    assert Satisfied(a, start) == Satisfied(a, t.st.byId);
  }

  lemma {:induction false} TriageFacts(turn: Turn, plan: seq<Action>, st: State, ready: seq<Action>, n: nat)
    requires UniqueIds(ready) && n <= |ready|
    requires forall a :: a in ready ==> a.id !in st.byId && Known(a, st.byId)
    ensures var t := TriageFirst(turn, plan, ready, n, st);
            && Extends(st.byId, t.st.byId) && t.st.finished == st.finished
            && t.st.byId.Keys <= st.byId.Keys + Ids(ready[..n])
            && t.runnable == Launchables(turn, plan, st.byId, ready[..n])
  {
    hide TriageOne, SettledBy, Launchable, Leader, Satisfied, Decided;
    if n == 0 {
      assert ready[..0] == [];
    } else {
      TriageFacts(turn, plan, st, ready, n - 1);
      var a := ready[n - 1];
      assert ready[..n] == ready[..n - 1] + [a];
      assert ready[..n][..n - 1] == ready[..n - 1];
      assert a in ready && a.id !in Ids(ready[..n - 1]);
      TriageOneFacts(turn, plan, st.byId, a, TriageFirst(turn, plan, ready, n - 1, st));
    }
  }

  lemma {:induction false} TriageDecides(turn: Turn, plan: seq<Action>, st: State, ready: seq<Action>, n: nat, i: nat)
    requires UniqueIds(ready) && i < n <= |ready|
    requires forall a :: a in ready ==> a.id !in st.byId && Known(a, st.byId)
    ensures Decided(turn, plan, st.byId, TriageFirst(turn, plan, ready, n, st).st.byId, ready[i])
  {
    hide TriageOne, SettledBy, Launchable, Leader, Satisfied, Decided;
    var a := ready[n - 1];
    TriageFacts(turn, plan, st, ready, n - 1);
    assert a in ready && a.id !in Ids(ready[..n - 1]);
    var t, t' := TriageFirst(turn, plan, ready, n - 1, st), TriageFirst(turn, plan, ready, n, st);
    hide Ids, UniqueIds, Launchables;
    TriageOneFacts(turn, plan, st.byId, a, t);
    if i < n - 1 {
      TriageDecides(turn, plan, st, ready, n - 1, i);
      DecidedExtends(turn, plan, st.byId, t.st.byId, t'.st.byId, ready[i]);
    }
  }

  lemma {:induction false} TriageConsistent(turn: Turn, plan: seq<Action>, st: State, ready: seq<Action>, n: nat)
    requires UniqueIds(ready) && n <= |ready| && Consistent(plan, st)
    requires forall a :: a in ready ==> a in plan && a.id !in st.byId && Known(a, st.byId)
    ensures Consistent(plan, TriageFirst(turn, plan, ready, n, st).st)
  {
    if n > 0 {
      TriageConsistent(turn, plan, st, ready, n - 1);
      TriageFacts(turn, plan, st, ready, n - 1);
      var a := ready[n - 1];
      var t, t' := TriageFirst(turn, plan, ready, n - 1, st), TriageFirst(turn, plan, ready, n, st);
      assert a in ready && a.id !in Ids(ready[..n - 1]);
      if t'.st != t.st {
        var answer :| t'.st == Record(t.st, a, answer);
        RecordFacts(plan, t.st, a, answer);
      }
    }
  }

  // ----- one pass -----

  lemma WaveFacts(turn: Turn, runnable: seq<Action>)
    ensures |Wave(turn, runnable)| <= |runnable|
    ensures Wave(turn, runnable) == runnable[..|Wave(turn, runnable)|]
    ensures runnable != [] ==> Wave(turn, runnable) != []
    ensures forall a :: a in Wave(turn, runnable) && !ParallelSafe(turn, a) ==> Wave(turn, runnable) == [a]
  {
  }

  /** The runnable actions of a deciding pass, and the wave taken from them. */
  lemma WaveOfFacts(turn: Turn, plan: seq<Action>, st: State, k: nat)
    requires UniqueIds(plan) && Deciding(turn, plan, st, k)
    ensures var ready, wave := Ready(plan, st.byId), WaveOf(turn, plan, st, k);
            var runnable := Launchables(turn, plan, st.byId, ready);
            && Triaged(turn, plan, st).runnable == runnable
            && UniqueIds(wave)
            && (forall a :: a in wave ==>
                  a in ready && Launchable(turn, plan, st.byId, a) && a.id !in Triaged(turn, plan, st).st.byId)
            && (runnable != [] ==> wave != [] && wave[0] == runnable[0])
  {
    var ready := Ready(plan, st.byId);
    ReadyFacts(plan, st.byId);
    TriageFacts(turn, plan, st, ready, |ready|);
    assert ready[..|ready|] == ready;
    LaunchablesFacts(turn, plan, st.byId, ready);
    WaveFacts(turn, Launchables(turn, plan, st.byId, ready));
    forall a | a in WaveOf(turn, plan, st, k)
      ensures a in ready && Launchable(turn, plan, st.byId, a) && a.id !in Triaged(turn, plan, st).st.byId
    {
      LaunchableIsUnsettled(turn, plan, st, ready, a);
    }
  }

  lemma LaunchableIsUnsettled(turn: Turn, plan: seq<Action>, st: State, ready: seq<Action>, a: Action)
    requires UniqueIds(ready) && a in ready && Launchable(turn, plan, st.byId, a)
    requires forall b :: b in ready ==> b.id !in st.byId && Known(b, st.byId)
    ensures a.id !in TriageFirst(turn, plan, ready, |ready|, st).st.byId
  {
    var i :| 0 <= i < |ready| && ready[i] == a;
    TriageDecides(turn, plan, st, ready, |ready|, i);
    TriageFacts(turn, plan, st, ready, |ready|);
    var later := TriageFirst(turn, plan, ready, |ready|, st).st.byId;
    assert Satisfied(a, later) == Satisfied(a, st.byId);
  }

  /** Why an action that had no answer before pass k has one after it. */
  ghost predicate Explained(turn: Turn, plan: seq<Action>, st: State, st': State, k: nat, a: Action)
    requires a.id in st'.byId
  {
    var answer := st'.byId[a.id].answer;
    || (turn.cancelRequested(k) && answer == CancelledAnswer(a))
    || (Ready(plan, st.byId) == [] && answer == UnresolvedAnswer(a))
    || SettledBy(turn, plan, st'.byId, a, answer)
    || (a in WaveOf(turn, plan, st, k) && answer == Invoke(turn, a, k))
  }

  lemma AbandonFacts(plan: seq<Action>, answer: Action -> Answer, st: State)
    requires UniqueIds(plan) && Consistent(plan, st)
    ensures var pending := Pending(plan, st.byId);
            var later := RecordAll(pending, |pending|, answer, st);
            && Consistent(plan, later) && Extends(st.byId, later.byId)
            && later.byId.Keys == Ids(plan)
            && forall a :: a in plan && a.id !in st.byId ==> later.byId[a.id].answer == answer(a)
  {
    var pending := Pending(plan, st.byId);
    PendingFacts(plan, st.byId);
    RecordAllFacts(pending, |pending|, answer, st);
    RecordAllConsistent(plan, pending, |pending|, answer, st);
    assert pending[..|pending|] == pending;
  }

  lemma DecidingShape(turn: Turn, plan: seq<Action>, st: State, k: nat)
    requires UniqueIds(plan) && Deciding(turn, plan, st, k)
    ensures var t, wave, st' := Triaged(turn, plan, st), WaveOf(turn, plan, st, k), Pass(turn, plan, st, k);
            && st' == RecordAll(wave, |wave|, InvokeIn(turn, k), t.st)
            && Extends(st.byId, t.st.byId) && Extends(t.st.byId, st'.byId) && !st'.finished
            && t.st.byId.Keys <= st.byId.Keys + Ids(Ready(plan, st.byId))
            && st'.byId.Keys == t.st.byId.Keys + Ids(wave)
            && forall a :: a in wave ==> st'.byId[a.id].answer == Invoke(turn, a, k)
  {
    hide TriageFirst, Launchable, Invoke, Launchables, RecordAll, Known;
    var ready := Ready(plan, st.byId);
    ReadyFacts(plan, st.byId);
    TriageFacts(turn, plan, st, ready, |ready|);
    assert ready[..|ready|] == ready;
    WaveOfFacts(turn, plan, st, k);
    var wave := WaveOf(turn, plan, st, k);
    RecordAllFacts(wave, |wave|, InvokeIn(turn, k), Triaged(turn, plan, st).st);
    assert wave[..|wave|] == wave;
  }

  lemma DecidingConsistent(turn: Turn, plan: seq<Action>, st: State, k: nat)
    requires UniqueIds(plan) && Consistent(plan, st) && Deciding(turn, plan, st, k)
    ensures Consistent(plan, Pass(turn, plan, st, k))
  {
    var ready := Ready(plan, st.byId);
    ReadyFacts(plan, st.byId);
    TriageConsistent(turn, plan, st, ready, |ready|);
    WaveOfFacts(turn, plan, st, k);
    DecidingShape(turn, plan, st, k);
    var wave := WaveOf(turn, plan, st, k);
    RecordAllConsistent(plan, wave, |wave|, InvokeIn(turn, k), Triaged(turn, plan, st).st);
  }

  lemma DecidingExplains(turn: Turn, plan: seq<Action>, st: State, k: nat, a: Action)
    requires UniqueIds(plan) && Deciding(turn, plan, st, k)
    requires a in plan && a.id !in st.byId && a.id in Pass(turn, plan, st, k).byId
    ensures Explained(turn, plan, st, Pass(turn, plan, st, k), k, a)
  {
    hide Pass, WaveOf, TriageFirst, SettledBy, Launchable, Ready, RecordAll;
    var ready := Ready(plan, st.byId);
    ReadyFacts(plan, st.byId);
    DecidingShape(turn, plan, st, k);
    WaveOfFacts(turn, plan, st, k);
    var t := Triaged(turn, plan, st);
    assert t == TriageFirst(turn, plan, ready, |ready|, st);
    if a.id in t.st.byId {
      var b :| b in ready && b.id == a.id;
      assert a == b;
      var i :| 0 <= i < |ready| && ready[i] == a;
      TriageDecides(turn, plan, st, ready, |ready|, i);
      SettledByExtends(turn, plan, t.st.byId, Pass(turn, plan, st, k).byId, a, t.st.byId[a.id].answer);
    } else {
      var b :| b in WaveOf(turn, plan, st, k) && b.id == a.id;
      assert a == b;
    }
  }

  lemma SettledByExtends(turn: Turn, plan: seq<Action>, book: Book, later: Book, a: Action, answer: Answer)
    requires SettledBy(turn, plan, book, a, answer) && Extends(book, later)
    ensures SettledBy(turn, plan, later, a, answer)
  {
    assert Satisfied(a, book) == Satisfied(a, later);
  }

  lemma PassFacts(turn: Turn, plan: seq<Action>, st: State, k: nat)
    requires UniqueIds(plan) && Consistent(plan, st)
    ensures var st' := Pass(turn, plan, st, k);
            && Consistent(plan, st') && Extends(st.byId, st'.byId)
            && forall a :: a in plan && a.id in st'.byId && a.id !in st.byId ==> Explained(turn, plan, st, st', k, a)
  {
    if Deciding(turn, plan, st, k) {
      DecidingShape(turn, plan, st, k);
      DecidingConsistent(turn, plan, st, k);
      forall a | a in plan && a.id in Pass(turn, plan, st, k).byId && a.id !in st.byId
        ensures Explained(turn, plan, st, Pass(turn, plan, st, k), k, a)
      {
        DecidingExplains(turn, plan, st, k, a);
      }
    } else if !st.finished && Pending(plan, st.byId) != [] {
      AbandonFacts(plan, if turn.cancelRequested(k) then CancelledAnswer else UnresolvedAnswer, st);
    }
  }
}
