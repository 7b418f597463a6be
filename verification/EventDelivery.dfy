/** Reactive callbacks and the durable cursor of the household event consumer. */
module EventDelivery {
  import opened Options
  import opened EventFeed

  // ----- on_event is called at most once per event id -----

  ghost predicate AboutToNotify(feed: Feed, s: System, who: nat, id: EventId) {
    Of(s, who).pc.Notify? && feed(Of(s, who).pc.cursor) == id
  }

  /** A stored event has been announced, or exactly the consumer that stored it is about to, or never will be. */
  ghost predicate AnnouncedOnce(feed: Feed, s: System) {
    && (forall i, j :: 0 <= i < j < |s.notified| ==> s.notified[i] != s.notified[j])
    && (forall id :: id in s.notified ==> id in s.records)
    && (forall who, id :: AboutToNotify(feed, s, who, id) ==> id in s.records && id !in s.notified)
    && (forall v, w, id :: AboutToNotify(feed, s, v, id) && AboutToNotify(feed, s, w, id) ==> v == w)
  }

  lemma ResumeNotifies(feed: Feed, s: System, who: nat)
    ensures var c, t := Of(s, who), Resume(feed, s, who);
            && t.notified == (if c.pc.Notify? then s.notified + [feed(c.pc.cursor)] else s.notified)
            && s.records <= t.records
            && (forall id :: AboutToNotify(feed, t, who, id) ==>
                  c.pc.Insert? && id == feed(c.pc.cursor) && id !in s.records && id in t.records)
            && (forall other, id :: other != who ==>
                  (AboutToNotify(feed, t, other, id) <==> AboutToNotify(feed, s, other, id)))
  {
    var c := Of(s, who);
    if !c.pc.Down? && !c.pc.Idle? {
      var checkpointing := c.pc.Read? || c.pc.Create? || c.pc.Reread? || c.pc.Save? || c.pc.Verify?;
      NextEventIsNext(if checkpointing then c.pc.target else 0, c.pc.rest);
    }
  }

  lemma StepAnnouncesOnce(feed: Feed, s: System, who: nat, input: Input)
    requires AnnouncedOnce(feed, s)
    ensures AnnouncedOnce(feed, Step(feed, s, who, input))
  {
    hide Resume, NextEvent;
    var t := Step(feed, s, who, input);
    if input == Proceed {
      ResumeNotifies(feed, s, who);
      if Of(s, who).pc.Notify? { assert AboutToNotify(feed, s, who, feed(Of(s, who).pc.cursor)); }
    } else {
      if input.Respond? { NextEventIsNext(Of(s, who).cursor, input.batch.cursors); }
      assert forall v, id :: AboutToNotify(feed, t, v, id) ==> AboutToNotify(feed, s, v, id);
    }
  }

  /** Over every run, crashes, restarts and rival consumers included, no event id is announced twice. */
  lemma {:induction false} AnnouncedAtMostOnce(feed: Feed, run: Run)
    ensures AnnouncedOnce(feed, After(feed, run))
  {
    if run != [] {
      AnnouncedAtMostOnce(feed, run[..|run| - 1]);
      var last := run[|run| - 1];
      StepAnnouncesOnce(feed, After(feed, run[..|run| - 1]), last.0, last.1);
    }
  }

  // ----- when the durable cursor moves back -----

  /** Only a save over the current revision can lower the durable cursor. */
  lemma SaveMovesBackExactlyWhen(feed: Feed, s: System, who: nat, input: Input)
    ensures DurableCursor(Step(feed, s, who, input)) < DurableCursor(s) <==>
              && input == Proceed && Of(s, who).pc.Save? && s.checkpoint.Some?
              && Of(s, who).pc.revision == s.checkpoint.value.revision
              && Of(s, who).pc.target < s.checkpoint.value.cursor
  {
  }

  /** A later checkpoint has a higher revision or is the same. */
  ghost predicate NoEarlierThan(before: Option<Checkpoint>, after: Option<Checkpoint>) {
    before.Some? ==>
      after.Some? && (after == before || after.value.revision > before.value.revision)
  }

  lemma StepKeepsRevisions(feed: Feed, s: System, who: nat, input: Input)
    ensures NoEarlierThan(s.checkpoint, Step(feed, s, who, input).checkpoint)
  {
  }

  lemma {:induction false} RevisionsOnlyGrow(feed: Feed, run: Run, m: nat)
    requires m <= |run|
    ensures NoEarlierThan(After(feed, run[..m]).checkpoint, After(feed, run).checkpoint)
  {
    hide Step;
    if m == |run| {
      assert run[..m] == run;
    } else {
      var init, last := run[..|run| - 1], run[|run| - 1];
      assert init[..m] == run[..m];
      RevisionsOnlyGrow(feed, init, m);
      StepKeepsRevisions(feed, After(feed, init), last.0, last.1);
    }
  }

  /** At step m consumer `who`, about to checkpoint `target`, reads the checkpoint c. */
  ghost predicate ReadsAt(feed: Feed, run: Run, m: nat, who: nat, target: nat, c: Checkpoint) {
    && m < |run| && run[m] == (who, Proceed)
    && var s := After(feed, run[..m]);
       && s.checkpoint == Some(c)
       && (Of(s, who).pc.Read? || Of(s, who).pc.Reread?) && Of(s, who).pc.target == target
  }

  lemma StepBecomesSave(feed: Feed, s: System, who: nat, actor: nat, input: Input)
    requires Of(Step(feed, s, actor, input), who).pc.Save?
    ensures var saving := Of(Step(feed, s, actor, input), who).pc;
            || Of(s, who).pc == saving
            || (actor == who && input == Proceed && s.checkpoint.Some? && s.checkpoint.value.revision == saving.revision
                && (Of(s, who).pc.Read? || Of(s, who).pc.Reread?) && Of(s, who).pc.target == saving.target)
  {
    ResumeTouchesOne(feed, s, actor);
    var c := Of(s, actor);
    if input.Respond? { NextEventIsNext(c.cursor, input.batch.cursors); }
    if c.pc.Save? || c.pc.Verify? || c.pc.Create? { NextEventIsNext(c.pc.target, c.pc.rest); }
  }

  /** A consumer that is about to save has read the checkpoint whose revision it presents. */
  lemma {:induction false} SaverHasRead(feed: Feed, run: Run, who: nat) returns (m: nat, c: Checkpoint)
    requires Of(After(feed, run), who).pc.Save?
    ensures var saving := Of(After(feed, run), who).pc;
            ReadsAt(feed, run, m, who, saving.target, c) && c.revision == saving.revision
  {
    hide Step;
    var init, last := run[..|run| - 1], run[|run| - 1];
    var s := After(feed, init);
    StepBecomesSave(feed, s, who, last.0, last.1);
    if Of(s, who).pc == Of(After(feed, run), who).pc {
      m, c := SaverHasRead(feed, init, who);
      assert init[..m] == run[..m] && init[m] == run[m];
    } else {
      m, c := |run| - 1, s.checkpoint.value;
    }
  }

  /**
   * The durable cursor moves back exactly when a consumer saves although the checkpoint it read for
   * that save was already beyond its target, and nobody has written the checkpoint since.
   */
  lemma CursorMovesBackExactlyWhen(feed: Feed, run: Run, who: nat, input: Input)
    ensures var s := After(feed, run);
            var pc := Of(s, who).pc;
            DurableCursor(After(feed, run + [(who, input)])) < DurableCursor(s) <==>
              && input == Proceed && pc.Save? && s.checkpoint.Some? && s.checkpoint.value.revision == pc.revision
              && exists m, c ::
                   ReadsAt(feed, run, m, who, pc.target, c) && c.revision == pc.revision && pc.target < c.cursor
  {
    var s := After(feed, run);
    var pc := Of(s, who).pc;
    assert (run + [(who, input)])[..|run|] == run;
    SaveMovesBackExactlyWhen(feed, s, who, input);
    hide Step, After;
    if pc.Save? {
      var m, c := SaverHasRead(feed, run, who);
      RevisionsOnlyGrow(feed, run, m);
      forall m, c | ReadsAt(feed, run, m, who, pc.target, c) ensures NoEarlierThan(Some(c), s.checkpoint) {
        RevisionsOnlyGrow(feed, run, m);
      }
    }
  }

  // ----- two consumers that move it back -----

  /** Both consumers are sent events 1 and 2; the first handles both before the second handles any. */
  function RivalInput(n: nat): (nat, Input) {
    if n == 0 then (0, Start(true))
    else if n == 1 then (1, Start(true))
    else if n < 4 then (n - 2, Respond(Batch(0, 1, 2, false, [1, 2])))
    else if n < 14 then (0, Proceed)
    else (1, Proceed)
  }

  /** The second finds event 1 stored, reads the checkpoint of event 2 and saves cursor 1 over it. */
  function RivalRun(n: nat): Run {
    if n == 0 then [] else RivalRun(n - 1) + [RivalInput(n - 1)]
  }

  lemma RivalStep(feed: Feed, n: nat)
    ensures After(feed, RivalRun(n + 1)) == Step(feed, After(feed, RivalRun(n)), RivalInput(n).0, RivalInput(n).1)
  {
    assert RivalRun(n + 1)[..n + 1 - 1] == RivalRun(n) by { RivalLength(n); }
    RivalLength(n);
  }

  lemma {:induction false} RivalLength(n: nat)
    ensures |RivalRun(n)| == n
  {
    if n > 0 { RivalLength(n - 1); }
  }

  /** What matters of the two consumers' state. */
  ghost predicate Shows(s: System, checkpoint: Option<Checkpoint>, records: set<EventId>,
                        first: Consumer, second: Consumer) {
    s.checkpoint == checkpoint && s.records == records && Of(s, 0) == first && Of(s, 1) == second
  }

  lemma NextOfTwo()
    ensures NextEvent(0, [1, 2]) == Lookup(1, [2]) && NextEvent(1, [2]) == Lookup(2, []) && NextEvent(2, []) == Idle
  {
    assert [1, 2][1..] == [2] && [2][1..] == [];
  }

  lemma RivalsReceive(feed: Feed)
    ensures Shows(After(feed, RivalRun(4)), None, {}, Consumer(0, Lookup(1, [2])), Consumer(0, Lookup(1, [2])))
  {
    assert Shows(After(feed, RivalRun(0)), None, {}, Consumer(0, Down), Consumer(0, Down));
    NextOfTwo();
    hide After, RivalRun, NextEvent;
    RivalStep(feed, 0);
    assert Shows(After(feed, RivalRun(1)), None, {}, Consumer(0, Idle), Consumer(0, Down));
    RivalStep(feed, 1);
    assert Shows(After(feed, RivalRun(2)), None, {}, Consumer(0, Idle), Consumer(0, Idle));
    RivalStep(feed, 2);
    assert Shows(After(feed, RivalRun(3)), None, {}, Consumer(0, Lookup(1, [2])), Consumer(0, Idle));
    RivalStep(feed, 3);
  }

  lemma FirstRivalStoresOne(feed: Feed)
    ensures Shows(After(feed, RivalRun(9)), Some(Checkpoint(1, 1)), {feed(1)},
                  Consumer(1, Lookup(2, [])), Consumer(0, Lookup(1, [2])))
  {
    RivalsReceive(feed);
    NextOfTwo();
    hide After, RivalRun, NextEvent;
    var second := Consumer(0, Lookup(1, [2]));
    RivalStep(feed, 4);
    assert Shows(After(feed, RivalRun(5)), None, {}, Consumer(0, Insert(1, [2])), second);
    RivalStep(feed, 5);
    assert Shows(After(feed, RivalRun(6)), None, {feed(1)}, Consumer(0, Notify(1, [2])), second);
    RivalStep(feed, 6);
    assert Shows(After(feed, RivalRun(7)), None, {feed(1)}, Consumer(0, Read(1, [2])), second);
    RivalStep(feed, 7);
    assert Shows(After(feed, RivalRun(8)), None, {feed(1)}, Consumer(0, Create(1, [2])), second);
    RivalStep(feed, 8);
  }

  lemma FirstRivalStoresTwo(feed: Feed)
    requires feed(1) != feed(2)
    ensures Shows(After(feed, RivalRun(14)), Some(Checkpoint(2, 2)), {feed(1), feed(2)},
                  Consumer(2, Idle), Consumer(0, Lookup(1, [2])))
  {
    FirstRivalStoresOne(feed);
    NextOfTwo();
    hide After, RivalRun, NextEvent;
    var c, both, second := Some(Checkpoint(1, 1)), {feed(1), feed(2)}, Consumer(0, Lookup(1, [2]));
    RivalStep(feed, 9);
    assert Shows(After(feed, RivalRun(10)), c, {feed(1)}, Consumer(1, Insert(2, [])), second);
    RivalStep(feed, 10);
    assert Shows(After(feed, RivalRun(11)), c, both, Consumer(1, Notify(2, [])), second);
    RivalStep(feed, 11);
    assert Shows(After(feed, RivalRun(12)), c, both, Consumer(1, Read(2, [])), second);
    RivalStep(feed, 12);
    assert Shows(After(feed, RivalRun(13)), c, both, Consumer(1, Save(2, 1, [])), second);
    RivalStep(feed, 13);
  }

  lemma SecondRivalFindsOne(feed: Feed)
    requires feed(1) != feed(2)
    ensures var s := After(feed, RivalRun(15));
            s.checkpoint == Some(Checkpoint(2, 2)) && Of(s, 1) == Consumer(0, Read(1, [2]))
  {
    FirstRivalStoresTwo(feed);
    hide After, RivalRun, NextEvent;
    RivalStep(feed, 14);
    assert feed(1) in After(feed, RivalRun(14)).records;
  }

  lemma SecondRivalReads(feed: Feed)
    requires feed(1) != feed(2)
    ensures var s := After(feed, RivalRun(16));
            s.checkpoint == Some(Checkpoint(2, 2)) && Of(s, 1) == Consumer(0, Save(1, 2, [2]))
  {
    SecondRivalFindsOne(feed);
    hide After, RivalRun, NextEvent;
    RivalStep(feed, 15);
  }

  /** Two consumers that receive the same two events take the durable cursor from 2 back to 1. */
  lemma RivalsMoveTheCursorBack(feed: Feed)
    requires feed(1) != feed(2)
    ensures DurableCursor(After(feed, RivalRun(16))) == 2
    ensures DurableCursor(After(feed, RivalRun(17))) == 1
  {
    SecondRivalReads(feed);
    hide After, RivalRun, NextEvent;
    RivalStep(feed, 16);
  }

  // ----- a single initialized consumer -----

  /** The consumer reads the checkpoint when it starts, and resets never point below its cursor. */
  ghost predicate ForwardInput(s: System, input: Input) {
    match input
    case Start(initialized) => initialized
    case Respond(b) => b.resetRequired ==> b.firstAvailable > Of(s, 0).cursor
    case _ => true
  }

  /** Every input goes to consumer 0 and is a forward one. */
  ghost predicate SingleForwardRun(feed: Feed, run: Run) {
    forall i :: 0 <= i < |run| ==> run[i].0 == 0 && ForwardInput(After(feed, run[..i]), run[i].1)
  }

  ghost predicate CursorLeads(s: System) {
    var c := Of(s, 0);
    c.pc != Down ==>
      && DurableCursor(s) <= c.cursor
      && (match c.pc
          case GapLookup(first, _) => first > c.cursor
          case GapInsert(first, _) => first > c.cursor
          case Lookup(cursor, _) => cursor > c.cursor
          case Insert(cursor, _) => cursor > c.cursor
          case Notify(cursor, _) => cursor > c.cursor
          case Read(target, _) => target >= c.cursor
          case Create(target, _) => target >= c.cursor
          case Reread(target, _) => target >= c.cursor
          case Save(target, _, _) => target >= c.cursor
          case Verify(target, _) => target >= c.cursor
          case _ => true)
  }

  lemma StepKeepsLead(feed: Feed, s: System, input: Input)
    requires CursorLeads(s) && ForwardInput(s, input)
    ensures CursorLeads(Step(feed, s, 0, input))
    ensures DurableCursor(s) <= DurableCursor(Step(feed, s, 0, input))
  {
    hide NextEvent;
    var c := Of(s, 0);
    if input.Respond? { NextEventIsNext(c.cursor, input.batch.cursors); }
    if c.pc.Read? || c.pc.Create? || c.pc.Reread? || c.pc.Save? || c.pc.Verify? {
      NextEventIsNext(c.pc.target, c.pc.rest);
    }
  }

  /** With one initialized consumer, over crashes and restarts, the durable cursor never moves back. */
  lemma {:induction false} SingleConsumerNeverMovesBack(feed: Feed, run: Run, n: nat)
    requires SingleForwardRun(feed, run) && n <= |run|
    ensures CursorLeads(After(feed, run))
    ensures DurableCursor(After(feed, run[..n])) <= DurableCursor(After(feed, run))
  {
    if run == [] {
      assert run[..n] == run;
    } else {
      var init, last := run[..|run| - 1], run[|run| - 1];
      assert forall i :: 0 <= i < |init| ==> init[..i] == run[..i] && init[i] == run[i];
      assert SingleForwardRun(feed, init);
      SingleConsumerNeverMovesBack(feed, init, if n < |run| then n else |init|);
      StepKeepsLead(feed, After(feed, init), last.1);
      if n < |run| { assert init[..n] == run[..n]; } else { assert run[..n] == run; }
    }
  }
}
