/** Where stored events and recorded gaps come from, and what an undisturbed consumer achieves. */
module EventProgress {
  import opened EventFeed

  // ----- responses -----

  /** A consumer takes a response exactly when it is idle and the batch is in order and follows its cursor. */
  lemma ResponseTakenExactlyWhen(feed: Feed, s: System, who: nat, b: Batch)
    ensures var c, t := Of(s, who), Step(feed, s, who, Respond(b));
            if c.pc == Idle && b.after == c.cursor && b.firstAvailable > 0
               && (forall i :: 0 <= i < |b.cursors| ==> b.cursors[i] > 0)
               && (forall i, j :: 0 <= i < j < |b.cursors| ==> b.cursors[i] < b.cursors[j])
               && (|b.cursors| > 0 ==> b.next == b.cursors[|b.cursors| - 1])
            then Of(t, who) == Consumer(c.cursor, if b.resetRequired then GapLookup(b.firstAvailable, b.cursors)
                                                  else NextEvent(c.cursor, b.cursors))
                 && t == s.(consumers := t.consumers)
            else t == s
  {
    hide NextEvent;
  }

  ghost predicate Taken(feed: Feed, run: Run, m: nat, b: Batch) {
    && m < |run| && run[m].1 == Respond(b)
    && var s := After(feed, run[..m]); Of(s, run[m].0).pc == Idle && b.after == Of(s, run[m].0).cursor && ValidBatch(b)
  }

  /** Some response of the run held the event at this cursor. */
  ghost predicate Received(feed: Feed, run: Run, cursor: nat) {
    exists m: nat, b :: Taken(feed, run, m, b) && cursor in b.cursors
  }

  /** Some response to a request behind cursor `after` announced that the feed starts at `first`. */
  ghost predicate Announced(feed: Feed, run: Run, after: nat, first: nat) {
    exists m: nat, b :: Taken(feed, run, m, b) && b.resetRequired && b.after == after && b.firstAvailable == first
  }

  ghost predicate AllReceived(feed: Feed, run: Run, cursors: seq<nat>) {
    forall c :: c in cursors ==> Received(feed, run, c)
  }

  /** A suspended consumer handles events it has received, and a gap it was told of. */
  ghost predicate PcTraced(feed: Feed, run: Run, c: Consumer) {
    match c.pc
    case Down => true
    case Idle => true
    case GapLookup(first, rest) => Announced(feed, run, c.cursor, first) && AllReceived(feed, run, rest)
    case GapInsert(first, rest) => Announced(feed, run, c.cursor, first) && AllReceived(feed, run, rest)
    case Lookup(cursor, rest) => Received(feed, run, cursor) && AllReceived(feed, run, rest)
    case Insert(cursor, rest) => Received(feed, run, cursor) && AllReceived(feed, run, rest)
    case _ => AllReceived(feed, run, c.pc.rest)
  }

  ghost predicate AllTraced(feed: Feed, run: Run) {
    var s := After(feed, run);
    && (forall id :: id in s.records ==> exists c :: Received(feed, run, c) && feed(c) == id)
    && (forall g :: g in s.gaps ==> g.0 > 0 && Announced(feed, run, g.0 - 1, g.1 + 1))
    && (forall who :: PcTraced(feed, run, Of(s, who)))
  }

  lemma Extended(feed: Feed, init: Run, last: (nat, Input))
    ensures After(feed, init + [last]) == Step(feed, After(feed, init), last.0, last.1)
    ensures (init + [last])[..|init|] == init && (init + [last])[|init|] == last
  {
    assert (init + [last])[..|init|] == init;
  }

  lemma TracedBefore(feed: Feed, init: Run, last: (nat, Input))
    ensures forall c :: Received(feed, init, c) ==> Received(feed, init + [last], c)
    ensures forall a, f :: Announced(feed, init, a, f) ==> Announced(feed, init + [last], a, f)
  {
    var run := init + [last];
    forall m: nat, b | Taken(feed, init, m, b) ensures Taken(feed, run, m, b) {
      assert run[..m] == init[..m];
    }
    hide Taken;
  }

  lemma PcTracedBefore(feed: Feed, init: Run, last: (nat, Input), c: Consumer)
    requires PcTraced(feed, init, c)
    ensures PcTraced(feed, init + [last], c)
  {
    TracedBefore(feed, init, last);
    hide Received, Announced;
  }

  lemma {:induction false} NextEventReceived(feed: Feed, run: Run, cursor: nat, rest: seq<nat>)
    requires AllReceived(feed, run, rest)
    ensures PcTraced(feed, run, Consumer(cursor, NextEvent(cursor, rest)))
  {
    hide Received;
    if rest != [] {
      assert rest[0] in rest && forall c :: c in rest[1..] ==> c in rest;
      NextEventReceived(feed, run, cursor, rest[1..]);
    }
  }

  lemma AdvancedReceived(feed: Feed, run: Run, target: nat, rest: seq<nat>)
    requires AllReceived(feed, run, rest)
    ensures PcTraced(feed, run, Advanced(target, rest))
  {
    hide AllReceived, PcTraced;
    NextEventReceived(feed, run, target, rest);
  }

  /** One operation of a consumer that handles received events leaves it handling received events. */
  lemma ResumeTraced(feed: Feed, run: Run, s: System, who: nat)
    requires PcTraced(feed, run, Of(s, who))
    ensures var t := Resume(feed, s, who);
            && PcTraced(feed, run, Of(t, who))
            && (forall id :: id in t.records && id !in s.records ==>
                  exists c :: Received(feed, run, c) && feed(c) == id)
            && (forall g :: g in t.gaps && g !in s.gaps ==>
                  g.0 > 0 && Announced(feed, run, g.0 - 1, g.1 + 1))
  {
    hide Received, Announced, AllReceived, NextEvent;
    var c := Of(s, who);
    var saving := c.pc.Create? || c.pc.Save? || c.pc.Verify?;
    if saving { AdvancedReceived(feed, run, c.pc.target, c.pc.rest); }
  }

  lemma ResponseTraced(feed: Feed, init: Run, last: (nat, Input))
    requires last.1.Respond?
    ensures var s := After(feed, init);
            var t := Step(feed, s, last.0, last.1);
            t == s || PcTraced(feed, init + [last], Of(t, last.0))
  {
    Extended(feed, init, last);
    var s, b, run := After(feed, init), last.1.batch, init + [last];
    if Step(feed, s, last.0, last.1) != s {
      assert Taken(feed, run, |init|, b);
      hide After, Taken, NextEvent;
      assert AllReceived(feed, run, b.cursors);
      assert b.resetRequired ==> Announced(feed, run, b.after, b.firstAvailable);
      NextEventReceived(feed, run, Of(s, last.0).cursor, b.cursors);
    }
  }

  lemma OthersUntouched(feed: Feed, s: System, who: nat, input: Input, other: nat)
    requires other != who
    ensures Of(Step(feed, s, who, input), other) == Of(s, other)
  {
    ResumeTouchesOne(feed, s, who);
  }

  lemma StepKeepsTraced(feed: Feed, init: Run, last: (nat, Input))
    requires AllTraced(feed, init)
    ensures AllTraced(feed, init + [last])
  {
    Extended(feed, init, last);
    var run, s := init + [last], After(feed, init);
    var t := After(feed, run);
    TracedBefore(feed, init, last);
    PcTracedBefore(feed, init, last, Of(s, last.0));
    ResumeTraced(feed, run, s, last.0);
    if last.1.Respond? { ResponseTraced(feed, init, last); }
    hide After, Resume, PcTraced, Received, Announced, NextEvent;
    forall who ensures PcTraced(feed, run, Of(t, who)) {
      if who == last.0 {
        ActorTraced(feed, run, s, last);
      } else {
        OthersUntouched(feed, s, last.0, last.1, who);
        PcTracedBefore(feed, init, last, Of(s, who));
      }
    }
  }

  lemma RestingIsTraced(feed: Feed, run: Run)
    ensures forall cursor :: PcTraced(feed, run, Consumer(cursor, Idle)) && PcTraced(feed, run, Consumer(cursor, Down))
  {
  }

  lemma ActorTraced(feed: Feed, run: Run, s: System, last: (nat, Input))
    requires PcTraced(feed, run, Of(s, last.0)) && PcTraced(feed, run, Of(Resume(feed, s, last.0), last.0))
    requires last.1.Respond? ==>
               var t := Step(feed, s, last.0, last.1); t == s || PcTraced(feed, run, Of(t, last.0))
    ensures PcTraced(feed, run, Of(Step(feed, s, last.0, last.1), last.0))
  {
    RestingIsTraced(feed, run);
    hide Resume, PcTraced, NextEvent;
  }

  /**
   * In every run each stored event was in a response that some consumer took, and each recorded gap runs
   * from right behind a request to right before the first event the response to it had available.
   */
  lemma {:induction false} EverythingWasReceived(feed: Feed, run: Run)
    ensures AllTraced(feed, run)
  {
    if run != [] {
      var init, last := run[..|run| - 1], run[|run| - 1];
      assert init + [last] == run;
      EverythingWasReceived(feed, init);
      StepKeepsTraced(feed, init, last);
    }
  }

  // ----- an undisturbed consumer -----

  /** n operations of one consumer in a row. */
  function Drained(feed: Feed, s: System, who: nat, n: nat): System {
    if n == 0 then s else Step(feed, Drained(feed, s, who, n - 1), who, Proceed)
  }

  lemma {:induction false} DrainedAfter(feed: Feed, s: System, who: nat, m: nat, n: nat)
    ensures Drained(feed, s, who, m + n) == Drained(feed, Drained(feed, s, who, m), who, n)
  {
    hide Step;
    if n > 0 { DrainedAfter(feed, s, who, m, n - 1); }
  }

  /** What a consumer that is done with a target leaves: its cursor and the durable one stand there. */
  ghost predicate Checkpointed(s: System, t: System, who: nat, target: nat, rest: seq<nat>) {
    && t.consumers == s.consumers[who := Advanced(target, rest)]
    && DurableCursor(t) == target && t.checkpoint.Some?
    && t.records == s.records && t.gaps == s.gaps && t.notified == s.notified
  }

  /** Reading and writing the checkpoint without a conflict. */
  lemma CheckpointThrough(feed: Feed, s: System, who: nat)
    requires Of(s, who).pc.Read?
    ensures var pc := Of(s, who).pc;
            Checkpointed(s, Drained(feed, s, who, 2), who, pc.target, pc.rest)
  {
    hide NextEvent;
    var c := Of(s, who);
    var target, rest := c.pc.target, c.pc.rest;
    var s1 := Step(feed, s, who, Proceed);
    assert Drained(feed, s, who, 1) == s1 by { assert Drained(feed, s, who, 0) == s; }
    assert s1 == Put(s, who, c.(pc := if s.checkpoint.None? then Create(target, rest)
                                      else Save(target, s.checkpoint.value.revision, rest)));
    assert Drained(feed, s, who, 2) == Step(feed, s1, who, Proceed);
    assert s.consumers[who := Of(s1, who)][who := Advanced(target, rest)] == s.consumers[who := Advanced(target, rest)];
  }

  /** The consumer has dealt with the event at its next cursor: stored it and, if it was new, announced it. */
  ghost predicate EventDone(feed: Feed, s: System, t: System, who: nat, cursor: nat, rest: seq<nat>) {
    && t.consumers == s.consumers[who := Advanced(cursor, rest)]
    && DurableCursor(t) == cursor && t.checkpoint.Some? && t.gaps == s.gaps
    && t.records == s.records + {feed(cursor)}
    && t.notified == s.notified + (if feed(cursor) in s.records then [] else [feed(cursor)])
  }

  lemma ReadingThrough(feed: Feed, s: System, who: nat, m: nat, t: System)
    requires Drained(feed, s, who, m) == t && Of(t, who).pc.Read?
    ensures Checkpointed(t, Drained(feed, s, who, m + 2), who, Of(t, who).pc.target, Of(t, who).pc.rest)
  {
    CheckpointThrough(feed, t, who);
    DrainedAfter(feed, s, who, m, 2);
  }

  lemma KnownEventThrough(feed: Feed, s: System, who: nat)
    requires Of(s, who).pc.Lookup? && feed(Of(s, who).pc.cursor) in s.records
    ensures EventDone(feed, s, Drained(feed, s, who, 3), who, Of(s, who).pc.cursor, Of(s, who).pc.rest)
  {
    hide NextEvent;
    var c := Of(s, who);
    var t := Put(s, who, Consumer(c.cursor, Read(c.pc.cursor, c.pc.rest)));
    assert Drained(feed, s, who, 1) == t by { assert Drained(feed, s, who, 0) == s; }
    ReadingThrough(feed, s, who, 1, t);
    hide Drained;
    assert s.records + {feed(c.pc.cursor)} == s.records && s.notified + [] == s.notified;
  }

  /** The consumer has stored and announced a new event, and is about to read the checkpoint. */
  function Announcing(feed: Feed, s: System, who: nat): System
    requires Of(s, who).pc.Lookup?
  {
    var c := Of(s, who);
    Put(s, who, Consumer(c.cursor, Read(c.pc.cursor, c.pc.rest))).(
      records := s.records + {feed(c.pc.cursor)}, notified := s.notified + [feed(c.pc.cursor)])
  }

  lemma NewEventAnnounced(feed: Feed, s: System, who: nat)
    requires Of(s, who).pc.Lookup? && feed(Of(s, who).pc.cursor) !in s.records
    ensures Drained(feed, s, who, 3) == Announcing(feed, s, who)
  {
    var c := Of(s, who);
    var cursor, rest := c.pc.cursor, c.pc.rest;
    var s1 := Put(s, who, Consumer(c.cursor, Insert(cursor, rest)));
    assert Drained(feed, s, who, 1) == s1 by { assert Drained(feed, s, who, 0) == s; }
    var s2 := Put(s, who, Consumer(c.cursor, Notify(cursor, rest))).(records := s.records + {feed(cursor)});
    assert Drained(feed, s, who, 2) == s2;
  }

  lemma EventThrough(feed: Feed, s: System, who: nat) returns (n: nat)
    requires Of(s, who).pc.Lookup?
    ensures EventDone(feed, s, Drained(feed, s, who, n), who, Of(s, who).pc.cursor, Of(s, who).pc.rest)
  {
    hide NextEvent;
    if feed(Of(s, who).pc.cursor) in s.records {
      n := 3;
      KnownEventThrough(feed, s, who);
    } else {
      n := 5;
      NewEventAnnounced(feed, s, who);
      ReadingThrough(feed, s, who, 3, Announcing(feed, s, who));
      hide Drained;
    }
  }

  /** How far a batch reaches without a hole: past cursors are skipped, and a missing one ends it. */
  function Reach(cursor: nat, rest: seq<nat>): nat
    decreases |rest|
  {
    if rest == [] then cursor
    else if rest[0] <= cursor then Reach(cursor, rest[1..])
    else if rest[0] == cursor + 1 then Reach(cursor + 1, rest[1..])
    else cursor
  }

  lemma {:induction false} ReachMeans(cursor: nat, rest: seq<nat>)
    requires forall i, j :: 0 <= i < j < |rest| ==> rest[i] < rest[j]
    ensures Reach(cursor, rest) >= cursor
    ensures forall c :: cursor < c <= Reach(cursor, rest) ==> c in rest
    ensures Reach(cursor, rest) + 1 !in rest
    decreases |rest|
  {
    if rest != [] {
      assert rest == [rest[0]] + rest[1..];
      ReachMeans(if rest[0] == cursor + 1 then cursor + 1 else cursor, rest[1..]);
    }
  }

  /** The events at cursors from + 1 to `to`. */
  function Events(feed: Feed, from: nat, to: nat): set<EventId> {
    set c: nat | from < c <= to :: feed(c)
  }

  /** The events among them that are new, in order, each once. */
  function NewEvents(feed: Feed, known: set<EventId>, from: nat, to: nat): seq<EventId>
    decreases to - from
  {
    if to <= from then []
    else (if feed(from + 1) in known then [] else [feed(from + 1)])
         + NewEvents(feed, known + {feed(from + 1)}, from + 1, to)
  }

  /** The consumer is idle again, and everything up to `to` is stored, announced if new, and checkpointed. */
  ghost predicate BatchDone(feed: Feed, s: System, t: System, who: nat, from: nat, to: nat) {
    && t.consumers == s.consumers[who := Consumer(to, Idle)] && t.gaps == s.gaps
    && t.records == s.records + Events(feed, from, to)
    && t.notified == s.notified + NewEvents(feed, s.records, from, to)
    && (if from < to then DurableCursor(t) == to else t.checkpoint == s.checkpoint)
  }

  /** A consumer whose cursor stands at `cursor` and that goes on with `rest` handles all of it up to the first hole. */
  lemma {:induction false} BatchThrough(feed: Feed, s: System, who: nat, cursor: nat, rest: seq<nat>) returns (n: nat)
    requires Of(s, who) == Advanced(cursor, rest) && who in s.consumers
    ensures BatchDone(feed, s, Drained(feed, s, who, n), who, cursor, Reach(cursor, rest))
    decreases |rest|
  {
    if rest == [] || rest[0] > cursor + 1 {
      n := 0;
      assert Reach(cursor, rest) == cursor && Of(s, who) == Consumer(cursor, Idle);
      NothingNew(feed, s, who, cursor);
    } else if rest[0] <= cursor {
      n := BatchThrough(feed, s, who, cursor, rest[1..]);
    } else {
      var m := EventThrough(feed, s, who);
      var t := Drained(feed, s, who, m);
      assert Of(s, who).pc == Lookup(cursor + 1, rest[1..]);
      hide Reach, NextEvent;
      var k := BatchThrough(feed, t, who, cursor + 1, rest[1..]);
      n := m + k;
      DrainedAfter(feed, s, who, m, k);
      ReachStep(cursor, rest);
      BatchGrows(feed, s, t, Drained(feed, t, who, k), who, cursor, Reach(cursor, rest), rest[1..]);
    }
  }

  lemma ReachStep(cursor: nat, rest: seq<nat>)
    requires rest != [] && rest[0] == cursor + 1
    ensures Reach(cursor, rest) == Reach(cursor + 1, rest[1..]) && Reach(cursor, rest) >= cursor + 1
  {
    ReachGrows(cursor + 1, rest[1..]);
  }

  lemma {:induction false} ReachGrows(cursor: nat, rest: seq<nat>)
    ensures Reach(cursor, rest) >= cursor
    decreases |rest|
  {
    if rest != [] {
      ReachGrows(cursor, rest[1..]);
      ReachGrows(cursor + 1, rest[1..]);
    }
  }

  lemma NothingNew(feed: Feed, s: System, who: nat, cursor: nat)
    requires who in s.consumers && s.consumers[who] == Consumer(cursor, Idle)
    ensures BatchDone(feed, s, s, who, cursor, cursor)
  {
    assert Events(feed, cursor, cursor) == {};
    assert s.consumers[who := Consumer(cursor, Idle)] == s.consumers;
  }

  lemma BatchGrows(feed: Feed, s: System, t: System, u: System, who: nat, cursor: nat, to: nat, rest: seq<nat>)
    requires cursor + 1 <= to && EventDone(feed, s, t, who, cursor + 1, rest)
             && BatchDone(feed, t, u, who, cursor + 1, to)
    ensures BatchDone(feed, s, u, who, cursor, to)
  {
    assert Events(feed, cursor, to) == {feed(cursor + 1)} + Events(feed, cursor + 1, to);
    var first := if feed(cursor + 1) in s.records then [] else [feed(cursor + 1)];
    assert NewEvents(feed, s.records, cursor, to) == first + NewEvents(feed, t.records, cursor + 1, to);
    assert s.notified + first + NewEvents(feed, t.records, cursor + 1, to)
        == s.notified + (first + NewEvents(feed, t.records, cursor + 1, to));
  }

  /** A response without a reset, handled undisturbed: stored, announced once and checkpointed up to the first hole. */
  lemma UndisturbedPoll(feed: Feed, s: System, who: nat, b: Batch) returns (n: nat)
    requires who in s.consumers && s.consumers[who].pc == Idle && ValidBatch(b) && b.after == s.consumers[who].cursor
    requires !b.resetRequired
    ensures BatchDone(feed, s, Drained(feed, Step(feed, s, who, Respond(b)), who, n), who, b.after,
                      Reach(b.after, b.cursors))
  {
    var t := Step(feed, s, who, Respond(b));
    n := BatchThrough(feed, t, who, b.after, b.cursors);
    assert t.consumers[who := Consumer(Reach(b.after, b.cursors), Idle)]
        == s.consumers[who := Consumer(Reach(b.after, b.cursors), Idle)];
  }

  /** The consumer has recorded the gap, if it was not, and is about to read the checkpoint. */
  function GapRecorded(s: System, who: nat, b: Batch): System
    requires b.firstAvailable > 0
  {
    Put(s, who, Consumer(b.after, Read(b.firstAvailable - 1, b.cursors))).(
      gaps := s.gaps + {(b.after + 1, b.firstAvailable - 1)})
  }

  lemma GapThrough(feed: Feed, s: System, who: nat, b: Batch) returns (m: nat)
    requires who in s.consumers && s.consumers[who].pc == Idle && ValidBatch(b) && b.after == s.consumers[who].cursor
    requires b.resetRequired
    ensures Drained(feed, Step(feed, s, who, Respond(b)), who, m) == GapRecorded(s, who, b)
  {
    var gap := (b.after + 1, b.firstAvailable - 1);
    var s0 := Step(feed, s, who, Respond(b));
    assert s0 == Put(s, who, Consumer(b.after, GapLookup(b.firstAvailable, b.cursors)));
    assert Drained(feed, s0, who, 0) == s0;
    if gap in s.gaps {
      m := 1;
      assert s.gaps + {gap} == s.gaps;
    } else {
      m := 2;
      assert Drained(feed, s0, who, 1) == Put(s, who, Consumer(b.after, GapInsert(b.firstAvailable, b.cursors)));
    }
  }

  lemma GapCheckpointed(feed: Feed, s: System, who: nat, b: Batch) returns (t: System, m: nat)
    requires who in s.consumers && s.consumers[who].pc == Idle && ValidBatch(b) && b.after == s.consumers[who].cursor
    requires b.resetRequired
    ensures t == Drained(feed, Step(feed, s, who, Respond(b)), who, m)
    ensures Checkpointed(GapRecorded(s, who, b), t, who, b.firstAvailable - 1, b.cursors)
  {
    var k := GapThrough(feed, s, who, b);
    hide Step;
    ReadingThrough(feed, Step(feed, s, who, Respond(b)), who, k, GapRecorded(s, who, b));
    m := k + 2;
    hide Drained;
    t := Drained(feed, Step(feed, s, who, Respond(b)), who, m);
  }

  /** A response that asks for a reset records the gap first, and goes on right behind it. */
  lemma UndisturbedReset(feed: Feed, s: System, who: nat, b: Batch) returns (t: System, m: nat, n: nat)
    requires who in s.consumers && s.consumers[who].pc == Idle && ValidBatch(b) && b.after == s.consumers[who].cursor
    requires b.resetRequired
    ensures t == Drained(feed, Step(feed, s, who, Respond(b)), who, m)
    ensures t.gaps == s.gaps + {(b.after + 1, b.firstAvailable - 1)} && DurableCursor(t) == b.firstAvailable - 1
    ensures t.records == s.records && t.notified == s.notified
    ensures BatchDone(feed, t, Drained(feed, t, who, n), who, b.firstAvailable - 1,
                      Reach(b.firstAvailable - 1, b.cursors))
  {
    t, m := GapCheckpointed(feed, s, who, b);
    hide Step, Drained, Reach, NextEvent, BatchDone;
    n := BatchThrough(feed, t, who, b.firstAvailable - 1, b.cursors);
  }

  /** After a conflicting save a consumer goes on exactly when the durable cursor has reached its target. */
  lemma ConflictResolvedExactlyWhen(feed: Feed, s: System, who: nat)
    requires Of(s, who).pc.Verify?
    ensures var c := Of(s, who);
            Of(Step(feed, s, who, Proceed), who) ==
            if s.checkpoint.Some? && s.checkpoint.value.cursor >= c.pc.target then Advanced(c.pc.target, c.pc.rest)
            else Consumer(c.cursor, Idle)
  {
    hide NextEvent;
  }
}
