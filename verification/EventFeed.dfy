/**
 * The household event consumer as a step system: one step for every await, any number of consumers
 * on one durable store, with failures, crashes and restarts between any two steps.
 */
module EventFeed {
  import opened Options

  type EventId = nat

  /** Stable numbering: the feed's event at each cursor. */
  type Feed = nat -> EventId

  datatype Batch = Batch(after: nat, firstAvailable: nat, next: nat, resetRequired: bool, cursors: seq<nat>)

  predicate ValidBatch(b: Batch) {
    && b.firstAvailable > 0
    && (forall i | 0 <= i < |b.cursors| :: b.cursors[i] > 0)
    && (forall i, j | 0 <= i < j < |b.cursors| :: b.cursors[i] < b.cursors[j])
    && (b.cursors != [] ==> b.next == b.cursors[|b.cursors| - 1])
  }

  /** Where a consumer is suspended; `rest` are the cursors of its batch still to be handled. */
  datatype Pc =
    | Down
    | Idle
    | GapLookup(first: nat, rest: seq<nat>)
    | GapInsert(first: nat, rest: seq<nat>)
    | Lookup(cursor: nat, rest: seq<nat>)
    | Insert(cursor: nat, rest: seq<nat>)
    | Notify(cursor: nat, rest: seq<nat>)
    | Read(target: nat, rest: seq<nat>)
    | Create(target: nat, rest: seq<nat>)
    | Reread(target: nat, rest: seq<nat>)
    | Save(target: nat, revision: nat, rest: seq<nat>)
    | Verify(target: nat, rest: seq<nat>)

  datatype Consumer = Consumer(cursor: nat, pc: Pc)

  datatype Checkpoint = Checkpoint(cursor: nat, revision: nat)

  /** Durable tables, the consumers, and the ghost history of `on_event` calls. */
  datatype System = System(
    checkpoint: Option<Checkpoint>,
    records: set<EventId>,
    gaps: set<(nat, nat)>,
    consumers: map<nat, Consumer>,
    notified: seq<EventId>)

  const EMPTY := System(None, {}, {}, map[], [])

  datatype Input =
    | Start(initialized: bool)
    | Respond(batch: Batch)
    | Proceed
    | Fail
    | Crash

  function Of(s: System, who: nat): Consumer {
    if who in s.consumers then s.consumers[who] else Consumer(0, Down)
  }

  function DurableCursor(s: System): nat {
    if s.checkpoint.Some? then s.checkpoint.value.cursor else 0
  }

  /** The loop head: skip cursors already passed, stop at the end or at a hole. */
  function NextEvent(cursor: nat, rest: seq<nat>): Pc {
    if rest == [] then Idle
    else if rest[0] < cursor + 1 then NextEvent(cursor, rest[1..])
    else if rest[0] == cursor + 1 then Lookup(rest[0], rest[1..])
    else Idle
  }

  function Advanced(target: nat, rest: seq<nat>): Consumer {
    Consumer(target, NextEvent(target, rest))
  }

  function Put(s: System, who: nat, c: Consumer): System {
    s.(consumers := s.consumers[who := c])
  }

  /** The next store operation of a suspended consumer, with what follows up to its next await. */
  function Resume(feed: Feed, s: System, who: nat): System {
    var c := Of(s, who);
    match c.pc
    case Down => s
    case Idle => s
    case GapLookup(first, rest) =>
      if first > 0 && (c.cursor + 1, first - 1) in s.gaps then Put(s, who, c.(pc := Read(first - 1, rest)))
      else Put(s, who, c.(pc := GapInsert(first, rest)))
    case GapInsert(first, rest) =>
      if first == 0 || (c.cursor + 1, first - 1) in s.gaps then Put(s, who, c.(pc := Idle))
      else Put(s, who, c.(pc := Read(first - 1, rest))).(gaps := s.gaps + {(c.cursor + 1, first - 1)})
    case Lookup(cursor, rest) =>
      Put(s, who, c.(pc := if feed(cursor) in s.records then Read(cursor, rest) else Insert(cursor, rest)))
    case Insert(cursor, rest) =>
      if feed(cursor) in s.records then Put(s, who, c.(pc := Idle))
      else Put(s, who, c.(pc := Notify(cursor, rest))).(records := s.records + {feed(cursor)})
    case Notify(cursor, rest) =>
      Put(s, who, c.(pc := Read(cursor, rest))).(notified := s.notified + [feed(cursor)])
    case Read(target, rest) =>
      Put(s, who, c.(pc := if s.checkpoint.None? then Create(target, rest)
                           else Save(target, s.checkpoint.value.revision, rest)))
    case Create(target, rest) =>
      if s.checkpoint.Some? then Put(s, who, c.(pc := Reread(target, rest)))
      else Put(s, who, Advanced(target, rest)).(checkpoint := Some(Checkpoint(target, 1)))
    case Reread(target, rest) =>
      Put(s, who, c.(pc := if s.checkpoint.None? then Idle else Save(target, s.checkpoint.value.revision, rest)))
    case Save(target, revision, rest) =>
      if s.checkpoint.Some? && s.checkpoint.value.revision == revision
      then Put(s, who, Advanced(target, rest)).(checkpoint := Some(Checkpoint(target, revision + 1)))
      else Put(s, who, c.(pc := Verify(target, rest)))
    case Verify(target, rest) =>
      if s.checkpoint.None? || s.checkpoint.value.cursor < target then Put(s, who, c.(pc := Idle))
      else Put(s, who, Advanced(target, rest))
  }

  function Step(feed: Feed, s: System, who: nat, input: Input): System {
    var c := Of(s, who);
    match input
    case Start(initialized) =>
      if c.pc != Down then s
      else Put(s, who, Consumer(if initialized then DurableCursor(s) else 0, Idle))
    case Respond(b) =>
      if c.pc != Idle || !ValidBatch(b) || b.after != c.cursor then s
      else if b.resetRequired then Put(s, who, c.(pc := GapLookup(b.firstAvailable, b.cursors)))
      else Put(s, who, c.(pc := NextEvent(c.cursor, b.cursors)))
    case Proceed => Resume(feed, s, who)
    case Fail => if c.pc == Down then s else Put(s, who, c.(pc := Idle))
    case Crash => Put(s, who, Consumer(0, Down))
  }

  type Run = seq<(nat, Input)>

  function After(feed: Feed, run: Run): System {
    if run == [] then EMPTY
    else
      var last := run[|run| - 1];
      Step(feed, After(feed, run[..|run| - 1]), last.0, last.1)
  }

  // ----- no event below the checkpoint is lost -----

  ghost predicate Accounted(feed: Feed, s: System, c: nat) {
    feed(c) in s.records || exists g :: g in s.gaps && g.0 <= c <= g.1
  }

  /** Every event up to n is stored or lies in a recorded gap. */
  ghost predicate Covered(feed: Feed, s: System, n: nat) {
    forall c :: 1 <= c <= n ==> Accounted(feed, s, c)
  }

  ghost predicate SafeConsumer(feed: Feed, s: System, c: Consumer) {
    && (c.pc != Down ==> Covered(feed, s, c.cursor))
    && match c.pc
       case Lookup(cursor, _) => cursor == c.cursor + 1
       case Insert(cursor, _) => cursor == c.cursor + 1
       case Notify(cursor, _) => cursor == c.cursor + 1 && feed(cursor) in s.records
       case Read(target, _) => Covered(feed, s, target)
       case Create(target, _) => Covered(feed, s, target)
       case Reread(target, _) => Covered(feed, s, target)
       case Save(target, _, _) => Covered(feed, s, target)
       case Verify(target, _) => Covered(feed, s, target)
       case _ => true
  }

  ghost predicate Safe(feed: Feed, s: System) {
    && Covered(feed, s, DurableCursor(s))
    && forall who :: SafeConsumer(feed, s, Of(s, who))
  }

  lemma CoveredGrows(feed: Feed, s: System, t: System, n: nat)
    requires Covered(feed, s, n) && s.records <= t.records && s.gaps <= t.gaps
    ensures Covered(feed, t, n)
  {
    forall c | 1 <= c <= n ensures Accounted(feed, t, c) {
      assert Accounted(feed, s, c);
    }
  }

  lemma SafeConsumerGrows(feed: Feed, s: System, t: System, c: Consumer)
    requires SafeConsumer(feed, s, c) && s.records <= t.records && s.gaps <= t.gaps
    ensures SafeConsumer(feed, t, c)
  {
    hide Covered;
    if c.pc != Down { CoveredGrows(feed, s, t, c.cursor); }
    if c.pc.Read? || c.pc.Create? || c.pc.Reread? || c.pc.Save? || c.pc.Verify? {
      CoveredGrows(feed, s, t, c.pc.target);
    }
  }

  lemma {:induction false} NextEventIsNext(cursor: nat, rest: seq<nat>)
    ensures var pc := NextEvent(cursor, rest);
            pc.Idle? || (pc.Lookup? && pc.cursor == cursor + 1)
  {
    if rest != [] && rest[0] < cursor + 1 { NextEventIsNext(cursor, rest[1..]); }
  }

  lemma CoveredNext(feed: Feed, s: System, n: nat)
    requires Covered(feed, s, n) && feed(n + 1) in s.records
    ensures Covered(feed, s, n + 1)
  {
    forall c | 1 <= c <= n + 1 ensures Accounted(feed, s, c) {
      if c <= n { assert Accounted(feed, s, c); }
    }
  }

  lemma CoveredByGap(feed: Feed, s: System, n: nat, m: nat)
    requires Covered(feed, s, n) && (n + 1, m) in s.gaps
    ensures Covered(feed, s, m)
  {
    forall c | 1 <= c <= m ensures Accounted(feed, s, c) {
      if c <= n { assert Accounted(feed, s, c); } else { assert (n + 1, m).0 <= c <= (n + 1, m).1; }
    }
  }

  /** The resumed consumer stays safe, and so does the checkpoint it may write. */
  lemma ResumeKeepsSafe(feed: Feed, s: System, who: nat)
    requires Safe(feed, s)
    ensures var t := Resume(feed, s, who);
            s.records <= t.records && s.gaps <= t.gaps
            && SafeConsumer(feed, t, Of(t, who)) && Covered(feed, t, DurableCursor(t))
  {
    hide Covered, NextEvent;
    var c, t := Of(s, who), Resume(feed, s, who);
    assert SafeConsumer(feed, s, c);
    NextEventIsNext(if c.pc.Read? || c.pc.Create? || c.pc.Reread? || c.pc.Save? || c.pc.Verify? then c.pc.target else 0,
                    if c.pc.Down? || c.pc.Idle? then [] else c.pc.rest);
    CoveredGrows(feed, s, t, DurableCursor(s));
    if c.pc != Down { CoveredGrows(feed, s, t, c.cursor); }
    if c.pc.Read? || c.pc.Create? || c.pc.Reread? || c.pc.Save? || c.pc.Verify? {
      CoveredGrows(feed, s, t, c.pc.target);
    }
    if (c.pc.Lookup? || c.pc.Notify?) && feed(c.cursor + 1) in t.records {
      CoveredNext(feed, t, c.cursor);
    }
    if (c.pc.GapLookup? || c.pc.GapInsert?) && c.pc.first > 0 && (c.cursor + 1, c.pc.first - 1) in t.gaps {
      CoveredByGap(feed, t, c.cursor, c.pc.first - 1);
    }
  }

  lemma StepKeepsSafe(feed: Feed, s: System, who: nat, input: Input)
    requires Safe(feed, s)
    ensures Safe(feed, Step(feed, s, who, input))
  {
    hide Covered, Resume;
    var c, t := Of(s, who), Step(feed, s, who, input);
    assert SafeConsumer(feed, s, c);
    if input == Proceed {
      ResumeKeepsSafe(feed, s, who);
      ResumeTouchesOne(feed, s, who);
    } else {
      CoveredGrows(feed, s, t, DurableCursor(s));
      CoveredNothing(feed, t);
      if input.Respond? { NextEventIsNext(c.cursor, input.batch.cursors); }
      SafeConsumerGrows(feed, s, t, c);
    }
    forall other ensures SafeConsumer(feed, t, Of(t, other)) {
      assert SafeConsumer(feed, s, Of(s, other));
      if other != who { SafeConsumerGrows(feed, s, t, Of(s, other)); }
    }
  }

  lemma CoveredNothing(feed: Feed, s: System)
    ensures Covered(feed, s, 0)
  {
  }

  lemma ResumeTouchesOne(feed: Feed, s: System, who: nat)
    ensures forall other :: other != who ==> Of(Resume(feed, s, who), other) == Of(s, other)
  {
  }

  /** In every run, each event up to the durable checkpoint is stored or lies in a recorded gap. */
  lemma {:induction false} NothingIsLost(feed: Feed, run: Run)
    ensures Safe(feed, After(feed, run))
    ensures Covered(feed, After(feed, run), DurableCursor(After(feed, run)))
  {
    if run != [] {
      NothingIsLost(feed, run[..|run| - 1]);
      var last := run[|run| - 1];
      StepKeepsSafe(feed, After(feed, run[..|run| - 1]), last.0, last.1);
    }
  }
}
