/**
 * Commitments as a step system: polling, events, acknowledgement, snoozing and cancelling, with one
 * step for every store operation, any interleaving of calls, and crashes in between.
 */
module Commitments {
  import opened Options
  import opened Calendar

  type Cid = nat

  /** A valid point in time. */
  type When = m: Moment | ValidMoment(m) witness Moment(Date(1, 1, 1), 0)

  datatype Status = Active | Due | Delivered | Completed | Cancelled | Missed

  datatype Commitment = Commitment(
    id: Cid, status: Status, dueAt: Option<When>, deadline: Option<When>, recurrence: Option<Rule>,
    waitKey: Option<nat>, occurrence: nat, missed: nat)

  datatype Stored = Stored(record: Commitment, revision: nat)

  /** Why a list of commitments is being walked. */
  datatype Walk = Polling(now: int) | Satisfying(key: nat, at: When) | Single

  /**
   * A call suspended at a store operation. `todo` is the rest of the listing it walks, `base` the
   * record its change was computed from, and `firm` whether a conflict ends the call.
   */
  datatype Call =
    | Claiming(base: Commitment, walk: Walk, todo: seq<Commitment>)
    | Checking(base: Commitment, walk: Walk, todo: seq<Commitment>)
    | Fetching(base: Commitment, record: Commitment, firm: bool, walk: Walk, todo: seq<Commitment>)
    | Saving(base: Commitment, record: Commitment, revision: nat, firm: bool, walk: Walk, todo: seq<Commitment>)

  type Occasion = (Cid, nat)

  /** Durable tables, suspended calls, and the ghost history of interventions created. */
  datatype System = System(
    commitments: map<Cid, Stored>, interventions: set<Occasion>, calls: map<nat, Call>, created: seq<Occasion>)

  const EMPTY := System(map[], {}, map[], [])

  datatype Input =
    | Create(cid: Cid, dueAt: Option<When>, deadline: Option<When>, recurrence: Option<Rule>, waitKey: Option<nat>,
             today: When)
    | Poll(call: nat, order: seq<Cid>, now: int)
    | SatisfyEvent(call: nat, order: seq<Cid>, key: nat, at: When)
    | Acknowledge(call: nat, cid: Cid)
    | Snooze(call: nat, cid: Cid, until: When)
    | Cancel(call: nat, cid: Cid)
    | Resume(call: nat)
    | Drop(call: nat)
    | Crash

  function NextDue(due: When, rule: Rule): (r: Option<When>)
    ensures r.Some? ==> Instant(r.value) > Instant(due)
  {
    var next := NextRecurrence(due, rule);
    if next.None? then None else
      RecurrenceIsLater(due, rule);
      Some(next.value)
  }

  function CaughtUpDue(due: When, rule: Rule, now: int): (r: Option<When>)
    ensures r.Some? ==> Instant(r.value) > now
  {
    var next := CaughtUp(due, rule, now);
    if next.None? then None else Some(next.value)
  }

  /** What a poll does about one listed commitment. */
  datatype Verdict = Skip | Claim | Miss(record: Commitment) | Raise

  function PollVerdict(c: Commitment, now: int): Verdict {
    if c.status != Active || c.dueAt.None? || Instant(c.dueAt.value) > now then Skip
    else if c.deadline.Some? && Instant(c.deadline.value) < now then
      if c.recurrence.None? then Miss(c.(status := Missed, missed := c.missed + 1))
      else
        var next := CaughtUpDue(c.dueAt.value, c.recurrence.value, now);
        if next.None? then Raise
        else Miss(c.(missed := c.missed + 1, dueAt := next, deadline := None, occurrence := c.occurrence + 1))
    else Claim
  }

  /** The next store operation of a walk over listed commitments; None when the call ends. */
  function NextCall(walk: Walk, todo: seq<Commitment>): Option<Call> {
    if todo == [] then None
    else
      var c, rest := todo[0], todo[1..];
      match walk
      case Polling(now) =>
        (match PollVerdict(c, now)
         case Skip => NextCall(walk, rest)
         case Raise => None
         case Miss(record) => Some(Fetching(c, record, false, walk, rest))
         case Claim => Some(Claiming(c, walk, rest)))
      case Satisfying(key, at) =>
        if c.status == Active && c.waitKey == Some(key)
        then Some(Fetching(c, c.(dueAt := Some(at), waitKey := None), true, walk, rest))
        else NextCall(walk, rest)
      case Single => None
  }

  function Put(s: System, call: nat, c: Option<Call>): System {
    if c.Some? then s.(calls := s.calls[call := c.value]) else s.(calls := s.calls - {call})
  }

  function Listed(s: System, order: seq<Cid>): seq<Commitment> {
    if order == [] then []
    else (if order[0] in s.commitments then [s.commitments[order[0]].record] else []) + Listed(s, order[1..])
  }

  /** One store operation, and what its call does before the next. */
  function Continue(s: System, call: nat): System
    requires call in s.calls
  {
    match s.calls[call]
    case Claiming(base, walk, todo) =>
      var occasion := (base.id, base.occurrence);
      if occasion in s.interventions then Put(s, call, Some(Checking(base, walk, todo)))
      else
        Put(s, call, Some(Fetching(base, base.(status := Due), false, walk, todo)))
          .(interventions := s.interventions + {occasion}, created := s.created + [occasion])
    case Checking(base, walk, todo) =>
      if (base.id, base.occurrence) !in s.interventions then Put(s, call, None)
      else Put(s, call, Some(Fetching(base, base.(status := Due), true, walk, todo)))
    case Fetching(base, record, firm, walk, todo) =>
      if record.id !in s.commitments then Put(s, call, None)
      else Put(s, call, Some(Saving(base, record, s.commitments[record.id].revision, firm, walk, todo)))
    case Saving(base, record, revision, firm, walk, todo) =>
      if record.id in s.commitments && s.commitments[record.id].revision == revision then
        Put(s, call, NextCall(walk, todo)).(commitments := s.commitments[record.id := Stored(record, revision + 1)])
      else Put(s, call, if firm then None else NextCall(walk, todo))
  }

  function Change(s: System, call: nat, base: Commitment, record: Commitment): System {
    Put(s, call, Some(Fetching(base, record, true, Single, [])))
  }

  /** The change an acknowledgement computes; None where the source raises. */
  function Acknowledged(c: Commitment): Option<Commitment> {
    if c.status != Due && c.status != Delivered then None
    else if c.recurrence.Some? && c.dueAt.Some? then
      var next := NextDue(c.dueAt.value, c.recurrence.value);
      if next.None? then None
      else Some(c.(status := Active, dueAt := next, deadline := None, occurrence := c.occurrence + 1))
    else Some(c.(status := Completed))
  }

  function Step(s: System, input: Input): System {
    match input
    case Create(cid, dueAt, deadline, recurrence, waitKey, today) =>
      if cid in s.commitments then s
      else if recurrence.Some? && NextDue(if dueAt.Some? then dueAt.value else today, recurrence.value).None? then s
      else
        var c := Commitment(cid, Active, dueAt, deadline, recurrence, waitKey, 1, 0);
        s.(commitments := s.commitments[cid := Stored(c, 1)])
    case Poll(call, order, now) =>
      if call in s.calls then s else Put(s, call, NextCall(Polling(now), Listed(s, order)))
    case SatisfyEvent(call, order, key, at) =>
      if call in s.calls then s else Put(s, call, NextCall(Satisfying(key, at), Listed(s, order)))
    case Acknowledge(call, cid) =>
      if call in s.calls || cid !in s.commitments then s
      else
        var base := s.commitments[cid].record;
        var record := Acknowledged(base);
        if record.None? then s else Change(s, call, base, record.value)
    case Snooze(call, cid, until) =>
      if call in s.calls || cid !in s.commitments then s
      else
        var base := s.commitments[cid].record;
        Change(s, call, base, base.(status := Active, dueAt := Some(until)))
    case Cancel(call, cid) =>
      if call in s.calls || cid !in s.commitments then s
      else
        var base := s.commitments[cid].record;
        Change(s, call, base, base.(status := Cancelled))
    case Resume(call) => if call in s.calls then Continue(s, call) else s
    case Drop(call) => s.(calls := s.calls - {call})
    case Crash => s.(calls := map[])
  }

  type Run = seq<Input>

  function After(run: Run): System {
    if run == [] then EMPTY else Step(After(run[..|run| - 1]), run[|run| - 1])
  }

  // ----- a due commitment has its intervention, and never two -----

  ghost predicate Announced(s: System, c: Commitment) {
    c.status == Due ==> (c.id, c.occurrence) in s.interventions
  }

  /** What a suspended call is about to store. */
  ghost predicate AnnouncedCall(s: System, c: Call) {
    (c.Fetching? || c.Saving?) ==> Announced(s, c.record)
  }

  ghost predicate DueIsAnnounced(s: System) {
    && (forall cid :: cid in s.commitments ==> Announced(s, s.commitments[cid].record))
    && (forall c :: c in s.calls ==> AnnouncedCall(s, s.calls[c]))
    && (forall o :: o in s.created <==> o in s.interventions)
    && (forall i, j :: 0 <= i < j < |s.created| ==> s.created[i] != s.created[j])
  }

  lemma {:induction false} NextCallIsAnnounced(s: System, walk: Walk, todo: seq<Commitment>)
    ensures var c := NextCall(walk, todo); c.Some? ==> AnnouncedCall(s, c.value)
  {
    hide CaughtUpDue;
    if todo != [] { NextCallIsAnnounced(s, walk, todo[1..]); }
  }

  lemma ContinueKeepsAnnounced(s: System, call: nat)
    requires DueIsAnnounced(s) && call in s.calls
    ensures DueIsAnnounced(Continue(s, call))
  {
    hide NextCall;
    var t := Continue(s, call);
    assert AnnouncedCall(s, s.calls[call]);
    NextCallIsAnnounced(t, s.calls[call].walk, s.calls[call].todo);
    forall c | c in t.calls ensures AnnouncedCall(t, t.calls[c]) {
      if c in s.calls { assert AnnouncedCall(s, s.calls[c]); }
    }
    forall cid | cid in t.commitments ensures Announced(t, t.commitments[cid].record) {
      if cid in s.commitments { assert Announced(s, s.commitments[cid].record); }
    }
  }

  lemma StepKeepsAnnounced(s: System, input: Input)
    requires DueIsAnnounced(s)
    ensures DueIsAnnounced(Step(s, input))
  {
    hide NextCall, NextDue, Listed, Continue;
    var t := Step(s, input);
    if input.Poll? {
      NextCallIsAnnounced(s, Polling(input.now), Listed(s, input.order));
    } else if input.SatisfyEvent? {
      NextCallIsAnnounced(s, Satisfying(input.key, input.at), Listed(s, input.order));
    } else if input.Resume? && input.call in s.calls {
      ContinueKeepsAnnounced(s, input.call);
    }
    forall c | c in t.calls ensures AnnouncedCall(t, t.calls[c]) {
      if c in s.calls { assert AnnouncedCall(s, s.calls[c]); }
    }
    forall cid | cid in t.commitments ensures Announced(t, t.commitments[cid].record) {
      if cid in s.commitments { assert Announced(s, s.commitments[cid].record); }
    }
  }

  /**
   * In every run, stale saves and crashes included, a stored commitment that is due has an
   * intervention for its occurrence, and no occurrence ever gets a second one.
   */
  lemma {:induction false} DueHasExactlyOneIntervention(run: Run)
    ensures DueIsAnnounced(After(run))
  {
    if run != [] {
      DueHasExactlyOneIntervention(run[..|run| - 1]);
      StepKeepsAnnounced(After(run[..|run| - 1]), run[|run| - 1]);
    }
  }

  // ----- occurrences -----

  function Occurrence(s: System, cid: Cid): nat {
    if cid in s.commitments then s.commitments[cid].record.occurrence else 0
  }

  /** The save about to happen replaces a record other than the one its change was computed from. */
  predicate StaleSave(s: System, input: Input) {
    && input.Resume? && input.call in s.calls && s.calls[input.call].Saving?
    && var c := s.calls[input.call];
       && c.record.id in s.commitments && s.commitments[c.record.id].revision == c.revision
       && s.commitments[c.record.id].record != c.base
  }

  /** A change keeps its commitment and moves it on by at most one occurrence. */
  predicate Forward(base: Commitment, record: Commitment) {
    record.id == base.id && base.occurrence <= record.occurrence <= base.occurrence + 1
  }

  ghost predicate ForwardCall(c: Call) {
    c.Fetching? || c.Saving? ==> Forward(c.base, c.record)
  }

  lemma {:induction false} NextCallIsForward(walk: Walk, todo: seq<Commitment>)
    ensures var c := NextCall(walk, todo); c.Some? ==> ForwardCall(c.value)
  {
    hide CaughtUpDue;
    if todo != [] { NextCallIsForward(walk, todo[1..]); }
  }

  ghost predicate CallsAreForward(s: System) {
    forall c :: c in s.calls ==> ForwardCall(s.calls[c])
  }

  lemma StepIsForward(s: System, input: Input, cid: Cid)
    requires CallsAreForward(s)
    ensures CallsAreForward(Step(s, input))
    ensures !StaleSave(s, input) ==> Occurrence(s, cid) <= Occurrence(Step(s, input), cid) <= Occurrence(s, cid) + 1
  {
    hide NextCall, NextDue, Listed;
    var t := Step(s, input);
    if input.Poll? {
      NextCallIsForward(Polling(input.now), Listed(s, input.order));
    } else if input.SatisfyEvent? {
      NextCallIsForward(Satisfying(input.key, input.at), Listed(s, input.order));
    } else if input.Resume? && input.call in s.calls {
      assert ForwardCall(s.calls[input.call]);
      NextCallIsForward(s.calls[input.call].walk, s.calls[input.call].todo);
    }
  }

  ghost predicate NeverStale(run: Run) {
    forall i :: 0 <= i < |run| ==> !StaleSave(After(run[..i]), run[i])
  }

  lemma {:induction false} RunsAreForward(run: Run)
    ensures CallsAreForward(After(run))
  {
    if run != [] {
      RunsAreForward(run[..|run| - 1]);
      StepIsForward(After(run[..|run| - 1]), run[|run| - 1], 0);
    }
  }

  /** Without stale saves a commitment only ever moves on, one occurrence at a time. */
  lemma OccurrencesAdvanceWithoutStaleSaves(run: Run, n: nat, cid: Cid)
    requires NeverStale(run) && n < |run|
    ensures Occurrence(After(run[..n]), cid) <= Occurrence(After(run[..n + 1]), cid)
              <= Occurrence(After(run[..n]), cid) + 1
  {
    RunsAreForward(run[..n]);
    assert run[..n + 1][..n] == run[..n];
    StepIsForward(After(run[..n]), run[n], cid);
  }

  /** Only a save over the current revision can take a commitment back. */
  lemma SaveGoesBackExactlyWhen(s: System, input: Input, cid: Cid)
    ensures Occurrence(Step(s, input), cid) < Occurrence(s, cid) <==>
              && input.Resume? && input.call in s.calls && s.calls[input.call].Saving? && cid in s.commitments
              && s.calls[input.call].record.id == cid && s.calls[input.call].revision == s.commitments[cid].revision
              && s.calls[input.call].record.occurrence < s.commitments[cid].record.occurrence
  {
    hide NextCall, NextDue, Listed, Acknowledged;
  }

  /** A later row of a commitment has a higher revision or is the same. */
  ghost predicate NoEarlierThan(before: System, after: System, cid: Cid) {
    cid in before.commitments ==>
      && cid in after.commitments
      && (after.commitments[cid] == before.commitments[cid]
          || after.commitments[cid].revision > before.commitments[cid].revision)
  }

  lemma StepKeepsRevisions(s: System, input: Input, cid: Cid)
    ensures NoEarlierThan(s, Step(s, input), cid)
  {
    hide NextCall, NextDue, Listed, Acknowledged;
  }

  lemma {:induction false} RevisionsOnlyGrow(run: Run, m: nat, cid: Cid)
    requires m <= |run|
    ensures NoEarlierThan(After(run[..m]), After(run), cid)
  {
    hide Step;
    if m == |run| {
      assert run[..m] == run;
    } else {
      var init := run[..|run| - 1];
      assert init[..m] == run[..m];
      RevisionsOnlyGrow(init, m, cid);
      StepKeepsRevisions(After(init), run[|run| - 1], cid);
    }
  }

  /** At step m the call fetches `seen`, the row that the record it is about to save will replace. */
  ghost predicate FetchesAt(run: Run, m: nat, call: nat, base: Commitment, record: Commitment, seen: Stored) {
    && m < |run| && run[m] == Resume(call)
    && var s := After(run[..m]);
       && call in s.calls && s.calls[call].Fetching? && s.calls[call].base == base && s.calls[call].record == record
       && record.id in s.commitments && s.commitments[record.id] == seen
  }

  lemma {:induction false} NextCallIsNoSave(walk: Walk, todo: seq<Commitment>)
    ensures var c := NextCall(walk, todo); c.Some? ==> !c.value.Saving?
  {
    hide CaughtUpDue;
    if todo != [] { NextCallIsNoSave(walk, todo[1..]); }
  }

  lemma StepBecomesSave(s: System, input: Input, call: nat)
    requires call in Step(s, input).calls && Step(s, input).calls[call].Saving?
    ensures var c := Step(s, input).calls[call];
            && call in s.calls
            && (s.calls[call] == c ||
                (input == Resume(call) && s.calls[call].Fetching? && s.calls[call].base == c.base
                 && s.calls[call].record == c.record && c.record.id in s.commitments
                 && s.commitments[c.record.id].revision == c.revision))
  {
    hide NextCall, NextDue, Listed, Acknowledged;
    if input.Poll? {
      NextCallIsNoSave(Polling(input.now), Listed(s, input.order));
    } else if input.SatisfyEvent? {
      NextCallIsNoSave(Satisfying(input.key, input.at), Listed(s, input.order));
    } else if input.Resume? && input.call in s.calls {
      NextCallIsNoSave(s.calls[input.call].walk, s.calls[input.call].todo);
    }
  }

  /** A call that is about to save has fetched the row whose revision it presents. */
  lemma {:induction false} SaverHasFetched(run: Run, call: nat) returns (m: nat, seen: Stored)
    requires call in After(run).calls && After(run).calls[call].Saving?
    ensures var c := After(run).calls[call];
            FetchesAt(run, m, call, c.base, c.record, seen) && seen.revision == c.revision
  {
    hide Step;
    var init, last := run[..|run| - 1], run[|run| - 1];
    var s, c := After(init), After(run).calls[call];
    StepBecomesSave(s, last, call);
    if s.calls[call] == c {
      m, seen := SaverHasFetched(init, call);
      assert init[..m] == run[..m] && init[m] == run[m];
    } else {
      m, seen := |run| - 1, s.commitments[c.record.id];
    }
  }

  /** What a call is about to save goes back behind a row that it has itself fetched. */
  ghost predicate OverlooksFetched(run: Run, call: nat, c: Call)
    requires c.Saving?
  {
    exists m, seen ::
      && FetchesAt(run, m, call, c.base, c.record, seen) && seen.revision == c.revision
      && c.record.occurrence < seen.record.occurrence
  }

  /**
   * A commitment goes back exactly when a call saves although the row it fetched for that save was
   * already past its record, and nobody has written the row since. The record the call had listed
   * before was then out of date, by at least one occurrence.
   */
  lemma OccurrenceGoesBackExactlyWhen(run: Run, input: Input, cid: Cid)
    ensures var s, t := After(run), After(run + [input]);
            && (Occurrence(t, cid) < Occurrence(s, cid) <==>
                  && input.Resume? && input.call in s.calls && s.calls[input.call].Saving? && cid in s.commitments
                  && s.calls[input.call].record.id == cid
                  && s.calls[input.call].revision == s.commitments[cid].revision
                  && OverlooksFetched(run, input.call, s.calls[input.call]))
            && (Occurrence(t, cid) < Occurrence(s, cid) ==>
                  s.calls[input.call].base.occurrence < Occurrence(s, cid))
  {
    var s := After(run);
    assert (run + [input])[..|run|] == run;
    SaveGoesBackExactlyWhen(s, input, cid);
    hide Step, After;
    if input.Resume? && input.call in s.calls && s.calls[input.call].Saving? {
      var c := s.calls[input.call];
      var m, seen := SaverHasFetched(run, input.call);
      RunsAreForward(run);
      assert ForwardCall(c);
      forall m, seen | FetchesAt(run, m, input.call, c.base, c.record, seen)
        ensures c.record.id in s.commitments
        ensures s.commitments[c.record.id] == seen || s.commitments[c.record.id].revision > seen.revision
      {
        RevisionsOnlyGrow(run, m, c.record.id);
      }
    }
  }

  // ----- a run with a stale save -----

  function Script(inputs: nat -> Input, n: nat): Run {
    if n == 0 then [] else Script(inputs, n - 1) + [inputs(n - 1)]
  }

  lemma ScriptStep(inputs: nat -> Input, n: nat)
    ensures After(Script(inputs, n + 1)) == Step(After(Script(inputs, n)), inputs(n))
  {
    assert Script(inputs, n + 1)[..|Script(inputs, n)|] == Script(inputs, n);
  }

  const NEW_YEAR: When := Moment(Date(2024, 1, 1), 0)
  const EVERY_DAY := Rule(Daily, 1)

  /** Two polls list the commitment; the first announces it and it is acknowledged before the second goes on. */
  function StalePoll(n: nat): Input {
    if n == 0 then Create(0, Some(NEW_YEAR), None, Some(EVERY_DAY), None, NEW_YEAR)
    else if n == 1 then Poll(0, [0], Instant(NEW_YEAR))
    else if n == 2 then Poll(1, [0], Instant(NEW_YEAR))
    else if n < 6 then Resume(0)
    else if n == 6 then Acknowledge(2, 0)
    else if n < 9 then Resume(2)
    else Resume(1)
  }

  const LISTED := Commitment(0, Active, Some(NEW_YEAR), None, Some(EVERY_DAY), None, 1, 0)

  lemma EveryDayGoesOn()
    ensures NextDue(NEW_YEAR, EVERY_DAY).Some?
  {
    assert PlusDays(Date(2024, 1, 1), 1) == Some(Date(2024, 1, 2));
  }

  lemma BothPollsClaim()
    ensures var s, w := After(Script(StalePoll, 3)), Polling(Instant(NEW_YEAR));
            s.commitments == map[0 := Stored(LISTED, 1)] && s.interventions == {}
            && s.calls == map[0 := Claiming(LISTED, w, []), 1 := Claiming(LISTED, w, [])]
  {
    assert After(Script(StalePoll, 0)) == EMPTY;
    EveryDayGoesOn();
    hide After, Script, Instant, NextDue;
    ScriptStep(StalePoll, 0);
    ScriptStep(StalePoll, 1);
    var s := After(Script(StalePoll, 1));
    assert s.commitments == map[0 := Stored(LISTED, 1)];
    assert Listed(s, [0]) == [LISTED] by { assert Listed(s, [0][1..]) == []; }
    assert NextCall(Polling(Instant(NEW_YEAR)), [LISTED]) == Some(Claiming(LISTED, Polling(Instant(NEW_YEAR)), []));
    var t := After(Script(StalePoll, 2));
    assert Listed(t, [0]) == [LISTED] by { assert Listed(t, [0][1..]) == []; }
    ScriptStep(StalePoll, 2);
  }

  lemma FirstPollAnnounces()
    ensures var s, w := After(Script(StalePoll, 6)), Polling(Instant(NEW_YEAR));
            s.commitments == map[0 := Stored(LISTED.(status := Due), 2)] && s.interventions == {(0, 1)}
            && s.calls == map[1 := Claiming(LISTED, w, [])]
  {
    hide After, Script, Instant, NextDue;
    var w := Polling(Instant(NEW_YEAR));
    BothPollsClaim();
    ScriptStep(StalePoll, 3);
    var s := After(Script(StalePoll, 4));
    assert s.calls == map[0 := Fetching(LISTED, LISTED.(status := Due), false, w, []), 1 := Claiming(LISTED, w, [])];
    ScriptStep(StalePoll, 4);
    var t := After(Script(StalePoll, 5));
    assert t.calls == map[0 := Saving(LISTED, LISTED.(status := Due), 1, false, w, []), 1 := Claiming(LISTED, w, [])];
    ScriptStep(StalePoll, 5);
  }

  lemma AcknowledgementAdvances()
    ensures var s, w := After(Script(StalePoll, 9)), Polling(Instant(NEW_YEAR));
            && Occurrence(s, 0) == 2 && s.interventions == {(0, 1)}
            && s.commitments.Keys == {0} && s.calls == map[1 := Claiming(LISTED, w, [])]
  {
    EveryDayGoesOn();
    hide After, Script, Instant, NextDue;
    FirstPollAnnounces();
    ScriptStep(StalePoll, 6);
    ScriptStep(StalePoll, 7);
    ScriptStep(StalePoll, 8);
  }

  /** The second poll finds its intervention taken, and saves the old listing: occurrence 2 becomes 1 again. */
  lemma StaleSaveGoesBack()
    ensures Occurrence(After(Script(StalePoll, 9)), 0) == 2
    ensures Occurrence(After(Script(StalePoll, 13)), 0) == 1
  {
    hide After, Script, Instant, NextDue;
    AcknowledgementAdvances();
    ScriptStep(StalePoll, 9);
    ScriptStep(StalePoll, 10);
    ScriptStep(StalePoll, 11);
    ScriptStep(StalePoll, 12);
  }
}
