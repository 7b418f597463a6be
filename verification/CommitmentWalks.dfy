/** What polls, events, acknowledgements, snoozes and cancellations do when nothing disturbs them. */
module CommitmentWalks {
  import opened Options
  import opened Calendar
  import opened Commitments
  import opened CommitmentChanges

  /** n operations of one call in a row. */
  function Drained(s: System, call: nat, n: nat): System {
    if n == 0 then s else Step(Drained(s, call, n - 1), Resume(call))
  }

  lemma {:induction false} DrainedAfter(s: System, call: nat, m: nat, n: nat)
    ensures Drained(s, call, m + n) == Drained(Drained(s, call, m), call, n)
  {
    if n > 0 { DrainedAfter(s, call, m, n - 1); }
  }

  /** What a walk makes of one commitment it has listed. */
  ghost predicate Becomes(walk: Walk, c: Commitment, r: Commitment) {
    match walk
    case Polling(now) =>
      if !IsDue(c, now) then r == c else if PastDeadline(c, now) then Misses(c, r, now) else Announces(c, r)
    case Satisfying(key, at) =>
      if c.status == Active && c.waitKey == Some(key) then Satisfies(c, r, key, at) else r == c
    case Single => r == c
  }

  ghost predicate ToAnnounce(walk: Walk, c: Commitment) {
    walk.Polling? && IsDue(c, walk.now) && !PastDeadline(c, walk.now)
  }

  /** The system after a walk has dealt with one listed commitment. */
  ghost predicate Handled(s: System, t: System, walk: Walk, c: Commitment) {
    && t.calls == s.calls
    && c.id in s.commitments && c.id in t.commitments && Becomes(walk, c, t.commitments[c.id].record)
    && t.commitments == s.commitments[c.id := t.commitments[c.id]]
    && t.interventions == (if ToAnnounce(walk, c) then s.interventions + {(c.id, c.occurrence)} else s.interventions)
    && t.created == (if ToAnnounce(walk, c) && (c.id, c.occurrence) !in s.interventions
                     then s.created + [(c.id, c.occurrence)] else s.created)
  }

  ghost predicate Untouched(s: System, c: Commitment) {
    c.id in s.commitments && s.commitments[c.id].record == c
  }

  /** No missed recurrence of the listing runs past the end of the calendar. */
  ghost predicate GoesOn(walk: Walk, c: Commitment) {
    walk.Polling? && IsDue(c, walk.now) && PastDeadline(c, walk.now) && c.recurrence.Some? ==>
      exists next :: FirstAfter(c.dueAt.value, c.recurrence.value, walk.now, next)
  }

  lemma FetchAndSave(s: System, call: nat, base: Commitment, record: Commitment, firm: bool,
                     walk: Walk, todo: seq<Commitment>)
    requires call !in s.calls && record.id in s.commitments
    ensures var row := Stored(record, s.commitments[record.id].revision + 1);
            Drained(Put(s, call, Some(Fetching(base, record, firm, walk, todo))), call, 2) ==
            Put(s.(commitments := s.commitments[record.id := row]), call, NextCall(walk, todo))
  {
    hide NextCall;
    var s0 := Put(s, call, Some(Fetching(base, record, firm, walk, todo)));
    var s1 := Drained(s0, call, 1);
    assert s1 == Step(Drained(s0, call, 0), Resume(call));
    var saving := Saving(base, record, s.commitments[record.id].revision, firm, walk, todo);
    assert s1 == Put(s, call, Some(saving));
    assert s.calls - {call} == s.calls;
  }

  lemma ClaimStep(s: System, call: nat, c: Commitment, walk: Walk, todo: seq<Commitment>)
    requires call !in s.calls && (c.id, c.occurrence) !in s.interventions
    ensures var occasion := (c.id, c.occurrence);
            Drained(Put(s, call, Some(Claiming(c, walk, todo))), call, 1) ==
            Put(s.(interventions := s.interventions + {occasion}, created := s.created + [occasion]), call,
                Some(Fetching(c, c.(status := Due), false, walk, todo)))
  {
    hide NextCall;
    var s0 := Put(s, call, Some(Claiming(c, walk, todo)));
    assert Drained(s0, call, 0) == s0;
  }

  lemma ClaimNew(s: System, call: nat, c: Commitment, walk: Walk, todo: seq<Commitment>) returns (t: System)
    requires call !in s.calls && Untouched(s, c) && ToAnnounce(walk, c) && (c.id, c.occurrence) !in s.interventions
    ensures Handled(s, t, walk, c)
    ensures Drained(Put(s, call, Some(Claiming(c, walk, todo))), call, 3) == Put(t, call, NextCall(walk, todo))
  {
    hide NextCall, IsDue, PastDeadline, Step;
    var occasion, due := (c.id, c.occurrence), c.(status := Due);
    var s0 := Put(s, call, Some(Claiming(c, walk, todo)));
    var claimed := s.(interventions := s.interventions + {occasion}, created := s.created + [occasion]);
    t := claimed.(commitments := s.commitments[c.id := Stored(due, s.commitments[c.id].revision + 1)]);
    ClaimStep(s, call, c, walk, todo);
    FetchAndSave(claimed, call, c, due, false, walk, todo);
    DrainedAfter(s0, call, 1, 2);
    hide Drained, Put;
  }

  lemma ClaimKnown(s: System, call: nat, c: Commitment, walk: Walk, todo: seq<Commitment>) returns (t: System)
    requires call !in s.calls && Untouched(s, c) && ToAnnounce(walk, c) && (c.id, c.occurrence) in s.interventions
    ensures Handled(s, t, walk, c)
    ensures Drained(Put(s, call, Some(Claiming(c, walk, todo))), call, 4) == Put(t, call, NextCall(walk, todo))
  {
    hide NextCall, IsDue, PastDeadline, Step;
    var due := c.(status := Due);
    var s0 := Put(s, call, Some(Claiming(c, walk, todo)));
    t := s.(commitments := s.commitments[c.id := Stored(due, s.commitments[c.id].revision + 1)]);
    assert s.interventions + {(c.id, c.occurrence)} == s.interventions;
    CheckSteps(s, call, c, walk, todo);
    FetchAndSave(s, call, c, due, true, walk, todo);
    DrainedAfter(s0, call, 2, 2);
    hide Drained, Put;
  }

  lemma CheckSteps(s: System, call: nat, c: Commitment, walk: Walk, todo: seq<Commitment>)
    requires call !in s.calls && (c.id, c.occurrence) in s.interventions
    ensures Drained(Put(s, call, Some(Claiming(c, walk, todo))), call, 2) ==
            Put(s, call, Some(Fetching(c, c.(status := Due), true, walk, todo)))
  {
    hide NextCall;
    var s0 := Put(s, call, Some(Claiming(c, walk, todo)));
    assert Drained(s0, call, 1) == Put(s, call, Some(Checking(c, walk, todo))) by { assert Drained(s0, call, 0) == s0; }
  }

  lemma MissAndSave(s: System, call: nat, c: Commitment, r: Commitment, firm: bool, walk: Walk, todo: seq<Commitment>)
    returns (t: System)
    requires call !in s.calls && Untouched(s, c) && !ToAnnounce(walk, c) && Becomes(walk, c, r) && r.id == c.id
    ensures Handled(s, t, walk, c)
    ensures Drained(Put(s, call, Some(Fetching(c, r, firm, walk, todo))), call, 2) == Put(t, call, NextCall(walk, todo))
  {
    hide NextCall, Becomes, ToAnnounce;
    t := s.(commitments := s.commitments[c.id := Stored(r, s.commitments[c.id].revision + 1)]);
    FetchAndSave(s, call, c, r, firm, walk, todo);
  }

  lemma NextCallOfHead(walk: Walk, c: Commitment, rest: seq<Commitment>)
    ensures walk.Polling? ==>
              var verdict := PollVerdict(c, walk.now);
              NextCall(walk, [c] + rest) ==
              if verdict.Skip? then NextCall(walk, rest)
              else if verdict.Raise? then None
              else if verdict.Miss? then Some(Fetching(c, verdict.record, false, walk, rest))
              else Some(Claiming(c, walk, rest))
    ensures walk.Satisfying? ==>
              var satisfied := c.(dueAt := Some(walk.at), waitKey := None);
              NextCall(walk, [c] + rest) ==
              if c.status == Active && c.waitKey == Some(walk.key)
              then Some(Fetching(c, satisfied, true, walk, rest)) else NextCall(walk, rest)
  {
    assert ([c] + rest)[0] == c && ([c] + rest)[1..] == rest;
  }

  /** A walk deals with the head of its listing, and comes to the rest. */
  lemma HandleOne(s: System, call: nat, walk: Walk, c: Commitment, rest: seq<Commitment>) returns (t: System, n: nat)
    requires call !in s.calls && Untouched(s, c) && GoesOn(walk, c) && !walk.Single?
    ensures Handled(s, t, walk, c)
    ensures Drained(Put(s, call, NextCall(walk, [c] + rest)), call, n) == Put(t, call, NextCall(walk, rest))
  {
    NextCallOfHead(walk, c, rest);
    hide NextCall, PollVerdict, IsDue, PastDeadline, Misses, FirstAfter;
    t, n := s, 0;
    if walk.Polling? {
      VerdictMeans(c, walk.now);
      var verdict := PollVerdict(c, walk.now);
      if verdict.Skip? {
        HandledByNothing(s, walk, c);
      } else if verdict.Miss? {
        MissKeepsId(c, verdict.record, walk.now);
        n := 2;
        t := MissAndSave(s, call, c, verdict.record, false, walk, rest);
      } else if (c.id, c.occurrence) in s.interventions {
        n := 4;
        t := ClaimKnown(s, call, c, walk, rest);
      } else {
        n := 3;
        t := ClaimNew(s, call, c, walk, rest);
      }
    } else if c.status == Active && c.waitKey == Some(walk.key) {
      var r := c.(dueAt := Some(walk.at), waitKey := None);
      n := 2;
      t := MissAndSave(s, call, c, r, true, walk, rest);
    } else {
      HandledByNothing(s, walk, c);
    }
  }

  lemma HandledByNothing(s: System, walk: Walk, c: Commitment)
    requires Untouched(s, c) && Becomes(walk, c, c) && !ToAnnounce(walk, c)
    ensures Handled(s, s, walk, c)
  {
    assert s.commitments[c.id := s.commitments[c.id]] == s.commitments;
  }

  lemma MissKeepsId(c: Commitment, r: Commitment, now: int)
    requires Misses(c, r, now)
    ensures r.id == c.id
  {
  }

  // ----- whole walks -----

  ghost predicate IdsDiffer(todo: seq<Commitment>) {
    forall i, j :: 0 <= i < j < |todo| ==> todo[i].id != todo[j].id
  }

  ghost predicate Mentions(todo: seq<Commitment>, cid: Cid) {
    exists c :: c in todo && c.id == cid
  }

  /** Every listed commitment has become what the walk makes of it, and nothing else has changed. */
  ghost predicate WalkDone(s: System, t: System, walk: Walk, todo: seq<Commitment>) {
    && t.calls == s.calls && t.commitments.Keys == s.commitments.Keys
    && (forall c :: c in todo ==> c.id in t.commitments && Becomes(walk, c, t.commitments[c.id].record))
    && (forall cid :: cid in s.commitments && !Mentions(todo, cid) ==> t.commitments[cid] == s.commitments[cid])
    && (forall o :: o in t.interventions <==>
          o in s.interventions || exists c :: c in todo && ToAnnounce(walk, c) && o == (c.id, c.occurrence))
  }

  lemma WalkGrows(s: System, t: System, u: System, walk: Walk, c: Commitment, rest: seq<Commitment>)
    requires IdsDiffer([c] + rest) && Handled(s, t, walk, c) && WalkDone(t, u, walk, rest)
    ensures WalkDone(s, u, walk, [c] + rest)
  {
    hide Becomes, ToAnnounce;
    var todo := [c] + rest;
    assert !Mentions(rest, c.id) by {
      if d :| d in rest && d.id == c.id {
        var i :| 0 <= i < |rest| && rest[i] == d;
        assert todo[0].id != todo[i + 1].id;
      }
    }
    forall cid | cid in s.commitments && !Mentions(todo, cid) ensures u.commitments[cid] == s.commitments[cid] {
      assert c in todo;
      assert Mentions(rest, cid) ==> Mentions(todo, cid);
    }
  }

  lemma RestIsUntouched(s: System, t: System, walk: Walk, c: Commitment, rest: seq<Commitment>)
    requires IdsDiffer([c] + rest) && Handled(s, t, walk, c)
    requires forall d :: d in rest ==> Untouched(s, d)
    ensures IdsDiffer(rest) && forall d :: d in rest ==> Untouched(t, d)
  {
    hide Becomes, ToAnnounce;
    var todo := [c] + rest;
    forall i, j | 0 <= i < j < |rest| ensures rest[i].id != rest[j].id { assert todo[i + 1].id != todo[j + 1].id; }
    forall d | d in rest ensures Untouched(t, d) {
      var i :| 0 <= i < |rest| && rest[i] == d;
      assert todo[0].id != todo[i + 1].id;
    }
  }

  lemma EmptyWalk(s: System, call: nat, walk: Walk)
    requires call !in s.calls
    ensures WalkDone(s, s, walk, []) && Put(s, call, NextCall(walk, [])) == s
  {
    assert s.calls - {call} == s.calls;
  }

  lemma {:induction false} WalkThrough(s: System, call: nat, walk: Walk, todo: seq<Commitment>)
    returns (u: System, n: nat)
    requires call !in s.calls && !walk.Single? && IdsDiffer(todo)
    requires forall c :: c in todo ==> Untouched(s, c) && GoesOn(walk, c)
    ensures WalkDone(s, u, walk, todo)
    ensures Drained(Put(s, call, NextCall(walk, todo)), call, n) == u
    decreases |todo|
  {
    hide NextCall, GoesOn, Becomes, Untouched, IdsDiffer, WalkDone, Put;
    if todo == [] {
      EmptyWalk(s, call, walk);
      u, n := s, 0;
    } else {
      var c, rest := todo[0], todo[1..];
      assert todo == [c] + rest && c in todo && forall d :: d in rest ==> d in todo;
      var t, m := HandleOne(s, call, walk, c, rest);
      RestIsUntouched(s, t, walk, c, rest);
      var k: nat;
      u, k := WalkThrough(t, call, walk, rest);
      WalkGrows(s, t, u, walk, c, rest);
      n := m + k;
      hide Handled;
      DrainedAfter(Put(s, call, NextCall(walk, todo)), call, m, k);
    }
  }

  // ----- the operations -----

  /** The commitments of the given ids, in that order. */
  ghost predicate IsListing(s: System, order: seq<Cid>, todo: seq<Commitment>) {
    && (forall c :: c in todo ==> c.id in order && Untouched(s, c))
    && (forall cid :: cid in order && cid in s.commitments ==> s.commitments[cid].record in todo)
    && IdsDiffer(todo)
  }

  ghost predicate KeyedById(s: System) {
    forall cid :: cid in s.commitments ==> s.commitments[cid].record.id == cid
  }

  lemma {:induction false} ListedIsListing(s: System, order: seq<Cid>)
    requires KeyedById(s) && forall i, j :: 0 <= i < j < |order| ==> order[i] != order[j]
    ensures IsListing(s, order, Listed(s, order))
  {
    if order != [] {
      ListedIsListing(s, order[1..]);
      assert order == [order[0]] + order[1..];
      var rest := Listed(s, order[1..]);
      forall i | 0 <= i < |rest| ensures rest[i].id != order[0] {
        assert rest[i] in rest && rest[i].id in order[1..];
      }
    }
  }

  lemma RunsAreKeyed(run: Run)
    ensures KeyedById(After(run))
  {
    EveryChangeWasAsked(run);
  }

  /** What a whole poll leaves: each listed commitment announced, missed or left alone, as its times say. */
  lemma UndisturbedPoll(run: Run, call: nat, order: seq<Cid>, now: int) returns (u: System, n: nat)
    requires call !in After(run).calls && forall i, j :: 0 <= i < j < |order| ==> order[i] != order[j]
    requires forall cid :: cid in order && cid in After(run).commitments ==>
               GoesOn(Polling(now), After(run).commitments[cid].record)
    ensures u == Drained(Step(After(run), Poll(call, order, now)), call, n)
    ensures WalkDone(After(run), u, Polling(now), Listed(After(run), order))
    ensures IsListing(After(run), order, Listed(After(run), order))
  {
    RunsAreKeyed(run);
    hide After;
    var s := After(run);
    ListedIsListing(s, order);
    hide GoesOn, Becomes, NextCall, Listed;
    u, n := WalkThrough(s, call, Polling(now), Listed(s, order));
  }

  /** An event makes exactly the listed commitments that wait for it due. */
  lemma UndisturbedEvent(run: Run, call: nat, order: seq<Cid>, key: nat, at: When) returns (u: System, n: nat)
    requires call !in After(run).calls && forall i, j :: 0 <= i < j < |order| ==> order[i] != order[j]
    ensures u == Drained(Step(After(run), SatisfyEvent(call, order, key, at)), call, n)
    ensures WalkDone(After(run), u, Satisfying(key, at), Listed(After(run), order))
    ensures IsListing(After(run), order, Listed(After(run), order))
  {
    RunsAreKeyed(run);
    hide After;
    var s := After(run);
    ListedIsListing(s, order);
    hide Becomes, NextCall, Listed;
    u, n := WalkThrough(s, call, Satisfying(key, at), Listed(s, order));
  }

  /** What an operation on a single commitment leaves when it is done. */
  ghost predicate Replaced(s: System, t: System, cid: Cid, r: Commitment) {
    cid in s.commitments && t == s.(commitments := s.commitments[cid := Stored(r, s.commitments[cid].revision + 1)])
  }

  lemma ChangeThrough(s: System, call: nat, base: Commitment, record: Commitment)
    requires call !in s.calls && record.id in s.commitments
    ensures Replaced(s, Drained(Change(s, call, base, record), call, 2), record.id, record)
  {
    FetchAndSave(s, call, base, record, true, Single, []);
    var row := Stored(record, s.commitments[record.id].revision + 1);
    EmptyWalk(s.(commitments := s.commitments[record.id := row]), call, Single);
    hide Drained;
  }

  lemma UndisturbedSnooze(run: Run, call: nat, cid: Cid, until: When) returns (r: Commitment)
    requires call !in After(run).calls && cid in After(run).commitments
    ensures Snoozes(After(run).commitments[cid].record, r, until)
    ensures Replaced(After(run), Drained(Step(After(run), Snooze(call, cid, until)), call, 2), cid, r)
  {
    RunsAreKeyed(run);
    hide After;
    r := After(run).commitments[cid].record.(status := Active, dueAt := Some(until));
    ChangeThrough(After(run), call, After(run).commitments[cid].record, r);
    hide Drained;
  }

  lemma UndisturbedCancel(run: Run, call: nat, cid: Cid) returns (r: Commitment)
    requires call !in After(run).calls && cid in After(run).commitments
    ensures Cancels(After(run).commitments[cid].record, r)
    ensures Replaced(After(run), Drained(Step(After(run), Cancel(call, cid)), call, 2), cid, r)
  {
    RunsAreKeyed(run);
    hide After;
    r := After(run).commitments[cid].record.(status := Cancelled);
    ChangeThrough(After(run), call, After(run).commitments[cid].record, r);
    hide Drained;
  }

  /** An acknowledgement is refused unless the commitment awaits one and, if recurring, has a next occurrence. */
  lemma UndisturbedAcknowledge(run: Run, call: nat, cid: Cid) returns (r: Option<Commitment>)
    requires call !in After(run).calls && cid in After(run).commitments
    ensures var c := After(run).commitments[cid].record;
            r.None? <==>
              || (c.status != Due && c.status != Delivered)
              || (c.recurrence.Some? && c.dueAt.Some? && NextRecurrence(c.dueAt.value, c.recurrence.value).None?)
    ensures r.Some? ==> Acknowledges(After(run).commitments[cid].record, r.value)
    ensures var t := Step(After(run), Acknowledge(call, cid));
            if r.None? then t == After(run) else Replaced(After(run), Drained(t, call, 2), cid, r.value)
  {
    RunsAreKeyed(run);
    hide After, NextRecurrence;
    var c := After(run).commitments[cid].record;
    AcknowledgedMeans(c);
    r := Acknowledged(c);
    hide Acknowledged;
    if r.Some? { ChangeThrough(After(run), call, c, r.value); }
    hide Drained;
  }

  /** A commitment is created unless its id is taken or its recurrence has no next occurrence. */
  lemma CreatedExactlyWhen(s: System, cid: Cid, dueAt: Option<When>, deadline: Option<When>, recurrence: Option<Rule>,
                           waitKey: Option<nat>, today: When)
    ensures var start := if dueAt.Some? then dueAt.value else today;
            Step(s, Create(cid, dueAt, deadline, recurrence, waitKey, today)) ==
            if cid in s.commitments || (recurrence.Some? && NextRecurrence(start, recurrence.value).None?) then s
            else s.(commitments := s.commitments[cid :=
              Stored(Commitment(cid, Active, dueAt, deadline, recurrence, waitKey, 1, 0), 1)])
  {
    hide NextRecurrence;
  }

  // ----- conflicting saves -----

  /** A save that comes too late stores nothing; it ends a firm call, and any other goes on with its walk. */
  lemma ConflictExactlyWhen(s: System, call: nat)
    requires call in s.calls && s.calls[call].Saving?
    ensures var c, t := s.calls[call], Step(s, Resume(call));
            if c.record.id in s.commitments && s.commitments[c.record.id].revision == c.revision
            then t == Put(s, call, NextCall(c.walk, c.todo)).(
                   commitments := s.commitments[c.record.id := Stored(c.record, c.revision + 1)])
            else t == if c.firm then s.(calls := s.calls - {call}) else Put(s, call, NextCall(c.walk, c.todo))
  {
    hide NextCall;
  }

  /** Only polls go on after a conflict, and they do unless they announce what was announced before. */
  ghost predicate FirmAsAsked(s: System, c: Call) {
    && (c.Claiming? || c.Checking? ==> c.walk.Polling?)
    && ((c.Fetching? || c.Saving?) && !c.walk.Polling? ==> c.firm)
    && ((c.Fetching? || c.Saving?) && c.walk.Polling? && c.firm ==>
          Announces(c.base, c.record) && (c.base.id, c.base.occurrence) in s.interventions)
  }

  ghost predicate AllFirmAsAsked(s: System) {
    forall c :: c in s.calls ==> FirmAsAsked(s, s.calls[c])
  }

  lemma {:induction false} NextCallIsFirmAsAsked(s: System, walk: Walk, todo: seq<Commitment>)
    ensures var c := NextCall(walk, todo); c.Some? ==> FirmAsAsked(s, c.value)
  {
    hide PollVerdict;
    if todo != [] { NextCallIsFirmAsAsked(s, walk, todo[1..]); }
  }

  lemma StepKeepsFirm(s: System, input: Input)
    requires AllFirmAsAsked(s)
    ensures AllFirmAsAsked(Step(s, input))
  {
    hide NextCall, NextDue, Listed, Acknowledged;
    var t := Step(s, input);
    if input.Poll? {
      NextCallIsFirmAsAsked(t, Polling(input.now), Listed(s, input.order));
    } else if input.SatisfyEvent? {
      NextCallIsFirmAsAsked(t, Satisfying(input.key, input.at), Listed(s, input.order));
    } else if input.Resume? && input.call in s.calls {
      assert FirmAsAsked(s, s.calls[input.call]);
      NextCallIsFirmAsAsked(t, s.calls[input.call].walk, s.calls[input.call].todo);
    }
    forall c | c in t.calls ensures FirmAsAsked(t, t.calls[c]) {
      if c in s.calls { assert FirmAsAsked(s, s.calls[c]); }
    }
  }

  /** In every run, acknowledgements, snoozes, cancellations and events end when a save of theirs comes too late. */
  lemma {:induction false} OnlyPollsGoOnAfterConflicts(run: Run)
    ensures AllFirmAsAsked(After(run))
  {
    hide Step;
    if run != [] {
      OnlyPollsGoOnAfterConflicts(run[..|run| - 1]);
      StepKeepsFirm(After(run[..|run| - 1]), run[|run| - 1]);
    }
  }

  /** A poll goes on after a conflict when it is the first to announce the occasion, and not when it checks up on it. */
  lemma FirstAnnouncementGoesOn(s: System, call: nat)
    requires call in s.calls && (s.calls[call].Claiming? || s.calls[call].Checking?)
    ensures var c, t := s.calls[call], Step(s, Resume(call));
            var known := (c.base.id, c.base.occurrence) in s.interventions;
            call in t.calls && t.calls[call].Fetching? ==>
              (t.calls[call].firm <==> known) && (known <==> c.Checking?)
  {
  }
}
