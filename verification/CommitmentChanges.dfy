/** Where every stored commitment and every announcement comes from, in every run. */
module CommitmentChanges {
  import opened Options
  import opened Calendar
  import opened Commitments

  // ----- what each operation may do to a commitment -----

  predicate IsDue(c: Commitment, now: int) {
    c.status == Active && c.dueAt.Some? && Instant(c.dueAt.value) <= now
  }

  predicate PastDeadline(c: Commitment, now: int) {
    c.deadline.Some? && Instant(c.deadline.value) < now
  }

  /** A missed commitment counts the miss; a recurring one moves on to its first occurrence after now. */
  ghost predicate Misses(c: Commitment, r: Commitment, now: int) {
    if c.recurrence.None? then
      r == Commitment(c.id, Missed, c.dueAt, c.deadline, None, c.waitKey, c.occurrence, c.missed + 1)
    else
      c.dueAt.Some? && exists next ::
        && FirstAfter(c.dueAt.value, c.recurrence.value, now, next)
        && r == Commitment(c.id, c.status, Some(next), None, c.recurrence, c.waitKey, c.occurrence + 1, c.missed + 1)
  }

  ghost predicate Announces(c: Commitment, r: Commitment) {
    r == Commitment(c.id, Due, c.dueAt, c.deadline, c.recurrence, c.waitKey, c.occurrence, c.missed)
  }

  /** An acknowledged recurring commitment waits for its next occurrence; any other is completed. */
  ghost predicate Acknowledges(c: Commitment, r: Commitment) {
    && (c.status == Due || c.status == Delivered)
    && if c.recurrence.Some? && c.dueAt.Some?
       then exists next ::
              && NextRecurrence(c.dueAt.value, c.recurrence.value) == Some(next)
              && r == Commitment(c.id, Active, Some(next), None, c.recurrence, c.waitKey, c.occurrence + 1, c.missed)
       else r == Commitment(c.id, Completed, c.dueAt, c.deadline, c.recurrence, c.waitKey, c.occurrence, c.missed)
  }

  ghost predicate Snoozes(c: Commitment, r: Commitment, until: When) {
    r == Commitment(c.id, Active, Some(until), c.deadline, c.recurrence, c.waitKey, c.occurrence, c.missed)
  }

  ghost predicate Cancels(c: Commitment, r: Commitment) {
    r == Commitment(c.id, Cancelled, c.dueAt, c.deadline, c.recurrence, c.waitKey, c.occurrence, c.missed)
  }

  ghost predicate Satisfies(c: Commitment, r: Commitment, key: nat, at: When) {
    && c.status == Active && c.waitKey == Some(key)
    && r == Commitment(c.id, Active, Some(at), c.deadline, c.recurrence, None, c.occurrence, c.missed)
  }

  ghost predicate Starts(c: Commitment, dueAt: Option<When>, deadline: Option<When>, recurrence: Option<Rule>,
                         waitKey: Option<nat>) {
    c == Commitment(c.id, Active, dueAt, deadline, recurrence, waitKey, 1, 0)
  }

  // ----- and who asked for it -----

  ghost predicate StoredAt(run: Run, m: nat, c: Commitment) {
    && m < |run|
    && var s := After(run[..m]); c.id in s.commitments && s.commitments[c.id].record == c
  }

  /** Step m starts a poll that lists the commitment, due and within its deadline. */
  ghost predicate PollsDue(run: Run, m: nat, c: Commitment) {
    && StoredAt(run, m, c) && run[m].Poll? && c.id in run[m].order
    && IsDue(c, run[m].now) && !PastDeadline(c, run[m].now)
  }

  /** Step m starts an operation that turns the commitment it reads into the record. */
  ghost predicate Asks(run: Run, m: nat, c: Commitment, r: Commitment) {
    && StoredAt(run, m, c)
    && match run[m]
       case Poll(_, order, now) =>
         && c.id in order && IsDue(c, now)
         && if PastDeadline(c, now) then Misses(c, r, now) else Announces(c, r)
       case SatisfyEvent(_, order, key, at) => c.id in order && Satisfies(c, r, key, at)
       case Acknowledge(_, cid) => c.id == cid && Acknowledges(c, r)
       case Snooze(_, cid, until) => c.id == cid && Snoozes(c, r, until)
       case Cancel(_, cid) => c.id == cid && Cancels(c, r)
       case _ => false
  }

  ghost predicate Asked(run: Run, c: Commitment, r: Commitment) {
    exists m: nat :: Asks(run, m, c, r)
  }

  ghost predicate PolledDue(run: Run, c: Commitment) {
    exists m: nat :: PollsDue(run, m, c)
  }

  ghost predicate Created(run: Run, c: Commitment) {
    exists m: nat :: m < |run| && run[m].Create? && run[m].cid == c.id
                     && Starts(c, run[m].dueAt, run[m].deadline, run[m].recurrence, run[m].waitKey)
  }

  /** The rest of a listing was stored when step m of the run started the walk over it. */
  ghost predicate Lists(run: Run, m: nat, walk: Walk, todo: seq<Commitment>) {
    && m < |run|
    && (forall c :: c in todo ==> StoredAt(run, m, c))
    && match walk
       case Polling(now) => run[m].Poll? && run[m].now == now && forall c :: c in todo ==> c.id in run[m].order
       case Satisfying(key, at) =>
         run[m].SatisfyEvent? && run[m].key == key && run[m].at == at && forall c :: c in todo ==> c.id in run[m].order
       case Single => true
  }

  ghost predicate Walks(run: Run, walk: Walk, todo: seq<Commitment>) {
    walk.Single? || exists m: nat :: Lists(run, m, walk, todo)
  }

  /** What a suspended call is about to do was asked for, and so was the rest of its walk. */
  ghost predicate CallTraced(run: Run, c: Call) {
    && Walks(run, c.walk, c.todo)
    && match c
       case Claiming(base, _, _) => PolledDue(run, base)
       case Checking(base, _, _) => PolledDue(run, base)
       case Fetching(base, record, _, _, _) => Asked(run, base, record)
       case Saving(base, record, _, _, _, _) => Asked(run, base, record)
  }

  ghost predicate RowTraced(run: Run, r: Commitment) {
    Created(run, r) || exists base :: Asked(run, base, r)
  }

  /** The occasion was announced for a commitment that a poll had listed as due, within its deadline. */
  ghost predicate OccasionTraced(run: Run, o: Occasion) {
    exists c :: PolledDue(run, c) && o == (c.id, c.occurrence)
  }

  ghost predicate AllTraced(run: Run) {
    var s := After(run);
    && (forall cid :: cid in s.commitments ==>
          s.commitments[cid].record.id == cid && RowTraced(run, s.commitments[cid].record))
    && (forall c :: c in s.calls ==> CallTraced(run, s.calls[c]))
    && (forall o :: o in s.created ==> OccasionTraced(run, o))
  }

  // ----- longer runs keep what shorter ones show -----

  lemma Extended(init: Run, last: Input)
    ensures After(init + [last]) == Step(After(init), last)
    ensures (init + [last])[..|init|] == init && (init + [last])[|init|] == last
  {
    assert (init + [last])[..|init|] == init;
  }

  lemma StoredBefore(init: Run, last: Input, m: nat, c: Commitment)
    requires StoredAt(init, m, c)
    ensures StoredAt(init + [last], m, c) && (init + [last])[m] == init[m]
  {
    assert (init + [last])[..m] == init[..m];
  }

  lemma AskedBefore(init: Run, last: Input)
    ensures forall c, r :: Asked(init, c, r) ==> Asked(init + [last], c, r)
    ensures forall c :: PolledDue(init, c) ==> PolledDue(init + [last], c)
  {
    hide StoredAt, Misses, Announces, Acknowledges, Snoozes, Cancels, Satisfies, IsDue, PastDeadline;
    forall c, r | Asked(init, c, r) ensures Asked(init + [last], c, r) {
      var m: nat :| Asks(init, m, c, r);
      StoredBefore(init, last, m, c);
      assert Asks(init + [last], m, c, r);
    }
    forall c | PolledDue(init, c) ensures PolledDue(init + [last], c) {
      var m: nat :| PollsDue(init, m, c);
      StoredBefore(init, last, m, c);
      assert PollsDue(init + [last], m, c);
    }
  }

  lemma WalksBefore(init: Run, last: Input, walk: Walk, todo: seq<Commitment>)
    requires Walks(init, walk, todo)
    ensures Walks(init + [last], walk, todo)
  {
    hide StoredAt;
    if !walk.Single? {
      var m: nat :| Lists(init, m, walk, todo);
      forall c | c in todo ensures StoredAt(init + [last], m, c) { StoredBefore(init, last, m, c); }
      assert (init + [last])[m] == init[m];
      assert Lists(init + [last], m, walk, todo);
    }
  }

  lemma CreatedBefore(init: Run, last: Input, c: Commitment)
    requires Created(init, c)
    ensures Created(init + [last], c)
  {
    var m: nat :| m < |init| && init[m].Create? && init[m].cid == c.id
                  && Starts(c, init[m].dueAt, init[m].deadline, init[m].recurrence, init[m].waitKey);
    assert (init + [last])[m] == init[m];
  }

  lemma CallTracedBefore(init: Run, last: Input, c: Call)
    requires CallTraced(init, c)
    ensures CallTraced(init + [last], c)
  {
    hide Asked, PolledDue, Walks;
    AskedBefore(init, last);
    WalksBefore(init, last, c.walk, c.todo);
  }

  // ----- the operations do what they are asked -----

  lemma {:induction false} ListedIsStored(s: System, order: seq<Cid>)
    requires forall cid :: cid in s.commitments ==> s.commitments[cid].record.id == cid
    ensures forall c :: c in Listed(s, order) ==>
              c.id in order && c.id in s.commitments && s.commitments[c.id].record == c
  {
    if order != [] { ListedIsStored(s, order[1..]); }
  }

  /** What a poll decides about one listed commitment. */
  lemma VerdictMeans(c: Commitment, now: int)
    ensures match PollVerdict(c, now)
            case Skip => !IsDue(c, now)
            case Claim => IsDue(c, now) && !PastDeadline(c, now)
            case Miss(r) => IsDue(c, now) && PastDeadline(c, now) && Misses(c, r, now)
            case Raise =>
              && IsDue(c, now) && PastDeadline(c, now) && c.recurrence.Some?
              && forall next :: !FirstAfter(c.dueAt.value, c.recurrence.value, now, next)
  {
    if c.dueAt.Some? && c.recurrence.Some? {
      forall next ensures CaughtUp(c.dueAt.value, c.recurrence.value, now) == Some(next)
                          <==> FirstAfter(c.dueAt.value, c.recurrence.value, now, next) {
        CaughtUpIsFirst(c.dueAt.value, c.recurrence.value, now, next);
      }
    }
    hide CaughtUp, FirstAfter, Instant;
  }

  /** The first thing a walk does about its listing was asked for by the step that started the walk. */
  lemma {:induction false} NextCallIsTraced(run: Run, m: nat, walk: Walk, todo: seq<Commitment>)
    requires !walk.Single? ==> Lists(run, m, walk, todo)
    ensures var c := NextCall(walk, todo); c.Some? ==> CallTraced(run, c.value)
  {
    hide StoredAt, IsDue, PastDeadline, Misses, PollVerdict;
    if todo != [] {
      var c, rest := todo[0], todo[1..];
      assert c in todo && forall d :: d in rest ==> d in todo;
      match walk {
        case Polling(now) =>
          VerdictMeans(c, now);
          assert Lists(run, m, walk, rest);
          assert PollVerdict(c, now).Claim? ==> PollsDue(run, m, c);
          assert PollVerdict(c, now).Miss? ==> Asks(run, m, c, PollVerdict(c, now).record);
          NextCallIsTraced(run, m, walk, rest);
        case Satisfying(key, at) =>
          assert Lists(run, m, walk, rest);
          assert c.status == Active && c.waitKey == Some(key) ==>
                 Asks(run, m, c, c.(dueAt := Some(at), waitKey := None));
          NextCallIsTraced(run, m, walk, rest);
        case Single =>
      }
    }
  }

  lemma WalkGoesOn(run: Run, walk: Walk, todo: seq<Commitment>)
    requires Walks(run, walk, todo)
    ensures var c := NextCall(walk, todo); c.Some? ==> CallTraced(run, c.value)
  {
    hide NextCall, CallTraced, Lists;
    if walk.Single? {
      NextCallIsTraced(run, 0, walk, todo);
    } else {
      var m: nat :| Lists(run, m, walk, todo);
      NextCallIsTraced(run, m, walk, todo);
    }
  }

  lemma PolledDueIsAsked(run: Run, c: Commitment)
    requires PolledDue(run, c)
    ensures Asked(run, c, c.(status := Due))
  {
    hide StoredAt, IsDue, PastDeadline;
    var m: nat :| PollsDue(run, m, c);
    assert Asks(run, m, c, c.(status := Due));
  }

  /** What one operation of a suspended call leaves behind. */
  lemma ContinueMeans(s: System, call: nat)
    requires call in s.calls
    ensures var c, t := s.calls[call], Continue(s, call);
            && (forall d :: d in t.calls && d != call ==> d in s.calls && t.calls[d] == s.calls[d])
            && (call in t.calls ==>
                  || Some(t.calls[call]) == NextCall(c.walk, c.todo)
                  || ((c.Claiming? || c.Checking? || c.Fetching?)
                      && t.calls[call].base == c.base && t.calls[call].walk == c.walk && t.calls[call].todo == c.todo
                      && match t.calls[call]
                         case Claiming(_, _, _) => false
                         case Checking(_, _, _) => c.Claiming?
                         case Fetching(_, record, _, _, _) => !c.Fetching? && record == c.base.(status := Due)
                         case Saving(_, record, _, _, _, _) => c.Fetching? && record == c.record))
            && (forall o :: o in t.created ==> o in s.created || (c.Claiming? && o == (c.base.id, c.base.occurrence)))
            && (forall cid :: cid in t.commitments ==>
                  || (cid in s.commitments && t.commitments[cid] == s.commitments[cid])
                  || (c.Saving? && cid == c.record.id && t.commitments[cid].record == c.record))
  {
    hide NextCall;
  }

  lemma ContinuedCallIsTraced(init: Run, last: Input)
    requires AllTraced(init) && last.Resume? && last.call in After(init).calls
    requires last.call in After(init + [last]).calls
    ensures CallTraced(init + [last], After(init + [last]).calls[last.call])
  {
    Extended(init, last);
    var run, s := init + [last], After(init);
    var c := s.calls[last.call];
    ContinueMeans(s, last.call);
    assert CallTraced(init, c);
    CallTracedBefore(init, last, c);
    hide After, Continue, NextCall, Asked, PolledDue, Walks;
    WalkGoesOn(run, c.walk, c.todo);
    if c.Claiming? || c.Checking? { PolledDueIsAsked(run, c.base); }
  }

  lemma ContinuedRowIsTraced(init: Run, last: Input, cid: Cid)
    requires AllTraced(init) && last.Resume? && last.call in After(init).calls
    requires cid in After(init + [last]).commitments
    ensures After(init + [last]).commitments[cid].record.id == cid
    ensures RowTraced(init + [last], After(init + [last]).commitments[cid].record)
  {
    Extended(init, last);
    var run, s := init + [last], After(init);
    var c := s.calls[last.call];
    ContinueMeans(s, last.call);
    assert CallTraced(init, c);
    AskedBefore(init, last);
    hide After, Continue, NextCall, Asked, Walks, Created;
    if cid in s.commitments && After(run).commitments[cid] == s.commitments[cid] {
      RowTracedBefore(init, last, s.commitments[cid].record);
    }
  }

  lemma ContinueKeepsTraced(init: Run, last: Input)
    requires AllTraced(init) && last.Resume? && last.call in After(init).calls
    ensures AllTraced(init + [last])
  {
    Extended(init, last);
    var run, s := init + [last], After(init);
    var t, c := After(run), s.calls[last.call];
    ContinueMeans(s, last.call);
    assert CallTraced(init, c);
    assert c.Claiming? ==> PolledDue(init, c.base);
    AskedBefore(init, last);
    hide After, Continue, NextCall, Asked, PolledDue, CallTraced, RowTraced;
    forall d | d in t.calls ensures CallTraced(run, t.calls[d]) {
      if d == last.call { ContinuedCallIsTraced(init, last); } else { CallTracedBefore(init, last, s.calls[d]); }
    }
    forall cid | cid in t.commitments
      ensures t.commitments[cid].record.id == cid && RowTraced(run, t.commitments[cid].record)
    {
      ContinuedRowIsTraced(init, last, cid);
    }
    forall o | o in t.created ensures OccasionTraced(run, o) {
      if o in s.created { assert OccasionTraced(init, o); }
    }
  }

  lemma RowTracedBefore(init: Run, last: Input, r: Commitment)
    requires RowTraced(init, r)
    ensures RowTraced(init + [last], r)
  {
    hide Asked, Created;
    if Created(init, r) {
      CreatedBefore(init, last, r);
    } else {
      var base :| Asked(init, base, r);
      AskedBefore(init, last);
    }
  }

  /** What the steps other than a resumed call leave behind. */
  lemma StartMeans(s: System, input: Input)
    requires !input.Resume?
    ensures var t := Step(s, input);
            && t.created == s.created
            && (forall cid :: cid in t.commitments ==>
                  || (cid in s.commitments && t.commitments[cid] == s.commitments[cid])
                  || (input.Create? && cid == input.cid && t.commitments[cid].record.id == cid
                      && Starts(t.commitments[cid].record, input.dueAt, input.deadline, input.recurrence,
                                input.waitKey)))
            && (forall d :: d in t.calls ==>
                  || (d in s.calls && t.calls[d] == s.calls[d])
                  || (input.Poll? && Some(t.calls[d]) == NextCall(Polling(input.now), Listed(s, input.order)))
                  || (input.SatisfyEvent?
                      && Some(t.calls[d]) == NextCall(Satisfying(input.key, input.at), Listed(s, input.order)))
                  || ((input.Acknowledge? || input.Snooze? || input.Cancel?) && input.cid in s.commitments
                      && t.calls[d].Fetching? && t.calls[d].walk == Single && t.calls[d].todo == []
                      && t.calls[d].base == s.commitments[input.cid].record
                      && (input.Acknowledge? ==> Some(t.calls[d].record) == Acknowledged(t.calls[d].base))
                      && (input.Snooze? ==> Snoozes(t.calls[d].base, t.calls[d].record, input.until))
                      && (input.Cancel? ==> Cancels(t.calls[d].base, t.calls[d].record))))
  {
    hide NextCall, Listed, Acknowledged, NextDue;
  }

  lemma AcknowledgedMeans(c: Commitment)
    ensures var r := Acknowledged(c); r.Some? ==> Acknowledges(c, r.value)
    ensures Acknowledged(c).None? <==>
              || (c.status != Due && c.status != Delivered)
              || (c.recurrence.Some? && c.dueAt.Some? && NextRecurrence(c.dueAt.value, c.recurrence.value).None?)
  {
    hide NextRecurrence;
    if c.recurrence.Some? && c.dueAt.Some? && NextRecurrence(c.dueAt.value, c.recurrence.value).Some? {
      RecurrenceIsLater(c.dueAt.value, c.recurrence.value);
      var next: When := NextRecurrence(c.dueAt.value, c.recurrence.value).value;
      assert Acknowledged(c).Some? ==> Acknowledged(c).value.dueAt == Some(next);
    }
  }

  /** A listing taken at the last step is what that step's walk starts from. */
  lemma ListingIsWalked(init: Run, last: Input)
    requires AllTraced(init)
    ensures last.Poll? ==> Lists(init + [last], |init|, Polling(last.now), Listed(After(init), last.order))
    ensures last.SatisfyEvent? ==>
              Lists(init + [last], |init|, Satisfying(last.key, last.at), Listed(After(init), last.order))
  {
    Extended(init, last);
    if last.Poll? || last.SatisfyEvent? {
      ListedIsStored(After(init), last.order);
      hide After;
      assert forall c :: c in Listed(After(init), last.order) ==> StoredAt(init + [last], |init|, c);
    }
  }

  lemma StartedCallIsTraced(init: Run, last: Input, d: nat)
    requires AllTraced(init) && !last.Resume? && d in After(init + [last]).calls
    ensures CallTraced(init + [last], After(init + [last]).calls[d])
  {
    Extended(init, last);
    var run, s := init + [last], After(init);
    StartMeans(s, last);
    ListingIsWalked(init, last);
    var c := After(run).calls[d];
    assert run[..|init|] == init;
    hide After, Step, NextCall, Listed, Acknowledged, Snoozes, Cancels, Acknowledges;
    if d in s.calls && c == s.calls[d] {
      CallTracedBefore(init, last, c);
    } else if last.Poll? {
      NextCallIsTraced(run, |init|, Polling(last.now), Listed(s, last.order));
    } else if last.SatisfyEvent? {
      NextCallIsTraced(run, |init|, Satisfying(last.key, last.at), Listed(s, last.order));
    } else {
      AcknowledgedMeans(c.base);
      assert StoredAt(run, |init|, c.base);
      assert Asks(run, |init|, c.base, c.record);
    }
  }

  lemma StartKeepsTraced(init: Run, last: Input)
    requires AllTraced(init) && !last.Resume?
    ensures AllTraced(init + [last])
  {
    Extended(init, last);
    var run, s := init + [last], After(init);
    var t := After(run);
    StartMeans(s, last);
    AskedBefore(init, last);
    hide After, Step, CallTraced, PolledDue, Asked;
    forall d | d in t.calls ensures CallTraced(run, t.calls[d]) { StartedCallIsTraced(init, last, d); }
    forall cid | cid in t.commitments
      ensures t.commitments[cid].record.id == cid && RowTraced(run, t.commitments[cid].record)
    {
      if cid in s.commitments && t.commitments[cid] == s.commitments[cid] {
        RowTracedBefore(init, last, s.commitments[cid].record);
      } else {
        assert run[|init|] == last;
        assert Created(run, t.commitments[cid].record);
      }
    }
    forall o | o in t.created ensures OccasionTraced(run, o) { assert OccasionTraced(init, o); }
  }

  /**
   * In every run, stale saves and crashes included: every stored commitment was created, or is what one
   * of the operations makes of a commitment it read; every occasion announced was listed by a poll as
   * due and within its deadline; and suspended calls will do nothing else.
   */
  lemma {:induction false} EveryChangeWasAsked(run: Run)
    ensures AllTraced(run)
  {
    if run != [] {
      var init, last := run[..|run| - 1], run[|run| - 1];
      assert init + [last] == run;
      EveryChangeWasAsked(init);
      hide AllTraced;
      if !last.Resume? {
        StartKeepsTraced(init, last);
      } else if last.call in After(init).calls {
        ContinueKeepsTraced(init, last);
      } else {
        NothingKeepsTraced(init, last);
      }
    }
  }

  lemma NothingKeepsTraced(init: Run, last: Input)
    requires AllTraced(init) && After(init + [last]) == After(init)
    ensures AllTraced(init + [last])
  {
    var s := After(init);
    AskedBefore(init, last);
    hide After, CallTraced, Asked, PolledDue;
    forall d | d in s.calls ensures CallTraced(init + [last], s.calls[d]) { CallTracedBefore(init, last, s.calls[d]); }
    forall cid | cid in s.commitments ensures RowTraced(init + [last], s.commitments[cid].record) {
      RowTracedBefore(init, last, s.commitments[cid].record);
    }
    forall o | o in s.created ensures OccasionTraced(init + [last], o) { assert OccasionTraced(init, o); }
  }
}
