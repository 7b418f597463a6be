/** What every entry of a rollout's history was earned by, and exactly which requests are granted. */
module RolloutEvidence {
  import opened Options
  import opened Rollout

  /** The next stage of the ladder; the last has none. */
  function Above(s: Stage): Option<Stage> {
    match s
    case Fixture => Some(Replay)
    case Replay => Some(Shadow)
    case Shadow => Some(OwnerCanary)
    case OwnerCanary => Some(Household)
    case Household => Some(StandingAutonomy)
    case StandingAutonomy => None
  }

  /** Stage s is earlier on the ladder than t. */
  predicate Below(s: Stage, t: Stage) {
    match t
    case Fixture => false
    case Replay => s.Fixture?
    case Shadow => s.Fixture? || s.Replay?
    case OwnerCanary => s.Fixture? || s.Replay? || s.Shadow?
    case Household => !s.Household? && !s.StandingAutonomy?
    case StandingAutonomy => !s.StandingAutonomy?
  }

  lemma RanksAreTheLadder(s: Stage, t: Stage)
    ensures Below(s, t) <==> Rank(s) < Rank(t)
    ensures Above(s) == Some(t) <==> Rank(t) == Rank(s) + 1
  {
  }

  // ----- requests -----

  /** The owner presents passing evidence for the current stage and pins, and a scope where autonomy needs one. */
  predicate EarnsPromotion(r: Record, actor: Actor, evidence: Evidence, scope: seq<string>) {
    && !r.revoked && actor == r.owner && Above(r.stage).Some?
    && evidence.stage == r.stage && evidence.pins == r.pins
    && evidence.eligible && evidence.reasons == [] && evidence.scenarioRuns > 0
    && (Above(r.stage) == Some(StandingAutonomy) ==> scope != [] || r.scope != [])
  }

  /** Which requests are granted, and the record each leaves. */
  lemma TransitionExactlyWhen(r: Record, actor: Actor, request: Request)
    ensures match request
            case Promoting(evidence, scope) =>
              Transition(r, actor, request) ==
              if !EarnsPromotion(r, actor, evidence, scope) then None
              else Some(Record(r.owner, r.pins, Above(r.stage).value, false, if scope == [] then r.scope else scope,
                               r.history + [Event(Promoted, Some(r.stage), Above(r.stage).value,
                                                  Some(evidence.artifact))]))
            case Revoking =>
              Transition(r, actor, request) ==
              if actor != r.owner then None
              else if r.revoked then Some(r)
              else Some(Record(r.owner, r.pins, r.stage, true, r.scope,
                               r.history + [Event(Revoked, Some(r.stage), r.stage, None)]))
            case RollingBack(target) =>
              Transition(r, actor, request) ==
              if actor != r.owner || !Below(target, r.stage) then None
              else Some(Record(r.owner, r.pins, target, false, [],
                               r.history + [Event(RolledBack, Some(r.stage), target, None)]))
  {
  }

  // ----- histories -----

  /** Step m of the run asks for what entry e records, of a record that allows it. */
  ghost predicate Earns(run: Run, m: nat, id: nat, e: Event) {
    && m < |run|
    && match e.action
       case Created => run[m].Create? && run[m].id == id && e == Event(Created, None, Fixture, None)
       case _ =>
         && run[m].Begin? && run[m].id == id && id in After(run[..m]).rows
         && var r := After(run[..m]).rows[id].record;
            match run[m].request
            case Promoting(evidence, scope) =>
              && EarnsPromotion(r, run[m].actor, evidence, scope)
              && e == Event(Promoted, Some(r.stage), Above(r.stage).value, Some(evidence.artifact))
            case Revoking =>
              run[m].actor == r.owner && !r.revoked && e == Event(Revoked, Some(r.stage), r.stage, None)
            case RollingBack(target) =>
              && run[m].actor == r.owner && Below(target, r.stage)
              && e == Event(RolledBack, Some(r.stage), target, None)
  }

  ghost predicate Earned(run: Run, id: nat, e: Event) {
    exists m: nat :: Earns(run, m, id, e)
  }

  ghost predicate CreatedWith(run: Run, id: nat, owner: Actor, pins: nat) {
    exists m: nat :: m < |run| && run[m] == Create(id, owner, pins)
  }

  ghost predicate RecordEarned(run: Run, id: nat, r: Record) {
    && CreatedWith(run, id, r.owner, r.pins)
    && forall k :: 0 <= k < |r.history| ==> Earned(run, id, r.history[k])
  }

  ghost predicate AllEarned(run: Run) {
    var s := After(run);
    && (forall id :: id in s.rows ==> RecordEarned(run, id, s.rows[id].record))
    && (forall call :: call in s.calls ==> RecordEarned(run, s.calls[call].id, s.calls[call].updated))
  }

  lemma EarnedBefore(init: Run, last: Input, id: nat, r: Record)
    requires RecordEarned(init, id, r)
    ensures RecordEarned(init + [last], id, r)
  {
    hide EarnsPromotion;
    var run := init + [last];
    forall k | 0 <= k < |r.history| ensures Earned(run, id, r.history[k]) {
      var m: nat :| Earns(init, m, id, r.history[k]);
      assert run[..m] == init[..m];
      assert Earns(run, m, id, r.history[k]);
    }
    var m: nat :| m < |init| && init[m] == Create(id, r.owner, r.pins);
    assert run[m] == Create(id, r.owner, r.pins);
  }

  lemma Extended(init: Run, last: Input)
    ensures After(init + [last]) == Step(After(init), last)
    ensures (init + [last])[..|init|] == init && (init + [last])[|init|] == last
  {
    assert (init + [last])[..|init|] == init;
  }

  /** A granted request earns the entry it adds. */
  lemma RequestEarns(init: Run, last: Input)
    requires AllEarned(init) && last.Begin? && last.id in After(init).rows
    ensures var r := After(init).rows[last.id].record;
            var t := Transition(r, last.actor, last.request);
            t.Some? ==> RecordEarned(init + [last], last.id, t.value)
  {
    Extended(init, last);
    var run, s := init + [last], After(init);
    var r := s.rows[last.id].record;
    var t := Transition(r, last.actor, last.request);
    TransitionExactlyWhen(r, last.actor, last.request);
    EarnedBefore(init, last, last.id, r);
    hide After, Transition, EarnsPromotion, AllEarned;
    if t.Some? && t.value != r {
      var e := t.value.history[|r.history|];
      assert t.value.history == r.history + [e];
      assert Earns(run, |init|, last.id, e);
    }
  }

  lemma StepKeepsEarned(init: Run, last: Input)
    requires AllEarned(init)
    ensures AllEarned(init + [last])
  {
    Extended(init, last);
    var run, s := init + [last], After(init);
    forall id | id in s.rows ensures RecordEarned(run, id, s.rows[id].record) {
      EarnedBefore(init, last, id, s.rows[id].record);
    }
    forall call | call in s.calls ensures RecordEarned(run, s.calls[call].id, s.calls[call].updated) {
      EarnedBefore(init, last, s.calls[call].id, s.calls[call].updated);
    }
    if last.Begin? && last.id in s.rows { RequestEarns(init, last); }
    if last.Create? {
      assert run[|init|] == Create(last.id, last.owner, last.pins);
      assert Earns(run, |init|, last.id, Event(Created, None, Fixture, None));
      assert RecordEarned(run, last.id, NewRecord(last.owner, last.pins));
    }
    hide RecordEarned, Transition, NewRecord, After;
  }

  /**
   * In every interleaving each entry of a record's history was asked for by its owner: a promotion with
   * passing evidence for the stage it left, a revocation of a standing rollout, a rollback to an earlier
   * stage. Owner and pins stay what they were created with.
   */
  lemma {:induction false} EveryEntryWasEarned(run: Run)
    ensures AllEarned(run)
  {
    if run != [] {
      var init, last := run[..|run| - 1], run[|run| - 1];
      assert init + [last] == run;
      EveryEntryWasEarned(init);
      StepKeepsEarned(init, last);
    }
  }
}
