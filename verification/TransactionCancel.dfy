/** What a cancelled transaction tells about the money, and what pairing a token with a budget does. */
module TransactionCancel {
  import opened Options
  import opened Transactions

  /** The row says cancelled, yet the transport delivered the transaction and never reversed it. */
  predicate Hidden(s: System, pid: Pid) {
    pid in s.rows && s.rows[pid].proposal.stage == Stage.Cancelled && pid in s.delivered && pid !in s.reversed
  }

  /** The call about to be resumed is a cancellation whose row no longer holds what the cancellation read. */
  predicate StaleWrite(s: System, input: Input) {
    && input.Resume? && input.call in s.calls && s.calls[input.call].WritingCancelled?
    && var p := s.calls[input.call].proposal;
       !(p.id in s.rows && s.rows[p.id].proposal == p)
  }

  ghost predicate NeverStale(run: Run) {
    forall i :: 0 <= i < |run| ==> !StaleWrite(After(run[..i]), run[i])
  }

  ghost predicate PastFor(s: System, c: nat, pid: Pid) {
    c in s.calls && PastAuthorization(s.calls[c]) && Subject(s.calls[c]) == pid
  }

  /** A commit under way keeps its row in the committing stage and alone decides whether it was delivered. */
  predicate HonestCall(s: System, c: Call) {
    && (PastAuthorization(c) ==> Subject(c) in s.rows && s.rows[Subject(c)].proposal.stage == Committing)
    && (c.Authorized? || c.InFlight? ==> Subject(c) !in s.delivered)
    && (c.Finishing? ==> c.updated.stage == if Subject(c) in s.delivered then Committed else Failed)
    && (c.Reversing? ==> c.proposal.stage == Committed)
    && (c.WritingCancelled? ==>
          || c.proposal.stage == Proposed || c.proposal.stage == Failed
          || (c.proposal.stage == Committed && Subject(c) in s.reversed))
  }

  ghost predicate Honest(s: System) {
    && (forall pid :: pid in s.rows ==> s.rows[pid].proposal.id == pid)
    && (forall pid :: pid in s.rows && s.rows[pid].proposal.stage in {Proposed, Failed} ==> pid !in s.delivered)
    && (forall pid :: !Hidden(s, pid))
    && (forall c :: c in s.calls ==> HonestCall(s, s.calls[c]))
    && (forall c, d, pid :: PastFor(s, c, pid) && PastFor(s, d, pid) ==> c == d)
    && s.delivered <= s.rows.Keys
  }

  lemma ContinueKeepsCallsHonest(s: System, call: nat, ok: bool, receipt: nat)
    requires Honest(s) && call in s.calls && !StaleWrite(s, Resume(call, ok, receipt))
    ensures var t := Continue(s, call, ok, receipt);
            && (forall d :: d in t.calls ==> HonestCall(t, t.calls[d]))
            && forall c, d, pid :: PastFor(t, c, pid) && PastFor(t, d, pid) ==> c == d
  {
    hide Refund;
    var t, c := Continue(s, call, ok, receipt), s.calls[call];
    forall p, b, charged { RefundTouchesBudgets(s, p, b, charged); }
    assert HonestCall(s, c);
    assert PastAuthorization(c) ==> PastFor(s, call, Subject(c));
    forall d | d in t.calls ensures HonestCall(t, t.calls[d]) {
      assert HonestCall(s, s.calls[d]);
      assert d != call ==> !PastFor(s, d, Subject(c)) || !PastAuthorization(c);
    }
    forall d, e, pid | PastFor(t, d, pid) && PastFor(t, e, pid) ensures d == e {
      assert PastFor(s, d, pid) && PastFor(s, e, pid);
    }
  }

  lemma ContinueKeepsHonest(s: System, call: nat, ok: bool, receipt: nat)
    requires Honest(s) && call in s.calls && !StaleWrite(s, Resume(call, ok, receipt))
    ensures Honest(Continue(s, call, ok, receipt))
  {
    ContinueKeepsCallsHonest(s, call, ok, receipt);
    hide Refund;
    var t, c := Continue(s, call, ok, receipt), s.calls[call];
    forall p, b, charged { RefundTouchesBudgets(s, p, b, charged); }
    assert HonestCall(s, c);
    forall pid ensures !Hidden(t, pid) { assert !Hidden(s, pid); }
  }

  lemma AuthorizeKeepsHonest(s: System, call: nat, pid: Pid, token: Option<Token>, budgetId: Option<Bid>)
    requires Honest(s)
    ensures Honest(Authorize(s, call, pid, token, budgetId))
  {
    hide TokenAccepted, BudgetCovers;
    var t := Authorize(s, call, pid, token, budgetId);
    if t != s {
      forall d | d in t.calls ensures HonestCall(t, t.calls[d]) {
        if d != call { assert HonestCall(s, s.calls[d]); }
      }
      forall d, e, p | PastFor(t, d, p) && PastFor(t, e, p) ensures d == e {
        assert d != call ==> PastFor(s, d, p) && HonestCall(s, s.calls[d]);
        assert e != call ==> PastFor(s, e, p) && HonestCall(s, s.calls[e]);
      }
      forall p ensures !Hidden(t, p) { assert !Hidden(s, p); }
    }
  }

  lemma CallStepsKeepHonest(s: System, input: Input)
    requires Honest(s) && (input.Cancel? || input.Drop? || input.Crash?)
    ensures Honest(Step(s, input))
  {
    hide Authorize, Continue, Subject;
    var t := Step(s, input);
    forall d | d in t.calls ensures HonestCall(t, t.calls[d]) {
      if d in s.calls { assert HonestCall(s, s.calls[d]); }
    }
    forall d, e, pid | PastFor(t, d, pid) && PastFor(t, e, pid) ensures d == e {
      assert PastFor(s, d, pid) && PastFor(s, e, pid);
    }
    forall pid ensures !Hidden(t, pid) { assert !Hidden(s, pid); }
  }

  lemma RowStepsKeepHonest(s: System, input: Input)
    requires Honest(s) && (input.Propose? || input.Preview? || input.CreateBudget?)
    ensures Honest(Step(s, input))
  {
    hide Authorize, Continue, Subject;
    var t := Step(s, input);
    forall d | d in t.calls ensures HonestCall(t, t.calls[d]) {
      assert HonestCall(s, s.calls[d]);
    }
    forall d, e, pid | PastFor(t, d, pid) && PastFor(t, e, pid) ensures d == e {
      assert PastFor(s, d, pid) && PastFor(s, e, pid);
    }
    forall pid ensures !Hidden(t, pid) { assert !Hidden(s, pid); }
  }

  /** If no cancellation writes over a row that changed since it read it, no delivery is hidden. */
  lemma {:induction false} FreshCancelsHideNothing(run: Run)
    requires NeverStale(run)
    ensures Honest(After(run))
    ensures forall pid :: !Hidden(After(run), pid)
  {
    if run != [] {
      var init, last := run[..|run| - 1], run[|run| - 1];
      assert forall i :: 0 <= i < |init| ==> init[..i] == run[..i] && init[i] == run[i];
      FreshCancelsHideNothing(init);
      var s := After(init);
      if last.Resume? && last.call in s.calls {
        ContinueKeepsHonest(s, last.call, last.ok, last.receipt);
      } else if last.Commit? {
        AuthorizeKeepsHonest(s, last.call, last.pid, last.token, last.budgetId);
      } else if last.Cancel? || last.Drop? || last.Crash? {
        CallStepsKeepHonest(s, last);
      } else if !last.Resume? {
        RowStepsKeepHonest(s, last);
      }
    }
  }

  ghost predicate OutcomesStand(s: System) {
    && (forall pid :: pid in s.rows ==> s.rows[pid].proposal.id == pid)
    && forall c :: c in s.calls && s.calls[c].Finishing? ==> s.calls[c].updated.stage != Stage.Cancelled
  }

  lemma StepKeepsOutcomes(s: System, input: Input)
    requires OutcomesStand(s)
    ensures OutcomesStand(Step(s, input))
  {
    hide TokenAccepted, BudgetCovers, Refund;
    forall s, p, b, charged { RefundTouchesBudgets(s, p, b, charged); }
  }

  lemma {:induction false} EveryRunKeepsOutcomes(run: Run)
    ensures OutcomesStand(After(run))
  {
    if run != [] {
      EveryRunKeepsOutcomes(run[..|run| - 1]);
      StepKeepsOutcomes(After(run[..|run| - 1]), run[|run| - 1]);
    }
  }

  /**
   * The two steps that hide a delivery: a cancellation written over a delivered, unreversed
   * transaction, and a delivery confirmed for one whose row already says cancelled.
   */
  lemma HiddenExactlyWhen(run: Run, input: Input, pid: Pid)
    requires !Hidden(After(run), pid)
    ensures var s := After(run);
            Hidden(Step(s, input), pid) <==>
              && input.Resume? && input.call in s.calls && pid in s.rows && pid !in s.reversed
              && Subject(s.calls[input.call]) == pid
              && if s.calls[input.call].WritingCancelled? then pid in s.delivered
                 else s.calls[input.call].InFlight? && input.ok && s.rows[pid].proposal.stage == Stage.Cancelled
  {
    EveryRunKeepsOutcomes(run);
    hide TokenAccepted, BudgetCovers, Refund, After;
    forall s, p, b, charged { RefundTouchesBudgets(s, p, b, charged); }
  }

  // ----- two runs the manager allows -----

  function Script(inputs: nat -> Input, n: nat): Run {
    if n == 0 then [] else Script(inputs, n - 1) + [inputs(n - 1)]
  }

  lemma ScriptStep(inputs: nat -> Input, n: nat)
    ensures After(Script(inputs, n + 1)) == Step(After(Script(inputs, n)), inputs(n))
  {
    assert Script(inputs, n + 1)[..|Script(inputs, n)|] == Script(inputs, n);
  }

  const TERMS := Terms(0, 0, 0, 10)

  /** An owner-approved commit that also names budget 0, and fails at the transport. */
  function Pairing(n: nat): Input {
    if n == 0 then CreateBudget(0, 0, None, 0, 10)
    else if n == 1 then Propose(0, TERMS)
    else if n == 2 then Preview(0)
    else if n == 3 then Commit(0, 0, Some(0), Some(0))
    else Resume(0, n == 4, 0)
  }

  /** The failed commit refunds 10 that were never charged: a budget of 10 has 20 left. */
  lemma PairingMintsMoney()
    ensures var s := After(Script(Pairing, 6));
            0 in s.budgets && s.budgets[0].limit == 10 && s.budgets[0].remaining == 20
  {
    assert After(Script(Pairing, 0)) == EMPTY;
    hide After, Script;
    ScriptStep(Pairing, 0);
    ScriptStep(Pairing, 1);
    ScriptStep(Pairing, 2);
    var s := After(Script(Pairing, 3));
    assert s.rows[0] == Row(Proposal(0, TERMS, Proposed, 1, None), Some(0), Some(1), false);
    assert s.budgets[0].limit == 10 && s.budgets[0].remaining == 10 && s.calls == map[];
    ScriptStep(Pairing, 3);
    var t := After(Script(Pairing, 4));
    assert t.calls[0].Authorized? && !t.calls[0].charged && t.calls[0].budgetId == Some(0) && t.budgets == s.budgets;
    ScriptStep(Pairing, 4);
    ScriptStep(Pairing, 5);
  }

  /** A cancellation reads the proposal, a commit runs to completion, and the cancellation then writes. */
  function StaleCancel(n: nat): Input {
    if n == 0 then Propose(0, TERMS)
    else if n == 1 then Preview(0)
    else if n == 2 then Cancel(1, 0)
    else if n == 3 then Commit(0, 0, Some(0), None)
    else if n < 7 then Resume(0, true, 7)
    else Resume(1, true, 0)
  }

  /** The commit is under way and the cancellation still holds what it read. */
  lemma StaleCancelStarts()
    ensures var s, p := After(Script(StaleCancel, 4)), Proposal(0, TERMS, Proposed, 1, None);
            && s.calls == map[1 := WritingCancelled(p), 0 := Authorized(p, None, false)]
            && 0 in s.rows && s.rows[0].proposal.id == 0 && s.commits == [] && s.reversed == {}
  {
    assert After(Script(StaleCancel, 0)) == EMPTY;
    hide After, Script, Continue;
    ScriptStep(StaleCancel, 0);
    ScriptStep(StaleCancel, 1);
    ScriptStep(StaleCancel, 2);
    var p := Proposal(0, TERMS, Proposed, 1, None);
    var s := After(Script(StaleCancel, 3));
    assert s.rows[0] == Row(p, Some(0), Some(1), false) && s.calls == map[1 := WritingCancelled(p)];
    ScriptStep(StaleCancel, 3);
  }

  /** The money has moved and nothing was reversed, but the row says cancelled and shows no receipt. */
  lemma StaleCancelHidesDelivery()
    ensures var s := After(Script(StaleCancel, 8));
            Hidden(s, 0) && s.rows[0].proposal.receipt == None && s.commits == [0]
  {
    hide After, Script, Refund, Authorize;
    StaleCancelStarts();
    var p := Proposal(0, TERMS, Proposed, 1, None);
    ScriptStep(StaleCancel, 4);
    var u := After(Script(StaleCancel, 5));
    assert u.calls == map[1 := WritingCancelled(p), 0 := InFlight(p, None, false)] && u.commits == [0];
    ScriptStep(StaleCancel, 5);
    var v := After(Script(StaleCancel, 6));
    assert 0 in v.delivered && v.reversed == {} && v.calls[1] == WritingCancelled(p);
    ScriptStep(StaleCancel, 6);
    ScriptStep(StaleCancel, 7);
  }
}
