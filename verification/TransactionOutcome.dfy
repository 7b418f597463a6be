/** What a stored transaction says about the transport, and what an undisturbed commit or cancellation does. */
module TransactionOutcome {
  import opened Options
  import opened Transactions
  import opened TransactionMoney
  import opened TransactionAuthority

  // ----- stored outcomes go back to answers of the transport -----

  /** At step m the transport answers a commit of the proposal. */
  ghost predicate Answers(run: Run, m: nat, pid: Pid, ok: bool, receipt: nat) {
    && m < |run| && run[m].Resume? && run[m].ok == ok && run[m].receipt == receipt
    && var s := After(run[..m]);
       run[m].call in s.calls && s.calls[run[m].call].InFlight? && s.calls[run[m].call].proposal.id == pid
  }

  ghost predicate Confirmed(run: Run, pid: Pid, receipt: nat) {
    exists m: nat :: Answers(run, m, pid, true, receipt)
  }

  ghost predicate Rejected(run: Run, pid: Pid) {
    exists m: nat, r: nat :: Answers(run, m, pid, false, r)
  }

  ghost predicate CancelAsked(run: Run, pid: Pid) {
    exists m: nat :: m < |run| && run[m].Cancel? && run[m].pid == pid
  }

  ghost predicate ProposedAs(run: Run, pid: Pid, terms: Terms) {
    exists m: nat :: m < |run| && run[m] == Propose(pid, terms)
  }

  /** The stage and receipt of a proposal are what the transport, or a cancellation, made them. */
  ghost predicate Justified(run: Run, p: Proposal) {
    && ProposedAs(run, p.id, p.terms)
    && match p.stage
       case Proposed => true
       case Committing => true
       case Committed => p.receipt.Some? && Confirmed(run, p.id, p.receipt.value)
       case Failed => Rejected(run, p.id)
       case Cancelled => CancelAsked(run, p.id)
  }

  ghost predicate CallJustified(run: Run, c: Call) {
    && ProposedAs(run, Held(c).id, Held(c).terms)
    && match c
       case Authorized(_, _, _) => true
       case InFlight(_, _, _) => true
       case Finishing(updated) => (updated.stage == Committed || updated.stage == Failed) && Justified(run, updated)
       case Reversing(p) => CancelAsked(run, p.id)
       case WritingCancelled(p) => CancelAsked(run, p.id)
  }

  ghost predicate AllJustified(run: Run) {
    var s := After(run);
    && (forall pid :: pid in s.rows ==> s.rows[pid].proposal.id == pid && Justified(run, s.rows[pid].proposal))
    && (forall c :: c in s.calls ==> CallJustified(run, s.calls[c]))
    && (forall pid :: pid in s.delivered ==> exists r :: Confirmed(run, pid, r))
  }

  lemma AnswersBefore(init: Run, last: Input, m: nat, pid: Pid, ok: bool, receipt: nat)
    requires Answers(init, m, pid, ok, receipt)
    ensures Answers(init + [last], m, pid, ok, receipt)
  {
    assert (init + [last])[..m] == init[..m];
  }

  lemma JustifiedBefore(init: Run, last: Input, p: Proposal)
    ensures Justified(init, p) ==> Justified(init + [last], p)
    ensures forall pid, r :: Confirmed(init, pid, r) ==> Confirmed(init + [last], pid, r)
    ensures CancelAsked(init, p.id) ==> CancelAsked(init + [last], p.id)
    ensures ProposedAs(init, p.id, p.terms) ==> ProposedAs(init + [last], p.id, p.terms)
  {
    hide Answers;
    forall pid, r | Confirmed(init, pid, r) ensures Confirmed(init + [last], pid, r) {
      var m: nat :| Answers(init, m, pid, true, r);
      AnswersBefore(init, last, m, pid, true, r);
    }
    if m: nat, r: nat :| Answers(init, m, p.id, false, r) { AnswersBefore(init, last, m, p.id, false, r); }
    if m: nat :| m < |init| && init[m].Cancel? && init[m].pid == p.id {
      assert (init + [last])[m] == init[m];
    }
    if m: nat :| m < |init| && init[m] == Propose(p.id, p.terms) {
      assert (init + [last])[m] == init[m];
    }
  }

  lemma CallJustifiedBefore(init: Run, last: Input, c: Call)
    requires CallJustified(init, c)
    ensures CallJustified(init + [last], c)
  {
    hide Justified, CancelAsked, Confirmed, ProposedAs;
    JustifiedBefore(init, last, Held(c));
  }

  /** An answer of the transport, and a request to cancel, justify what their calls do next. */
  lemma LastJustifies(init: Run, last: Input)
    ensures last.Cancel? ==> CancelAsked(init + [last], last.pid)
    ensures last.Propose? ==> ProposedAs(init + [last], last.pid, last.terms)
    ensures last.Resume? && last.call in After(init).calls && After(init).calls[last.call].InFlight? ==>
              var pid := After(init).calls[last.call].proposal.id;
              if last.ok then Confirmed(init + [last], pid, last.receipt) else Rejected(init + [last], pid)
  {
    var run := init + [last];
    assert run[..|init|] == init && run[|init|] == last;
    if last.Resume? && last.call in After(init).calls && After(init).calls[last.call].InFlight? {
      assert Answers(run, |init|, After(init).calls[last.call].proposal.id, last.ok, last.receipt);
    }
  }

  /** Where the proposal of a row comes from: it was there, is pending or being committed, or a call wrote it. */
  lemma StepRow(s: System, input: Input, pid: Pid)
    requires forall id :: id in s.rows ==> s.rows[id].proposal.id == id
    requires pid in Step(s, input).rows
    ensures var p := Step(s, input).rows[pid].proposal;
            && p.id == pid
            && (|| (pid in s.rows && p == s.rows[pid].proposal)
                || (input == Propose(pid, p.terms) && p.stage == Proposed)
                || (pid in s.rows && p.terms == s.rows[pid].proposal.terms && p.stage == Committing)
                || (input.Resume? && input.call in s.calls
                    && match s.calls[input.call]
                       case Finishing(updated) => p == updated
                       case WritingCancelled(q) => q.id == pid && p.terms == q.terms && p.stage == Cancelled
                       case _ => false))
  {
    hide TokenAccepted, BudgetCovers, Refund;
    forall p, b, charged { RefundTouchesBudgets(s, p, b, charged); }
  }

  lemma StepKeepsRows(init: Run, last: Input, pid: Pid)
    requires AllJustified(init) && pid in After(init + [last]).rows
    ensures var p := After(init + [last]).rows[pid].proposal;
            p.id == pid && Justified(init + [last], p)
  {
    Extended(init, last);
    var s := After(init);
    StepRow(s, last, pid);
    LastJustifies(init, last);
    hide After, Step, Confirmed, Rejected, CancelAsked, ProposedAs;
    var p := Step(s, last).rows[pid].proposal;
    JustifiedBefore(init, last, p);
    if last.Resume? && last.call in s.calls { assert CallJustified(init, s.calls[last.call]); }
  }

  /** Where a suspended call comes from. */
  lemma StepCall(s: System, input: Input, c: nat)
    requires c in Step(s, input).calls
    ensures var call := Step(s, input).calls[c];
            || (c in s.calls && call == s.calls[c])
            || ((call.Authorized? || call.Reversing? || call.WritingCancelled?)
                && (input.Cancel? || call.Authorized?) && (input.Cancel? || input.Commit?)
                && input.pid in s.rows && call.proposal == s.rows[input.pid].proposal)
            || (input.Resume? && c == input.call && input.call in s.calls
                && match s.calls[input.call]
                   case Authorized(p, _, _) => call.InFlight? && call.proposal == p
                   case Reversing(p) => call == WritingCancelled(p)
                   case InFlight(p, _, _) => call == Finishing(AnsweredWith(p, input.ok, input.receipt))
                   case _ => false)
  {
    hide TokenAccepted, BudgetCovers, Refund;
    forall p, b, charged { RefundTouchesBudgets(s, p, b, charged); }
  }

  /** What the transport's answer makes of a proposal. */
  function AnsweredWith(p: Proposal, ok: bool, receipt: nat): Proposal {
    var stage := if ok then Committed else Failed;
    Proposal(p.id, p.terms, stage, p.revision + 1, if ok then Some(receipt) else p.receipt)
  }

  lemma StepKeepsCalls(init: Run, last: Input, c: nat)
    requires AllJustified(init) && c in After(init + [last]).calls
    ensures CallJustified(init + [last], After(init + [last]).calls[c])
  {
    Extended(init, last);
    var s, run := After(init), init + [last];
    StepCall(s, last, c);
    LastJustifies(init, last);
    hide After, Step, Confirmed, Rejected, CancelAsked, ProposedAs;
    var call := Step(s, last).calls[c];
    JustifiedBefore(init, last, Held(call));
    if c in s.calls && call == s.calls[c] {
      CallJustifiedBefore(init, last, call);
    } else if last.Resume? && last.call in s.calls {
      CallJustifiedBefore(init, last, s.calls[last.call]);
    } else {
      assert Justified(init, s.rows[last.pid].proposal);
    }
  }

  lemma StepDelivers(s: System, input: Input, pid: Pid)
    requires pid in Step(s, input).delivered && pid !in s.delivered
    ensures input.Resume? && input.ok && input.call in s.calls && s.calls[input.call].InFlight?
    ensures s.calls[input.call].proposal.id == pid
  {
    hide TokenAccepted, BudgetCovers;
  }

  /**
   * In every run a stored proposal has its terms as proposed; it is committed, with its receipt, only
   * if the transport confirmed it with that receipt, failed only if the transport refused it, and
   * cancelled only if somebody asked for that. The same holds for what suspended calls will store.
   */
  lemma {:induction false} EveryOutcomeIsJustified(run: Run)
    ensures AllJustified(run)
  {
    if run != [] {
      var init, last := run[..|run| - 1], run[|run| - 1];
      assert init + [last] == run;
      EveryOutcomeIsJustified(init);
      hide After, CallJustified, Justified, Confirmed;
      forall pid | pid in After(run).rows
        ensures After(run).rows[pid].proposal.id == pid && Justified(run, After(run).rows[pid].proposal)
      {
        StepKeepsRows(init, last, pid);
      }
      forall c | c in After(run).calls ensures CallJustified(run, After(run).calls[c]) {
        StepKeepsCalls(init, last, c);
      }
      forall pid | pid in After(run).delivered ensures exists r :: Confirmed(run, pid, r) {
        Extended(init, last);
        LastJustifies(init, last);
        JustifiedBefore(init, last, Proposal(pid, Terms(0, 0, 0, 0), Proposed, 0, None));
        if pid !in After(init).delivered { StepDelivers(After(init), last, pid); }
      }
    }
  }

  /** A stored budget is the one that was created under its id; only what remains of it changes. */
  ghost predicate BudgetCreated(run: Run, bid: Bid, b: Budget) {
    exists m: nat :: m < |run| && run[m] == CreateBudget(bid, b.category, b.counterparty, b.currency, b.limit)
  }

  lemma StepBudget(s: System, input: Input, bid: Bid)
    requires bid in Step(s, input).budgets
    ensures var b := Step(s, input).budgets[bid];
            if bid in s.budgets then b == s.budgets[bid].(remaining := b.remaining)
            else input == CreateBudget(bid, b.category, b.counterparty, b.currency, b.limit)
                 && b.remaining == b.limit > 0
  {
    hide TokenAccepted, BudgetCovers;
  }

  lemma {:induction false} EveryBudgetWasCreated(run: Run, bid: Bid)
    requires bid in After(run).budgets
    ensures BudgetCreated(run, bid, After(run).budgets[bid])
  {
    var init, last := run[..|run| - 1], run[|run| - 1];
    assert init + [last] == run;
    StepBudget(After(init), last, bid);
    hide Step;
    if bid in After(init).budgets {
      EveryBudgetWasCreated(init, bid);
      var b := After(init).budgets[bid];
      var m: nat :| m < |init| && init[m] == CreateBudget(bid, b.category, b.counterparty, b.currency, b.limit);
      assert run[m] == init[m];
    } else {
      assert run[|init|] == last;
    }
  }

  /** A new proposal of a positive amount, and a new budget of a positive limit, are stored as given. */
  lemma NewEntriesExactlyWhen(s: System, pid: Pid, terms: Terms, bid: Bid, category: nat, counterparty: Option<nat>,
                              currency: nat, limit: int)
    ensures Step(s, Propose(pid, terms)) ==
            if pid in s.rows || terms.amount <= 0 then s
            else s.(rows := s.rows[pid := Row(Proposal(pid, terms, Proposed, 1, None), None, None, false)])
    ensures Step(s, CreateBudget(bid, category, counterparty, currency, limit)) ==
            if bid in s.budgets || limit <= 0 then s
            else s.(budgets := s.budgets[bid := Budget(category, counterparty, currency, limit, limit)])
  {
  }

  // ----- a refused commit gives the money back -----

  /** No amount is held for a proposal that the transport refused. */
  ghost predicate RefusedHoldNothing(s: System) {
    forall e :: e in s.held ==>
      && (e.pid in s.rows ==> s.rows[e.pid].proposal.stage != Failed)
      && forall c :: c in s.calls && s.calls[c].Finishing? && s.calls[c].updated.id == e.pid ==>
           s.calls[c].updated.stage != Failed
  }

  /** Money is newly held only for a proposal that was still pending. */
  lemma StepHolds(s: System, input: Input, e: Entry)
    requires e in Step(s, input).held && e !in s.held
    ensures input.Commit? && e.pid == input.pid && e.pid in s.rows && s.rows[e.pid].proposal.stage == Proposed
    ensures Step(s, input).rows[e.pid].proposal.stage == Committing
    ensures forall c :: c in Step(s, input).calls && c != input.call ==>
              c in s.calls && Step(s, input).calls[c] == s.calls[c]
    ensures input.call in Step(s, input).calls && Step(s, input).calls[input.call].Authorized?
  {
    hide TokenAccepted, BudgetCovers;
    if input.Resume? && input.call in s.calls && s.calls[input.call].InFlight? {
      WithoutFacts(s.held, s.calls[input.call].proposal.id);
    }
  }

  /** A refusal by the transport leaves nothing held for its proposal. */
  lemma RefusalReleases(s: System, call: nat, receipt: nat)
    requires CommitsOnce(s) && Ledger(s) && call in s.calls && s.calls[call].InFlight?
    ensures forall e :: e in Continue(s, call, false, receipt).held ==>
              e in s.held && e.pid != s.calls[call].proposal.id
  {
    assert HeldFor(s, s.calls[call]);
    WithoutFacts(s.held, s.calls[call].proposal.id);
  }

  /** Which failed proposals a step adds to the rows and to the calls that are about to store one. */
  lemma StepFails(s: System, input: Input, pid: Pid, c: nat)
    requires CommitsOnce(s)
    ensures var t := Step(s, input);
            && (pid in t.rows && t.rows[pid].proposal.stage == Failed ==>
                  || (pid in s.rows && s.rows[pid].proposal.stage == Failed)
                  || (input.Resume? && input.call in s.calls && s.calls[input.call].Finishing?
                      && s.calls[input.call].updated.id == pid && s.calls[input.call].updated.stage == Failed))
            && (c in t.calls && t.calls[c].Finishing? && t.calls[c].updated.stage == Failed ==>
                  || (c in s.calls && t.calls[c] == s.calls[c])
                  || (input.Resume? && !input.ok && c == input.call && c in s.calls && s.calls[c].InFlight?
                      && t.calls[c].updated.id == s.calls[c].proposal.id))
  {
    if pid in Step(s, input).rows { StepRow(s, input, pid); }
    if c in Step(s, input).calls { StepCall(s, input, c); }
    hide Step, CommitsOnce;
  }

  lemma StepRefundsRefused(s: System, input: Input)
    requires CommitsOnce(s) && Ledger(s) && RefusedHoldNothing(s)
    ensures RefusedHoldNothing(Step(s, input))
  {
    var t := Step(s, input);
    if input.Resume? && input.call in s.calls && s.calls[input.call].InFlight? && !input.ok {
      RefusalReleases(s, input.call, input.receipt);
    }
    hide Step, Ledger;
    forall e | e in t.held
      ensures e.pid in t.rows ==> t.rows[e.pid].proposal.stage != Failed
    {
      if e !in s.held { StepHolds(s, input, e); }
      StepFails(s, input, e.pid, 0);
    }
    forall e, c | e in t.held && c in t.calls && t.calls[c].Finishing? && t.calls[c].updated.id == e.pid
      ensures t.calls[c].updated.stage != Failed
    {
      assert c in s.calls ==> SafeCall(s, s.calls[c]);
      if e !in s.held { StepHolds(s, input, e); }
      StepFails(s, input, e.pid, c);
    }
  }

  /** In every run, nothing stays charged for a proposal that the transport has refused. */
  lemma {:induction false} RefusedCommitsAreRefunded(run: Run)
    ensures RefusedHoldNothing(After(run))
  {
    if run != [] {
      var init := run[..|run| - 1];
      RefusedCommitsAreRefunded(init);
      CommittedAtMostOnce(init);
      MoneyIsAccountedFor(init);
      hide Step, RefusedHoldNothing;
      StepRefundsRefused(After(init), run[|run| - 1]);
    }
  }

  // ----- undisturbed calls -----

  /** The three steps of an accepted commit: hand it to the transport, hear the answer, store it. */
  function Completed(t: System, call: nat, ok: bool, receipt: nat): System {
    Step(Step(Step(t, Resume(call, true, 0)), Resume(call, ok, receipt)), Resume(call, true, 0))
  }

  /**
   * A commit that nothing disturbs asks the transport once, and stores what it answered. If it was
   * refused, a budget that was charged gets exactly its amount back.
   */
  lemma UndisturbedCommit(s: System, t: System, call: nat, pid: Pid, budgetId: Option<Bid>, approved: bool,
                          ok: bool, receipt: nat)
    requires CommitsOnce(s) && call !in s.calls && pid in s.rows && s.rows[pid].proposal.stage == Proposed
    requires Accepts(s, t, call, pid, budgetId, approved)
    ensures var u, p := Completed(t, call, ok, receipt), s.rows[pid].proposal;
            && u.calls == s.calls && u.commits == s.commits + [pid]
            && u.rows == s.rows[pid := s.rows[pid].(approvalUsed := true, proposal := AnsweredWith(p, ok, receipt))]
            && (pid in u.delivered <==> ok || pid in s.delivered)
            && (ok ==> u.budgets == t.budgets)
            && (!ok && !approved ==> u.budgets == s.budgets)
            && (!ok && approved && budgetId == None ==> u.budgets == s.budgets)
  {
    hide CommitsOnce, Step, Completed, AnsweredWith, Returned;
    var p := s.rows[pid].proposal;
    ProposalIds(s, pid);
    NothingReturned(t.budgets, p.terms.amount);
    CommitFlows(t, call, p, budgetId, !approved, ok, receipt);
    assert s.calls[call := Authorized(p, budgetId, !approved)] - {call} == s.calls;
    if !approved { RefundRestores(s.budgets, budgetId.value, p.terms.amount); }
  }

  lemma NothingReturned(budgets: map<Bid, Budget>, amount: int)
    ensures Returned(budgets, None, amount) == budgets
  {
  }

  lemma RefundRestores(budgets: map<Bid, Budget>, bid: Bid, amount: int)
    requires bid in budgets
    ensures var charged := budgets[bid := budgets[bid].(remaining := budgets[bid].remaining - amount)];
            Returned(charged, Some(bid), amount) == budgets
  {
  }

  /** The budgets after a refused commit: whatever budget the caller named gets the amount. */
  function Returned(budgets: map<Bid, Budget>, budgetId: Option<Bid>, amount: int): map<Bid, Budget> {
    if budgetId.Some? && budgetId.value in budgets
    then budgets[budgetId.value := budgets[budgetId.value].(remaining := budgets[budgetId.value].remaining + amount)]
    else budgets
  }

  lemma CommitFlows(t: System, call: nat, p: Proposal, budgetId: Option<Bid>, charged: bool, ok: bool, receipt: nat)
    requires call in t.calls && t.calls[call] == Authorized(p, budgetId, charged) && p.id in t.rows
    ensures var u := Completed(t, call, ok, receipt);
            && u.calls == t.calls - {call} && u.commits == t.commits + [p.id]
            && u.rows == t.rows[p.id := t.rows[p.id].(proposal := AnsweredWith(p, ok, receipt))]
            && u.delivered == (if ok then t.delivered + {p.id} else t.delivered)
            && u.budgets == (if ok then t.budgets else Returned(t.budgets, budgetId, p.terms.amount))
  {
    hide Step;
    var t1 := Step(t, Resume(call, true, 0));
    HandedOver(t, call, p, budgetId, charged);
    var t2 := Step(t1, Resume(call, ok, receipt));
    AnswerHeard(t1, call, p, budgetId, charged, ok, receipt);
    OutcomeStored(t2, call, AnsweredWith(p, ok, receipt));
    assert t1.calls[call := Finishing(AnsweredWith(p, ok, receipt))] - {call} == t.calls - {call};
  }

  lemma HandedOver(t: System, call: nat, p: Proposal, budgetId: Option<Bid>, charged: bool)
    requires call in t.calls && t.calls[call] == Authorized(p, budgetId, charged)
    ensures Step(t, Resume(call, true, 0)) ==
            t.(calls := t.calls[call := InFlight(p, budgetId, charged)], commits := t.commits + [p.id])
  {
  }

  lemma AnswerHeard(t: System, call: nat, p: Proposal, budgetId: Option<Bid>, charged: bool, ok: bool, receipt: nat)
    requires call in t.calls && t.calls[call] == InFlight(p, budgetId, charged)
    ensures var u := Step(t, Resume(call, ok, receipt));
            && u.calls == t.calls[call := Finishing(AnsweredWith(p, ok, receipt))]
            && u.rows == t.rows && u.commits == t.commits
            && u.delivered == (if ok then t.delivered + {p.id} else t.delivered)
            && u.budgets == (if ok then t.budgets else Returned(t.budgets, budgetId, p.terms.amount))
  {
    hide Without;
  }

  lemma OutcomeStored(t: System, call: nat, stored: Proposal)
    requires call in t.calls && t.calls[call] == Finishing(stored) && stored.id in t.rows
    ensures Step(t, Resume(call, true, 0)) ==
            t.(calls := t.calls - {call}, rows := t.rows[stored.id := t.rows[stored.id].(proposal := stored)])
  {
  }

  lemma ProposalIds(s: System, pid: Pid)
    requires CommitsOnce(s) && pid in s.rows
    ensures s.rows[pid].proposal.id == pid
  {
  }

  /** What an undisturbed cancellation does: a committed proposal is first reversed by the transport. */
  lemma UndisturbedCancel(s: System, call: nat, pid: Pid, ok: bool)
    requires CommitsOnce(s) && call !in s.calls && pid in s.rows
    ensures var p, t := s.rows[pid].proposal, Step(s, Cancel(call, pid));
            var cancelled := s.rows[pid := s.rows[pid].(
              approvalUsed := true, proposal := Proposal(pid, p.terms, Stage.Cancelled, p.revision + 1, p.receipt))];
            match p.stage
            case Committing => t == s
            case Cancelled => t == s
            case Committed =>
              var u := Step(t, Resume(call, ok, 0));
              if ok then Step(u, Resume(call, true, 0)) == s.(rows := cancelled, reversed := s.reversed + {pid})
              else u == s
            case _ => Step(t, Resume(call, true, 0)) == s.(rows := cancelled)
  {
    hide CommitsOnce;
    ProposalIds(s, pid);
    var p := s.rows[pid].proposal;
    assert s.calls[call := WritingCancelled(p)] - {call} == s.calls;
    assert s.calls[call := Reversing(p)] - {call} == s.calls;
    assert s.calls[call := Reversing(p)][call := WritingCancelled(p)] - {call} == s.calls;
  }
}
