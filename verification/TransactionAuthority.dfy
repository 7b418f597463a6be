/** What authorises a commit, traced back through the run: the owner's latest preview, or a matching budget. */
module TransactionAuthority {
  import opened Options
  import opened Transactions

  // ----- tokens and the previews that issued them -----

  /** Step i is a preview of the pending proposal, which issues token k. */
  ghost predicate Issues(run: Run, i: nat, pid: Pid, k: Token) {
    && i < |run| && run[i] == Preview(pid)
    && var s := After(run[..i]);
       pid in s.rows && s.rows[pid].proposal.stage == Proposed && s.nextToken == k
  }

  /** Step i issued token k, and no later step of the run issued another for the proposal. */
  ghost predicate LastIssue(run: Run, i: nat, pid: Pid, k: Token) {
    Issues(run, i, pid, k) && forall j: nat, l :: i < j < |run| ==> !Issues(run, j, pid, l)
  }

  ghost predicate NeverIssued(run: Run, pid: Pid) {
    forall j: nat, l :: !Issues(run, j, pid, l)
  }

  /** The revision a proposal had when step i of the run was taken. */
  ghost function RevisionAt(run: Run, i: nat, pid: Pid): nat {
    if i <= |run| && pid in After(run[..i]).rows then After(run[..i]).rows[pid].proposal.revision else 0
  }

  /** The row's approval is that of the last preview, and still unused as long as the proposal is pending. */
  ghost predicate Traced(run: Run, pid: Pid, row: Row) {
    match row.approvalHash
    case None => NeverIssued(run, pid)
    case Some(k) =>
      && (row.proposal.stage == Proposed ==> !row.approvalUsed)
      && exists i: nat :: LastIssue(run, i, pid, k) && row.approvalRevision == Some(RevisionAt(run, i, pid))
  }

  lemma IssuesBefore(init: Run, last: Input, i: nat, pid: Pid, k: Token)
    requires i < |init|
    ensures Issues(init + [last], i, pid, k) <==> Issues(init, i, pid, k)
    ensures RevisionAt(init + [last], i, pid) == RevisionAt(init, i, pid)
  {
    assert (init + [last])[..i] == init[..i];
  }

  /** A step that issues nothing for the proposal leaves the last issue what it was. */
  lemma NoIssue(init: Run, last: Input, pid: Pid)
    requires forall l :: !Issues(init + [last], |init|, pid, l)
    ensures NeverIssued(init, pid) ==> NeverIssued(init + [last], pid)
    ensures forall i: nat, k :: LastIssue(init, i, pid, k) ==>
              LastIssue(init + [last], i, pid, k) && RevisionAt(init + [last], i, pid) == RevisionAt(init, i, pid)
  {
    hide Issues, RevisionAt;
    forall j: nat, l | j < |init| ensures Issues(init + [last], j, pid, l) <==> Issues(init, j, pid, l) {
      IssuesBefore(init, last, j, pid, l);
    }
    forall i: nat, k | LastIssue(init, i, pid, k)
      ensures RevisionAt(init + [last], i, pid) == RevisionAt(init, i, pid)
    {
      IssueInRange(init, i, pid, k);
      IssuesBefore(init, last, i, pid, k);
    }
    forall i: nat, k | LastIssue(init, i, pid, k) ensures i < |init| { IssueInRange(init, i, pid, k); }
    forall j: nat, l | j > |init| ensures !Issues(init + [last], j, pid, l) {
      IssueOutOfRange(init + [last], j, pid, l);
    }
  }

  lemma IssueInRange(run: Run, i: nat, pid: Pid, k: Token)
    requires Issues(run, i, pid, k)
    ensures i < |run|
  {
  }

  lemma IssueOutOfRange(run: Run, i: nat, pid: Pid, k: Token)
    requires i >= |run|
    ensures !Issues(run, i, pid, k)
  {
  }

  /** What a step does to the approval of one proposal. */
  lemma StepApproval(s: System, input: Input, pid: Pid)
    requires CommitsOnce(s)
    ensures pid in s.rows ==> pid in Step(s, input).rows
    ensures pid in Step(s, input).rows ==>
              var row := Step(s, input).rows[pid];
              if input == Preview(pid) && pid in s.rows && s.rows[pid].proposal.stage == Proposed then
                row == s.rows[pid].(approvalHash := Some(s.nextToken), approvalUsed := false,
                                    approvalRevision := Some(s.rows[pid].proposal.revision))
              else if pid !in s.rows then row.approvalHash == None
              else
                && row.approvalHash == s.rows[pid].approvalHash
                && row.approvalRevision == s.rows[pid].approvalRevision
                && (row.proposal.stage == Proposed ==> row == s.rows[pid])
  {
    hide TokenAccepted, BudgetCovers, Refund;
    forall p, b, charged { RefundTouchesBudgets(s, p, b, charged); }
    if input.Resume? && input.call in s.calls { assert SafeCall(s, s.calls[input.call]); }
  }

  lemma Extended(init: Run, last: Input)
    ensures After(init + [last]) == Step(After(init), last)
    ensures (init + [last])[..|init|] == init && (init + [last])[|init|] == last
  {
    assert (init + [last])[..|init|] == init;
  }

  lemma StepKeepsTrace(init: Run, last: Input, pid: Pid)
    requires CommitsOnce(After(init)) && pid in After(init + [last]).rows
    requires pid in After(init).rows ==> Traced(init, pid, After(init).rows[pid])
    requires pid !in After(init).rows ==> NeverIssued(init, pid)
    ensures Traced(init + [last], pid, After(init + [last]).rows[pid])
  {
    var run, s := init + [last], After(init);
    Extended(init, last);
    StepApproval(s, last, pid);
    hide After, Step, CommitsOnce;
    if last == Preview(pid) && pid in s.rows && s.rows[pid].proposal.stage == Proposed {
      assert LastIssue(run, |init|, pid, s.nextToken);
      assert RevisionAt(run, |init|, pid) == s.rows[pid].proposal.revision;
    } else {
      assert forall l :: !Issues(run, |init|, pid, l);
      hide Issues, RevisionAt, LastIssue, NeverIssued;
      NoIssue(init, last, pid);
    }
  }

  lemma NothingIssuedAtFirst(pid: Pid)
    ensures NeverIssued([], pid)
  {
  }

  /** In every run a row's approval goes back to the last preview of its proposal. */
  lemma {:induction false} ApprovalsAreTraced(run: Run, pid: Pid)
    ensures pid in After(run).rows ==> Traced(run, pid, After(run).rows[pid])
    ensures pid !in After(run).rows ==> NeverIssued(run, pid)
  {
    hide Traced, Step, NeverIssued;
    if run == [] {
      NothingIssuedAtFirst(pid);
      return;
    }
    var init, last := run[..|run| - 1], run[|run| - 1];
    assert init + [last] == run;
    ApprovalsAreTraced(init, pid);
    CommittedAtMostOnce(init);
    if pid in After(run).rows {
      StepKeepsTrace(init, last, pid);
    } else {
      StepApproval(After(init), last, pid);
      Extended(init, last);
      NoIssue(init, last, pid);
    }
  }

  // ----- what authorises a commit -----

  /** The token is the one issued last for the proposal, which has not been revised since. */
  ghost predicate OwnerApproved(run: Run, pid: Pid, token: Option<Token>)
    requires pid in After(run).rows
  {
    && token.Some?
    && exists i: nat :: LastIssue(run, i, pid, token.value)
                        && RevisionAt(run, i, pid) == After(run).rows[pid].proposal.revision
  }

  /** The named budget is for the proposal's category, currency and counterparty, and holds its amount. */
  ghost predicate BudgetAllows(s: System, pid: Pid, budgetId: Option<Bid>)
    requires pid in s.rows
  {
    && budgetId.Some? && budgetId.value in s.budgets
    && var b, terms := s.budgets[budgetId.value], s.rows[pid].proposal.terms;
       && b.category == terms.category && b.currency == terms.currency
       && (b.counterparty == None || b.counterparty == Some(terms.counterparty))
       && terms.amount <= b.remaining
  }

  ghost predicate Authorises(run: Run, pid: Pid, token: Option<Token>, budgetId: Option<Bid>) {
    && pid in After(run).rows && After(run).rows[pid].proposal.stage == Proposed
    && (OwnerApproved(run, pid, token) || BudgetAllows(After(run), pid, budgetId))
  }

  lemma OwnerApprovedMeans(run: Run, pid: Pid, token: Option<Token>)
    requires pid in After(run).rows && After(run).rows[pid].proposal.stage == Proposed
    ensures TokenAccepted(After(run).rows[pid], token) <==> OwnerApproved(run, pid, token)
  {
    hide After, Step, Issues, RevisionAt;
    ApprovalsAreTraced(run, pid);
    var row := After(run).rows[pid];
    if OwnerApproved(run, pid, token) {
      var i: nat :| LastIssue(run, i, pid, token.value) && RevisionAt(run, i, pid) == row.proposal.revision;
      var j: nat :| LastIssue(run, j, pid, row.approvalHash.value)
                    && row.approvalRevision == Some(RevisionAt(run, j, pid));
      IssueInRange(run, i, pid, token.value);
      IssueInRange(run, j, pid, row.approvalHash.value);
      assert i == j;
      OneTokenEach(run, i, pid, token.value, row.approvalHash.value);
    }
  }

  lemma OneTokenEach(run: Run, i: nat, pid: Pid, k: Token, l: Token)
    requires Issues(run, i, pid, k) && Issues(run, i, pid, l)
    ensures k == l
  {
  }

  lemma BudgetAllowsMeans(s: System, pid: Pid, budgetId: Option<Bid>)
    requires pid in s.rows
    ensures BudgetCovers(s, budgetId, s.rows[pid].proposal.terms) <==> BudgetAllows(s, pid, budgetId)
  {
  }

  /** What an accepted commit does: the proposal is taken, and the budget charged unless the owner approved. */
  ghost predicate Accepts(s: System, t: System, call: nat, pid: Pid, budgetId: Option<Bid>, approved: bool)
    requires pid in s.rows
  {
    var p := s.rows[pid].proposal;
    && t.calls == s.calls[call := Authorized(p, budgetId, !approved)]
    && t.rows == s.rows[pid := s.rows[pid].(approvalUsed := true, proposal := p.(stage := Committing))]
    && (if approved then t.budgets == s.budgets && t.held == s.held
        else budgetId.Some? && budgetId.value in s.budgets
             && t.budgets == s.budgets[budgetId.value := s.budgets[budgetId.value].(
                  remaining := s.budgets[budgetId.value].remaining - p.terms.amount)]
             && t.held == s.held + [Entry(pid, budgetId.value, p.terms.amount)])
    && t.commits == s.commits && t.gifts == s.gifts && t.nextToken == s.nextToken
    && t.delivered == s.delivered && t.reversed == s.reversed
  }

  /**
   * A commit is accepted exactly when the proposal is pending and either the owner approved it with
   * the latest token, or the named budget allows it; otherwise nothing changes.
   */
  lemma CommitAcceptedExactlyWhen(run: Run, call: nat, pid: Pid, token: Option<Token>, budgetId: Option<Bid>)
    requires call !in After(run).calls
    ensures var s, t := After(run), Step(After(run), Commit(call, pid, token, budgetId));
            if Authorises(run, pid, token, budgetId)
            then Accepts(s, t, call, pid, budgetId, OwnerApproved(run, pid, token))
            else t == s
  {
    hide After, OwnerApproved, BudgetCovers, TokenAccepted;
    var s := After(run);
    if pid in s.rows && s.rows[pid].proposal.stage == Proposed {
      OwnerApprovedMeans(run, pid, token);
      BudgetAllowsMeans(s, pid, budgetId);
    }
  }

  // ----- every commit was authorised -----

  ghost predicate AuthorisedAt(run: Run, m: nat, pid: Pid) {
    && m < |run| && run[m].Commit? && run[m].pid == pid
    && Authorises(run[..m], pid, run[m].token, run[m].budgetId)
  }

  ghost predicate WasAuthorised(run: Run, pid: Pid) {
    exists m: nat :: AuthorisedAt(run, m, pid)
  }

  lemma AuthorisedBefore(init: Run, last: Input, pid: Pid)
    requires WasAuthorised(init, pid)
    ensures WasAuthorised(init + [last], pid)
  {
    var m: nat :| AuthorisedAt(init, m, pid);
    assert (init + [last])[..m] == init[..m];
    assert AuthorisedAt(init + [last], m, pid);
  }

  /** The only ways in which a proposal comes to be authorised, or is handed to the transport. */
  lemma StepAuthorises(s: System, input: Input, c: nat, pid: Pid)
    requires CommitsOnce(s)
    ensures AuthorizedFor(Step(s, input), c, pid) && !AuthorizedFor(s, c, pid) ==>
              input.Commit? && input.pid == pid && input.call == c && c !in s.calls && Step(s, input) != s
    ensures pid in Step(s, input).commits && pid !in s.commits ==> exists d :: AuthorizedFor(s, d, pid)
  {
    hide TokenAccepted, BudgetCovers, Refund;
    if input.Resume? && input.call in s.calls {
      ContinueAuthorizesNothing(s, input.call, input.ok, input.receipt);
      hide Continue;
      if s.calls[input.call].Authorized? { assert AuthorizedFor(s, input.call, Subject(s.calls[input.call])); }
    } else {
      assert Step(s, input).commits == s.commits;
    }
  }

  /** In every run, whatever the transport was asked to commit had been authorised at an earlier step. */
  lemma {:induction false} EveryCommitWasAuthorised(run: Run, pid: Pid)
    ensures pid in After(run).commits ==> WasAuthorised(run, pid)
    ensures forall c :: AuthorizedFor(After(run), c, pid) ==> WasAuthorised(run, pid)
  {
    hide Step, WasAuthorised, AuthorizedFor, CommitsOnce;
    if run == [] {
      NothingAuthorisedAtFirst(pid);
      return;
    }
    var init, last := run[..|run| - 1], run[|run| - 1];
    assert init + [last] == run;
    var s := After(init);
    EveryCommitWasAuthorised(init, pid);
    CommittedAtMostOnce(init);
    if WasAuthorised(init, pid) {
      AuthorisedBefore(init, last, pid);
    } else {
      forall c ensures AuthorizedFor(After(run), c, pid) ==> WasAuthorised(run, pid) {
        StepAuthorises(s, last, c, pid);
        if AuthorizedFor(After(run), c, pid) {
          CommitAcceptedExactlyWhen(init, c, pid, last.token, last.budgetId);
          AuthorisedNow(init, last);
        }
      }
      StepAuthorises(s, last, 0, pid);
    }
  }

  lemma NothingAuthorisedAtFirst(pid: Pid)
    ensures forall c :: !AuthorizedFor(After([]), c, pid)
  {
  }

  lemma AuthorisedNow(init: Run, last: Input)
    requires last.Commit? && Authorises(init, last.pid, last.token, last.budgetId)
    ensures WasAuthorised(init + [last], last.pid)
  {
    hide Authorises;
    assert (init + [last])[..|init|] == init;
    assert AuthorisedAt(init + [last], |init|, last.pid);
  }
}
