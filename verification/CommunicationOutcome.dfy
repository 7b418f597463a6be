/** Which sends are approved, what a stored draft says about its delivery, and what an undisturbed call does. */
module CommunicationOutcome {
  import opened Options
  import opened Communications

  lemma Extended(init: Run, last: Input)
    ensures After(init + [last]) == Step(After(init), last)
    ensures (init + [last])[..|init|] == init && (init + [last])[|init|] == last
  {
    assert (init + [last])[..|init|] == init;
  }

  // ----- approvals go back to previews -----

  /** Step i is a preview of the draft, which issues token k. */
  ghost predicate Issues(run: Run, i: nat, did: Did, k: Token) {
    && i < |run| && run[i] == Preview(did)
    && var s := After(run[..i]);
       did in s.rows && s.rows[did].draft.stage == Drafted && |s.issued| == k
  }

  /** Step i lets a call of `send_approved` pass. */
  ghost predicate Approves(run: Run, i: nat, did: Did) {
    && i < |run| && run[i].SendApproved? && run[i].did == did
    && run[i].call !in After(run[..i]).calls && run[i].call in After(run[..i + 1]).calls
  }

  /** Step i issued token k for the draft, and no later step of the run issued another. */
  ghost predicate LastIssue(run: Run, i: nat, did: Did, k: Token) {
    Issues(run, i, did, k) && forall j: nat, l :: i < j < |run| ==> !Issues(run, j, did, l)
  }

  ghost predicate NeverIssued(run: Run, did: Did) {
    forall j: nat, l :: !Issues(run, j, did, l)
  }

  ghost predicate ApprovedSince(run: Run, i: nat, did: Did) {
    exists j: nat :: i < j < |run| && Approves(run, j, did)
  }

  ghost function RevisionAt(run: Run, i: nat, did: Did): nat {
    if i <= |run| && did in After(run[..i]).rows then After(run[..i]).rows[did].draft.revision else 0
  }

  /** The row's approval is that of the last preview; a pending draft's is used iff a send has passed since. */
  ghost predicate TracedTo(run: Run, i: nat, did: Did, row: Row, k: Token) {
    && LastIssue(run, i, did, k) && row.approvalRevision == Some(RevisionAt(run, i, did))
    && (row.draft.stage == Drafted ==> (row.approvalUsed <==> ApprovedSince(run, i, did)))
  }

  ghost predicate Traced(run: Run, did: Did, row: Row) {
    match row.approvalHash
    case None => NeverIssued(run, did)
    case Some(k) => exists i: nat :: TracedTo(run, i, did, row, k)
  }

  lemma StepsBefore(init: Run, last: Input, i: nat, did: Did, k: Token)
    requires i < |init|
    ensures Issues(init + [last], i, did, k) <==> Issues(init, i, did, k)
    ensures Approves(init + [last], i, did) <==> Approves(init, i, did)
    ensures RevisionAt(init + [last], i, did) == RevisionAt(init, i, did)
  {
    assert (init + [last])[..i] == init[..i] && (init + [last])[..i + 1] == init[..i + 1];
  }

  lemma InRange(run: Run, i: nat, did: Did)
    ensures forall k :: Issues(run, i, did, k) ==> i < |run|
    ensures Approves(run, i, did) ==> i < |run|
  {
  }

  /** A step that issues nothing for the draft leaves the last issue what it was. */
  lemma NoIssue(init: Run, last: Input, did: Did)
    requires forall l :: !Issues(init + [last], |init|, did, l)
    ensures NeverIssued(init, did) ==> NeverIssued(init + [last], did)
    ensures forall i: nat, k :: LastIssue(init, i, did, k) ==>
              && LastIssue(init + [last], i, did, k) && RevisionAt(init + [last], i, did) == RevisionAt(init, i, did)
              && (ApprovedSince(init + [last], i, did) <==>
                    ApprovedSince(init, i, did) || Approves(init + [last], |init|, did))
  {
    var run := init + [last];
    hide Issues, Approves, RevisionAt;
    forall j: nat, l ensures Issues(run, j, did, l) <==> j < |init| && Issues(init, j, did, l) {
      InRange(run, j, did);
      if j < |init| { StepsBefore(init, last, j, did, l); }
    }
    forall j: nat | j < |init| ensures Approves(run, j, did) <==> Approves(init, j, did) {
      StepsBefore(init, last, j, did, 0);
    }
    forall i: nat, k | LastIssue(init, i, did, k)
      ensures i < |init| && RevisionAt(run, i, did) == RevisionAt(init, i, did)
    {
      InRange(init, i, did);
      StepsBefore(init, last, i, did, k);
    }
  }

  /** What a step does to the approval of one draft. */
  lemma StepApproval(s: System, input: Input, did: Did)
    requires TokensSpentOnce(s)
    ensures did in s.rows ==> did in Step(s, input).rows
    ensures did in Step(s, input).rows ==>
              var row := Step(s, input).rows[did];
              if input == Preview(did) && did in s.rows && s.rows[did].draft.stage == Drafted then
                row == s.rows[did].(approvalHash := Some(|s.issued|), approvalUsed := false,
                                    approvalRevision := Some(s.rows[did].draft.revision))
              else if did !in s.rows then row.approvalHash == None
              else
                && row.approvalHash == s.rows[did].approvalHash
                && row.approvalRevision == s.rows[did].approvalRevision
                && (row.draft.stage == Drafted ==>
                      row == if input.SendApproved? && input.did == did && input.call !in s.calls
                                && input.call in Step(s, input).calls
                             then s.rows[did].(approvalUsed := true) else s.rows[did])
  {
  }

  lemma StepKeepsTrace(init: Run, last: Input, did: Did)
    requires TokensSpentOnce(After(init)) && did in After(init + [last]).rows
    requires did in After(init).rows ==> Traced(init, did, After(init).rows[did])
    requires did !in After(init).rows ==> NeverIssued(init, did)
    ensures Traced(init + [last], did, After(init + [last]).rows[did])
  {
    var run, s := init + [last], After(init);
    Extended(init, last);
    StepApproval(s, last, did);
    assert run[..|init| + 1] == run;
    hide After, Step, TokensSpentOnce;
    if last == Preview(did) && did in s.rows && s.rows[did].draft.stage == Drafted {
      assert LastIssue(run, |init|, did, |s.issued|);
      assert TracedTo(run, |init|, did, After(run).rows[did], |s.issued|);
    } else {
      assert forall l :: !Issues(run, |init|, did, l);
      NoIssue(init, last, did);
      assert Approves(run, |init|, did) <==> last.SendApproved? && last.did == did
                                             && last.call !in s.calls && last.call in After(run).calls;
      hide Issues, RevisionAt, LastIssue, NeverIssued, ApprovedSince, Approves;
      if did in s.rows && s.rows[did].approvalHash.Some? {
        var k := s.rows[did].approvalHash.value;
        var i: nat :| TracedTo(init, i, did, s.rows[did], k);
        assert TracedTo(run, i, did, After(run).rows[did], k);
      }
    }
  }

  lemma NothingIssuedAtFirst(did: Did)
    ensures NeverIssued([], did)
  {
  }

  /** In every run a row's approval goes back to the last preview of its draft. */
  lemma {:induction false} ApprovalsAreTraced(run: Run, did: Did)
    ensures did in After(run).rows ==> Traced(run, did, After(run).rows[did])
    ensures did !in After(run).rows ==> NeverIssued(run, did)
  {
    hide Traced, Step, NeverIssued, TokensSpentOnce;
    if run == [] {
      NothingIssuedAtFirst(did);
      return;
    }
    var init, last := run[..|run| - 1], run[|run| - 1];
    assert init + [last] == run;
    ApprovalsAreTraced(init, did);
    EachSendSpendsItsOwnPreview(init);
    if did in After(run).rows {
      StepKeepsTrace(init, last, did);
    } else {
      StepApproval(After(init), last, did);
      Extended(init, last);
      NoIssue(init, last, did);
    }
  }

  /** The token is the one issued last for this pending, unrevised draft, and no send has passed on it. */
  ghost predicate Approvable(run: Run, did: Did, token: Token) {
    && did in After(run).rows && After(run).rows[did].draft.stage == Drafted
    && exists i: nat ::
         && LastIssue(run, i, did, token) && RevisionAt(run, i, did) == After(run).rows[did].draft.revision
         && !ApprovedSince(run, i, did)
  }

  /** A send passes exactly on an approvable token; it uses the approval up, and otherwise changes nothing. */
  lemma SendAcceptedExactlyWhen(run: Run, call: nat, did: Did, token: Token)
    requires call !in After(run).calls
    ensures var s := After(run);
            Step(s, SendApproved(call, did, token)) ==
            if Approvable(run, did, token)
            then s.(rows := s.rows[did := s.rows[did].(approvalUsed := true)],
                    calls := s.calls[call := Approved(s.rows[did].draft, token)])
            else s
  {
    hide After, Issues, RevisionAt, ApprovedSince;
    var s := After(run);
    ApprovalsAreTraced(run, did);
    if did in s.rows && s.rows[did].draft.stage == Drafted {
      var row := s.rows[did];
      if Approvable(run, did, token) {
        var i: nat :| LastIssue(run, i, did, token) && RevisionAt(run, i, did) == row.draft.revision
                      && !ApprovedSince(run, i, did);
        InRange(run, i, did);
        var j: nat :| TracedTo(run, j, did, row, row.approvalHash.value);
        InRange(run, j, did);
        assert i == j;
        OneTokenEach(run, i, did, token, row.approvalHash.value);
      }
    }
  }

  lemma OneTokenEach(run: Run, i: nat, did: Did, k: Token, l: Token)
    requires Issues(run, i, did, k) && Issues(run, i, did, l)
    ensures k == l
  {
  }

  // ----- stored outcomes go back to answers of the transport -----

  /** At step m the transport answers a send of the draft. */
  ghost predicate Answers(run: Run, m: nat, did: Did, ok: bool, receipt: nat) {
    && m < |run| && run[m].Resume? && run[m].ok == ok && run[m].receipt == receipt
    && var s := After(run[..m]);
       run[m].call in s.calls && s.calls[run[m].call].Sending? && s.calls[run[m].call].draft.id == did
  }

  ghost predicate Confirmed(run: Run, did: Did, receipt: nat) {
    exists m: nat :: Answers(run, m, did, true, receipt)
  }

  ghost predicate Rejected(run: Run, did: Did) {
    exists m: nat, r: nat :: Answers(run, m, did, false, r)
  }

  ghost predicate CancelAsked(run: Run, did: Did) {
    exists m: nat :: m < |run| && run[m].Cancel? && run[m].did == did
  }

  ghost predicate Justified(run: Run, d: Draft) {
    match d.stage
    case Drafted => d.receipt == None
    case Sent => d.receipt.Some? && Confirmed(run, d.id, d.receipt.value)
    case DeliveryFailed => d.receipt == None && Rejected(run, d.id)
    case Cancelled => CancelAsked(run, d.id)
  }

  ghost predicate CallJustified(run: Run, c: Call) {
    match c
    case Approved(d, _) => d.stage == Drafted && Justified(run, d)
    case Sending(d) => d.stage == Drafted && Justified(run, d)
    case Finishing(updated) => (updated.stage == Sent || updated.stage == DeliveryFailed) && Justified(run, updated)
    case Recalling(d) => CancelAsked(run, d.id)
    case WritingCancelled(d) => CancelAsked(run, d.id)
  }

  ghost predicate AllJustified(run: Run) {
    var s := After(run);
    && (forall did :: did in s.rows ==> s.rows[did].draft.id == did && Justified(run, s.rows[did].draft))
    && (forall c :: c in s.calls ==> CallJustified(run, s.calls[c]))
  }

  function Subject(c: Call): Draft {
    match c
    case Approved(d, _) => d
    case Sending(d) => d
    case Finishing(d) => d
    case Recalling(d) => d
    case WritingCancelled(d) => d
  }

  lemma JustifiedBefore(init: Run, last: Input, d: Draft)
    ensures Justified(init, d) ==> Justified(init + [last], d)
    ensures CancelAsked(init, d.id) ==> CancelAsked(init + [last], d.id)
  {
    hide After;
    var run := init + [last];
    if d.receipt.Some? {
      if m: nat :| Answers(init, m, d.id, true, d.receipt.value) {
        assert run[..m] == init[..m];
        assert Answers(run, m, d.id, true, d.receipt.value);
      }
    }
    if m: nat, r: nat :| Answers(init, m, d.id, false, r) {
      assert run[..m] == init[..m];
      assert Answers(run, m, d.id, false, r);
    }
    if m: nat :| m < |init| && init[m].Cancel? && init[m].did == d.id {
      assert run[m] == init[m];
    }
  }

  lemma LastJustifies(init: Run, last: Input)
    ensures last.Cancel? ==> CancelAsked(init + [last], last.did)
    ensures last.Resume? && last.call in After(init).calls && After(init).calls[last.call].Sending? ==>
              var did := After(init).calls[last.call].draft.id;
              if last.ok then Confirmed(init + [last], did, last.receipt) else Rejected(init + [last], did)
  {
    var run := init + [last];
    assert run[..|init|] == init && run[|init|] == last;
    if last.Resume? && last.call in After(init).calls && After(init).calls[last.call].Sending? {
      assert Answers(run, |init|, After(init).calls[last.call].draft.id, last.ok, last.receipt);
    }
  }

  /** Where the draft of a row comes from. */
  lemma StepRow(s: System, input: Input, did: Did)
    requires forall id :: id in s.rows ==> s.rows[id].draft.id == id
    requires did in Step(s, input).rows
    ensures var d := Step(s, input).rows[did].draft;
            && d.id == did
            && (|| (did in s.rows && d == s.rows[did].draft)
                || (input == CreateDraft(did) && d == Draft(did, Drafted, 1, None))
                || (input.Resume? && input.call in s.calls
                    && match s.calls[input.call]
                       case Finishing(updated) => d == updated
                       case WritingCancelled(e) => e.id == did && d.stage == Cancelled
                       case _ => false))
  {
  }

  /** What the transport's answer makes of a draft. */
  function AnsweredWith(d: Draft, ok: bool, receipt: nat): Draft {
    Draft(d.id, if ok then Sent else DeliveryFailed, d.revision + 1, if ok then Some(receipt) else d.receipt)
  }

  /** Where a suspended call comes from. */
  lemma StepCall(s: System, input: Input, c: nat)
    requires c in Step(s, input).calls
    ensures var call := Step(s, input).calls[c];
            || (c in s.calls && call == s.calls[c])
            || (input.SendApproved? && call.Approved? && input.did in s.rows && call.draft == s.rows[input.did].draft
                && call.draft.stage == Drafted)
            || (input.Cancel? && (call.Recalling? || call.WritingCancelled?) && input.did in s.rows
                && call.draft == s.rows[input.did].draft)
            || (input.Resume? && input.call in s.calls
                && match s.calls[input.call]
                   case Approved(d, _) => call == Sending(d)
                   case Sending(d) => call == Finishing(AnsweredWith(d, input.ok, input.receipt))
                   case Recalling(d) => call == WritingCancelled(d)
                   case _ => false)
  {
  }

  lemma StepKeepsRows(init: Run, last: Input, did: Did)
    requires AllJustified(init) && did in After(init + [last]).rows
    ensures var d := After(init + [last]).rows[did].draft; d.id == did && Justified(init + [last], d)
  {
    Extended(init, last);
    var s := After(init);
    StepRow(s, last, did);
    hide After, Step, Confirmed, Rejected, CancelAsked;
    JustifiedBefore(init, last, Step(s, last).rows[did].draft);
    if last.Resume? && last.call in s.calls {
      assert CallJustified(init, s.calls[last.call]);
      JustifiedBefore(init, last, Subject(s.calls[last.call]));
    }
  }

  lemma StepKeepsCalls(init: Run, last: Input, c: nat)
    requires AllJustified(init) && c in After(init + [last]).calls
    ensures CallJustified(init + [last], After(init + [last]).calls[c])
  {
    Extended(init, last);
    var s := After(init);
    StepCall(s, last, c);
    LastJustifies(init, last);
    hide After, Step, Confirmed, Rejected, CancelAsked;
    JustifiedBefore(init, last, Subject(Step(s, last).calls[c]));
    if last.Resume? && last.call in s.calls {
      assert CallJustified(init, s.calls[last.call]);
      JustifiedBefore(init, last, Subject(s.calls[last.call]));
    }
    if c in s.calls { assert CallJustified(init, s.calls[c]); }
  }

  /**
   * In every run a stored draft is sent, with its receipt, only if the transport confirmed a send of it
   * with that receipt; its delivery failed only if the transport refused one; it is cancelled only if
   * somebody asked for that. The same holds for what suspended calls will store.
   */
  lemma {:induction false} EveryOutcomeIsJustified(run: Run)
    ensures AllJustified(run)
  {
    if run != [] {
      var init, last := run[..|run| - 1], run[|run| - 1];
      assert init + [last] == run;
      EveryOutcomeIsJustified(init);
      hide After, CallJustified, Justified;
      forall did | did in After(run).rows
        ensures After(run).rows[did].draft.id == did && Justified(run, After(run).rows[did].draft)
      {
        StepKeepsRows(init, last, did);
      }
      forall c | c in After(run).calls ensures CallJustified(run, After(run).calls[c]) {
        StepKeepsCalls(init, last, c);
      }
    }
  }

  // ----- undisturbed calls -----

  /** An approved send that nothing disturbs reaches the transport once, with its token, and stores the answer. */
  lemma UndisturbedSend(run: Run, call: nat, did: Did, token: Token, ok: bool, receipt: nat)
    requires call !in After(run).calls && Approvable(run, did, token)
    ensures var s := After(run);
            var t := Step(s, SendApproved(call, did, token));
            var u := Step(Step(Step(t, Resume(call, true, 0)), Resume(call, ok, receipt)), Resume(call, true, 0));
            && u.calls == s.calls && u.sends == s.sends + [Send(did, token)] && u.issued == s.issued
            && u.rows == s.rows[did := s.rows[did].(
                 approvalUsed := true, draft := AnsweredWith(s.rows[did].draft, ok, receipt))]
  {
    var s := After(run);
    assert s.rows[did].draft.id == did by { EachSendSpendsItsOwnPreview(run); }
    SendAcceptedExactlyWhen(run, call, did, token);
    hide After, Approvable;
    var d := s.rows[did].draft;
    assert s.calls[call := Approved(d, token)][call := Sending(d)] == s.calls[call := Sending(d)];
    assert s.calls[call := Finishing(AnsweredWith(d, ok, receipt))] - {call} == s.calls;
  }

  /** What an undisturbed cancellation does: a sent draft is first recalled by the transport. */
  lemma UndisturbedCancel(s: System, call: nat, did: Did, ok: bool)
    requires TokensSpentOnce(s) && call !in s.calls && did in s.rows
    ensures var d, t := s.rows[did].draft, Step(s, Cancel(call, did));
            var cancelled := s.rows[did := s.rows[did].(
              approvalUsed := true, draft := Draft(did, Cancelled, d.revision + 1, d.receipt))];
            match d.stage
            case Cancelled => t == s
            case Sent =>
              var u := Step(t, Resume(call, ok, 0));
              if ok then Step(u, Resume(call, true, 0)) == s.(rows := cancelled) else u == s
            case _ => Step(t, Resume(call, true, 0)) == s.(rows := cancelled)
  {
    var d := s.rows[did].draft;
    assert d.id == did;
    hide TokensSpentOnce;
    assert s.calls[call := WritingCancelled(d)] - {call} == s.calls;
    assert s.calls[call := Recalling(d)] - {call} == s.calls;
    assert s.calls[call := Recalling(d)][call := WritingCancelled(d)] - {call} == s.calls;
  }
}
