/**
 * Draft-first communication as a step system: previews issue fresh approval tokens, and a send
 * spends one; one step for every locked section and transport call, in any interleaving.
 */
module Communications {
  import opened Options

  type Did = nat
  type Token = nat

  datatype Stage = Drafted | Sent | DeliveryFailed | Cancelled

  datatype Draft = Draft(id: Did, stage: Stage, revision: nat, receipt: Option<nat>)

  datatype Row = Row(draft: Draft, approvalHash: Option<Token>, approvalRevision: Option<nat>, approvalUsed: bool)

  /** A call suspended at an await; an approved one remembers the token it spent. */
  datatype Call =
    | Approved(draft: Draft, token: Token)
    | Sending(draft: Draft)
    | Finishing(updated: Draft)
    | Recalling(draft: Draft)
    | WritingCancelled(draft: Draft)

  datatype Send = Send(did: Did, token: Token)

  /** Durable rows, suspended calls, the draft each token was issued for, and the `transport.send` calls. */
  datatype System = System(rows: map<Did, Row>, calls: map<nat, Call>, issued: seq<Did>, sends: seq<Send>)

  const EMPTY := System(map[], map[], [], [])

  datatype Input =
    | CreateDraft(did: Did)
    | Preview(did: Did)
    | SendApproved(call: nat, did: Did, token: Token)
    | Cancel(call: nat, did: Did)
    | Resume(call: nat, ok: bool, receipt: nat)
    | Drop(call: nat)
    | Crash

  function SetDraft(s: System, d: Draft): System {
    if d.id in s.rows then s.(rows := s.rows[d.id := s.rows[d.id].(draft := d)]) else s
  }

  /** The first locked section of `send_approved`; unchanged where the source raises. */
  function Approve(s: System, call: nat, did: Did, token: Token): System {
    if call in s.calls || did !in s.rows then s
    else
      var row := s.rows[did];
      if row.draft.stage != Drafted || row.approvalUsed || row.approvalRevision != Some(row.draft.revision)
         || row.approvalHash != Some(token) then s
      else
        s.(rows := s.rows[did := row.(approvalUsed := true)],
           calls := s.calls[call := Approved(row.draft, token)])
  }

  /** What a suspended call does up to its next await, given how the transport answered. */
  function Continue(s: System, call: nat, ok: bool, receipt: nat): System
    requires call in s.calls
  {
    match s.calls[call]
    case Approved(d, token) =>
      s.(calls := s.calls[call := Sending(d)], sends := s.sends + [Send(d.id, token)])
    case Sending(d) =>
      var updated := if ok then d.(stage := Sent, receipt := Some(receipt)) else d.(stage := DeliveryFailed);
      s.(calls := s.calls[call := Finishing(updated.(revision := d.revision + 1))])
    case Finishing(updated) => SetDraft(s, updated).(calls := s.calls - {call})
    case Recalling(d) =>
      if ok then s.(calls := s.calls[call := WritingCancelled(d)]) else s.(calls := s.calls - {call})
    case WritingCancelled(d) =>
      var t := SetDraft(s, d.(stage := Cancelled, revision := d.revision + 1));
      t.(rows := if d.id in t.rows then t.rows[d.id := t.rows[d.id].(approvalUsed := true)] else t.rows,
         calls := s.calls - {call})
  }

  function Step(s: System, input: Input): System {
    match input
    case CreateDraft(did) =>
      if did in s.rows then s
      else s.(rows := s.rows[did := Row(Draft(did, Drafted, 1, None), None, None, false)])
    case Preview(did) =>
      if did !in s.rows || s.rows[did].draft.stage != Drafted then s
      else
        var row := s.rows[did];
        s.(rows := s.rows[did := row.(approvalHash := Some(|s.issued|), approvalRevision := Some(row.draft.revision),
                                      approvalUsed := false)],
           issued := s.issued + [did])
    case SendApproved(call, did, token) => Approve(s, call, did, token)
    case Cancel(call, did) =>
      if call in s.calls || did !in s.rows then s
      else
        var d := s.rows[did].draft;
        if d.stage == Sent then s.(calls := s.calls[call := Recalling(d)])
        else if d.stage == Drafted || d.stage == DeliveryFailed then s.(calls := s.calls[call := WritingCancelled(d)])
        else s
    case Resume(call, ok, receipt) => if call in s.calls then Continue(s, call, ok, receipt) else s
    case Drop(call) => s.(calls := s.calls - {call})
    case Crash => s.(calls := map[])
  }

  type Run = seq<Input>

  function After(run: Run): System {
    if run == [] then EMPTY else Step(After(run[..|run| - 1]), run[|run| - 1])
  }

  // ----- a token authorises at most one send -----

  ghost predicate HeldBy(s: System, c: nat, token: Token) {
    c in s.calls && s.calls[c].Approved? && s.calls[c].token == token
  }

  ghost predicate SentWith(s: System, i: int, token: Token) {
    0 <= i < |s.sends| && s.sends[i].token == token
  }

  ghost predicate Spent(s: System, token: Token) {
    (exists c :: HeldBy(s, c, token)) || exists i :: SentWith(s, i, token)
  }

  ghost predicate IssuedFor(s: System, token: Token, did: Did) {
    token < |s.issued| && s.issued[token] == did
  }

  /** A spent token was issued for the draft it was spent on, once, and its row knows that it is spent. */
  ghost predicate TokensSpentOnce(s: System) {
    && (forall did :: did in s.rows ==> s.rows[did].draft.id == did)
    && (forall c, token :: HeldBy(s, c, token) ==> IssuedFor(s, token, s.calls[c].draft.id))
    && (forall i, token :: SentWith(s, i, token) ==> IssuedFor(s, token, s.sends[i].did))
    && (forall c, d, token :: HeldBy(s, c, token) && HeldBy(s, d, token) ==> c == d)
    && (forall c, i, token :: HeldBy(s, c, token) ==> !SentWith(s, i, token))
    && (forall i, j, token :: SentWith(s, i, token) && SentWith(s, j, token) ==> i == j)
    && (forall did :: did in s.rows && s.rows[did].approvalHash.Some? ==>
          var token := s.rows[did].approvalHash.value;
          IssuedFor(s, token, did) && (Spent(s, token) ==> s.rows[did].approvalUsed))
    && (forall c :: c in s.calls && s.calls[c].Finishing? ==> s.calls[c].updated.stage != Drafted)
  }

  lemma PreviewKeepsTokens(s: System, did: Did)
    requires TokensSpentOnce(s)
    ensures TokensSpentOnce(Step(s, Preview(did)))
  {
    var t := Step(s, Preview(did));
    assert t.calls == s.calls && t.sends == s.sends;
    forall token ensures Spent(t, token) <==> Spent(s, token) {
      assert forall c :: HeldBy(t, c, token) <==> HeldBy(s, c, token);
      assert forall i :: SentWith(t, i, token) <==> SentWith(s, i, token);
    }
    assert forall c, token :: HeldBy(t, c, token) ==> HeldBy(s, c, token);
    assert forall i, token :: SentWith(t, i, token) ==> SentWith(s, i, token);
    assert !Spent(s, |s.issued|);
  }

  lemma ApproveKeepsTokens(s: System, call: nat, did: Did, token: Token)
    requires TokensSpentOnce(s)
    ensures TokensSpentOnce(Approve(s, call, did, token))
  {
    var t := Approve(s, call, did, token);
    if t != s {
      assert !Spent(s, token);
      forall c, k ensures HeldBy(t, c, k) <==> (if c == call then k == token else HeldBy(s, c, k)) {}
      forall i, k ensures SentWith(t, i, k) <==> SentWith(s, i, k) {}
      forall k | Spent(t, k) ensures Spent(s, k) || k == token {
        if c :| HeldBy(t, c, k) && c != call { assert HeldBy(s, c, k); }
        if i :| SentWith(t, i, k) { assert SentWith(s, i, k); }
      }
    }
  }

  lemma ContinueSpends(s: System, call: nat, ok: bool, receipt: nat)
    requires call in s.calls
    ensures var t, c := Continue(s, call, ok, receipt), s.calls[call];
            && (forall d, k :: HeldBy(t, d, k) <==> d != call && HeldBy(s, d, k))
            && (forall i, k :: SentWith(t, i, k) <==>
                  SentWith(s, i, k) || (c.Approved? && i == |s.sends| && k == c.token))
            && (c.Approved? ==> HeldBy(s, call, c.token))
            && forall k :: Spent(t, k) ==> Spent(s, k)
  {
    var t, c := Continue(s, call, ok, receipt), s.calls[call];
    if c.Approved? { assert HeldBy(s, call, c.token); }
    forall d, k ensures HeldBy(t, d, k) <==> d != call && HeldBy(s, d, k) {}
    forall k ensures Spent(t, k) ==> Spent(s, k) {
      if d :| HeldBy(t, d, k) { assert HeldBy(s, d, k); }
      if i :| SentWith(t, i, k) && i < |s.sends| { assert SentWith(s, i, k); }
    }
  }

  /** What a suspended call leaves of rows, calls and approvals. */
  lemma ContinueRows(s: System, call: nat, ok: bool, receipt: nat)
    requires TokensSpentOnce(s) && call in s.calls
    ensures var t := Continue(s, call, ok, receipt);
            && t.issued == s.issued && t.rows.Keys == s.rows.Keys
            && (forall did :: did in t.rows ==>
                  && t.rows[did].draft.id == did && t.rows[did].approvalHash == s.rows[did].approvalHash
                  && (s.rows[did].approvalUsed ==> t.rows[did].approvalUsed))
            && (forall c :: c in t.calls && c != call ==> c in s.calls && t.calls[c] == s.calls[c])
            && (call in t.calls && t.calls[call].Finishing? ==> t.calls[call].updated.stage != Drafted)
            && |t.sends| >= |s.sends| && t.sends[..|s.sends|] == s.sends
            && (|t.sends| > |s.sends| ==> s.calls[call].Approved? && t.sends[|s.sends|].did == s.calls[call].draft.id)
  {
    hide Spent, IssuedFor, HeldBy, SentWith;
  }

  lemma ContinueKeepsTokens(s: System, call: nat, ok: bool, receipt: nat)
    requires TokensSpentOnce(s) && call in s.calls
    ensures TokensSpentOnce(Continue(s, call, ok, receipt))
  {
    ContinueSpends(s, call, ok, receipt);
    ContinueRows(s, call, ok, receipt);
    hide Continue, Spent;
    var t := Continue(s, call, ok, receipt);
    forall i, k | SentWith(t, i, k) ensures IssuedFor(t, k, t.sends[i].did) {
      if i < |s.sends| { assert t.sends[i] == t.sends[..|s.sends|][i] == s.sends[i]; }
    }
  }

  lemma StepKeepsTokens(s: System, input: Input)
    requires TokensSpentOnce(s)
    ensures TokensSpentOnce(Step(s, input))
  {
    hide Approve, Continue, SetDraft;
    if input.Preview? {
      PreviewKeepsTokens(s, input.did);
    } else if input.SendApproved? {
      ApproveKeepsTokens(s, input.call, input.did, input.token);
    } else if input.Resume? && input.call in s.calls {
      ContinueKeepsTokens(s, input.call, input.ok, input.receipt);
    } else {
      var t := Step(s, input);
      forall c, k ensures HeldBy(t, c, k) ==> HeldBy(s, c, k) {}
      forall i, k ensures SentWith(t, i, k) <==> SentWith(s, i, k) {}
      forall k ensures Spent(t, k) ==> Spent(s, k) {
        if c :| HeldBy(t, c, k) { assert HeldBy(s, c, k); }
        if i :| SentWith(t, i, k) { assert SentWith(s, i, k); }
      }
    }
  }

  /** On every interleaving each `transport.send` spends a preview of its own draft that no other send spends. */
  lemma {:induction false} EachSendSpendsItsOwnPreview(run: Run)
    ensures TokensSpentOnce(After(run))
    ensures var s := After(run);
            && (forall i :: 0 <= i < |s.sends| ==> IssuedFor(s, s.sends[i].token, s.sends[i].did))
            && (forall i, j :: 0 <= i < j < |s.sends| ==> s.sends[i].token != s.sends[j].token)
  {
    if run != [] {
      EachSendSpendsItsOwnPreview(run[..|run| - 1]);
      StepKeepsTokens(After(run[..|run| - 1]), run[|run| - 1]);
    }
    var s := After(run);
    assert forall i :: 0 <= i < |s.sends| ==> SentWith(s, i, s.sends[i].token);
  }

  predicate Left(s: System, did: Did) {
    did in s.rows && s.rows[did].draft.stage != Drafted
  }

  /** A draft that has left the draft stage never re-enters it. */
  lemma LeftForGood(run: Run, input: Input, did: Did)
    requires Left(After(run), did)
    ensures Left(After(run + [input]), did)
  {
    assert (run + [input])[..|run|] == run;
    EachSendSpendsItsOwnPreview(run);
  }

  // ----- how often one draft is sent -----

  ghost predicate SpentOn(s: System, did: Did, token: Token) {
    IssuedFor(s, token, did) && Spent(s, token)
  }

  /** No preview of the draft is taken once an approval of it has been spent. */
  ghost predicate NeverRepreviewed(run: Run, did: Did) {
    forall i, token :: 0 <= i < |run| && run[i] == Preview(did) ==> !SpentOn(After(run[..i]), did, token)
  }

  ghost predicate SpentAtMostOnce(s: System, did: Did) {
    && (forall k, l :: SpentOn(s, did, k) && SpentOn(s, did, l) ==> k == l)
    && (forall k :: SpentOn(s, did, k) ==> did in s.rows && s.rows[did].approvalUsed)
  }

  /** What a step newly spends, and that only a preview makes an approval unused again. */
  lemma StepSpends(s: System, input: Input, did: Did, token: Token)
    requires TokensSpentOnce(s) && SpentOn(Step(s, input), did, token)
    ensures SpentOn(s, did, token) ||
            (input.SendApproved? && input.did == did && input.token == token && did in s.rows
             && !s.rows[did].approvalUsed
             && did in Step(s, input).rows && Step(s, input).rows[did].approvalUsed)
  {
    var t := Step(s, input);
    if c :| HeldBy(t, c, token) {
      if input.SendApproved? && input.call == c && t != s {
        assert HeldBy(t, c, input.token);
      } else {
        assert HeldBy(s, c, token);
      }
    } else {
      var i :| SentWith(t, i, token);
      if i < |s.sends| {
        assert SentWith(s, i, token);
      } else {
        assert HeldBy(s, input.call, token);
      }
    }
  }

  lemma StepKeepsUsed(s: System, input: Input, did: Did)
    requires TokensSpentOnce(s) && did in s.rows && s.rows[did].approvalUsed && input != Preview(did)
    ensures did in Step(s, input).rows && Step(s, input).rows[did].approvalUsed
  {
  }

  /** A draft is sent at most once as long as it is not previewed again after an approval was spent. */
  lemma {:induction false} SentAtMostOnceWithoutRepreview(run: Run, did: Did)
    requires NeverRepreviewed(run, did)
    ensures SpentAtMostOnce(After(run), did)
    ensures var s := After(run);
            forall i, j :: 0 <= i < j < |s.sends| ==> !(s.sends[i].did == did && s.sends[j].did == did)
  {
    hide TokensSpentOnce, Step;
    var s := After(run);
    if run != [] {
      var init, last := run[..|run| - 1], run[|run| - 1];
      assert forall i :: 0 <= i < |init| ==> init[..i] == run[..i] && init[i] == run[i];
      SentAtMostOnceWithoutRepreview(init, did);
      EachSendSpendsItsOwnPreview(init);
      var before := After(init);
      forall k, l | SpentOn(s, did, k) && SpentOn(s, did, l)
        ensures k == l && did in s.rows && s.rows[did].approvalUsed
      {
        StepSpends(before, last, did, k);
        StepSpends(before, last, did, l);
        if SpentOn(before, did, k) { StepKeepsUsed(before, last, did); }
      }
    }
    EachSendSpendsItsOwnPreview(run);
    forall i, j | 0 <= i < j < |s.sends| ensures !(s.sends[i].did == did && s.sends[j].did == did) {
      assert SentWith(s, i, s.sends[i].token) && SentWith(s, j, s.sends[j].token);
      assert s.sends[i].did == did ==> SpentOn(s, did, s.sends[i].token);
      assert s.sends[j].did == did ==> SpentOn(s, did, s.sends[j].token);
    }
  }

  /** Two different approvals of one draft are spent, so it is, or is about to be, sent twice. */
  ghost predicate SpentTwice(s: System, did: Did) {
    exists k, l :: k != l && SpentOn(s, did, k) && SpentOn(s, did, l)
  }

  /** The call is approved, although an approval of the same draft has been spent before. */
  ghost predicate ApprovesAgain(s: System, input: Input, did: Did) {
    && input.SendApproved? && input.did == did && input.call !in s.calls && did in s.rows
    && var row := s.rows[did];
       && row.draft.stage == Drafted && !row.approvalUsed && row.approvalRevision == Some(row.draft.revision)
       && row.approvalHash == Some(input.token)
       && exists k :: SpentOn(s, did, k)
  }

  /** What was spent stays spent through an approval, which adds its own token. */
  lemma ApprovalSpends(s: System, input: Input, did: Did, token: Token)
    requires TokensSpentOnce(s) && ApprovesAgain(s, input, did) && SpentOn(s, did, token)
    ensures SpentOn(Step(s, input), did, token) && SpentOn(Step(s, input), did, input.token)
    ensures token != input.token
  {
    var t := Step(s, input);
    assert HeldBy(t, input.call, input.token);
    if c :| HeldBy(s, c, token) {
      assert HeldBy(t, c, token);
    } else {
      var i :| SentWith(s, i, token);
      assert SentWith(t, i, token);
    }
  }

  lemma OnlyAnApprovalSpends(s: System, input: Input, did: Did, token: Token)
    requires TokensSpentOnce(s) && SpentOn(Step(s, input), did, token) && !SpentOn(s, did, token)
    requires exists k :: SpentOn(s, did, k)
    ensures ApprovesAgain(s, input, did)
  {
    hide SpentOn;
    StepSpends(s, input, did, token);
  }

  lemma SecondSpendIsAnApproval(s: System, input: Input, did: Did)
    requires TokensSpentOnce(s) && !SpentTwice(s, did) && SpentTwice(Step(s, input), did)
    ensures ApprovesAgain(s, input, did)
  {
    hide TokensSpentOnce, Step, SpentOn, ApprovesAgain;
    var k, l :| k != l && SpentOn(Step(s, input), did, k) && SpentOn(Step(s, input), did, l);
    if !SpentOn(s, did, k) && !SpentOn(s, did, l) {
      StepSpends(s, input, did, k);
      StepSpends(s, input, did, l);
    } else if SpentOn(s, did, k) {
      OnlyAnApprovalSpends(s, input, did, l);
    } else {
      OnlyAnApprovalSpends(s, input, did, k);
    }
  }

  /** The one step that spends a second approval of a draft: one on a preview taken after the first was spent. */
  lemma SecondApprovalExactlyWhen(run: Run, input: Input, did: Did)
    requires !SpentTwice(After(run), did)
    ensures SpentTwice(After(run + [input]), did) <==> ApprovesAgain(After(run), input, did)
  {
    var s := After(run);
    assert After(run + [input]) == Step(s, input) by { assert (run + [input])[..|run|] == run; }
    EachSendSpendsItsOwnPreview(run);
    hide TokensSpentOnce, SpentOn, Step, After;
    if ApprovesAgain(s, input, did) {
      var k :| SpentOn(s, did, k);
      ApprovalSpends(s, input, did, k);
    }
    hide SpentTwice, ApprovesAgain;
    if SpentTwice(Step(s, input), did) {
      SecondSpendIsAnApproval(s, input, did);
    }
  }

  predicate SentTwice(s: System, did: Did) {
    exists i, j | 0 <= i < j < |s.sends| :: s.sends[i].did == did && s.sends[j].did == did
  }

  lemma {:induction false} SpentTwiceMeansApprovedAgain(run: Run, did: Did) returns (m: nat)
    requires SpentTwice(After(run), did)
    ensures m < |run| && ApprovesAgain(After(run[..m]), run[m], did)
  {
    hide SpentTwice, ApprovesAgain, Step;
    if run == [] { NothingSpentAtFirst(did); }
    var init := run[..|run| - 1];
    assert init + [run[|run| - 1]] == run;
    if SpentTwice(After(init), did) {
      m := SpentTwiceMeansApprovedAgain(init, did);
      assert init[..m] == run[..m];
    } else {
      m := |init|;
      SecondApprovalExactlyWhen(init, run[m], did);
    }
  }

  lemma NothingSpentAtFirst(did: Did)
    ensures !SpentTwice(EMPTY, did)
  {
  }

  /** A draft that was sent twice was approved a second time, on a preview taken after the first approval. */
  lemma SentTwiceMeansApprovedAgain(run: Run, did: Did) returns (m: nat)
    requires SentTwice(After(run), did)
    ensures m < |run| && ApprovesAgain(After(run[..m]), run[m], did)
  {
    var s := After(run);
    var i, j :| 0 <= i < j < |s.sends| && s.sends[i].did == did && s.sends[j].did == did;
    EachSendSpendsItsOwnPreview(run);
    assert SentWith(s, i, s.sends[i].token) && SentWith(s, j, s.sends[j].token);
    assert SpentOn(s, did, s.sends[i].token) && SpentOn(s, did, s.sends[j].token);
    hide SpentOn, TokensSpentOnce;
    m := SpentTwiceMeansApprovedAgain(run, did);
  }

  function Script(inputs: nat -> Input, n: nat): Run {
    if n == 0 then [] else Script(inputs, n - 1) + [inputs(n - 1)]
  }

  lemma ScriptStep(inputs: nat -> Input, n: nat)
    ensures After(Script(inputs, n + 1)) == Step(After(Script(inputs, n)), inputs(n))
  {
    assert Script(inputs, n + 1)[..|Script(inputs, n)|] == Script(inputs, n);
  }

  /** While the first send is in flight the draft is still a draft, so it can be previewed and sent again. */
  function DoubleSend(n: nat): Input {
    if n == 0 then CreateDraft(0)
    else if n == 1 then Preview(0)
    else if n == 2 then SendApproved(0, 0, 0)
    else if n == 3 then Preview(0)
    else if n == 4 then SendApproved(1, 0, 1)
    else Resume(n - 5, true, 0)
  }

  lemma DoubleSendApproved()
    ensures var s, d := After(Script(DoubleSend, 4)), Draft(0, Drafted, 1, None);
            s.rows == map[0 := Row(d, Some(1), Some(1), false)] && s.calls == map[0 := Approved(d, 0)] && s.sends == []
  {
    assert After(Script(DoubleSend, 0)) == EMPTY;
    hide After, Script, Continue;
    ScriptStep(DoubleSend, 0);
    ScriptStep(DoubleSend, 1);
    ScriptStep(DoubleSend, 2);
    var d := Draft(0, Drafted, 1, None);
    var s := After(Script(DoubleSend, 3));
    assert s.rows == map[0 := Row(d, Some(0), Some(1), true)] && s.calls == map[0 := Approved(d, 0)] && s.sends == [];
    ScriptStep(DoubleSend, 3);
  }

  /** Two previews of one draft can lead to two sends of it. */
  lemma RepreviewSendsTwice()
    ensures After(Script(DoubleSend, 7)).sends == [Send(0, 0), Send(0, 1)]
  {
    hide After, Script;
    var d := Draft(0, Drafted, 1, None);
    DoubleSendApproved();
    ScriptStep(DoubleSend, 4);
    var t := After(Script(DoubleSend, 5));
    assert t.calls == map[0 := Approved(d, 0), 1 := Approved(d, 1)] && t.sends == [];
    ScriptStep(DoubleSend, 5);
    ScriptStep(DoubleSend, 6);
  }
}
