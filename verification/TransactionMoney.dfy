/** Where the money of a standing budget goes, in every run of the transaction manager. */
module TransactionMoney {
  import opened Options
  import opened Transactions

  function Sum(entries: seq<Entry>, bid: Bid): int {
    if entries == [] then 0
    else (if entries[0].bid == bid then entries[0].amount else 0) + Sum(entries[1..], bid)
  }

  lemma {:induction false} SumAppend(entries: seq<Entry>, e: Entry, bid: Bid)
    ensures Sum(entries + [e], bid) == Sum(entries, bid) + if e.bid == bid then e.amount else 0
  {
    if entries != [] {
      SumAppend(entries[1..], e, bid);
      assert (entries + [e])[1..] == entries[1..] + [e];
    }
  }

  ghost predicate UniquePids(entries: seq<Entry>) {
    forall i, j :: 0 <= i < j < |entries| ==> entries[i].pid != entries[j].pid
  }

  lemma {:induction false} WithoutFacts(entries: seq<Entry>, pid: Pid)
    ensures forall e :: e in Without(entries, pid) <==> e in entries && e.pid != pid
    ensures UniquePids(entries) ==> UniquePids(Without(entries, pid))
  {
    if entries != [] {
      WithoutFacts(entries[1..], pid);
      assert entries == [entries[0]] + entries[1..];
    }
  }

  lemma {:induction false} SumWithout(entries: seq<Entry>, e: Entry, bid: Bid)
    requires UniquePids(entries)
    ensures e in entries ==>
              Sum(Without(entries, e.pid), bid) == Sum(entries, bid) - if e.bid == bid then e.amount else 0
    ensures (forall f :: f in entries ==> f.pid != e.pid) ==> Without(entries, e.pid) == entries
  {
    if entries != [] {
      var rest := entries[1..];
      SumWithout(rest, e, bid);
      assert entries == [entries[0]] + rest;
      if entries[0].pid == e.pid {
        assert forall f :: f in rest ==> f.pid != e.pid;
        assert Without(entries, e.pid) == rest;
      } else {
        var kept := Without(rest, e.pid);
        assert Without(entries, e.pid) == [entries[0]] + kept && ([entries[0]] + kept)[1..] == kept;
      }
    }
  }

  ghost predicate Balanced(s: System, bid: Bid)
    requires bid in s.budgets
  {
    var b := s.budgets[bid];
    b.remaining >= 0 && b.remaining + Sum(s.held, bid) == b.limit + Sum(s.gifts, bid)
  }

  /** An authorised call's charge is held exactly when a budget authorised it. */
  ghost predicate HeldFor(s: System, c: Call) {
    (c.Authorized? || c.InFlight?) ==>
      if c.charged
      then c.budgetId.Some? && Entry(Subject(c), c.budgetId.value, c.proposal.terms.amount) in s.held
      else forall e :: e in s.held ==> e.pid != Subject(c)
  }

  ghost predicate Ledger(s: System) {
    && (forall pid :: pid in s.rows ==> s.rows[pid].proposal.terms.amount > 0)
    && UniquePids(s.held)
    && (forall e :: e in s.held ==> e.bid in s.budgets && Left(s, e.pid))
    && (forall e :: e in s.gifts ==> e.bid in s.budgets && e.amount > 0)
    && (forall c :: c in s.calls ==> HeldFor(s, s.calls[c]))
    && (forall c :: c in s.calls ==> Held(s.calls[c]).terms.amount > 0)
    && (forall bid :: bid in s.budgets ==> Balanced(s, bid))
  }

  lemma {:induction false} SumOfNone(entries: seq<Entry>, bid: Bid)
    requires forall e :: e in entries ==> e.bid != bid
    ensures Sum(entries, bid) == 0
  {
    if entries != [] { SumOfNone(entries[1..], bid); }
  }

  lemma AuthorizeKeepsBalance(s: System, call: nat, pid: Pid, token: Option<Token>, budgetId: Option<Bid>, bid: Bid)
    requires bid in s.budgets && Balanced(s, bid)
    ensures var t := Authorize(s, call, pid, token, budgetId);
            t.budgets.Keys == s.budgets.Keys && Balanced(t, bid)
  {
    hide TokenAccepted, Sum;
    var t := Authorize(s, call, pid, token, budgetId);
    if t.held != s.held { SumAppend(s.held, Entry(pid, budgetId.value, s.rows[pid].proposal.terms.amount), bid); }
  }

  lemma AuthorizeKeepsCharges(s: System, call: nat, pid: Pid, token: Option<Token>, budgetId: Option<Bid>, c: nat)
    requires CommitsOnce(s) && Ledger(s) && c in Authorize(s, call, pid, token, budgetId).calls
    ensures var t := Authorize(s, call, pid, token, budgetId);
            HeldFor(t, t.calls[c]) && Held(t.calls[c]).terms.amount > 0
  {
    hide TokenAccepted, Balanced, UniquePids;
    assert !Left(s, pid) ==> forall e :: e in s.held ==> e.pid != pid;
    if c in s.calls { assert HeldFor(s, s.calls[c]) && SafeCall(s, s.calls[c]); }
  }

  lemma AuthorizeKeepsEntries(s: System, call: nat, pid: Pid, token: Option<Token>, budgetId: Option<Bid>)
    requires CommitsOnce(s) && Ledger(s)
    ensures var t := Authorize(s, call, pid, token, budgetId);
            && (forall id :: id in t.rows ==> t.rows[id].proposal.terms.amount > 0)
            && UniquePids(t.held)
            && (forall e :: e in t.held ==> e.bid in t.budgets && Left(t, e.pid))
            && t.gifts == s.gifts && t.budgets.Keys == s.budgets.Keys
  {
    hide TokenAccepted, Balanced, HeldFor;
    var t := Authorize(s, call, pid, token, budgetId);
    if t != s { assert forall e :: e in s.held ==> e.pid != pid && Left(t, e.pid); }
  }

  lemma AuthorizeKeepsLedger(s: System, call: nat, pid: Pid, token: Option<Token>, budgetId: Option<Bid>)
    requires CommitsOnce(s) && Ledger(s)
    ensures Ledger(Authorize(s, call, pid, token, budgetId))
  {
    hide CommitsOnce, Authorize, Balanced, HeldFor, Left, UniquePids;
    var t := Authorize(s, call, pid, token, budgetId);
    AuthorizeKeepsEntries(s, call, pid, token, budgetId);
    forall bid | bid in t.budgets ensures Balanced(t, bid) {
      AuthorizeKeepsBalance(s, call, pid, token, budgetId, bid);
    }
    forall c | c in t.calls ensures HeldFor(t, t.calls[c]) && Held(t.calls[c]).terms.amount > 0 {
      AuthorizeKeepsCharges(s, call, pid, token, budgetId, c);
    }
  }

  lemma RefundKeepsBalance(s: System, call: nat, receipt: nat, bid: Bid)
    requires Ledger(s) && call in s.calls && s.calls[call].InFlight? && bid in s.budgets
    ensures var t := Continue(s, call, false, receipt);
            t.budgets.Keys == s.budgets.Keys && Balanced(t, bid)
  {
    hide Sum, Without;
    var c := s.calls[call];
    assert HeldFor(s, c) && Balanced(s, bid);
    var e := Entry(c.proposal.id, if c.budgetId.Some? then c.budgetId.value else bid, c.proposal.terms.amount);
    SumWithout(s.held, e, bid);
    SumAppend(s.gifts, e, bid);
  }

  lemma RefundKeepsCharges(s: System, call: nat, receipt: nat, d: nat)
    requires CommitsOnce(s) && Ledger(s) && call in s.calls && s.calls[call].InFlight?
    requires d in Continue(s, call, false, receipt).calls
    ensures var t := Continue(s, call, false, receipt);
            HeldFor(t, t.calls[d]) && Held(t.calls[d]).terms.amount > 0
  {
    hide Balanced, UniquePids, Left;
    var c := s.calls[call];
    WithoutFacts(s.held, c.proposal.id);
    assert AuthorizedFor(s, call, Subject(c));
    if d != call { assert HeldFor(s, s.calls[d]) && !AuthorizedFor(s, d, Subject(c)); }
  }

  lemma RefundKeepsEntries(s: System, call: nat, receipt: nat)
    requires CommitsOnce(s) && Ledger(s) && call in s.calls && s.calls[call].InFlight?
    ensures var t := Continue(s, call, false, receipt);
            && t.rows == s.rows && t.budgets.Keys == s.budgets.Keys
            && UniquePids(t.held)
            && (forall e :: e in t.held ==> e.bid in t.budgets && Left(t, e.pid))
            && (forall e :: e in t.gifts ==> e.bid in t.budgets && e.amount > 0)
  {
    hide Balanced, HeldFor, Without;
    WithoutFacts(s.held, s.calls[call].proposal.id);
  }

  lemma RefundKeepsLedger(s: System, call: nat, receipt: nat)
    requires CommitsOnce(s) && Ledger(s) && call in s.calls && s.calls[call].InFlight?
    ensures Ledger(Continue(s, call, false, receipt))
  {
    hide CommitsOnce, Continue, Balanced, HeldFor, Left, UniquePids;
    var t := Continue(s, call, false, receipt);
    RefundKeepsEntries(s, call, receipt);
    forall bid | bid in t.budgets ensures Balanced(t, bid) {
      RefundKeepsBalance(s, call, receipt, bid);
    }
    forall d | d in t.calls ensures HeldFor(t, t.calls[d]) && Held(t.calls[d]).terms.amount > 0 {
      RefundKeepsCharges(s, call, receipt, d);
    }
  }

  /** Steps that neither charge nor refund leave the entries and every existing budget alone. */
  lemma OtherStepsKeepMoney(s: System, input: Input)
    requires !input.Commit?
    requires input.Resume? && input.call in s.calls && s.calls[input.call].InFlight? ==> input.ok
    ensures var t := Step(s, input);
            && t.held == s.held && t.gifts == s.gifts
            && (forall bid :: bid in s.budgets ==> bid in t.budgets && t.budgets[bid] == s.budgets[bid])
            && (forall bid :: bid in t.budgets && bid !in s.budgets ==>
                  t.budgets[bid].remaining == t.budgets[bid].limit > 0)
  {
  }

  lemma OtherStepsKeepCalls(s: System, input: Input, c: nat)
    requires CommitsOnce(s) && Ledger(s) && !input.Commit?
    requires input.Resume? && input.call in s.calls && s.calls[input.call].InFlight? ==> input.ok
    requires c in Step(s, input).calls
    ensures HeldFor(Step(s, input), Step(s, input).calls[c])
  {
    hide Balanced, Refund, CommitsOnce;
    OtherStepsKeepMoney(s, input);
    if c in s.calls { assert HeldFor(s, s.calls[c]); }
  }

  lemma OtherStepsKeepTerms(s: System, input: Input)
    requires CommitsOnce(s) && Ledger(s) && !input.Commit?
    requires input.Resume? && input.call in s.calls && s.calls[input.call].InFlight? ==> input.ok
    ensures var t := Step(s, input);
            && (forall pid :: pid in t.rows ==> t.rows[pid].proposal.terms.amount > 0)
            && (forall c :: c in t.calls ==> Held(t.calls[c]).terms.amount > 0)
  {
    hide Balanced, Refund, CommitsOnce, HeldFor;
  }

  lemma OtherStepsKeepLedger(s: System, input: Input)
    requires CommitsOnce(s) && Ledger(s) && !input.Commit?
    requires input.Resume? && input.call in s.calls && s.calls[input.call].InFlight? ==> input.ok
    ensures Ledger(Step(s, input))
  {
    hide Sum, Step, CommitsOnce, HeldFor, Left;
    var t := Step(s, input);
    OtherStepsKeepMoney(s, input);
    OtherStepsKeepTerms(s, input);
    StepCommitsOnce(s, input);
    forall bid | bid in t.budgets ensures Balanced(t, bid) {
      if bid in s.budgets {
        assert Balanced(s, bid);
      } else {
        SumOfNone(s.held, bid);
        SumOfNone(s.gifts, bid);
      }
    }
    forall c | c in t.calls ensures HeldFor(t, t.calls[c]) {
      OtherStepsKeepCalls(s, input, c);
    }
  }

  lemma StepKeepsLedger(s: System, input: Input)
    requires CommitsOnce(s) && Ledger(s)
    ensures Ledger(Step(s, input))
  {
    hide Ledger, CommitsOnce, Authorize, Continue;
    if input.Commit? {
      AuthorizeKeepsLedger(s, input.call, input.pid, input.token, input.budgetId);
    } else if input.Resume? && input.call in s.calls && s.calls[input.call].InFlight? && !input.ok {
      RefundKeepsLedger(s, input.call, input.receipt);
    } else {
      OtherStepsKeepLedger(s, input);
    }
  }

  /**
   * In every run no budget is below zero, and what remains plus what is charged and not refunded is
   * the limit plus what was refunded without having been charged.
   */
  lemma {:induction false} MoneyIsAccountedFor(run: Run)
    ensures Ledger(After(run))
    ensures forall bid :: bid in After(run).budgets ==> Balanced(After(run), bid)
  {
    if run != [] {
      MoneyIsAccountedFor(run[..|run| - 1]);
      CommittedAtMostOnce(run[..|run| - 1]);
      StepKeepsLedger(After(run[..|run| - 1]), run[|run| - 1]);
    }
  }

  lemma {:induction false} PositiveSum(entries: seq<Entry>, bid: Bid)
    requires forall e :: e in entries ==> e.amount > 0
    ensures Sum(entries, bid) >= 0
    ensures Sum(entries, bid) == 0 <==> forall e :: e in entries ==> e.bid != bid
  {
    if entries != [] {
      PositiveSum(entries[1..], bid);
      assert entries == [entries[0]] + entries[1..];
    }
  }

  /** A budget is conserved exactly when no uncharged amount was ever refunded to it. */
  lemma ConservedExactlyWithoutGifts(run: Run, bid: Bid)
    requires bid in After(run).budgets
    ensures var s := After(run);
            s.budgets[bid].remaining + Sum(s.held, bid) == s.budgets[bid].limit
            <==> forall e :: e in s.gifts ==> e.bid != bid
  {
    MoneyIsAccountedFor(run);
    PositiveSum(After(run).gifts, bid);
    assert Balanced(After(run), bid);
  }

  predicate Conserved(s: System, bid: Bid) {
    bid in s.budgets ==> s.budgets[bid].remaining + Sum(s.held, bid) == s.budgets[bid].limit
  }

  /** The transport refuses a commit that names the budget although a token, not the budget, authorised it. */
  predicate RefundsUncharged(s: System, input: Input, bid: Bid) {
    && input.Resume? && !input.ok && input.call in s.calls && s.calls[input.call].InFlight?
    && s.calls[input.call].budgetId == Some(bid) && !s.calls[input.call].charged
  }

  /** The entries a step adds to the refunds that were never charged. */
  lemma StepGifts(s: System, input: Input, bid: Bid)
    requires Ledger(s) && bid in s.budgets
    ensures bid in Step(s, input).budgets
    ensures var t := Step(s, input);
            if RefundsUncharged(s, input, bid) then exists e :: e in t.gifts && e.bid == bid
            else forall e :: e in t.gifts && e.bid == bid ==> e in s.gifts
  {
    hide TokenAccepted, BudgetCovers, Without, Balanced;
    var t := Step(s, input);
    if RefundsUncharged(s, input, bid) {
      assert t.gifts[|s.gifts|].bid == bid;
    }
  }

  /** The one step after which a conserved budget no longer is: a refund for a commit it never paid for. */
  lemma ConservationBreaksExactlyWhen(run: Run, input: Input, bid: Bid)
    requires bid in After(run).budgets && Conserved(After(run), bid)
    ensures !Conserved(After(run + [input]), bid) <==> RefundsUncharged(After(run), input, bid)
  {
    hide Ledger, Step, Balanced, RefundsUncharged;
    var s := After(run);
    assert After(run + [input]) == Step(s, input) by { assert (run + [input])[..|run|] == run; }
    MoneyIsAccountedFor(run);
    StepGifts(s, input, bid);
    ConservedExactlyWithoutGifts(run, bid);
    ConservedExactlyWithoutGifts(run + [input], bid);
  }

  /** The call presents a token that is accepted and names a budget as well. */
  predicate PairsTokenAndBudget(s: System, input: Input) {
    && input.Commit? && input.budgetId.Some? && input.pid in s.rows
    && TokenAccepted(s.rows[input.pid], input.token)
  }

  ghost predicate NeverPairs(run: Run) {
    forall i :: 0 <= i < |run| ==> !PairsTokenAndBudget(After(run[..i]), run[i])
  }

  ghost predicate NoGiftsDue(s: System) {
    && s.gifts == []
    && forall c :: c in s.calls && (s.calls[c].Authorized? || s.calls[c].InFlight?) && !s.calls[c].charged ==>
         s.calls[c].budgetId.None?
  }

  lemma StepKeepsNoGiftsDue(s: System, input: Input)
    requires NoGiftsDue(s) && !PairsTokenAndBudget(s, input)
    ensures NoGiftsDue(Step(s, input))
  {
    hide TokenAccepted, BudgetCovers, Without;
  }

  /** As long as no call pairs an accepted token with a budget, every budget is conserved. */
  lemma {:induction false} ConservedWithoutPairing(run: Run)
    requires NeverPairs(run)
    ensures NoGiftsDue(After(run))
    ensures var s := After(run);
            forall bid :: bid in s.budgets ==> s.budgets[bid].remaining + Sum(s.held, bid) == s.budgets[bid].limit
  {
    if run != [] {
      var init := run[..|run| - 1];
      assert forall i :: 0 <= i < |init| ==> init[..i] == run[..i] && init[i] == run[i];
      ConservedWithoutPairing(init);
      StepKeepsNoGiftsDue(After(init), run[|run| - 1]);
    }
    forall bid | bid in After(run).budgets
      ensures var s := After(run); s.budgets[bid].remaining + Sum(s.held, bid) == s.budgets[bid].limit
    {
      ConservedExactlyWithoutGifts(run, bid);
    }
  }
}
