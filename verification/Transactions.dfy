/**
 * Transaction proposals, standing budgets and approval tokens as a step system: one step for every
 * locked section and every transport call, in any interleaving, with crashes in between.
 */
module Transactions {
  import opened Options

  type Pid = nat
  type Bid = nat
  type Token = nat

  datatype Stage = Proposed | Committing | Committed | Failed | Cancelled

  /** Amounts are in minor units; category, counterparty and currency matter only up to equality. */
  datatype Terms = Terms(category: nat, counterparty: nat, currency: nat, amount: int)

  datatype Proposal = Proposal(id: Pid, terms: Terms, stage: Stage, revision: nat, receipt: Option<nat>)

  datatype Row = Row(proposal: Proposal, approvalHash: Option<Token>, approvalRevision: Option<nat>, approvalUsed: bool)

  datatype Budget = Budget(category: nat, counterparty: Option<nat>, currency: nat, limit: int, remaining: int)

  /** A call suspended at an await. `charged` tells whether a budget authorised the commit. */
  datatype Call =
    | Authorized(proposal: Proposal, budgetId: Option<Bid>, charged: bool)
    | InFlight(proposal: Proposal, budgetId: Option<Bid>, charged: bool)
    | Finishing(updated: Proposal)
    | Reversing(proposal: Proposal)
    | WritingCancelled(proposal: Proposal)

  /** An amount charged to a budget for a proposal, or returned to it. */
  datatype Entry = Entry(pid: Pid, bid: Bid, amount: int)

  datatype System = System(
    rows: map<Pid, Row>,
    budgets: map<Bid, Budget>,
    calls: map<nat, Call>,
    nextToken: Token,
    commits: seq<Pid>,      // transport.commit calls
    delivered: set<Pid>,    // those the transport confirmed
    reversed: set<Pid>,     // confirmed transport.cancel calls
    held: seq<Entry>,       // charged and not refunded
    gifts: seq<Entry>)      // refunded without having been charged

  const EMPTY := System(map[], map[], map[], 0, [], {}, {}, [], [])

  datatype Input =
    | Propose(pid: Pid, terms: Terms)
    | Preview(pid: Pid)
    | CreateBudget(bid: Bid, category: nat, counterparty: Option<nat>, currency: nat, limit: int)
    | Commit(call: nat, pid: Pid, token: Option<Token>, budgetId: Option<Bid>)
    | Cancel(call: nat, pid: Pid)
    | Resume(call: nat, ok: bool, receipt: nat)
    | Drop(call: nat)
    | Crash

  // ----- authorisation -----

  predicate TokenAccepted(row: Row, token: Option<Token>) {
    token.Some? && !row.approvalUsed && row.approvalRevision == Some(row.proposal.revision) && row.approvalHash == token
  }

  predicate BudgetCovers(s: System, budgetId: Option<Bid>, terms: Terms) {
    && budgetId.Some? && budgetId.value in s.budgets
    && var b := s.budgets[budgetId.value];
       && b.category == terms.category && b.currency == terms.currency
       && (b.counterparty.None? || b.counterparty.value == terms.counterparty)
       && b.remaining >= terms.amount
  }

  function Adjust(s: System, bid: Bid, amount: int): System {
    if bid in s.budgets then
      s.(budgets := s.budgets[bid := s.budgets[bid].(remaining := s.budgets[bid].remaining + amount)])
    else s
  }

  function SetProposal(s: System, p: Proposal): System {
    if p.id in s.rows then s.(rows := s.rows[p.id := s.rows[p.id].(proposal := p)]) else s
  }

  /** The first locked section of `commit`; unchanged where the source raises. */
  function Authorize(s: System, call: nat, pid: Pid, token: Option<Token>, budgetId: Option<Bid>): System {
    if call in s.calls || pid !in s.rows || s.rows[pid].proposal.stage != Proposed then s
    else
      var row := s.rows[pid];
      var p := row.proposal;
      var byToken := TokenAccepted(row, token);
      if !byToken && !BudgetCovers(s, budgetId, p.terms) then s
      else
        var charged := if byToken then s
                       else Adjust(s, budgetId.value, -p.terms.amount)
                            .(held := s.held + [Entry(pid, budgetId.value, p.terms.amount)]);
        charged.(
          rows := s.rows[pid := row.(approvalUsed := true, proposal := p.(stage := Committing))],
          calls := s.calls[call := Authorized(p, budgetId, !byToken)])
  }

  function Without(entries: seq<Entry>, pid: Pid): seq<Entry> {
    if entries == [] then []
    else (if entries[0].pid == pid then [] else [entries[0]]) + Without(entries[1..], pid)
  }

  /** The handler of a failed transport call: refunds whatever budget the caller named. */
  function Refund(s: System, p: Proposal, budgetId: Option<Bid>, charged: bool): System {
    if budgetId.None? || budgetId.value !in s.budgets then s
    else
      var entry := Entry(p.id, budgetId.value, p.terms.amount);
      var t := Adjust(s, budgetId.value, p.terms.amount);
      if charged then t.(held := Without(s.held, p.id)) else t.(gifts := s.gifts + [entry])
  }

  /** What a suspended call does up to its next await, given how the transport answered. */
  function Continue(s: System, call: nat, ok: bool, receipt: nat): System
    requires call in s.calls
  {
    match s.calls[call]
    case Authorized(p, budgetId, charged) =>
      s.(calls := s.calls[call := InFlight(p, budgetId, charged)], commits := s.commits + [p.id])
    case InFlight(p, budgetId, charged) =>
      if ok then
        var updated := p.(stage := Committed, receipt := Some(receipt), revision := p.revision + 1);
        s.(calls := s.calls[call := Finishing(updated)],
           delivered := s.delivered + {p.id})
      else
        Refund(s, p, budgetId, charged)
          .(calls := s.calls[call := Finishing(p.(stage := Failed, revision := p.revision + 1))])
    case Finishing(updated) =>
      SetProposal(s, updated).(calls := s.calls - {call})
    case Reversing(p) =>
      if ok then s.(calls := s.calls[call := WritingCancelled(p)], reversed := s.reversed + {p.id})
      else s.(calls := s.calls - {call})
    case WritingCancelled(p) =>
      var t := SetProposal(s, p.(stage := Cancelled, revision := p.revision + 1));
      t.(rows := if p.id in t.rows then t.rows[p.id := t.rows[p.id].(approvalUsed := true)] else t.rows,
         calls := s.calls - {call})
  }

  function Step(s: System, input: Input): System {
    match input
    case Propose(pid, terms) =>
      if pid in s.rows || terms.amount <= 0 then s
      else s.(rows := s.rows[pid := Row(Proposal(pid, terms, Proposed, 1, None), None, None, false)])
    case Preview(pid) =>
      if pid !in s.rows || s.rows[pid].proposal.stage != Proposed then s
      else
        var row := s.rows[pid];
        s.(rows := s.rows[pid := row.(approvalHash := Some(s.nextToken),
                                        approvalRevision := Some(row.proposal.revision),
                                      approvalUsed := false)],
           nextToken := s.nextToken + 1)
    case CreateBudget(bid, category, counterparty, currency, limit) =>
      if bid in s.budgets || limit <= 0 then s
      else s.(budgets := s.budgets[bid := Budget(category, counterparty, currency, limit, limit)])
    case Commit(call, pid, token, budgetId) => Authorize(s, call, pid, token, budgetId)
    case Cancel(call, pid) =>
      if call in s.calls || pid !in s.rows then s
      else
        var p := s.rows[pid].proposal;
        if p.stage == Committed then s.(calls := s.calls[call := Reversing(p)])
        else if p.stage == Proposed || p.stage == Failed then s.(calls := s.calls[call := WritingCancelled(p)])
        else s
    case Resume(call, ok, receipt) => if call in s.calls then Continue(s, call, ok, receipt) else s
    case Drop(call) => s.(calls := s.calls - {call})
    case Crash => s.(calls := map[])
  }

  type Run = seq<Input>

  function After(run: Run): System {
    if run == [] then EMPTY else Step(After(run[..|run| - 1]), run[|run| - 1])
  }

  // ----- at most one transport.commit per proposal -----

  /** The proposal a suspended call works on. */
  function Held(c: Call): Proposal {
    match c
    case Authorized(p, _, _) => p
    case InFlight(p, _, _) => p
    case Finishing(p) => p
    case Reversing(p) => p
    case WritingCancelled(p) => p
  }

  function Subject(c: Call): Pid {
    Held(c).id
  }

  predicate Left(s: System, pid: Pid) {
    pid in s.rows && s.rows[pid].proposal.stage != Proposed
  }

  predicate PastAuthorization(c: Call) {
    c.Authorized? || c.InFlight? || c.Finishing?
  }

  /** Call c holds the authorisation of a proposal whose transport call has not yet answered. */
  ghost predicate AuthorizedFor(s: System, c: nat, pid: Pid) {
    c in s.calls && (s.calls[c].Authorized? || s.calls[c].InFlight?) && Subject(s.calls[c]) == pid
  }

  /** A call past authorisation is about a proposal that has left the proposed stage, and will not put it back. */
  predicate SafeCall(s: System, c: Call) {
    && (PastAuthorization(c) ==> Left(s, Subject(c)))
    && (c.Finishing? ==> c.updated.stage != Proposed)
    && (c.Authorized? ==> Subject(c) !in s.commits)
  }

  ghost predicate CommitsOnce(s: System) {
    && (forall pid :: pid in s.rows ==> s.rows[pid].proposal.id == pid)
    && (forall c :: c in s.calls ==> SafeCall(s, s.calls[c]))
    && (forall c, d, pid :: AuthorizedFor(s, c, pid) && AuthorizedFor(s, d, pid) ==> c == d)
    && (forall pid :: pid in s.commits ==> Left(s, pid))
    && (forall i, j :: 0 <= i < j < |s.commits| ==> s.commits[i] != s.commits[j])
  }

  lemma AuthorizeCommitsOnce(s: System, call: nat, pid: Pid, token: Option<Token>, budgetId: Option<Bid>)
    requires CommitsOnce(s)
    ensures var t := Authorize(s, call, pid, token, budgetId);
            CommitsOnce(t) && (forall p :: Left(s, p) ==> Left(t, p))
  {
    hide TokenAccepted, BudgetCovers;
    var t := Authorize(s, call, pid, token, budgetId);
    if t != s {
      assert t.commits == s.commits;
      assert !Left(s, pid) && Left(t, pid);
      forall c | c in t.calls ensures SafeCall(t, t.calls[c]) {
        if c != call { assert SafeCall(s, s.calls[c]); }
      }
      forall c, d, p | AuthorizedFor(t, c, p) && AuthorizedFor(t, d, p) ensures c == d {
        assert c != call ==> AuthorizedFor(s, c, p);
        assert d != call ==> AuthorizedFor(s, d, p);
      }
    }
  }

  lemma RefundTouchesBudgets(s: System, p: Proposal, budgetId: Option<Bid>, charged: bool)
    ensures var t := Refund(s, p, budgetId, charged);
            t == s.(budgets := t.budgets, held := t.held, gifts := t.gifts)
  {
  }

  lemma ContinueKeepsCallsSafe(s: System, call: nat, ok: bool, receipt: nat)
    requires CommitsOnce(s) && call in s.calls
    ensures var t := Continue(s, call, ok, receipt);
            && (forall c :: c in t.calls ==> SafeCall(t, t.calls[c]))
            && forall p :: Left(s, p) ==> Left(t, p)
  {
    hide Refund;
    var t := Continue(s, call, ok, receipt);
    forall p, b, charged { RefundTouchesBudgets(s, p, b, charged); }
    assert SafeCall(s, s.calls[call]);
    assert AuthorizedFor(s, call, Subject(s.calls[call])) || !s.calls[call].Authorized?;
    forall c | c in t.calls ensures SafeCall(t, t.calls[c]) {
      assert SafeCall(s, s.calls[c]);
      assert s.calls[c].Authorized? ==> AuthorizedFor(s, c, Subject(s.calls[c]));
    }
  }

  /** A suspended call authorises nothing new, and asks the transport for its own proposal only. */
  lemma ContinueAuthorizesNothing(s: System, call: nat, ok: bool, receipt: nat)
    requires call in s.calls
    ensures var t := Continue(s, call, ok, receipt);
            && (forall c, p :: AuthorizedFor(t, c, p) ==> AuthorizedFor(s, c, p))
            && (t.commits == s.commits ||
                (s.calls[call].Authorized? && t.commits == s.commits + [Subject(s.calls[call])]))
            && ((forall p :: p in s.rows ==> s.rows[p].proposal.id == p) ==>
                  forall p :: p in t.rows ==> t.rows[p].proposal.id == p)
  {
    hide Refund;
    forall p, b, charged { RefundTouchesBudgets(s, p, b, charged); }
  }

  lemma ContinueCommitsOnce(s: System, call: nat, ok: bool, receipt: nat)
    requires CommitsOnce(s) && call in s.calls
    ensures var t := Continue(s, call, ok, receipt);
            CommitsOnce(t) && (forall p :: Left(s, p) ==> Left(t, p))
  {
    ContinueKeepsCallsSafe(s, call, ok, receipt);
    ContinueAuthorizesNothing(s, call, ok, receipt);
    assert SafeCall(s, s.calls[call]);
    hide Continue, AuthorizedFor, Left;
  }

  lemma OtherStepsCommitOnce(s: System, input: Input)
    requires CommitsOnce(s) && !input.Commit? && !input.Resume?
    ensures CommitsOnce(Step(s, input))
    ensures forall pid :: Left(s, pid) ==> Left(Step(s, input), pid)
  {
    var t := Step(s, input);
    forall pid | Left(s, pid) ensures Left(t, pid) {}
    forall c | c in t.calls ensures SafeCall(t, t.calls[c]) {
      if c in s.calls { assert SafeCall(s, s.calls[c]); }
    }
    hide Left, SafeCall;
    forall c, d, p | AuthorizedFor(t, c, p) && AuthorizedFor(t, d, p) ensures c == d {
      assert AuthorizedFor(s, c, p) && AuthorizedFor(s, d, p);
    }
  }

  lemma StepCommitsOnce(s: System, input: Input)
    requires CommitsOnce(s)
    ensures CommitsOnce(Step(s, input))
    ensures forall pid :: Left(s, pid) ==> Left(Step(s, input), pid)
  {
    hide Authorize, Continue, CommitsOnce, Left;
    if input.Commit? {
      AuthorizeCommitsOnce(s, input.call, input.pid, input.token, input.budgetId);
    } else if input.Resume? && input.call in s.calls {
      ContinueCommitsOnce(s, input.call, input.ok, input.receipt);
    } else if !input.Resume? {
      OtherStepsCommitOnce(s, input);
    }
  }

  /** On every interleaving, `transport.commit` is called at most once for each proposal. */
  lemma {:induction false} CommittedAtMostOnce(run: Run)
    ensures CommitsOnce(After(run))
  {
    if run != [] {
      CommittedAtMostOnce(run[..|run| - 1]);
      StepCommitsOnce(After(run[..|run| - 1]), run[|run| - 1]);
    }
  }
}
