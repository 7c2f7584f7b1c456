/** Balances over whole runs: pause safety, the secondary pool, and cumulative receipts. */
module MoneyRuns {
  import opened Types
  import opened Split
  import opened Ledger
  import opened Recipients
  import opened AdminControl
  import opened ContractState
  import opened ContractInvariant
  import opened PayoutEffects

  // ----- Emergency pause -----

  /** No token's contract balance is lower in l' than in l. */
  ghost predicate NothingLeaves(l: Balances, l': Balances) {
    forall t :: Bal(l, t, SELF) <= Bal(l', t, SELF)
  }

  lemma TransferKeepsContract(l: Balances, token: Address, from: Address, to: Address, amount: int, refusing: set<Address>)
    requires from != SELF || to == SELF
    requires Transfer(l, token, from, to, amount, refusing).Some?
    ensures NothingLeaves(l, Transfer(l, token, from, to, amount, refusing).value)
  {
  }

  lemma {:induction false} ClawbackKeepsContract(l: Balances, e: Env, token: Address, sources: seq<Address>, amounts: seq<int>)
    requires |sources| == |amounts| && ClawAll(l, e, token, sources, amounts).Ok?
    ensures NothingLeaves(l, ClawAll(l, e, token, sources, amounts).value)
  {
    if sources != [] {
      var k := |sources| - 1;
      ClawbackKeepsContract(l, e, token, sources[..k], amounts[..k]);
      TransferKeepsContract(ClawAll(l, e, token, sources[..k], amounts[..k]).value, token, sources[k], SELF, amounts[k], e.refusing);
    }
  }

  lemma LedgerUntouched(s: State, st: Step)
    requires !MovesTokens(st.call)
    ensures Apply(s, st).treasury.ledger == s.treasury.ledger
  {
    hide Exec;
    StepFrame(s, st);
  }

  lemma PaymentsBlocked(s: State, st: Step)
    requires s.pauses.emergency && (IsPrimaryPayment(st.call) || st.call.DistributeSecondary?)
    ensures Apply(s, st) == s
  {
  }

  /** Under an emergency pause, one step other than a withdrawal lowers no contract balance. */
  lemma PausedStep(s: State, st: Step)
    requires s.pauses.emergency && !st.call.Withdraw?
    ensures NothingLeaves(s.treasury.ledger, Apply(s, st).treasury.ledger)
  {
    if !MovesTokens(st.call) {
      LedgerUntouched(s, st);
    } else if Exec(s, st).Ok? {
      match st.call
      case RecordSecondaryRoyalty(token, from, amount) =>
        TransferKeepsContract(s.treasury.ledger, token, from, SELF, amount, st.env.refusing);
      case Clawback(id, token, sources, amounts) =>
        ClawbackKeepsContract(s.treasury.ledger, st.env, token, sources, amounts);
      case OutsideTransfer(token, from, to, amount) =>
        TransferKeepsContract(s.treasury.ledger, token, from, to, amount, st.env.refusing);
      case _ => PaymentsBlocked(s, st);
    }
  }

  /** Only a successful clear lifts the emergency pause. */
  lemma EmergencyStays(s: State, st: Step)
    requires s.pauses.emergency && !(st.call.ClearEmergencyPause? && Exec(s, st).Ok?)
    ensures Apply(s, st).pauses.emergency
  {
    if IsPrimaryPayment(st.call) {
      PaymentsBlocked(s, st);
    }
  }

  /** A step lowers no contract balance by more than it withdraws. */
  lemma PausedStepWithdraws(s: State, st: Step)
    requires s.pauses.emergency
    ensures forall t :: Bal(Apply(s, st).treasury.ledger, t, SELF) >= Bal(s.treasury.ledger, t, SELF) - Withdraws(s, st, t)
  {
    if st.call.Withdraw? {
      if Exec(s, st).Ok? { WithdrawEffect(s, st.env, st.call.token, st.call.amount); }
    } else {
      PausedStep(s, st);
    }
  }

  /** What a step withdraws of one token. */
  ghost function Withdraws(s: State, st: Step, token: Address): int {
    if st.call.Withdraw? && st.call.token == token && Exec(s, st).Ok? then st.call.amount else 0
  }

  /** What steps i to j - 1 withdraw of one token. */
  ghost function Withdrawn(states: seq<State>, steps: seq<Step>, token: Address, i: nat, j: nat): int
    requires IsRun(states, steps) && i <= j < |states|
  {
    if i == j then 0
    else Withdrawn(states, steps, token, i, j - 1) + Withdraws(states[j - 1], steps[j - 1], token)
  }

  /** No step of the run from i to j lifts the emergency pause. */
  ghost predicate NotCleared(states: seq<State>, steps: seq<Step>, i: nat, j: nat)
    requires IsRun(states, steps) && i <= j < |states|
  {
    forall m :: i <= m < j ==> !(steps[m].call.ClearEmergencyPause? && Exec(states[m], steps[m]).Ok?)
  }

  /** From a state with the emergency pause on until the next successful clear, over every run: the
      pause stays on, no step but a withdrawal lowers a contract balance, and each balance ends no
      lower than it began less what was withdrawn of it. */
  lemma {:induction false} PauseSafety(states: seq<State>, steps: seq<Step>, i: nat, j: nat)
    requires IsRun(states, steps) && i <= j < |states| && states[i].pauses.emergency
    requires NotCleared(states, steps, i, j)
    ensures states[j].pauses.emergency
    ensures forall m :: i <= m < j && !steps[m].call.Withdraw? ==>
              NothingLeaves(states[m].treasury.ledger, states[m + 1].treasury.ledger)
    ensures forall t :: Bal(states[j].treasury.ledger, t, SELF) >=
              Bal(states[i].treasury.ledger, t, SELF) - Withdrawn(states, steps, t, i, j)
  {
    hide Exec, NothingLeaves, Withdraws;
    if i < j {
      PauseSafety(states, steps, i, j - 1);
      var s, st := states[j - 1], steps[j - 1];
      PausedStepWithdraws(s, st);
      EmergencyStays(s, st);
      if !st.call.Withdraw? { PausedStep(s, st); }
    }
  }

  // ----- The secondary pool -----

  /** Royalties recorded by the first k steps. */
  ghost function Recorded(states: seq<State>, steps: seq<Step>, k: nat): int
    requires IsRun(states, steps) && k <= |steps|
  {
    if k == 0 then 0
    else
      var st := steps[k - 1];
      Recorded(states, steps, k - 1)
        + if st.call.RecordSecondaryRoyalty? && Exec(states[k - 1], st).Ok? then st.call.amount else 0
  }

  /** What left the contract in the pool token through `distribute_secondary` in the first k steps. */
  ghost function PaidSecondary(states: seq<State>, steps: seq<Step>, k: nat): int
    requires IsRun(states, steps) && k <= |steps|
  {
    if k == 0 then 0
    else
      PaidSecondary(states, steps, k - 1)
        + if steps[k - 1].call.DistributeSecondary? && states[k - 1].treasury.poolToken.Some?
          then var t := states[k - 1].treasury.poolToken.value;
            Bal(states[k - 1].treasury.ledger, t, SELF) - Bal(states[k].treasury.ledger, t, SELF)
          else 0
  }

  lemma SecondaryStep(s: State, st: Step)
    requires Inv(s) && st.call.DistributeSecondary?
    requires SELF !in Addresses(BaseRecipients(s.registry))
    ensures var t, t' := s.treasury, Apply(s, st).treasury;
      t'.pool == t.pool - if t.poolToken.Some?
                          then Bal(t.ledger, t.poolToken.value, SELF) - Bal(t'.ledger, t.poolToken.value, SELF) else 0
  {
    if SecondaryOp(s, st.env).Ok? && !Exceeds(s.pauses, s.treasury.pool) {
      hide Inv;
      assert Exec(s, st) == SecondaryOp(s, st.env);
      SecondaryEffect(s, st.env);
    } else {
      hide Inv;
      SecondaryIdle(s, st);
    }
  }

  lemma SecondaryIdle(s: State, st: Step)
    requires st.call.DistributeSecondary?
    requires !(SecondaryOp(s, st.env).Ok? && !Exceeds(s.pauses, s.treasury.pool))
    ensures Apply(s, st).treasury == s.treasury
  {
  }

  /** Everything ever recorded as a secondary royalty is either still in the pool or has been paid
      out of the contract by `distribute_secondary`. */
  lemma {:induction false} SecondaryConservation(states: seq<State>, steps: seq<Step>, k: nat)
    requires IsRunFromDeployment(states, steps) && k <= |steps|
    requires forall i :: 0 <= i < k ==> SELF !in Addresses(BaseRecipients(states[i].registry))
    ensures Recorded(states, steps, k) == states[k].treasury.pool + PaidSecondary(states, steps, k)
  {
    hide Exec, Inv;
    if k > 0 {
      SecondaryConservation(states, steps, k - 1);
      ReachableInv(states, steps, k - 1);
      var s, st := states[k - 1], steps[k - 1];
      if st.call.DistributeSecondary? {
        SecondaryStep(s, st);
      } else if st.call.RecordSecondaryRoyalty? {
        RecordedStep(s, st);
      } else {
        StepFrame(s, st);
      }
    }
  }

  lemma RecordedStep(s: State, st: Step)
    requires st.call.RecordSecondaryRoyalty?
    ensures Apply(s, st).treasury.pool == s.treasury.pool + if Exec(s, st).Ok? then st.call.amount else 0
  {
  }

  // ----- Cumulative receipts -----

  /** The tokens a batch paid: all of them, or those before the one that stopped it. */
  function PaidTokens(b: Batch, tokens: seq<Address>): seq<Address> {
    if b.Tripped? && b.k <= |tokens| then tokens[..b.k] else if b.Paying? then tokens else []
  }

  ghost predicate BatchPays(s: State, e: Env, tokens: seq<Address>, token: Address, rs: seq<Recipient>) {
    && Effective(s.registry, []) == Some(rs) && rs != []
    && token in PaidTokens(BatchRun(s.treasury.ledger, s.pauses, rs, tokens, e.refusing), tokens)
  }

  ghost predicate ResilientPays(s: State, e: Env, token: Address, override: seq<Recipient>, rs: seq<Recipient>) {
    && Effective(s.registry, override) == Some(rs) && rs != []
    && TryPayAll(s.treasury.ledger, token, Payments(Bal(s.treasury.ledger, token, SELF), rs), e.refusing).failed == []
  }

  /** The step split an amount of `token` over the list rs and paid every part, by whichever of the
      contract's distributions. */
  ghost predicate PaysList(s: State, st: Step, token: Address, rs: seq<Recipient>) {
    && Exec(s, st).Ok?
    && match st.call
       case DistributeWithOverride(t, override) =>
         t == token && Effective(s.registry, override) == Some(rs) && !Exceeds(s.pauses, Bal(s.treasury.ledger, token, SELF))
       case DistributeResilient(t, override) => t == token && ResilientPays(s, st.env, token, override, rs)
       case DistributeWithIncentives(t) => t == token && IncentiveRecipients(s.registry, st.env.now) == rs
       case BatchDistribute(tokens) => BatchPays(s, st.env, tokens, token, rs)
       case DistributeSecondary =>
         s.treasury.poolToken == Some(token) && BaseRecipients(s.registry) == rs && !Exceeds(s.pauses, s.treasury.pool)
       case _ => false
  }

  /** The amount split by such a step: the pool, or the whole balance. */
  function SplitAmount(s: State, st: Step, token: Address): nat {
    if st.call.DistributeSecondary? then s.treasury.pool else Bal(s.treasury.ledger, token, SELF)
  }

  /** The amounts distributed over rs by the first k steps, in order. */
  ghost function Distributed(states: seq<State>, steps: seq<Step>, token: Address, rs: seq<Recipient>, k: nat): seq<nat>
    requires IsRun(states, steps) && k <= |steps|
  {
    if k == 0 then []
    else
      Distributed(states, steps, token, rs, k - 1)
        + if PaysList(states[k - 1], steps[k - 1], token, rs) then [SplitAmount(states[k - 1], steps[k - 1], token)] else []
  }

  /** What those distributions added to one balance. */
  ghost function Receipts(states: seq<State>, steps: seq<Step>, token: Address, rs: seq<Recipient>, who: Address, k: nat): int
    requires IsRun(states, steps) && k <= |steps|
  {
    if k == 0 then 0
    else
      Receipts(states, steps, token, rs, who, k - 1)
        + if PaysList(states[k - 1], steps[k - 1], token, rs)
          then Bal(states[k].treasury.ledger, token, who) - Bal(states[k - 1].treasury.ledger, token, who) else 0
  }

  /** Whichever distribution it is, the step pays the split of its amount over the list. */
  lemma ListIsPaid(s: State, st: Step, token: Address, rs: seq<Recipient>)
    requires Inv(s) && PaysList(s, st, token, rs) && SELF !in Addresses(rs)
    ensures ValidRecipients(rs)
    ensures PaidOut(s.treasury.ledger, Apply(s, st).treasury.ledger, token, SplitAmount(s, st, token), rs)
  {
    hide PaidOut, SameToken, ValidRecipients, IncentiveRecipients, BatchRun;
    match st.call
    case DistributeWithOverride(_, override) => DistributeEffect(s, st.env, token, override);
    case DistributeResilient(_, override) => AllPaid(s, st.env, token, override, rs);
    case DistributeWithIncentives(_) => IncentivesEffect(s, st.env, token);
    case BatchDistribute(tokens) => BatchListIsPaid(s, st.env, tokens, token, rs);
    case DistributeSecondary => SecondaryEffect(s, st.env);
  }

  lemma AllPaid(s: State, e: Env, token: Address, override: seq<Recipient>, rs: seq<Recipient>)
    requires Inv(s) && ResilientOp(s, e, token, override).Ok? && ResilientPays(s, e, token, override, rs)
    requires SELF !in Addresses(rs)
    ensures ValidRecipients(rs)
    ensures PaidOut(s.treasury.ledger, ResilientOp(s, e, token, override).value.treasury.ledger, token,
                    Bal(s.treasury.ledger, token, SELF), rs)
  {
    ResilientEffect(s, e, token, override);
    hide Payouts, Payments, ValidRecipients, Inv, ResilientOp;
  }

  lemma BatchListIsPaid(s: State, e: Env, tokens: seq<Address>, token: Address, rs: seq<Recipient>)
    requires Inv(s) && BatchOp(s, e, tokens).Ok? && BatchPays(s, e, tokens, token, rs) && SELF !in Addresses(rs)
    ensures ValidRecipients(rs)
    ensures PaidOut(s.treasury.ledger, BatchOp(s, e, tokens).value.treasury.ledger, token,
                    Bal(s.treasury.ledger, token, SELF), rs)
  {
    hide PaidOut, SameToken, ValidRecipients;
    BatchOutcome(s, e, tokens);
    var l := s.treasury.ledger;
    match BatchRun(l, s.pauses, rs, tokens, e.refusing)
    case Failed(_) =>
    case Paying(_) => BatchProgress(l, s.pauses, rs, tokens, e.refusing);
    case Tripped(k, _) =>
      TrippedPrefix(l, s.pauses, rs, tokens, e.refusing);
      BatchProgress(l, s.pauses, rs, tokens[..k], e.refusing);
  }

  lemma ReceiptStep(s: State, st: Step, token: Address, rs: seq<Recipient>, i: nat)
    requires Inv(s) && PaysList(s, st, token, rs) && SELF !in Addresses(rs) && i < |rs|
    ensures ValidRecipients(rs)
    ensures Bal(Apply(s, st).treasury.ledger, token, rs[i].address)
         == Bal(s.treasury.ledger, token, rs[i].address) + Payouts(SplitAmount(s, st, token), Shares(rs))[i]
  {
    hide Exec, Inv, PaysList;
    ListIsPaid(s, st, token, rs);
  }

  lemma {:induction false} ReceiptsAreSplits(states: seq<State>, steps: seq<Step>, token: Address, rs: seq<Recipient>, i: nat, k: nat)
    requires IsRunFromDeployment(states, steps) && k <= |steps|
    requires ValidRecipients(rs) && SELF !in Addresses(rs) && i < |rs|
    ensures Receipts(states, steps, token, rs, rs[i].address, k) == Received(Distributed(states, steps, token, rs, k), Shares(rs), i)
  {
    hide Exec, Inv, Payouts, PaysList;
    if k > 0 {
      ReceiptsAreSplits(states, steps, token, rs, i, k - 1);
      var before := Distributed(states, steps, token, rs, k - 1);
      var amounts := Distributed(states, steps, token, rs, k);
      if PaysList(states[k - 1], steps[k - 1], token, rs) {
        ReachableInv(states, steps, k - 1);
        ReceiptStep(states[k - 1], steps[k - 1], token, rs, i);
        assert amounts[..|amounts| - 1] == before;
      } else {
        assert amounts == before;
      }
    }
  }

  /** Fairness over a whole run: over the d distributions of any kind that paid the list rs, together A units,
      every recipient but the last has received its exact share of A or up to one unit less per
      distribution, and the last its exact share or up to n - 1 units more per distribution. */
  lemma FairOverRun(states: seq<State>, steps: seq<Step>, token: Address, rs: seq<Recipient>, i: nat, k: nat)
    requires IsRunFromDeployment(states, steps) && k <= |steps|
    requires ValidRecipients(rs) && SELF !in Addresses(rs) && i < |rs|
    ensures var amounts, n := Distributed(states, steps, token, rs, k), |rs|;
      var exact, got, d := Sum(amounts) * rs[i].share, 10_000 * Receipts(states, steps, token, rs, rs[i].address, k), |amounts|;
      && (i < n - 1 ==> exact - 9_999 * d <= got <= exact)
      && (i == n - 1 ==> exact <= got <= exact + d * (9_999 * (n - 1)))
  {
    ReceiptsAreSplits(states, steps, token, rs, i, k);
    CumulativeReceipts(Distributed(states, steps, token, rs, k), Shares(rs), i);
    assert Shares(rs)[i] == rs[i].share;
  }
}
