/** Proposals over whole runs of the contract. */
module GovernanceRuns {
  import opened Types
  import opened Split
  import opened Recipients
  import opened ContractState
  import opened ContractInvariant
  import opened CallRules
  import opened Governance

  /** A valid registry's map is the one its list writes. */
  lemma RegistryMapIsToMap(r: Registry)
    requires RegistryValid(r)
    ensures r.shareMap.value == ToMap(BaseRecipients(r))
  {
    var rs := BaseRecipients(r);
    assert Addresses(rs) == r.collaborators.value;
    StoreRoundTrip(rs);
    ToMapMeaning(rs);
    forall a | a in r.shareMap.value ensures ToMap(rs)[a] == r.shareMap.value[a] {
      var i :| 0 <= i < |rs| && Addresses(rs)[i] == a;
      assert rs[i].address == a;
    }
  }

  ghost predicate ReplacesShares(s: State, st: Step) {
    st.call.SetRecipients? && Exec(s, st).Ok?
  }

  // ----- One step, one proposal -----

  predicate VotesFor(c: Call, id: u64) {
    c.Vote? && c.id == id
  }

  predicate Executes(c: Call, id: u64) {
    c.ExecuteProposal? && c.id == id
  }

  /** What a step may do to the votes on a proposal: record a first vote of its voter, or nothing. */
  ghost predicate VotesAnswer(s: State, st: Step, s': State, id: u64) {
    var before, after := VotesOn(s.gov, id), VotesOn(s'.gov, id);
    if VotesFor(st.call, id) && Exec(s, st).Ok?
    then st.call.voter !in before && after == before[st.call.voter := st.call.support]
    else after == before
  }

  /** What a step may do to a proposal: a vote before the deadline changes the weights, an execution
      after it changes the outcome, each only while the proposal is open; nothing else changes it. */
  ghost predicate ProposalAnswers(s: State, st: Step, s': State, id: u64)
    requires id in s.gov.proposals
  {
    && id in s'.gov.proposals
    && var q, q' := s.gov.proposals[id], s'.gov.proposals[id];
      if Exec(s, st).Ok? && VotesFor(st.call, id) then
        !Closed(q) && st.env.now < q.deadline && q' == q.(yesWeight := q'.yesWeight, noWeight := q'.noWeight)
      else if Exec(s, st).Ok? && Executes(st.call, id) then
        !Closed(q) && st.env.now >= q.deadline && q' == q.(executed := q'.executed, rejected := q'.rejected)
      else q' == q
  }

  lemma GovStepEffect(s: State, st: Step, id: u64)
    ensures VotesAnswer(s, st, Apply(s, st), id)
    ensures GovInv(s.gov) && id in s.gov.proposals ==> ProposalAnswers(s, st, Apply(s, st), id)
  {
    if !IsGovCall(st.call) {
      hide Exec, GovInv;
      StepFrame(s, st);
    } else if Exec(s, st).Ok? {
      GovCallEffect(s, st, id);
    }
  }

  lemma GovCallEffect(s: State, st: Step, id: u64)
    requires IsGovCall(st.call) && Exec(s, st).Ok?
    ensures VotesAnswer(s, st, Apply(s, st), id)
    ensures GovInv(s.gov) && id in s.gov.proposals ==> ProposalAnswers(s, st, Apply(s, st), id)
  {
    hide ProposeOp, VoteOp, ExecuteOp, Closed, GovInv;
    var Env(now, signers, _) := st.env;
    match st.call
    case ProposeRateChange(a, rate, duration) => ProposeEffect(s.gov, s.registry.shareMap, signers, now, a, rate, duration, id);
    case Vote(voter, on, support) => VoteEffect(s.gov, s.registry.shareMap, signers, now, voter, on, support, id);
    case ExecuteProposal(on) => ExecuteEffect(s.gov, now, on, id);
    case SetRoyaltyRate(_) =>
  }

  /** Unless the shares are replaced, a step keeps an exact tally exact. */
  lemma TallyStep(s: State, st: Step, id: u64)
    requires Inv(s) && s.admins.admin.Some? && !ReplacesShares(s, st)
    requires TallyExact(s.gov, BaseRecipients(s.registry), id)
    ensures TallyExact(Apply(s, st).gov, BaseRecipients(s.registry), id)
    ensures BaseRecipients(Apply(s, st).registry) == BaseRecipients(s.registry)
  {
    SharesKept(s, st);
    if st.call.Vote? && Exec(s, st).Ok? {
      VoteTallied(s, st, id);
    } else {
      hide Exec, Inv, BaseRecipients;
      GovOfInv(s);
      GovStepEffect(s, st, id);
    }
  }

  lemma GovOfInv(s: State)
    requires Inv(s)
    ensures GovInv(s.gov)
  {
  }

  lemma SharesKept(s: State, st: Step)
    requires Inv(s) && s.admins.admin.Some? && !ReplacesShares(s, st)
    ensures BaseRecipients(Apply(s, st).registry) == BaseRecipients(s.registry)
  {
    hide Exec, Inv, BaseRecipients;
    if Initializes(st.call) {
      AdminStaysSet(s, st);
    } else if !st.call.SetRecipients? {
      SharesFrame(s, st);
    }
  }

  lemma VoteTallied(s: State, st: Step, id: u64)
    requires Inv(s) && s.admins.admin.Some? && st.call.Vote? && Exec(s, st).Ok?
    requires TallyExact(s.gov, BaseRecipients(s.registry), id)
    ensures TallyExact(Apply(s, st).gov, BaseRecipients(s.registry), id)
  {
    var c := st.call;
    RegistryMapIsToMap(s.registry);
    hide VoteOp, BaseRecipients, TallyExact;
    VoteKeepsTally(s.gov, BaseRecipients(s.registry), s.registry.shareMap.value, st.env.signers, st.env.now,
                   c.voter, c.id, c.support, id);
  }

  /** Step p successfully creates proposal `id`, and no step before k replaces the shares. */
  ghost predicate Proposed(states: seq<State>, steps: seq<Step>, p: nat, k: nat, id: u64)
    requires IsRun(states, steps) && p < k < |states|
  {
    && steps[p].call.ProposeRateChange? && Exec(states[p], steps[p]).Ok?
    && id == states[p + 1].gov.count
    && forall i :: p < i < k ==> !ReplacesShares(states[i], steps[i])
  }

  lemma ReachableGov(states: seq<State>, steps: seq<Step>, i: nat)
    requires IsRunFromDeployment(states, steps) && i < |states|
    ensures GovInv(states[i].gov)
  {
    ReachableInv(states, steps, i);
  }

  lemma CreationTally(s: State, st: Step)
    requires Inv(s) && st.call.ProposeRateChange? && Exec(s, st).Ok?
    ensures s.admins.admin.Some? && Apply(s, st).admins.admin.Some?
    ensures Apply(s, st).registry == s.registry
    ensures TallyExact(Apply(s, st).gov, BaseRecipients(s.registry), Apply(s, st).gov.count)
  {
    var c := st.call;
    ProposeStartsTally(s.gov, s.registry.shareMap, st.env.signers, st.env.now, c.proposer, c.newRate, c.duration,
                       BaseRecipients(s.registry));
  }

  lemma {:induction false} TallyKept(states: seq<State>, steps: seq<Step>, p: nat, k: nat, id: u64)
    requires IsRunFromDeployment(states, steps) && p < k < |states| && Proposed(states, steps, p, k, id)
    ensures states[k].admins.admin.Some?
    ensures BaseRecipients(states[k].registry) == BaseRecipients(states[p].registry)
    ensures TallyExact(states[k].gov, BaseRecipients(states[p].registry), id)
  {
    hide Exec, Inv, TallyExact;
    ReachableInv(states, steps, k - 1);
    if k == p + 1 {
      CreationTally(states[p], steps[p]);
    } else {
      TallyKept(states, steps, p, k - 1, id);
      AdminStaysSet(states[k - 1], steps[k - 1]);
      TallyStep(states[k - 1], steps[k - 1], id);
    }
  }

  /** From its creation on, while the shares are not replaced, a proposal's weights are the share
      sums of the distinct collaborators that voted each way, and total at most 10_000. */
  lemma TallyThroughRun(states: seq<State>, steps: seq<Step>, p: nat, k: nat, id: u64)
    requires IsRunFromDeployment(states, steps) && p < k < |states| && Proposed(states, steps, p, k, id)
    ensures var rs := BaseRecipients(states[p].registry);
      && BaseRecipients(states[k].registry) == rs && ValidRecipients(rs)
      && TallyExact(states[k].gov, rs, id)
      && states[k].gov.proposals[id].yesWeight + states[k].gov.proposals[id].noWeight <= 10_000
  {
    TallyKept(states, steps, p, k, id);
    ReachableRegistry(states, steps, k);
    PassedIffMajority(states[k].gov, BaseRecipients(states[p].registry), id);
  }

  /** Between the creation at step p and state k, `voter` successfully voted `support` on the proposal. */
  ghost predicate Cast(states: seq<State>, steps: seq<Step>, p: nat, k: nat, id: u64, voter: Address, support: bool)
    requires IsRun(states, steps) && p < k < |states|
  {
    exists i :: p < i < k && steps[i].call == Vote(voter, id, support) && Exec(states[i], steps[i]).Ok?
  }

  /** The stored votes are the run's votes: exactly those cast on the proposal since its creation. */
  lemma {:induction false} VotesAreCast(states: seq<State>, steps: seq<Step>, p: nat, k: nat, id: u64)
    requires IsRunFromDeployment(states, steps) && p < k < |states|
    requires steps[p].call.ProposeRateChange? && Exec(states[p], steps[p]).Ok? && id == states[p + 1].gov.count
    ensures forall voter, support ::
              (voter in VotesOn(states[k].gov, id) && VotesOn(states[k].gov, id)[voter] == support)
              <==> Cast(states, steps, p, k, id, voter, support)
  {
    hide Exec;
    if k == p + 1 {
      ReachableGov(states, steps, p);
      NoVotesAtCreation(states[p], steps[p]);
    } else {
      VotesAreCast(states, steps, p, k - 1, id);
      GovStepEffect(states[k - 1], steps[k - 1], id);
      forall voter, support
        ensures (voter in VotesOn(states[k].gov, id) && VotesOn(states[k].gov, id)[voter] == support)
                <==> Cast(states, steps, p, k, id, voter, support)
      {
        CastGrows(states, steps, p, k, id, voter, support);
        if Cast(states, steps, p, k - 1, id, voter, support) { assert voter in VotesOn(states[k - 1].gov, id); }
      }
    }
  }

  lemma CastGrows(states: seq<State>, steps: seq<Step>, p: nat, k: nat, id: u64, voter: Address, support: bool)
    requires IsRun(states, steps) && p + 1 < k < |states|
    ensures Cast(states, steps, p, k, id, voter, support) <==>
            || Cast(states, steps, p, k - 1, id, voter, support)
            || (steps[k - 1].call == Vote(voter, id, support) && Exec(states[k - 1], steps[k - 1]).Ok?)
  {
    hide Exec;
  }

  lemma NoVotesAtCreation(s: State, st: Step)
    requires GovInv(s.gov) && st.call.ProposeRateChange? && Exec(s, st).Ok?
    ensures VotesOn(Apply(s, st).gov, Apply(s, st).gov.count) == map[]
  {
  }

  /** A proposal keeps the terms of the call that created it: its rate, its proposer, and a deadline that
      far from its creation. */
  lemma {:induction false} TermsAreKept(states: seq<State>, steps: seq<Step>, p: nat, k: nat, id: u64)
    requires IsRunFromDeployment(states, steps) && p < k < |states|
    requires steps[p].call.ProposeRateChange? && Exec(states[p], steps[p]).Ok? && id == states[p + 1].gov.count
    ensures id in states[k].gov.proposals
    ensures var q, c, at := states[k].gov.proposals[id], steps[p].call, steps[p].env.now;
      && q.newRate == c.newRate && q.proposer == c.proposer && q.createdAt == at
      && q.deadline == if at + c.duration < U64_LIMIT then at + c.duration else U64_LIMIT - 1
  {
    hide Exec, Inv;
    if k == p + 1 {
      ReachableInv(states, steps, p);
      CreationTerms(states[p], steps[p]);
    } else {
      TermsAreKept(states, steps, p, k - 1, id);
      ReachableGov(states, steps, k - 1);
      GovStepEffect(states[k - 1], steps[k - 1], id);
    }
  }

  lemma CreationTerms(s: State, st: Step)
    requires Inv(s) && st.call.ProposeRateChange? && Exec(s, st).Ok?
    ensures var id := Apply(s, st).gov.count;
      && id in Apply(s, st).gov.proposals
      && var q, c, at := Apply(s, st).gov.proposals[id], st.call, st.env.now;
        && q.newRate == c.newRate && q.proposer == c.proposer && q.createdAt == at
        && q.deadline == if at + c.duration < U64_LIMIT then at + c.duration else U64_LIMIT - 1
  {
    GovRule(s, st);
    hide Exec, Inv;
  }

  /** The outcome: executing the proposal adopts the rate of the call that created it exactly when
      collaborators holding more than half of all shares voted yes, and rejects it otherwise; and it can
      only be executed once the duration of that call has passed. */
  lemma ProposalOutcome(states: seq<State>, steps: seq<Step>, p: nat, e: nat, id: u64)
    requires IsRunFromDeployment(states, steps) && p < e < |steps| && Proposed(states, steps, p, e, id)
    requires steps[e].call == ExecuteProposal(id) && Exec(states[e], steps[e]).Ok?
    ensures var yes := Sum(Weights(BaseRecipients(states[p].registry), VotesOn(states[e].gov, id), true));
      var g, g' := states[e].gov, states[e + 1].gov;
      && id in g.proposals && id in g'.proposals
      && g'.proposals[id].executed == (yes > 5_000)
      && g'.proposals[id].rejected == (yes <= 5_000)
      && g'.rate == (if yes > 5_000 then steps[p].call.newRate else g.rate)
    ensures steps[e].env.now >= steps[p].env.now + steps[p].call.duration || steps[e].env.now == U64_LIMIT - 1
  {
    TallyThroughRun(states, steps, p, e, id);
    TermsAreKept(states, steps, p, e, id);
    hide Weights, TallyExact;
    OutcomeStep(states[e], steps[e], id);
    hide Exec;
    assert TallyExact(states[e].gov, BaseRecipients(states[p].registry), id);
    TallyDecides(states[e].gov, BaseRecipients(states[p].registry), id);
  }

  lemma TallyDecides(g: Gov, rs: seq<Recipient>, id: u64)
    requires ValidRecipients(rs) && TallyExact(g, rs, id)
    ensures id in g.proposals && (Passed(g.proposals[id]) <==> Sum(Weights(rs, VotesOn(g, id), true)) > 5_000)
  {
    PassedIffMajority(g, rs, id);
  }

  lemma OutcomeStep(s: State, st: Step, id: u64)
    requires st.call == ExecuteProposal(id) && Exec(s, st).Ok?
    ensures id in s.gov.proposals && id in Apply(s, st).gov.proposals
    ensures var q, q' := s.gov.proposals[id], Apply(s, st).gov.proposals[id];
      && q'.executed == Passed(q) && q'.rejected == !Passed(q) && st.env.now >= q.deadline
      && Apply(s, st).gov.rate == if Passed(q) then q.newRate else s.gov.rate
  {
    hide Passed;
  }

  /** One step, at any time: a closed proposal does not change at all, and one whose deadline has
      passed keeps its weights and votes. */
  lemma LateStep(s: State, st: Step, id: u64)
    requires GovInv(s.gov) && id in s.gov.proposals
    ensures id in Apply(s, st).gov.proposals
    ensures Closed(s.gov.proposals[id]) ==> Apply(s, st).gov.proposals[id] == s.gov.proposals[id]
    ensures st.env.now >= s.gov.proposals[id].deadline ==>
      var q, q' := s.gov.proposals[id], Apply(s, st).gov.proposals[id];
      q' == q.(executed := q'.executed, rejected := q'.rejected) && VotesOn(Apply(s, st).gov, id) == VotesOn(s.gov, id)
  {
    hide Exec;
    GovStepEffect(s, st, id);
  }

  /** A terminal outcome is final, whatever happens later. */
  lemma {:induction false} ClosedForever(states: seq<State>, steps: seq<Step>, i: nat, j: nat, id: u64)
    requires IsRunFromDeployment(states, steps) && i <= j < |states|
    requires id in states[i].gov.proposals && Closed(states[i].gov.proposals[id])
    ensures id in states[j].gov.proposals && states[j].gov.proposals[id] == states[i].gov.proposals[id]
    ensures !(states[j].gov.proposals[id].executed && states[j].gov.proposals[id].rejected)
  {
    hide Exec;
    ReachableGov(states, steps, j);
    if i < j {
      ClosedForever(states, steps, i, j - 1, id);
      ReachableGov(states, steps, j - 1);
      LateStep(states[j - 1], steps[j - 1], id);
    }
  }

  /** Once a step runs at or after the deadline, so that execution is possible, the weights and
      the votes never change again. */
  lemma {:induction false} TallyFrozen(states: seq<State>, steps: seq<Step>, i: nat, j: nat, id: u64)
    requires IsRunFromDeployment(states, steps) && i < |steps| && i <= j < |states|
    requires id in states[i].gov.proposals && steps[i].env.now >= states[i].gov.proposals[id].deadline
    ensures id in states[j].gov.proposals && VotesOn(states[j].gov, id) == VotesOn(states[i].gov, id)
    ensures var q, q' := states[i].gov.proposals[id], states[j].gov.proposals[id];
      q'.deadline == q.deadline && q'.yesWeight == q.yesWeight && q'.noWeight == q.noWeight
  {
    hide Exec;
    if i < j {
      TallyFrozen(states, steps, i, j - 1, id);
      ReachableGov(states, steps, j - 1);
      LateStep(states[j - 1], steps[j - 1], id);
    }
  }
}
