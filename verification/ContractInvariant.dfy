/** What every step of the contract keeps, and runs of the contract. */
module ContractInvariant {
  import opened Types
  import opened Split
  import opened Ledger
  import opened Recipients
  import opened Incentives
  import opened AdminControl
  import opened ContractState
  import G = Governance

  /** The stored list is distinct, non-empty and at most ten long, the map's keys are exactly the
      list, all shares are positive, and they sum to 10_000. */
  ghost predicate RegistryValid(r: Registry) {
    && r.collaborators.Some? && r.shareMap.Some?
    && ValidRecipients(BaseRecipients(r))
    && r.shareMap.value.Keys == set a | a in r.collaborators.value
  }

  ghost predicate RegistryInv(s: State) {
    && (if s.admins.admin.Some? then RegistryValid(s.registry)
        else s.registry.collaborators.None? && s.registry.shareMap.None?)
    && (s.registry.defaults != [] ==> ValidRecipients(s.registry.defaults))
  }

  ghost predicate MoneyInv(s: State) {
    && (s.treasury.pool > 0 ==> s.treasury.poolToken.Some?)
    && (s.pauses.anomaly.Some? ==> s.pauses.anomaly.value > 0)
    && (s.treasury.approved != [] ==> |s.treasury.approved| <= MAX_APPROVED_TOKENS && Distinct(s.treasury.approved))
  }

  /** Dispute ids are handed out in order. */
  ghost predicate DisputesInv(d: Disputes) {
    forall id :: id in d.items ==> 1 <= id <= d.count && d.items[id].amount > 0
  }

  ghost predicate Inv(s: State) {
    && RegistryInv(s)
    && AdminsInv(s.admins) && (s.admins.list != [] ==> s.admins.admin.Some?)
    && MoneyInv(s)
    && G.GovInv(s.gov)
    && DisputesInv(s.disputes)
  }

  /** A contract that has just been deployed, next to any ledger. */
  ghost predicate Deployed(s: State) {
    && s.registry == Registry(None, None, [], map[], map[], false)
    && s.admins == Admins(None, [], 1, None, None, None)
    && s.pauses == Pauses(false, false, false, false, None)
    && s.treasury == Treasury(s.treasury.ledger, 0, None, [], 0, None, None)
    && s.gov == G.Gov(map[], map[], 0, 0, [])
    && s.disputes == Disputes(map[], 0)
  }

  lemma DeployedInv(s: State)
    requires Deployed(s)
    ensures Inv(s)
  {
  }

  // ----- The registry -----

  /** Reading a registry's list and map back gives the list they were written from. */
  lemma WrittenRegistryIsValid(r: Registry, rs: seq<Recipient>)
    requires ValidRecipients(rs)
    requires r.collaborators == Some(Addresses(rs)) && r.shareMap == Some(ToMap(rs))
    ensures RegistryValid(r) && BaseRecipients(r) == rs
  {
    StoreRoundTrip(rs);
  }

  lemma {:induction false} InitDefectMeaning(cs: seq<Address>, shares: seq<u32>)
    requires |cs| == |shares|
    ensures InitDefect(cs, shares).None? <==> Distinct(cs) && forall i :: 0 <= i < |shares| ==> shares[i] > 0
  {
    if cs != [] {
      var k := |cs| - 1;
      InitDefectMeaning(cs[..k], shares[..k]);
      if Distinct(cs) && forall i :: 0 <= i < |shares| ==> shares[i] > 0 {
        assert forall i, j :: 0 <= i < j < k ==> cs[..k][i] != cs[..k][j];
        assert cs[k] !in cs[..k];
      } else if InitDefect(cs, shares).None? {
        forall i, j | 0 <= i < j < |cs| ensures cs[i] != cs[j] {
          if j < k { assert cs[..k][i] != cs[..k][j]; } else { assert cs[..k][i] == cs[i]; }
        }
      }
    }
  }

  /** Either route to a first admin leaves a valid registry. */
  lemma InitializeValid(s: State, now: u64, cs: seq<Address>, shares: seq<u32>)
    requires Inv(s) && s.admins.admin.None? && InitializeValidatedOp(s, now, cs, shares).Ok?
    ensures Inv(InitializeValidatedOp(s, now, cs, shares).value)
    ensures |cs| == |shares| && BaseRecipients(InitializeValidatedOp(s, now, cs, shares).value.registry) == Zip(cs, shares)
  {
    var rs := Zip(cs, shares);
    InitDefectMeaning(cs, shares);
    assert Addresses(rs) == cs && Shares(rs) == shares;
    forall i | 0 <= i < |rs| ensures rs[i].share > 0 { assert shares[i] > 0; }
    WrittenRegistryIsValid(InitializeValidatedOp(s, now, cs, shares).value.registry, rs);
  }

  lemma SetRecipientsValid(s: State, now: u64, signers: set<Address>, rs: seq<Recipient>)
    requires Inv(s) && SetRecipientsOp(s, now, signers, rs).Ok?
    ensures Inv(SetRecipientsOp(s, now, signers, rs).value)
    ensures BaseRecipients(SetRecipientsOp(s, now, signers, rs).value.registry) == rs
  {
    DefectIffInvalid(rs);
    WrittenRegistryIsValid(SetRecipientsOp(s, now, signers, rs).value.registry, rs);
  }

  /** Changing one share always breaks the total, so only a signed call that leaves a listed
      collaborator's share as it is succeeds, and it changes nothing. */
  lemma UpdateShareIffUnchanged(s: State, signers: set<Address>, c: Address, newShare: u32)
    requires Inv(s)
    ensures UpdateShareOp(s, signers, c, newShare).Ok? <==>
            && AdminSigned(s.admins, signers) && s.registry.shareMap.Some?
            && c in s.registry.shareMap.value && newShare == s.registry.shareMap.value[c]
    ensures UpdateShareOp(s, signers, c, newShare).Ok? ==> UpdateShareOp(s, signers, c, newShare).value == s
  {
    if s.registry.shareMap.Some? {
      var m := s.registry.shareMap.value;
      var cs := s.registry.collaborators.value;
      assert Addresses(BaseRecipients(s.registry)) == cs;
      StoredTotal(cs, m);
      if c in m {
        var i :| 0 <= i < |cs| && cs[i] == c;
        assert BaseRecipients(s.registry)[i].share == m[c];
        assert m[c := m[c]] == m;
      }
    }
  }

  /** The map's total is 10_000 in every reachable initialized state. */
  lemma StoredMapTotal(s: State)
    requires Inv(s) && s.registry.shareMap.Some?
    ensures MapTotal(s.registry.shareMap.value) == 10_000
  {
    assert Addresses(BaseRecipients(s.registry)) == s.registry.collaborators.value;
    StoredTotal(s.registry.collaborators.value, s.registry.shareMap.value);
  }

  // ----- What a call can touch -----

  predicate MovesTokens(c: Call) {
    || IsPrimaryPayment(c) || c.DistributeSecondary? || c.Withdraw? || c.RecordSecondaryRoyalty?
    || c.Clawback? || c.OutsideTransfer?
  }

  /** Registry calls; initialization also names the first admin. */
  ghost predicate OnlyRegisters(s: State, c: Call, s': State) {
    && s' == s.(registry := s'.registry, admins := s.admins.(admin := s'.admins.admin))
    && (!Initializes(c) ==> s'.admins == s.admins)
    && (c.SetDefaultRecipients? || c.SetIncentivesEnabled? ==>
          s'.registry.collaborators == s.registry.collaborators && s'.registry.shareMap == s.registry.shareMap)
    && (!c.SetDefaultRecipients? ==> s'.registry.defaults == s.registry.defaults)
    && (!c.SetIncentivesEnabled? ==> s'.registry.incentives == s.registry.incentives)
  }

  /** A primary payment moves balances, the distribution counter and time, and may trip the emergency pause. */
  ghost predicate OnlyPays(s: State, s': State) {
    && s' == s.(treasury := s'.treasury, pauses := s'.pauses)
    && s'.treasury == s.treasury.(ledger := s'.treasury.ledger, count := s'.treasury.count,
                                  lastDistribution := s'.treasury.lastDistribution)
    && s'.pauses == s.pauses.(emergency := s'.pauses.emergency)
    && (s.pauses.emergency ==> s'.pauses.emergency)
  }

  /** Treasury calls; recording a royalty counts activity, and a secondary distribution may trip the pause. */
  ghost predicate OnlyTreasury(s: State, c: Call, s': State) {
    && s' == s.(treasury := s'.treasury, pauses := s.pauses.(emergency := s'.pauses.emergency),
                registry := s.registry.(activity := s'.registry.activity))
    && (!c.DistributeSecondary? ==> s'.pauses == s.pauses)
    && (s.pauses.emergency ==> s'.pauses.emergency)
    && (!c.SetApprovedTokens? ==> s'.treasury.approved == s.treasury.approved)
    && (c.SetApprovedTokens? ==> s'.treasury.ledger == s.treasury.ledger)
    && (!c.RecordSecondaryRoyalty? && !c.DistributeSecondary? ==>
          s'.treasury.pool == s.treasury.pool && s'.treasury.poolToken == s.treasury.poolToken)
  }

  ghost predicate OnlyPauses(s: State, c: Call, s': State) {
    && s' == s.(pauses := s'.pauses)
    && (!c.SetAnomalyThreshold? && !c.ClearAnomalyThreshold? ==> s'.pauses.anomaly == s.pauses.anomaly)
    && (!c.ClearEmergencyPause? && s.pauses.emergency ==> s'.pauses.emergency)
  }

  ghost predicate OnlyDisputes(s: State, c: Call, s': State) {
    && s' == s.(disputes := s'.disputes, treasury := s.treasury.(ledger := s'.treasury.ledger))
    && (!c.Clawback? ==> s'.treasury == s.treasury)
  }

  /** The parts of the state a call may change, by its group. */
  ghost predicate Framed(s: State, c: Call, s': State) {
    if IsRegistryCall(c) then OnlyRegisters(s, c, s')
    else if IsPrimaryPayment(c) then OnlyPays(s, s')
    else if IsTreasuryCall(c) then OnlyTreasury(s, c, s')
    else if IsPauseCall(c) then OnlyPauses(s, c, s')
    else if IsAdminCall(c) then s' == s.(admins := s'.admins)
    else if IsGovCall(c) then s' == s.(gov := s'.gov)
    else OnlyDisputes(s, c, s')
  }

  lemma RegistryFrame(s: State, st: Step)
    requires IsRegistryCall(st.call)
    ensures OnlyRegisters(s, st.call, Apply(s, st))
  {
    hide ToMap, JoinedAt, InitDefect, Defect, MapTotal, AdminSigned;
  }

  lemma PrimaryPaymentFrame(s: State, st: Step)
    requires IsPrimaryPayment(st.call)
    ensures OnlyPays(s, Apply(s, st))
  {
    hide AdminSigned, Defect, PayOut, BatchRun, IncentiveRecipients, BaseRecipients;
    match st.call
    case DistributeWithOverride(token, rs) => assert Exec(s, st) == DistributeOp(s, st.env, token, rs);
    case DistributeResilient(token, rs) => assert Exec(s, st) == ResilientOp(s, st.env, token, rs);
    case BatchDistribute(tokens) => assert Exec(s, st) == BatchOp(s, st.env, tokens);
    case DistributeWithIncentives(token) => assert Exec(s, st) == IncentivesOp(s, st.env, token);
  }

  lemma TreasuryFrame(s: State, st: Step)
    requires IsTreasuryCall(st.call)
    ensures OnlyTreasury(s, st.call, Apply(s, st))
  {
    hide AdminSigned, Transfer, PayOut, MapTotal, BaseRecipients, Distinct;
  }

  lemma OtherFrames(s: State, st: Step)
    requires IsPauseCall(st.call) || IsAdminCall(st.call) || IsGovCall(st.call) || IsDisputeCall(st.call)
    ensures Framed(s, st.call, Apply(s, st))
  {
    hide AdminSigned, AllAdminsSigned, ClawAll, CloseDispute, G.ProposeOp, G.VoteOp, G.ExecuteOp;
    hide SetAdminsOp, AdminTransferOp, AdminControl.ProposeOp, AcceptOp, InitiateOp, CancelOp, FinalizeOp, SetTimelockOp;
  }

  /** Every step keeps to its call's frame. */
  lemma StepFrame(s: State, st: Step)
    ensures Framed(s, st.call, Apply(s, st))
  {
    hide Exec, OnlyRegisters, OnlyPays, OnlyTreasury, OnlyPauses, OnlyDisputes;
    if IsRegistryCall(st.call) {
      RegistryFrame(s, st);
    } else if IsPrimaryPayment(st.call) {
      PrimaryPaymentFrame(s, st);
    } else if IsTreasuryCall(st.call) {
      TreasuryFrame(s, st);
    } else {
      OtherFrames(s, st);
    }
  }

  /** Only two kinds of call change the collaborators or their shares. */
  lemma SharesFrame(s: State, st: Step)
    requires Inv(s) && !Initializes(st.call) && !st.call.SetRecipients?
    ensures var r, r' := s.registry, Apply(s, st).registry;
      && r'.collaborators == r.collaborators && r'.shareMap == r.shareMap
      && BaseRecipients(r') == BaseRecipients(r)
      && (!st.call.SetDefaultRecipients? ==> r'.defaults == r.defaults)
  {
    if st.call.UpdateShare? {
      UpdateShareIffUnchanged(s, st.env.signers, st.call.collaborator, st.call.newShare);
    } else {
      hide Exec, Inv;
      StepFrame(s, st);
    }
  }

  /** Initialization is the only way to get a first admin, and an admin is never removed. */
  lemma AdminStaysSet(s: State, st: Step)
    ensures s.admins.admin.Some? ==> Apply(s, st).admins.admin.Some?
    ensures s.admins.admin.None? && !Initializes(st.call) ==> Apply(s, st).admins.admin.None?
    ensures s.admins.admin.Some? && Initializes(st.call) ==> Apply(s, st) == s
  {
    if Initializes(st.call) {
    } else if IsAdminCall(st.call) {
      AdminCallKeepsAdmin(s, st);
    } else {
      hide Exec;
      StepFrame(s, st);
    }
  }

  lemma AdminCallKeepsAdmin(s: State, st: Step)
    requires IsAdminCall(st.call)
    ensures s.admins.admin.Some? <==> Apply(s, st).admins.admin.Some?
    ensures Apply(s, st).admins.list != s.admins.list ==> s.admins.admin.Some? || s.admins.list != []
  {
  }

  // ----- Every step -----

  lemma RegistryStep(s: State, st: Step)
    requires Inv(s)
    ensures RegistryInv(Apply(s, st))
  {
    if IsRegistryCall(st.call) && !st.call.UpdateShare? && !st.call.SetIncentivesEnabled? {
      if Exec(s, st).Ok? { RegistryWritten(s, st); }
    } else {
      hide Exec, ValidRecipients;
      SharesFrame(s, st);
      AdminStaysSet(s, st);
    }
  }

  lemma RegistryWritten(s: State, st: Step)
    requires Inv(s) && Exec(s, st).Ok?
    requires Initializes(st.call) || st.call.SetRecipients? || st.call.SetDefaultRecipients?
    ensures RegistryInv(Apply(s, st))
  {
    match st.call
    case Initialize(cs, shares) =>
      hide InitializeValidatedOp, Inv, RegistryInv;
      InitializeValid(s, st.env.now, cs, shares);
      InvHasRegistry(Apply(s, st));
    case RevealInitialize(cs, shares, _) =>
      hide InitializeValidatedOp, Inv, RegistryInv;
      InitializeValid(s, st.env.now, cs, shares);
      InvHasRegistry(Apply(s, st));
    case SetRecipients(rs) =>
      hide SetRecipientsOp, Inv, RegistryInv;
      SetRecipientsValid(s, st.env.now, st.env.signers, rs);
      InvHasRegistry(Apply(s, st));
    case SetDefaultRecipients(rs) => DefectIffInvalid(rs);
  }

  lemma InvHasRegistry(s: State)
    requires Inv(s)
    ensures RegistryInv(s)
  {
  }

  lemma AdminsStep(s: State, st: Step)
    requires AdminsInv(s.admins) && (s.admins.list != [] ==> s.admins.admin.Some?)
    ensures AdminsInv(Apply(s, st).admins)
    ensures Apply(s, st).admins.list != [] ==> Apply(s, st).admins.admin.Some?
  {
    AdminStaysSet(s, st);
    if IsAdminCall(st.call) {
      AdminCallKeepsAdmin(s, st);
      AdminCallStep(s, st);
    } else {
      hide Exec;
      StepFrame(s, st);
    }
  }

  lemma AdminCallStep(s: State, st: Step)
    requires IsAdminCall(st.call) && AdminsInv(s.admins)
    ensures AdminsInv(Apply(s, st).admins)
  {
    hide AdminSigned;
  }

  lemma MoneyStep(s: State, st: Step)
    requires MoneyInv(s)
    ensures MoneyInv(Apply(s, st))
  {
    if IsTreasuryCall(st.call) || IsPauseCall(st.call) {
      MoneyCallStep(s, st);
    } else {
      hide Exec;
      StepFrame(s, st);
    }
  }

  lemma MoneyCallStep(s: State, st: Step)
    requires MoneyInv(s) && (IsTreasuryCall(st.call) || IsPauseCall(st.call))
    ensures MoneyInv(Apply(s, st))
  {
    hide Exec, MoneyInv;
    if IsTreasuryCall(st.call) {
      TreasuryKeepsMoney(s, st);
    } else {
      PausesKeepMoney(s, st);
    }
  }

  lemma PausesKeepMoney(s: State, st: Step)
    requires MoneyInv(s) && IsPauseCall(st.call)
    ensures MoneyInv(Apply(s, st))
  {
    hide AdminSigned, AllAdminsSigned, ExecTreasury;
  }

  lemma TreasuryKeepsMoney(s: State, st: Step)
    requires MoneyInv(s) && IsTreasuryCall(st.call)
    ensures MoneyInv(Apply(s, st))
  {
    hide AdminSigned, Transfer, PayOut, MapTotal, BaseRecipients, ExecPauses;
  }

  lemma GovStep(s: State, st: Step)
    requires G.GovInv(s.gov)
    ensures G.GovInv(Apply(s, st).gov)
  {
    if IsGovCall(st.call) {
      GovCallStep(s, st);
    } else {
      hide Exec, G.GovInv;
      StepFrame(s, st);
    }
  }

  lemma GovCallStep(s: State, st: Step)
    requires IsGovCall(st.call) && G.GovInv(s.gov)
    ensures G.GovInv(Apply(s, st).gov)
  {
    hide G.ProposeOp, G.VoteOp, G.ExecuteOp;
    var Env(now, signers, _) := st.env;
    match st.call
    case ProposeRateChange(a, rate, duration) => G.ProposeKeepsGovInv(s.gov, s.registry.shareMap, signers, now, a, rate, duration);
    case Vote(voter, id, support) => G.VoteKeepsGovInv(s.gov, s.registry.shareMap, signers, now, voter, id, support);
    case ExecuteProposal(id) => G.ExecuteKeepsGovInv(s.gov, now, id);
    case _ =>
  }

  lemma DisputesStep(s: State, st: Step)
    requires DisputesInv(s.disputes)
    ensures DisputesInv(Apply(s, st).disputes)
  {
    if IsDisputeCall(st.call) {
      DisputeCallStep(s, st);
    } else {
      hide Exec, DisputesInv;
      StepFrame(s, st);
    }
  }

  lemma DisputeCallStep(s: State, st: Step)
    requires IsDisputeCall(st.call) && DisputesInv(s.disputes)
    ensures DisputesInv(Apply(s, st).disputes)
  {
    hide AdminSigned, ClawAll;
  }

  lemma StepKeepsInv(s: State, st: Step)
    requires Inv(s)
    ensures Inv(Apply(s, st))
  {
    hide Exec, RegistryInv, AdminsInv, MoneyInv, G.GovInv, DisputesInv;
    RegistryStep(s, st);
    AdminsStep(s, st);
    MoneyStep(s, st);
    GovStep(s, st);
    DisputesStep(s, st);
  }

  // ----- Runs -----

  /** A run: states[i + 1] is what step i makes of states[i], and ledger time never goes back. */
  ghost predicate IsRun(states: seq<State>, steps: seq<Step>) {
    && |states| == |steps| + 1
    && (forall i :: 0 <= i < |steps| ==> states[i + 1] == Apply(states[i], steps[i]))
    && (forall i, j :: 0 <= i < j < |steps| ==> steps[i].env.now <= steps[j].env.now)
  }

  ghost predicate IsRunFromDeployment(states: seq<State>, steps: seq<Step>) {
    IsRun(states, steps) && Deployed(states[0])
  }

  /** Every reachable state satisfies the invariant. */
  lemma {:induction false} ReachableInv(states: seq<State>, steps: seq<Step>, i: nat)
    requires IsRunFromDeployment(states, steps) && i < |states|
    ensures Inv(states[i])
  {
    if i == 0 {
      DeployedInv(states[0]);
    } else {
      ReachableInv(states, steps, i - 1);
      StepKeepsInv(states[i - 1], steps[i - 1]);
    }
  }

  /** In every reachable state with an admin, the stored list passes the distribution-time
      validator; an admin is set by at most one successful initialization. */
  lemma ReachableRegistry(states: seq<State>, steps: seq<Step>, i: nat)
    requires IsRunFromDeployment(states, steps) && i < |states| && states[i].admins.admin.Some?
    ensures RegistryValid(states[i].registry)
    ensures Defect(BaseRecipients(states[i].registry)).None?
    ensures forall j :: i <= j < |steps| && Initializes(steps[j].call) ==> Exec(states[j], steps[j]).Err?
  {
    ReachableInv(states, steps, i);
    DefectIffInvalid(BaseRecipients(states[i].registry));
    forall j | i <= j < |steps| && Initializes(steps[j].call)
      ensures Exec(states[j], steps[j]).Err?
    {
      AdminStays(states, steps, i, j);
    }
  }

  lemma {:induction false} AdminStays(states: seq<State>, steps: seq<Step>, i: nat, j: nat)
    requires IsRun(states, steps) && i <= j < |states| && states[i].admins.admin.Some?
    ensures states[j].admins.admin.Some?
  {
    hide Exec;
    if i < j {
      AdminStays(states, steps, i, j - 1);
      AdminStaysSet(states[j - 1], steps[j - 1]);
    }
  }

  /** With incentives on, the list to be paid has the collaborators' addresses in order, sums to
      10_000 and ends with a positive share; it passes the validator unless a bonus pushes a
      share-1, bonus-0 recipient before the last down to nothing. */
  lemma ReachableIncentives(states: seq<State>, steps: seq<Step>, i: nat, now: u64)
    requires IsRunFromDeployment(states, steps) && i < |states|
    requires states[i].admins.admin.Some? && states[i].registry.incentives
    ensures var base, bonuses, paid := BaseRecipients(states[i].registry), BonusList(states[i].registry, now),
                                       IncentiveRecipients(states[i].registry, now);
      && |paid| == |base| >= 1 && Addresses(paid) == Addresses(base)
      && Sum(Shares(paid)) == 10_000 && paid[|paid| - 1].share >= 1
      && 0 <= Sum(bonuses) <= 1_500
      && (Defect(paid).None? <==>
          Sum(bonuses) == 0 || !exists k :: 0 <= k < |base| - 1 && base[k].share == 1 && bonuses[k] == 0)
  {
    ReachableInv(states, steps, i);
    var base, bonuses := BaseRecipients(states[i].registry), BonusList(states[i].registry, now);
    var paid := IncentiveRecipients(states[i].registry, now);
    AdjustedTotal(base, bonuses);
    BonusTotal(bonuses);
    DefectIffInvalid(paid);
    assert Shares(paid)[|paid| - 1] == paid[|paid| - 1].share;
    if Sum(bonuses) > 0 {
      AdjustedValidIff(base, bonuses);
    } else {
      assert Shares(paid) == Shares(base);
      forall k | 0 <= k < |base| ensures paid[k] == base[k] {
        assert Addresses(paid)[k] == Addresses(base)[k] && Shares(paid)[k] == Shares(base)[k];
      }
      assert paid == base;
    }
  }
}
