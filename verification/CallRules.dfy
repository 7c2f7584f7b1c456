/** The rules of the single calls, spelled out: who must sign, exactly when a call succeeds, and what it
    then leaves stored. */
module CallRules {
  import opened Types
  import opened Split
  import opened Ledger
  import opened Recipients
  import opened AdminControl
  import opened ContractState
  import opened ContractInvariant
  import opened PayoutEffects
  import G = Governance

  /** Without an admin list the stored admin has signed; with one, its first `threshold` members have. */
  ghost predicate AdminsHaveSigned(a: Admins, signers: set<Address>) {
    && (a.list == [] ==> a.admin.Some? && a.admin.value in signers)
    && (a.list != [] ==> a.threshold <= |a.list| && forall i :: 0 <= i < a.threshold ==> a.list[i] in signers)
  }

  ghost predicate AllAdminsHaveSigned(a: Admins, signers: set<Address>) {
    && (a.list == [] ==> a.admin.Some? && a.admin.value in signers)
    && (a.list != [] ==> forall i :: 0 <= i < |a.list| ==> a.list[i] in signers)
  }

  lemma SignaturesMean(a: Admins, signers: set<Address>)
    ensures AdminSigned(a, signers) <==> AdminsHaveSigned(a, signers)
    ensures AllAdminsSigned(a, signers) <==> AllAdminsHaveSigned(a, signers)
  {
  }

  // ----- Who must sign -----

  /** The signatures a successful call carries. */
  ghost predicate Signatures(a: Admins, st: Step) {
    var signers := st.env.signers;
    match st.call
    case Initialize(cs, _) => cs != [] && cs[0] in signers
    case RevealInitialize(cs, _, _) => cs != [] && cs[0] in signers
    case AdminTransfer(_) => a.list == [] && a.admin.Some? && a.admin.value in signers
    case AcceptAdmin => a.proposed.Some? && a.proposed.value in signers
    case FinalizeAdminRotation => true
    case ClearEmergencyPause => AllAdminsHaveSigned(a, signers)
    case RecordSecondaryRoyalty(_, from, _) => from in signers
    case ProposeRateChange(proposer, _, _) => proposer in signers
    case Vote(voter, _, _) => voter in signers
    case ExecuteProposal(_) => true
    case Clawback(_, _, sources, _) => AdminsHaveSigned(a, signers) && forall i :: 0 <= i < |sources| ==> sources[i] in signers
    case OutsideTransfer(_, _, _, _) => true
    case _ => AdminsHaveSigned(a, signers)
  }

  /** No call succeeds without them: every distribution and every setting is signed by the admins, a
      royalty by its payer, a vote or proposal by its collaborator. */
  lemma CallersHaveSigned(s: State, st: Step)
    requires Exec(s, st).Ok?
    ensures Signatures(s.admins, st)
  {
    SignaturesMean(s.admins, st.env.signers);
    hide AdminSigned, AllAdminsSigned, AdminsHaveSigned, AllAdminsHaveSigned;
    if IsRegistryCall(st.call) {
      hide InitializeValidatedOp;
    } else if IsPrimaryPayment(st.call) {
      PaymentSigned(s, st);
    } else if IsTreasuryCall(st.call) {
      if !st.call.OutsideTransfer? { TreasurySigned(s, st); }
    } else if IsDisputeCall(st.call) {
      DisputeSigned(s, st);
    } else {
      OthersSigned(s, st);
    }
  }

  lemma PaymentSigned(s: State, st: Step)
    requires Exec(s, st).Ok? && IsPrimaryPayment(st.call)
    ensures AdminSigned(s.admins, st.env.signers)
  {
    hide AdminSigned, PayBalance, BatchRun, IncentiveRecipients, Effective, Defect;
  }

  lemma TreasurySigned(s: State, st: Step)
    requires Exec(s, st).Ok? && IsTreasuryCall(st.call) && !st.call.OutsideTransfer?
    ensures if st.call.RecordSecondaryRoyalty? then st.call.from in st.env.signers else AdminSigned(s.admins, st.env.signers)
  {
    hide AdminSigned, Transfer, PayOut, MapTotal, BaseRecipients;
  }

  lemma DisputeSigned(s: State, st: Step)
    requires Exec(s, st).Ok? && IsDisputeCall(st.call)
    ensures AdminSigned(s.admins, st.env.signers)
    ensures st.call.Clawback? ==> forall i :: 0 <= i < |st.call.sources| ==> st.call.sources[i] in st.env.signers
  {
    hide AdminSigned;
    if st.call.Clawback? {
      SourcesSigned(s.treasury.ledger, st.env, st.call.token, st.call.sources, st.call.amounts);
    }
  }

  lemma {:induction false} SourcesSigned(l: Balances, e: Env, token: Address, sources: seq<Address>, amounts: seq<int>)
    requires |sources| == |amounts| && ClawAll(l, e, token, sources, amounts).Ok?
    ensures forall i :: 0 <= i < |sources| ==> sources[i] in e.signers && amounts[i] > 0
  {
    if sources != [] {
      var k := |sources| - 1;
      SourcesSigned(l, e, token, sources[..k], amounts[..k]);
      forall i | 0 <= i < |sources| ensures sources[i] in e.signers && amounts[i] > 0 {
        if i < k { assert sources[..k][i] == sources[i] && amounts[..k][i] == amounts[i]; }
      }
    }
  }

  lemma OthersSigned(s: State, st: Step)
    requires Exec(s, st).Ok? && (IsPauseCall(st.call) || IsAdminCall(st.call) || IsGovCall(st.call))
    requires AdminSigned(s.admins, st.env.signers) ==> AdminsHaveSigned(s.admins, st.env.signers)
    requires AllAdminsSigned(s.admins, st.env.signers) ==> AllAdminsHaveSigned(s.admins, st.env.signers)
    ensures Signatures(s.admins, st)
  {
    hide AdminSigned, AllAdminsSigned, AdminsHaveSigned, AllAdminsHaveSigned;
  }

  /** Whatever a step changes of the collaborators, the defaults, the admin list, a pending rotation, the
      timelock or the whitelist, the admins have signed it; initialization and finalizing apart. */
  lemma ChangesAreSigned(s: State, st: Step)
    ensures var s' := Apply(s, st);
      (|| (!Initializes(st.call) && (s'.registry.collaborators != s.registry.collaborators || s'.registry.shareMap != s.registry.shareMap))
       || s'.registry.defaults != s.registry.defaults
       || s'.admins.list != s.admins.list || s'.admins.threshold != s.admins.threshold
       || (s'.admins.rotation != s.admins.rotation && !st.call.FinalizeAdminRotation?)
       || s'.admins.timelock != s.admins.timelock
       || s'.treasury.approved != s.treasury.approved)
      ==> AdminsHaveSigned(s.admins, st.env.signers)
  {
    if Exec(s, st).Ok? { CallersHaveSigned(s, st); }
    if IsAdminCall(st.call) {
      hide AdminsHaveSigned, AdminSigned;
      TransferTouchesAdminOnly(s, st);
    } else {
      hide Exec, AdminsHaveSigned;
      StepFrame(s, st);
    }
  }

  lemma TransferTouchesAdminOnly(s: State, st: Step)
    requires IsAdminCall(st.call)
    ensures var a, a' := s.admins, Apply(s, st).admins;
      st.call.AdminTransfer? || st.call.AcceptAdmin? || st.call.FinalizeAdminRotation? ==>
        a'.list == a.list && a'.threshold == a.threshold && a'.timelock == a.timelock
        && (st.call.FinalizeAdminRotation? || a'.rotation == a.rotation)
  {
    hide AdminSigned;
  }

  // ----- Flags and thresholds -----

  /** What stops a payment: the emergency and global pauses every one, the pause of primary distributions
      all but a batch, the pause of secondary ones a secondary; and the whitelist an unlisted token, in
      the calls that check it. */
  lemma PaymentsAreOpen(s: State, st: Step)
    requires Exec(s, st).Ok? && (IsPrimaryPayment(st.call) || st.call.DistributeSecondary?)
    ensures !s.pauses.emergency && !s.pauses.global
    ensures IsPrimaryPayment(st.call) && !st.call.BatchDistribute? ==> !s.pauses.primary
    ensures st.call.DistributeSecondary? ==> !s.pauses.secondary
    ensures st.call.DistributeWithOverride? ==> s.treasury.approved == [] || st.call.token in s.treasury.approved
    ensures st.call.BatchDistribute? ==>
              forall t :: t in st.call.tokens ==> s.treasury.approved == [] || t in s.treasury.approved
  {
    hide AdminSigned, PayBalance, PayOut, BatchRun, IncentiveRecipients, Effective, MapTotal, BaseRecipients, Defect;
  }

  /** What a signed payment reports when it is paused: the emergency pause is told apart from the others
      by override, batch and secondary distributions, and not by resilient ones and those with incentives. */
  lemma PausedPaymentsReport(s: State, st: Step)
    requires AdminsHaveSigned(s.admins, st.env.signers) && (IsPrimaryPayment(st.call) || st.call.DistributeSecondary?)
    requires st.call.BatchDistribute? ==>
               |st.call.tokens| <= 50 && (s.treasury.approved == [] || forall t :: t in st.call.tokens ==> t in s.treasury.approved)
    ensures var e, told := Exec(s, st), st.call.DistributeWithOverride? || st.call.BatchDistribute? || st.call.DistributeSecondary?;
      && (s.pauses.emergency ==> e == Err(if told then EmergencyContractPaused else ContractPaused))
      && (!s.pauses.emergency && s.pauses.global ==> e == Err(ContractPaused))
      && (!s.pauses.emergency && s.pauses.primary && IsPrimaryPayment(st.call) && !st.call.BatchDistribute? ==> e == Err(ContractPaused))
      && (!s.pauses.emergency && s.pauses.secondary && st.call.DistributeSecondary? ==> e == Err(ContractPaused))
  {
    SignaturesMean(s.admins, st.env.signers);
    hide AdminSigned, AdminsHaveSigned, PayBalance, PayOut, BatchRun, IncentiveRecipients, Effective, MapTotal, BaseRecipients, Defect;
  }

  /** A payment that sets the emergency pause had an amount above the threshold before it: the balance of
      a token it was to distribute, or the pool. */
  lemma TripsAreAboveThreshold(s: State, st: Step)
    requires !s.pauses.emergency && Apply(s, st).pauses.emergency && !st.call.TriggerEmergencyPause?
    ensures st.call.DistributeWithOverride? || st.call.BatchDistribute? || st.call.DistributeSecondary?
    ensures st.call.DistributeWithOverride? ==> Exceeds(s.pauses, Bal(s.treasury.ledger, st.call.token, SELF))
    ensures st.call.DistributeSecondary? ==> Exceeds(s.pauses, s.treasury.pool)
    ensures st.call.BatchDistribute? ==> s.pauses.anomaly.Some?
  {
    if IsPrimaryPayment(st.call) {
      PrimaryTrips(s, st);
    } else if st.call.DistributeSecondary? {
      SecondaryTrips(s, st);
    } else if IsPauseCall(st.call) {
      PauseTrips(s, st);
    } else {
      hide Exec;
      StepFrame(s, st);
    }
  }

  lemma SecondaryTrips(s: State, st: Step)
    requires st.call.DistributeSecondary? && !s.pauses.emergency && Apply(s, st).pauses.emergency
    ensures Exceeds(s.pauses, s.treasury.pool)
  {
    hide PayOut, MapTotal, BaseRecipients, AdminSigned;
  }

  lemma PauseTrips(s: State, st: Step)
    requires IsPauseCall(st.call) && !s.pauses.emergency && Apply(s, st).pauses.emergency
    ensures st.call.TriggerEmergencyPause?
  {
    hide AdminSigned, AllAdminsSigned;
  }

  lemma PrimaryTrips(s: State, st: Step)
    requires IsPrimaryPayment(st.call) && !s.pauses.emergency && Apply(s, st).pauses.emergency
    ensures st.call.DistributeWithOverride? || st.call.BatchDistribute?
    ensures st.call.DistributeWithOverride? ==> Exceeds(s.pauses, Bal(s.treasury.ledger, st.call.token, SELF))
    ensures st.call.BatchDistribute? ==> s.pauses.anomaly.Some?
  {
    hide AdminSigned, PayBalance, IncentiveRecipients, Defect;
    if st.call.BatchDistribute? {
      var rs := Effective(s.registry, []);
      TrippedPrefix(s.treasury.ledger, s.pauses, rs.value, st.call.tokens, st.env.refusing);
    }
  }

  // ----- The registry -----

  /** A list to start with: one to ten distinct collaborators, a positive share each, 10,000 in all. */
  ghost predicate InitialLists(cs: seq<Address>, shares: seq<u32>) {
    && 1 <= |cs| <= 10 && |shares| == |cs| && Distinct(cs)
    && (forall i :: 0 <= i < |shares| ==> shares[i] > 0) && Sum(shares) == 10_000
  }

  ghost predicate RegistryAllows(s: State, st: Step)
    requires IsRegistryCall(st.call)
  {
    match st.call
    case Initialize(cs, shares) => s.admins.admin.None? && InitialLists(cs, shares) && cs[0] in st.env.signers
    case RevealInitialize(cs, shares, opening) =>
      s.admins.admin.None? && opening == Opens && InitialLists(cs, shares) && cs[0] in st.env.signers
    case SetRecipients(rs) => AdminsHaveSigned(s.admins, st.env.signers) && ValidRecipients(rs)
    case SetDefaultRecipients(rs) => AdminsHaveSigned(s.admins, st.env.signers) && ValidRecipients(rs)
    case UpdateShare(c, share) =>
      && AdminsHaveSigned(s.admins, st.env.signers)
      && s.registry.shareMap.Some? && c in s.registry.shareMap.value && share == s.registry.shareMap.value[c]
    case SetIncentivesEnabled(_) => AdminsHaveSigned(s.admins, st.env.signers)
  }

  /** The list and the map hold exactly these collaborators, in this order, with these shares. */
  ghost predicate Registers(r: Registry, cs: seq<Address>, shares: seq<u32>) {
    && |cs| == |shares| && r.collaborators == Some(cs) && r.shareMap.Some?
    && (forall a :: a in r.shareMap.value ==> a in cs)
    && (forall i :: 0 <= i < |cs| ==> cs[i] in r.shareMap.value && r.shareMap.value[cs[i]] == shares[i])
  }

  ghost predicate RegistryWrites(s: State, st: Step, s': State)
    requires IsRegistryCall(st.call)
  {
    match st.call
    case Initialize(cs, shares) => cs != [] && Registers(s'.registry, cs, shares) && s'.admins.admin == Some(cs[0])
    case RevealInitialize(cs, shares, _) => cs != [] && Registers(s'.registry, cs, shares) && s'.admins.admin == Some(cs[0])
    case SetRecipients(rs) => Registers(s'.registry, Addresses(rs), Shares(rs))
    case SetDefaultRecipients(rs) => s'.registry.defaults == rs
    case UpdateShare(_, _) => s' == s
    case SetIncentivesEnabled(on) => s'.registry.incentives == on
  }

  /** Exactly when a registry call succeeds, and what it then stores. */
  lemma RegistryRule(s: State, st: Step)
    requires Inv(s) && IsRegistryCall(st.call)
    ensures Exec(s, st).Ok? <==> RegistryAllows(s, st)
    ensures Exec(s, st).Ok? ==> RegistryWrites(s, st, Apply(s, st))
  {
    SignaturesMean(s.admins, st.env.signers);
    hide AdminSigned, AdminsHaveSigned, Inv, ToMap, JoinedAt;
    match st.call
    case Initialize(cs, shares) =>
      InitializeRule(s, st.env.now, cs, shares);
      hide InitializeValidatedOp, InitialLists, Registers;
    case RevealInitialize(cs, shares, _) =>
      InitializeRule(s, st.env.now, cs, shares);
      hide InitializeValidatedOp, Registers;
    case SetRecipients(rs) =>
      DefectIffInvalid(rs);
      if ValidRecipients(rs) { MapHolds(rs); }
    case SetDefaultRecipients(rs) =>
      DefectIffInvalid(rs);
      if ValidRecipients(rs) { ShareWithinTotal(rs); }
    case UpdateShare(c, share) =>
      UpdateShareIffUnchanged(s, st.env.signers, c, share);
      hide UpdateShareOp;
    case SetIncentivesEnabled(_) =>
  }

  lemma InitializeRule(s: State, now: u64, cs: seq<Address>, shares: seq<u32>)
    ensures InitializeValidatedOp(s, now, cs, shares).Ok? <==> InitialLists(cs, shares)
    ensures InitialLists(cs, shares) ==>
              var s' := InitializeValidatedOp(s, now, cs, shares).value;
              Registers(s'.registry, cs, shares) && s'.admins.admin == Some(cs[0])
  {
    if |cs| == |shares| { InitDefectMeaning(cs, shares); }
    if InitialLists(cs, shares) {
      var rs := Zip(cs, shares);
      assert Addresses(rs) == cs && Shares(rs) == shares;
      MapHolds(rs);
    }
  }

  lemma MapHolds(rs: seq<Recipient>)
    requires Distinct(Addresses(rs))
    ensures forall a :: a in ToMap(rs) ==> a in Addresses(rs)
    ensures forall i :: 0 <= i < |rs| ==> Addresses(rs)[i] in ToMap(rs) && ToMap(rs)[Addresses(rs)[i]] == Shares(rs)[i]
  {
    ToMapMeaning(rs);
    hide ToMap, Distinct;
    forall i | 0 <= i < |rs|
      ensures Addresses(rs)[i] in ToMap(rs) && ToMap(rs)[Addresses(rs)[i]] == Shares(rs)[i]
    {
      assert rs[i].address in ToMap(rs);
    }
  }

  lemma ShareWithinTotal(rs: seq<Recipient>)
    requires ValidRecipients(rs)
    ensures forall i :: 0 <= i < |rs| ==> rs[i].share <= 10_000
  {
    SumNonNegative(Shares(rs));
    assert forall i :: 0 <= i < |rs| ==> Shares(rs)[i] == rs[i].share;
  }

  // ----- Pauses -----

  ghost predicate PauseAllows(s: State, st: Step)
    requires IsPauseCall(st.call)
  {
    match st.call
    case SetPaused(_, _) => AdminsHaveSigned(s.admins, st.env.signers)
    case SetAnomalyThreshold(x) => AdminsHaveSigned(s.admins, st.env.signers) && x > 0
    case ClearAnomalyThreshold => AdminsHaveSigned(s.admins, st.env.signers)
    case TriggerEmergencyPause => AdminsHaveSigned(s.admins, st.env.signers)
    case ClearEmergencyPause => AllAdminsHaveSigned(s.admins, st.env.signers)
  }

  ghost predicate PauseWrites(s: State, st: Step, s': State)
    requires IsPauseCall(st.call)
  {
    var p := s.pauses;
    match st.call
    case SetPaused(scope, on) =>
      s'.pauses == if scope == Global then p.(global := on) else if scope == Primary then p.(primary := on) else p.(secondary := on)
    case SetAnomalyThreshold(x) => s'.pauses == p.(anomaly := Some(x))
    case ClearAnomalyThreshold => s'.pauses == p.(anomaly := None)
    case TriggerEmergencyPause => s'.pauses == p.(emergency := true)
    case ClearEmergencyPause => s'.pauses == p.(emergency := false)
  }

  lemma PauseRule(s: State, st: Step)
    requires Inv(s) && IsPauseCall(st.call)
    ensures Exec(s, st).Ok? <==> PauseAllows(s, st)
    ensures Exec(s, st).Ok? ==> PauseWrites(s, st, Apply(s, st))
  {
    SignaturesMean(s.admins, st.env.signers);
    hide AdminSigned, AllAdminsSigned, RegistryInv, MoneyInv, G.GovInv, DisputesInv;
  }

  // ----- Admins -----

  ghost predicate AdminAllows(s: State, st: Step)
    requires IsAdminCall(st.call)
  {
    var a, signed := s.admins, AdminsHaveSigned(s.admins, st.env.signers);
    match st.call
    case SetAdmins(list, threshold) => signed && 1 <= |list| <= 10 && Distinct(list) && 1 <= threshold <= |list|
    case AdminTransfer(_) => a.list == [] && a.admin.Some? && a.admin.value in st.env.signers
    case ProposeAdminTransfer(_) => signed
    case AcceptAdmin => a.admin.Some? && a.proposed.Some? && a.proposed.value in st.env.signers
    case InitiateAdminRotation(_) => signed
    case CancelAdminRotation => signed && a.rotation.Some?
    case FinalizeAdminRotation =>
      && a.admin.Some? && a.rotation.Some?
      && var ready := a.rotation.value.initiatedAt as int + if a.timelock.Some? then a.timelock.value as int else 48 * 60 * 60;
        st.env.now >= ready && ready < U64_LIMIT
    case SetAdminRotationTimelock(seconds) => signed && 60 * 60 <= seconds <= 30 * 24 * 60 * 60
  }

  ghost predicate AdminWrites(s: State, st: Step, s': State)
    requires IsAdminCall(st.call)
  {
    var a := s.admins;
    match st.call
    case SetAdmins(list, threshold) => s'.admins == a.(list := list, threshold := threshold)
    case AdminTransfer(newAdmin) => s'.admins == a.(admin := Some(newAdmin))
    case ProposeAdminTransfer(newAdmin) => s'.admins == a.(proposed := Some(newAdmin))
    case AcceptAdmin => s'.admins == a.(admin := a.proposed, proposed := None)
    case InitiateAdminRotation(newAdmin) => s'.admins == a.(rotation := Some(Rotation(newAdmin, st.env.now)))
    case CancelAdminRotation => s'.admins == a.(rotation := None)
    case FinalizeAdminRotation =>
      a.rotation.Some? && s'.admins == a.(admin := Some(a.rotation.value.newAdmin), rotation := None)
    case SetAdminRotationTimelock(seconds) => s'.admins == a.(timelock := Some(seconds))
  }

  lemma AdminRule(s: State, st: Step)
    requires Inv(s) && IsAdminCall(st.call)
    ensures Exec(s, st).Ok? <==> AdminAllows(s, st)
    ensures Exec(s, st).Ok? ==> AdminWrites(s, st, Apply(s, st))
  {
    SignaturesMean(s.admins, st.env.signers);
    hide AdminSigned, RegistryInv, MoneyInv, G.GovInv, DisputesInv;
  }

  // ----- Governance -----

  ghost predicate GovAllows(s: State, st: Step)
    requires IsGovCall(st.call)
  {
    var g, now, shares := s.gov, st.env.now, s.registry.shareMap;
    match st.call
    case SetRoyaltyRate(rate) => AdminsHaveSigned(s.admins, st.env.signers) && 1 <= rate <= 10_000
    case ProposeRateChange(who, rate, duration) =>
      && who in st.env.signers && shares.Some? && who in shares.value && 1 <= rate <= 10_000
      && 60 * 60 <= duration <= 14 * 24 * 60 * 60 && g.count + 1 < U64_LIMIT
    case Vote(voter, id, _) =>
      && voter in st.env.signers && shares.Some? && voter in shares.value && id in g.proposals
      && !g.proposals[id].executed && !g.proposals[id].rejected && now < g.proposals[id].deadline
      && (id in g.votes ==> voter !in g.votes[id])
    case ExecuteProposal(id) =>
      id in g.proposals && !g.proposals[id].executed && !g.proposals[id].rejected && now >= g.proposals[id].deadline
  }

  /** The history with one more change, cut to the last twenty. */
  ghost predicate Appended(h: seq<G.RateChange>, h': seq<G.RateChange>, change: G.RateChange) {
    if |h| < 20 then h' == h + [change] else h != [] && h' == h[1..] + [change]
  }

  ghost predicate GovWrites(s: State, st: Step, s': State)
    requires IsGovCall(st.call) && GovAllows(s, st)
  {
    var g, g', now := s.gov, s'.gov, st.env.now;
    match st.call
    case SetRoyaltyRate(rate) =>
      && s.admins.admin.Some? && Appended(g.history, g'.history, G.RateChange(g.rate, rate, now, s.admins.admin.value))
      && g' == g.(rate := rate, history := g'.history)
    case ProposeRateChange(who, rate, duration) =>
      var deadline := if now + duration < U64_LIMIT then now + duration else U64_LIMIT - 1;
      && g'.count == g.count + 1
      && g' == g.(count := g'.count, proposals := g.proposals[g'.count := G.Proposal(rate, who, now, deadline, 0, 0, false, false)])
    case Vote(voter, id, support) =>
      var p, p', share := g.proposals[id], if id in g'.proposals then g'.proposals[id] else g.proposals[id],
                          s.registry.shareMap.value[voter];
      && g'.proposals == g.proposals[id := p']
      && (if support then p' == p.(yesWeight := p'.yesWeight) && Raised(p.yesWeight, share, p'.yesWeight)
          else p' == p.(noWeight := p'.noWeight) && Raised(p.noWeight, share, p'.noWeight))
    case ExecuteProposal(id) =>
      var p := g.proposals[id];
      if p.yesWeight > 5_000 && p.yesWeight > p.noWeight then
        && Appended(g.history, g'.history, G.RateChange(g.rate, p.newRate, now, p.proposer))
        && g' == g.(rate := p.newRate, history := g'.history, proposals := g.proposals[id := p.(executed := true)])
      else g' == g.(proposals := g.proposals[id := p.(rejected := true)])
  }

  /** x grew by y, or as far as u32 goes. */
  ghost predicate Raised(x: int, y: int, x': int) {
    x' == if x + y < U32_LIMIT then x + y else U32_LIMIT - 1
  }

  lemma GovRule(s: State, st: Step)
    requires Inv(s) && IsGovCall(st.call)
    ensures Exec(s, st).Ok? <==> GovAllows(s, st)
    ensures Exec(s, st).Ok? ==> GovWrites(s, st, Apply(s, st))
  {
    SignaturesMean(s.admins, st.env.signers);
    hide AdminSigned, AdminsHaveSigned, RegistryInv, MoneyInv, DisputesInv, G.GovInv;
    match st.call
    case SetRoyaltyRate(_) => if AdminsHaveSigned(s.admins, st.env.signers) { SignedHaveAdmin(s, st.env.signers); }
    case ProposeRateChange(_, _, _) => hide Appended, Raised;
    case Vote(_, id, _) =>
      VoteRule(s, st);
      hide G.VoteOp, Raised, Appended;
    case ExecuteProposal(_) => hide Raised;
  }

  lemma SignedHaveAdmin(s: State, signers: set<Address>)
    requires Inv(s) && AdminsHaveSigned(s.admins, signers)
    ensures s.admins.admin.Some?
  {
  }

  lemma VoteRule(s: State, st: Step)
    requires st.call.Vote?
    ensures Exec(s, st).Ok? <==> GovAllows(s, st)
    ensures Exec(s, st).Ok? ==> GovWrites(s, st, Apply(s, st))
  {
    hide Appended;
  }

  // ----- Treasury -----

  ghost predicate RoomFor(l: Balances, token: Address, from: Address, to: Address, amount: int, refusing: set<Address>) {
    to !in refusing && amount <= Bal(l, token, from) && (from == to || Bal(l, token, to) + amount <= I128_MAX)
  }

  ghost predicate TreasuryAllows(s: State, st: Step)
    requires st.call.RecordSecondaryRoyalty? || st.call.Withdraw? || st.call.SetApprovedTokens?
  {
    var t := s.treasury;
    match st.call
    case RecordSecondaryRoyalty(token, from, amount) =>
      && from in st.env.signers && amount > 0 && (t.approved == [] || token in t.approved)
      && RoomFor(t.ledger, token, from, SELF, amount, st.env.refusing) && t.pool + amount <= I128_MAX
    case Withdraw(token, amount) =>
      && AdminsHaveSigned(s.admins, st.env.signers) && amount > 0
      && s.admins.admin.Some? && RoomFor(t.ledger, token, SELF, s.admins.admin.value, amount, st.env.refusing)
    case SetApprovedTokens(tokens) => AdminsHaveSigned(s.admins, st.env.signers) && |tokens| <= 25 && Distinct(tokens)
  }

  ghost predicate TreasuryWrites(s: State, st: Step, s': State)
    requires st.call.RecordSecondaryRoyalty? || st.call.Withdraw? || st.call.SetApprovedTokens?
  {
    var t, t' := s.treasury, s'.treasury;
    match st.call
    case RecordSecondaryRoyalty(token, from, amount) =>
      && t'.pool == t.pool + amount && t' == t.(ledger := t'.ledger, pool := t'.pool, poolToken := Some(token))
      && Moved(t.ledger, t'.ledger, token, from, SELF, amount)
    case Withdraw(token, amount) =>
      && t' == t.(ledger := t'.ledger)
      && s.admins.admin.Some? && Moved(t.ledger, t'.ledger, token, SELF, s.admins.admin.value, amount)
    case SetApprovedTokens(tokens) => t' == t.(approved := tokens)
  }

  /** The amount moved between these two balances, and nothing else did. */
  ghost predicate Moved(l: Balances, l': Balances, token: Address, from: Address, to: Address, amount: int) {
    forall t, who :: Bal(l', t, who) ==
      Bal(l, t, who) - (if t == token && who == from then amount else 0) + (if t == token && who == to then amount else 0)
  }

  lemma TransferMeans(l: Balances, token: Address, from: Address, to: Address, amount: int, refusing: set<Address>)
    requires amount > 0
    ensures Transfer(l, token, from, to, amount, refusing).Some? <==> RoomFor(l, token, from, to, amount, refusing)
    ensures RoomFor(l, token, from, to, amount, refusing) ==>
              Moved(l, Transfer(l, token, from, to, amount, refusing).value, token, from, to, amount)
  {
  }

  lemma TreasuryRule(s: State, st: Step)
    requires Inv(s) && (st.call.RecordSecondaryRoyalty? || st.call.Withdraw? || st.call.SetApprovedTokens?)
    ensures Exec(s, st).Ok? <==> TreasuryAllows(s, st)
    ensures Exec(s, st).Ok? ==> TreasuryWrites(s, st, Apply(s, st))
  {
    SignaturesMean(s.admins, st.env.signers);
    hide Inv, AdminsHaveSigned, AdminSigned;
    var l, refusing := s.treasury.ledger, st.env.refusing;
    match st.call
    case RecordSecondaryRoyalty(token, from, amount) =>
      if amount > 0 { TransferMeans(l, token, from, SELF, amount, refusing); }
      hide Transfer, Moved, RoomFor;
    case Withdraw(token, amount) =>
      if s.admins.admin.Some? && amount > 0 { TransferMeans(l, token, SELF, s.admins.admin.value, amount, refusing); }
      hide Transfer, Moved;
    case SetApprovedTokens(_) =>
  }

  // ----- Disputes -----

  ghost predicate DisputeAllows(s: State, st: Step)
    requires st.call.RecordDispute? || st.call.ResolveDispute?
  {
    match st.call
    case RecordDispute(_, amount) => AdminsHaveSigned(s.admins, st.env.signers) && amount > 0 && s.disputes.count + 1 < U64_LIMIT
    case ResolveDispute(id) =>
      AdminsHaveSigned(s.admins, st.env.signers) && id in s.disputes.items && s.disputes.items[id].status == Open
  }

  /** A dispute is recorded under the next id, open, with what the call said and who the admin was. */
  lemma DisputeRule(s: State, st: Step)
    requires Inv(s) && (st.call.RecordDispute? || st.call.ResolveDispute?)
    ensures Exec(s, st).Ok? <==> DisputeAllows(s, st)
    ensures Exec(s, st).Ok? && st.call.RecordDispute? ==>
              var d, d', id := s.disputes, Apply(s, st).disputes, s.disputes.count + 1;
              && s.admins.admin.Some? && d'.count == id
              && d'.items == d.items[id := Dispute(st.call.transactionId, st.call.disputed, Open, s.admins.admin.value, st.env.now, 0)]
  {
    SignaturesMean(s.admins, st.env.signers);
    hide AdminSigned, RegistryInv, MoneyInv, G.GovInv;
  }

  /** What one holder sent in a clawback. */
  ghost function Sent(sources: seq<Address>, amounts: seq<int>, who: Address): int
    requires |sources| == |amounts|
  {
    if sources == [] then 0
    else
      var k := |sources| - 1;
      Sent(sources[..k], amounts[..k], who) + if sources[k] == who then amounts[k] else 0
  }

  /** A clawback takes each amount from its source to the contract, and moves no other token. */
  lemma {:induction false} ClawedBack(l: Balances, e: Env, token: Address, sources: seq<Address>, amounts: seq<int>)
    requires |sources| == |amounts| && ClawAll(l, e, token, sources, amounts).Ok? && SELF !in sources
    ensures var l' := ClawAll(l, e, token, sources, amounts).value;
      && Bal(l', token, SELF) == Bal(l, token, SELF) + Sum(amounts)
      && (forall who :: who != SELF ==> Bal(l', token, who) == Bal(l, token, who) - Sent(sources, amounts, who))
      && (forall t, who :: t != token ==> Bal(l', t, who) == Bal(l, t, who))
  {
    if sources != [] {
      var k := |sources| - 1;
      assert sources[k] != SELF && SELF !in sources[..k];
      ClawedBack(l, e, token, sources[..k], amounts[..k]);
      TransferEffect(ClawAll(l, e, token, sources[..k], amounts[..k]).value, token, sources[k], SELF, amounts[k], e.refusing);
      hide Transfer, Bal;
    }
  }

  lemma ClawbackRule(s: State, st: Step)
    requires st.call.Clawback? && Exec(s, st).Ok? && SELF !in st.call.sources
    ensures |st.call.sources| == |st.call.amounts| <= 10
    ensures forall i :: 0 <= i < |st.call.amounts| ==> st.call.amounts[i] > 0 && st.call.sources[i] in st.env.signers
    ensures st.call.id in s.disputes.items && s.disputes.items[st.call.id].status == Open
    ensures var l, l', c := s.treasury.ledger, Apply(s, st).treasury.ledger, st.call;
      && Bal(l', c.token, SELF) == Bal(l, c.token, SELF) + Sum(c.amounts)
      && (forall who :: who != SELF ==> Bal(l', c.token, who) == Bal(l, c.token, who) - Sent(c.sources, c.amounts, who))
      && (forall t, who :: t != c.token ==> Bal(l', t, who) == Bal(l, t, who))
  {
    hide AdminSigned;
    SourcesSigned(s.treasury.ledger, st.env, st.call.token, st.call.sources, st.call.amounts);
    ClawedBack(s.treasury.ledger, st.env, st.call.token, st.call.sources, st.call.amounts);
    hide ClawAll, Sent, Sum;
  }

  // ----- What is reported -----

  /** Votes and executions report the first of: no signature, no such collaborator, no such proposal, a
      settled one, a wrong time, a second vote. */
  lemma VotesReport(s: State, st: Step)
    requires (st.call.Vote? && s.registry.shareMap.Some?) || st.call.ExecuteProposal?
    ensures var c, g, now, e := st.call, s.gov, st.env.now, Exec(s, st);
      var entitled := c.Vote? ==> c.voter in st.env.signers && c.voter in s.registry.shareMap.value;
      && (c.Vote? && c.voter !in st.env.signers ==> e == Err(HostPanic))
      && (c.Vote? && c.voter in st.env.signers && !entitled ==> e == Err(CollaboratorNotFound))
      && (entitled && c.id !in g.proposals ==> e == Err(ProposalNotFound))
      && (entitled && c.id in g.proposals ==>
            var p := g.proposals[c.id];
            && (p.executed || p.rejected ==> e == Err(ProposalAlreadyExecuted))
            && (!p.executed && !p.rejected && c.Vote? && now >= p.deadline ==> e == Err(ProposalVotingClosed))
            && (!p.executed && !p.rejected && c.ExecuteProposal? && now < p.deadline ==> e == Err(ProposalStillOpen))
            && (!p.executed && !p.rejected && c.Vote? && now < p.deadline && c.id in g.votes && c.voter in g.votes[c.id] ==>
                  e == Err(AlreadyVoted)))
  {
  }

  /** Settling a dispute reports a missing one or a settled one; signed calls report unusable amounts,
      lists and tokens by name. */
  lemma SignedCallsReport(s: State, st: Step)
    requires Inv(s) && AdminsHaveSigned(s.admins, st.env.signers)
    ensures var c, e := st.call, Exec(s, st);
      && (c.ResolveDispute? && c.id !in s.disputes.items ==> e == Err(DisputeNotFound))
      && (c.ResolveDispute? && c.id in s.disputes.items && s.disputes.items[c.id].status != Open ==> e == Err(DisputeAlreadyResolved))
      && (c.RecordDispute? && c.disputed <= 0 ==> e == Err(AmountNotPositive))
      && (c.Withdraw? && c.amount <= 0 ==> e == Err(AmountNotPositive))
      && (c.Withdraw? && c.amount > 0 && c.amount > Bal(s.treasury.ledger, c.token, SELF) ==> e == Err(InsufficientBalance))
      && (c.SetApprovedTokens? && |c.tokens| > 25 ==> e == Err(InputTooLarge))
      && (c.SetApprovedTokens? && |c.tokens| <= 25 && !Distinct(c.tokens) ==> e == Err(DuplicateRecipient))
      && (c.SetAdmins? && |c.list| > 10 ==> e == Err(InputTooLarge))
      && (c.SetRoyaltyRate? && c.newRate == 0 ==> e == Err(RoyaltyRateZero))
      && (c.SetRoyaltyRate? && c.newRate > 10_000 ==> e == Err(RoyaltyRateTooHigh))
      && (c.Clawback? && |c.sources| != |c.amounts| ==> e == Err(LengthMismatch))
      && (c.UpdateShare? && s.registry.shareMap.Some? ==>
            && (c.collaborator !in s.registry.shareMap.value ==> e == Err(CollaboratorNotFound)))
  {
    SignaturesMean(s.admins, st.env.signers);
    SignedHaveAdmin(s, st.env.signers);
    hide Inv, AdminsHaveSigned, AdminSigned;
    if IsRegistryCall(st.call) {
      hide SetRecipientsOp, SetDefaultsOp, InitializeValidatedOp, MapTotal, ExecTreasury, ExecDisputes, ExecAdmin, ExecGov;
    } else if IsTreasuryCall(st.call) {
      hide RecordOp, SecondaryOp, OutsideOp, ExecRegistry, ExecDisputes, ExecAdmin, ExecGov;
    } else if IsDisputeCall(st.call) {
      hide ExecRegistry, ExecTreasury, ExecAdmin, ExecGov, ClawAll;
    } else {
      hide ExecRegistry, ExecTreasury, ExecDisputes;
    }
  }

  /** A royalty reports an amount that is not positive, then a token that is not whitelisted. */
  lemma RoyaltiesReport(s: State, st: Step)
    requires st.call.RecordSecondaryRoyalty? && st.call.from in st.env.signers
    ensures st.call.amount <= 0 ==> Exec(s, st) == Err(RoyaltyAmountNotPositive)
    ensures st.call.amount > 0 && s.treasury.approved != [] && st.call.token !in s.treasury.approved ==>
              Exec(s, st) == Err(TokenNotApproved)
  {
  }
}
