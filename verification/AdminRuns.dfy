/** Who holds the contract over whole runs: how the admin and the switches change. */
module AdminRuns {
  import opened Types
  import opened AdminControl
  import opened ContractState
  import opened ContractInvariant
  import opened Recipients
  import opened PayoutEffects

  /** The step makes `who` the admin in one of the four ways there are: an initialization signed by the
      first collaborator, a transfer signed by a present admin without a list, an acceptance signed by
      the named successor, or a rotation whose timelock has run. */
  ghost predicate Installs(s: State, st: Step, who: Address) {
    && Exec(s, st).Ok?
    && match st.call
       case Initialize(cs, _) => s.admins.admin.None? && cs != [] && who == cs[0] && who in st.env.signers
       case RevealInitialize(cs, _, _) => s.admins.admin.None? && cs != [] && who == cs[0] && who in st.env.signers
       case AdminTransfer(newAdmin) =>
         who == newAdmin && s.admins.list == [] && s.admins.admin.Some? && s.admins.admin.value in st.env.signers
       case AcceptAdmin => s.admins.proposed == Some(who) && who in st.env.signers
       case FinalizeAdminRotation =>
         && s.admins.rotation.Some? && who == s.admins.rotation.value.newAdmin
         && st.env.now >= s.admins.rotation.value.initiatedAt + TimelockOf(s.admins)
       case _ => false
  }

  /** No other step changes the admin. */
  lemma AdminStep(s: State, st: Step)
    ensures Apply(s, st).admins.admin == s.admins.admin
            || (Apply(s, st).admins.admin.Some? && Installs(s, st, Apply(s, st).admins.admin.value))
  {
    if Initializes(st.call) {
    } else if IsAdminCall(st.call) {
      AdminCallStep(s, st);
    } else {
      OtherCallsKeepAdmins(s, st);
    }
  }

  lemma AdminCallStep(s: State, st: Step)
    requires IsAdminCall(st.call)
    ensures Apply(s, st).admins.admin == s.admins.admin
            || (Apply(s, st).admins.admin.Some? && Installs(s, st, Apply(s, st).admins.admin.value))
  {
  }

  lemma OtherCallsKeepAdmins(s: State, st: Step)
    requires !IsAdminCall(st.call) && !Initializes(st.call)
    ensures Apply(s, st).admins == s.admins
  {
    hide Exec;
    StepFrame(s, st);
  }

  /** In every reachable state, the admin was made so by one of the four kinds of step, and has been
      the admin ever since. */
  lemma {:induction false} AdminOrigin(states: seq<State>, steps: seq<Step>, k: nat) returns (j: nat)
    requires IsRunFromDeployment(states, steps) && k < |states| && states[k].admins.admin.Some?
    ensures j < k && Installs(states[j], steps[j], states[k].admins.admin.value)
    ensures forall i :: j < i <= k ==> states[i].admins.admin == states[k].admins.admin
  {
    hide Exec, Installs;
    assert k > 0;
    AdminStep(states[k - 1], steps[k - 1]);
    if states[k - 1].admins.admin == states[k].admins.admin {
      j := AdminOrigin(states, steps, k - 1);
    } else {
      j := k - 1;
    }
  }

  /** Step i successfully names a successor or is an acceptance. */
  ghost predicate SuccessionStep(states: seq<State>, steps: seq<Step>, i: nat)
    requires IsRun(states, steps) && i < |steps|
  {
    (steps[i].call.ProposeAdminTransfer? || steps[i].call.AcceptAdmin?) && Exec(states[i], steps[i]).Ok?
  }

  lemma ProposedStep(s: State, st: Step)
    ensures var p, p' := s.admins.proposed, Apply(s, st).admins.proposed;
      if st.call.ProposeAdminTransfer? && Exec(s, st).Ok?
      then p' == Some(st.call.newAdmin) && AdminSigned(s.admins, st.env.signers)
      else if st.call.AcceptAdmin? && Exec(s, st).Ok? then p'.None?
      else p' == p
  {
    if !IsAdminCall(st.call) {
      hide Exec;
      StepFrame(s, st);
    }
  }

  /** A successor waiting to accept was named by the latest succession step, signed by the admins of
      that time; so nobody takes over by acceptance without having been named last. */
  lemma {:induction false} SuccessorWasNamed(states: seq<State>, steps: seq<Step>, k: nat) returns (j: nat)
    requires IsRunFromDeployment(states, steps) && k < |states| && states[k].admins.proposed.Some?
    ensures j < k && SuccessionStep(states, steps, j)
    ensures steps[j].call == ProposeAdminTransfer(states[k].admins.proposed.value)
    ensures AdminSigned(states[j].admins, steps[j].env.signers)
    ensures forall i :: j < i < k ==> !SuccessionStep(states, steps, i)
  {
    hide Exec, AdminSigned;
    assert k > 0;
    ProposedStep(states[k - 1], steps[k - 1]);
    if SuccessionStep(states, steps, k - 1) {
      j := k - 1;
    } else {
      j := SuccessorWasNamed(states, steps, k - 1);
    }
  }

  // ----- Switches -----

  predicate IsSwitchCall(c: Call) {
    || c.SetPaused? || c.SetAnomalyThreshold? || c.ClearAnomalyThreshold? || c.TriggerEmergencyPause?
    || c.ClearEmergencyPause? || c.SetIncentivesEnabled? || c.DistributeSecondary?
  }

  /** How a step may change the pauses and the incentives switch: each answers to its own call and the
      admins' signatures; the emergency pause is also set by a payment above the threshold, and lifted
      only by all the admins. */
  ghost predicate SwitchesAnswer(s: State, st: Step, s': State) {
    var p, p', signed := s.pauses, s'.pauses, Exec(s, st).Ok? && AdminSigned(s.admins, st.env.signers);
    && (p'.global != p.global ==> signed && st.call == SetPaused(Global, p'.global))
    && (p'.primary != p.primary ==> signed && st.call == SetPaused(Primary, p'.primary))
    && (p'.secondary != p.secondary ==> signed && st.call == SetPaused(Secondary, p'.secondary))
    && (p'.emergency && !p.emergency ==>
          signed && (st.call.TriggerEmergencyPause? || (p.anomaly.Some? && (IsPrimaryPayment(st.call) || st.call.DistributeSecondary?))))
    && (p.emergency && !p'.emergency ==> st.call.ClearEmergencyPause? && AllAdminsSigned(s.admins, st.env.signers))
    && (s'.registry.incentives != s.registry.incentives ==> signed && st.call == SetIncentivesEnabled(s'.registry.incentives))
  }

  lemma SwitchesNeedSignatures(s: State, st: Step)
    ensures SwitchesAnswer(s, st, Apply(s, st))
  {
    if IsPrimaryPayment(st.call) {
      PaymentsOnlyTrip(s, st);
    } else if IsSwitchCall(st.call) {
      SwitchStep(s, st);
    } else {
      hide Exec;
      SwitchesUntouched(s, st);
    }
  }

  lemma SwitchStep(s: State, st: Step)
    requires IsSwitchCall(st.call)
    ensures SwitchesAnswer(s, st, Apply(s, st))
  {
    hide AdminSigned, AllAdminsSigned, MapTotal;
  }

  lemma SwitchesUntouched(s: State, st: Step)
    requires !IsPrimaryPayment(st.call) && !IsSwitchCall(st.call)
    ensures Apply(s, st).pauses == s.pauses && Apply(s, st).registry.incentives == s.registry.incentives
  {
    hide Exec;
    StepFrame(s, st);
  }

  lemma PaymentsOnlyTrip(s: State, st: Step)
    requires IsPrimaryPayment(st.call)
    ensures Apply(s, st).registry == s.registry
    ensures var p, p' := s.pauses, Apply(s, st).pauses;
      && p' == p.(emergency := p'.emergency) && (p.emergency ==> p'.emergency)
      && (p' != p ==> Exec(s, st).Ok? && AdminSigned(s.admins, st.env.signers) && p.anomaly.Some?)
  {
    hide AdminSigned, PayBalance, IncentiveRecipients;
    if st.call.BatchDistribute? {
      var rs := Effective(s.registry, []);
      if rs.Some? && rs.value != [] && BatchRun(s.treasury.ledger, s.pauses, rs.value, st.call.tokens, st.env.refusing).Tripped? {
        TrippedPrefix(s.treasury.ledger, s.pauses, rs.value, st.call.tokens, st.env.refusing);
      }
    }
  }
}
