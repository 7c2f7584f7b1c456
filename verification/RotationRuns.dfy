/** The timelocked admin rotation over whole runs of the contract. */
module RotationRuns {
  import opened Types
  import opened AdminControl
  import opened ContractState
  import opened ContractInvariant

  predicate IsRotationCall(c: Call) {
    c.InitiateAdminRotation? || c.CancelAdminRotation? || c.FinalizeAdminRotation?
  }

  /** Step i is a successful initiate, cancel or finalize. */
  ghost predicate RotationStep(states: seq<State>, steps: seq<Step>, i: nat)
    requires IsRun(states, steps) && i < |steps|
  {
    IsRotationCall(steps[i].call) && Exec(states[i], steps[i]).Ok?
  }

  lemma RotationUntouched(s: State, st: Step)
    requires !IsRotationCall(st.call) || Exec(s, st).Err?
    ensures Apply(s, st).admins.rotation == s.admins.rotation
  {
    if !IsAdminCall(st.call) {
      hide Exec;
      StepFrame(s, st);
    }
  }

  lemma PendingAfterRotationStep(s: State, st: Step)
    requires IsRotationCall(st.call) && Exec(s, st).Ok? && Apply(s, st).admins.rotation.Some?
    ensures var r := Apply(s, st).admins.rotation.value;
      st.call == InitiateAdminRotation(r.newAdmin) && st.env.now == r.initiatedAt
  {
  }

  lemma Finalized(s: State, st: Step)
    requires st.call.FinalizeAdminRotation? && Exec(s, st).Ok?
    ensures var a, a' := s.admins, Apply(s, st).admins;
      && a.rotation.Some? && a'.admin == Some(a.rotation.value.newAdmin)
      && st.env.now - a.rotation.value.initiatedAt >= TimelockOf(a)
  {
  }

  /** A pending rotation was put there by the latest rotation step, an initiate of that admin at that time. */
  lemma {:induction false} PendingOrigin(states: seq<State>, steps: seq<Step>, k: nat) returns (j: nat)
    requires IsRunFromDeployment(states, steps) && k < |states| && states[k].admins.rotation.Some?
    ensures j < k && RotationStep(states, steps, j)
    ensures steps[j].call == InitiateAdminRotation(states[k].admins.rotation.value.newAdmin)
    ensures steps[j].env.now == states[k].admins.rotation.value.initiatedAt
    ensures forall i :: j < i < k ==> !RotationStep(states, steps, i)
  {
    hide Exec;
    assert k > 0;
    if RotationStep(states, steps, k - 1) {
      j := k - 1;
      PendingAfterRotationStep(states[j], steps[j]);
    } else {
      RotationUntouched(states[k - 1], steps[k - 1]);
      j := PendingOrigin(states, steps, k - 1);
    }
  }

  /** Whenever a rotation is finalized, the new admin was named by the latest rotation step before
      it, an initiate, at least the timelock now in force earlier, and so at least an hour. */
  lemma TimelockHolds(states: seq<State>, steps: seq<Step>, k: nat) returns (j: nat)
    requires IsRunFromDeployment(states, steps) && k < |steps|
    requires steps[k].call.FinalizeAdminRotation? && Exec(states[k], steps[k]).Ok?
    ensures j < k && RotationStep(states, steps, j)
    ensures states[k + 1].admins.admin.Some? && steps[j].call == InitiateAdminRotation(states[k + 1].admins.admin.value)
    ensures forall i :: j < i < k ==> !RotationStep(states, steps, i)
    ensures var lock := if states[k].admins.timelock.Some? then states[k].admins.timelock.value as int else 48 * 60 * 60;
      steps[k].env.now - steps[j].env.now >= lock >= 60 * 60
  {
    hide Exec;
    ReachableInv(states, steps, k);
    Finalized(states[k], steps[k]);
    j := PendingOrigin(states, steps, k);
  }
}
