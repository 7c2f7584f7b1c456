/** Disputes over whole runs of the contract. */
module DisputeRuns {
  import opened Types
  import opened ContractState
  import opened ContractInvariant

  predicate Settles(c: Call, id: u64) {
    (c.ResolveDispute? && c.id == id) || (c.Clawback? && c.id == id)
  }

  /** A step changes a recorded dispute only by settling it while it is open: its outcome and time are
      those of the call, and what it is about stays. */
  lemma DisputeStep(s: State, st: Step, id: u64)
    requires DisputesInv(s.disputes) && id in s.disputes.items
    ensures id in Apply(s, st).disputes.items
    ensures var d, d' := s.disputes.items[id], Apply(s, st).disputes.items[id];
      if Settles(st.call, id) && Exec(s, st).Ok?
      then d.status == Open
           && d' == d.(status := if st.call.Clawback? then ClawedBack else DisputeStatus.Resolved, resolvedAt := st.env.now)
      else d' == d
  {
    if !(st.call.RecordDispute? || st.call.ResolveDispute? || st.call.Clawback?) {
      hide Exec;
      StepFrame(s, st);
    } else {
      DisputeCallStep(s, st, id);
    }
  }

  lemma DisputeCallStep(s: State, st: Step, id: u64)
    requires DisputesInv(s.disputes) && id in s.disputes.items
    requires st.call.RecordDispute? || st.call.ResolveDispute? || st.call.Clawback?
    ensures id in Apply(s, st).disputes.items
    ensures var d, d' := s.disputes.items[id], Apply(s, st).disputes.items[id];
      if Settles(st.call, id) && Exec(s, st).Ok?
      then d.status == Open
           && d' == d.(status := if st.call.Clawback? then ClawedBack else DisputeStatus.Resolved, resolvedAt := st.env.now)
      else d' == d
  {
    hide ClawAll;
  }

  /** A recorded dispute stays recorded, what it is about never changes, and once settled it stays as it is. */
  lemma {:induction false} SettledForGood(states: seq<State>, steps: seq<Step>, i: nat, j: nat, id: u64)
    requires IsRunFromDeployment(states, steps) && i <= j < |states| && id in states[i].disputes.items
    ensures id in states[j].disputes.items
    ensures states[i].disputes.items[id].status != Open ==> states[j].disputes.items[id] == states[i].disputes.items[id]
    ensures var d, d' := states[i].disputes.items[id], states[j].disputes.items[id];
      d' == d.(status := d'.status, resolvedAt := d'.resolvedAt)
  {
    hide Exec, Inv, DisputesInv, Settles;
    if i < j {
      SettledForGood(states, steps, i, j - 1, id);
      ReachableDisputes(states, steps, j - 1);
      DisputeStep(states[j - 1], steps[j - 1], id);
    }
  }

  /** Once a call has settled a dispute, every later call that would settle it fails. */
  lemma SettledAtMostOnce(states: seq<State>, steps: seq<Step>, i: nat, j: nat, id: u64)
    requires IsRunFromDeployment(states, steps) && i < j < |steps|
    requires Settles(steps[i].call, id) && Exec(states[i], steps[i]).Ok? && Settles(steps[j].call, id)
    ensures Exec(states[j], steps[j]).Err?
  {
    SettlesRecorded(states[i], steps[i], id);
    hide Exec, Inv, DisputesInv, Settles;
    ReachableDisputes(states, steps, i);
    DisputeStep(states[i], steps[i], id);
    SettledForGood(states, steps, i + 1, j, id);
    ReachableDisputes(states, steps, j);
    DisputeStep(states[j], steps[j], id);
  }

  lemma SettlesRecorded(s: State, st: Step, id: u64)
    requires Settles(st.call, id) && Exec(s, st).Ok?
    ensures id in s.disputes.items
  {
    hide ClawAll;
  }

  lemma ReachableDisputes(states: seq<State>, steps: seq<Step>, i: nat)
    requires IsRunFromDeployment(states, steps) && i < |states|
    ensures DisputesInv(states[i].disputes)
  {
    ReachableInv(states, steps, i);
  }
}
