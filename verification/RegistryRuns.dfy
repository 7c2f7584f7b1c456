/** What incentives are computed from, over whole runs: join dates and activity counts. */
module RegistryRuns {
  import opened Types
  import opened Recipients
  import opened AdminControl
  import opened ContractState
  import opened ContractInvariant

  /** The call writes a list of collaborators with `who` on it. */
  predicate Lists(c: Call, who: Address) {
    match c
    case Initialize(cs, _) => who in cs
    case RevealInitialize(cs, _, _) => who in cs
    case SetRecipients(rs) => exists i :: 0 <= i < |rs| && rs[i].address == who
    case _ => false
  }

  /** Step i successfully lists `who`. */
  ghost predicate ListedAt(states: seq<State>, steps: seq<Step>, i: nat, who: Address)
    requires IsRun(states, steps) && i < |steps|
  {
    Lists(steps[i].call, who) && Exec(states[i], steps[i]).Ok?
  }

  /** Before there is an admin, nobody has joined. */
  ghost predicate JoinsInv(s: State) {
    s.admins.admin.None? ==> s.registry.joined == map[]
  }

  /** A step dates exactly those it lists for the first time, with its own time, and keeps every date. */
  lemma JoinStep(s: State, st: Step, who: Address)
    requires JoinsInv(s) && (s.admins.list != [] ==> s.admins.admin.Some?)
    ensures JoinsInv(Apply(s, st))
    ensures var j, j' := s.registry.joined, Apply(s, st).registry.joined;
      && (who in j' <==> who in j || (Lists(st.call, who) && Exec(s, st).Ok?))
      && (who in j' ==> j'[who] == if who in j then j[who] else st.env.now)
  {
    AdminStaysSet(s, st);
    if IsRegistryCall(st.call) {
      JoinCallStep(s, st, who);
    } else {
      hide Exec;
      StepFrame(s, st);
    }
  }

  lemma JoinCallStep(s: State, st: Step, who: Address)
    requires JoinsInv(s) && (s.admins.list != [] ==> s.admins.admin.Some?) && IsRegistryCall(st.call)
    ensures Apply(s, st).admins.admin.None? ==> Apply(s, st).registry.joined == s.registry.joined
    ensures var j, j' := s.registry.joined, Apply(s, st).registry.joined;
      && (who in j' <==> who in j || (Lists(st.call, who) && Exec(s, st).Ok?))
      && (who in j' ==> j'[who] == if who in j then j[who] else st.env.now)
  {
    hide ToMap, InitDefect, Defect, MapTotal;
    if st.call.SetRecipients? {
      assert forall i :: 0 <= i < |st.call.recipients| ==> Addresses(st.call.recipients)[i] == st.call.recipients[i].address;
    }
  }

  lemma ReachableList(states: seq<State>, steps: seq<Step>, k: nat)
    requires IsRunFromDeployment(states, steps) && k < |states|
    ensures states[k].admins.list != [] ==> states[k].admins.admin.Some?
  {
    ReachableInv(states, steps, k);
  }

  lemma {:induction false} ReachableJoins(states: seq<State>, steps: seq<Step>, k: nat)
    requires IsRunFromDeployment(states, steps) && k < |states|
    ensures JoinsInv(states[k])
  {
    hide Exec;
    if k > 0 {
      ReachableJoins(states, steps, k - 1);
      ReachableList(states, steps, k - 1);
      JoinStep(states[k - 1], steps[k - 1], 0);
    }
  }

  /** Somebody has a join date exactly when some step has listed it, and the date is the time of the
      first step that did. */
  lemma {:induction false} JoinedWhenFirstListed(states: seq<State>, steps: seq<Step>, k: nat, who: Address)
    requires IsRunFromDeployment(states, steps) && k < |states|
    ensures who in states[k].registry.joined <==> exists i: nat :: i < k && ListedAt(states, steps, i, who)
    ensures who in states[k].registry.joined ==> exists i: nat ::
              && i < k && ListedAt(states, steps, i, who) && states[k].registry.joined[who] == steps[i].env.now
              && forall m: nat :: m < i ==> !ListedAt(states, steps, m, who)
  {
    hide Exec, Lists;
    if k > 0 {
      JoinedWhenFirstListed(states, steps, k - 1, who);
      ReachableJoins(states, steps, k - 1);
      ReachableList(states, steps, k - 1);
      JoinStep(states[k - 1], steps[k - 1], who);
      if ListedAt(states, steps, k - 1, who) && who !in states[k - 1].registry.joined {
        assert forall m: nat :: m < k - 1 ==> !ListedAt(states, steps, m, who);
      }
    }
  }

  // ----- Activity -----

  /** Step i records a royalty paid by `who` while it is a collaborator. */
  ghost predicate ActiveAt(s: State, st: Step, who: Address) {
    && st.call.RecordSecondaryRoyalty? && st.call.from == who && Exec(s, st).Ok?
    && s.registry.shareMap.Some? && who in s.registry.shareMap.value
  }

  ghost function Actions(states: seq<State>, steps: seq<Step>, who: Address, k: nat): nat
    requires IsRun(states, steps) && k <= |steps|
  {
    if k == 0 then 0
    else Actions(states, steps, who, k - 1) + if ActiveAt(states[k - 1], steps[k - 1], who) then 1 else 0
  }

  function ActivityOf(r: Registry, who: Address): int {
    if who in r.activity then r.activity[who] else 0
  }

  lemma ActivityStep(s: State, st: Step, who: Address)
    ensures ActivityOf(Apply(s, st).registry, who) ==
            if ActiveAt(s, st, who) && ActivityOf(s.registry, who) < 0xFFFF_FFFF then ActivityOf(s.registry, who) + 1
            else ActivityOf(s.registry, who)
  {
    if IsRegistryCall(st.call) {
      RegistryKeepsActivity(s, st);
    } else if IsTreasuryCall(st.call) {
      TreasuryActivity(s, st, who);
    } else {
      hide Exec;
      StepFrame(s, st);
    }
  }

  lemma RegistryKeepsActivity(s: State, st: Step)
    requires IsRegistryCall(st.call)
    ensures Apply(s, st).registry.activity == s.registry.activity
  {
    hide ToMap, JoinedAt, InitDefect, Defect, MapTotal, AdminSigned;
  }

  lemma TreasuryActivity(s: State, st: Step, who: Address)
    requires IsTreasuryCall(st.call)
    ensures ActivityOf(Apply(s, st).registry, who) ==
            if ActiveAt(s, st, who) && ActivityOf(s.registry, who) < 0xFFFF_FFFF then ActivityOf(s.registry, who) + 1
            else ActivityOf(s.registry, who)
  {
    hide PayOut, MapTotal, BaseRecipients, AdminSigned;
  }

  /** The activity count is the number of royalties recorded by a collaborator, up to the largest u32. */
  lemma {:induction false} ActivityCountsRoyalties(states: seq<State>, steps: seq<Step>, who: Address, k: nat)
    requires IsRunFromDeployment(states, steps) && k <= |steps|
    ensures var n := Actions(states, steps, who, k);
      ActivityOf(states[k].registry, who) == if n < 0xFFFF_FFFF then n else 0xFFFF_FFFF
  {
    hide Exec, ActiveAt;
    if k > 0 {
      ActivityCountsRoyalties(states, steps, who, k - 1);
      ActivityStep(states[k - 1], steps[k - 1], who);
    }
  }
}
