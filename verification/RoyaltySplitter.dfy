/** The contract itself: its storage keys as fields, its entry points as methods that read and
    overwrite them, and the host's rollback around each invocation. */
module RoyaltySplitter {
  import opened Types
  import opened Split
  import opened Ledger
  import opened Recipients
  import opened Incentives
  import opened AdminControl
  import opened ContractState
  import opened ContractInvariant
  import opened PayLists
  import G = Governance

  /** A method that returns Ok has made the state what the specification says; one that returns Err
      returns the specified error, and leaves the state for the host to roll back. */
  ghost predicate Meets(spec: Result<State>, r: Result<()>, after: State) {
    match spec
    case Ok(s) => r == Ok(()) && after == s
    case Err(x) => r == Err(x)
  }

  /** The list returned by a best-effort distribution: the payments whose transfer failed. */
  ghost predicate NotPaid(s: State, e: Env, token: Address, override: seq<Recipient>, failed: seq<Payment>) {
    var rs := Effective(s.registry, override);
    rs.Some? && rs.value != []
    && failed == TryPayAll(s.treasury.ledger, token, Payments(Bal(s.treasury.ledger, token, SELF), rs.value), e.refusing).failed
  }

  class Contract {
    var registry: Registry
    var admins: Admins
    var pauses: Pauses
    var treasury: Treasury
    var gov: G.Gov
    var disputes: Disputes

    function View(): State
      reads this
    {
      State(registry, admins, pauses, treasury, gov, disputes)
    }

    ghost predicate Valid()
      reads this
    {
      Inv(View())
    }

    constructor (balances: Balances)
      ensures Valid() && Deployed(View()) && View().treasury.ledger == balances
    {
      registry := Registry(None, None, [], map[], map[], false);
      admins := Admins(None, [], 1, None, None, None);
      pauses := Pauses(false, false, false, false, None);
      treasury := Treasury(balances, 0, None, [], 0, None, None);
      gov := G.Gov(map[], map[], 0, 0, []);
      disputes := Disputes(map[], 0);
    }

    // ----- Authorization and pauses -----

    method CheckAdminAuth(signers: set<Address>) returns (ok: bool)
      ensures ok == AdminSigned(View().admins, signers)
    {
      if admins.list == [] { return admins.admin.Some? && admins.admin.value in signers; }
      for i := 0 to admins.threshold
        invariant i <= |admins.list| && forall j :: 0 <= j < i ==> admins.list[j] in signers
      {
        if i >= |admins.list| || admins.list[i] !in signers { return false; }
      }
      ok := true;
    }

    method CheckAllAdmins(signers: set<Address>) returns (ok: bool)
      ensures ok == AllAdminsSigned(View().admins, signers)
    {
      if admins.list == [] { return admins.admin.Some? && admins.admin.value in signers; }
      for i := 0 to |admins.list|
        invariant forall j :: 0 <= j < i ==> admins.list[j] in signers
      {
        if admins.list[i] !in signers { return false; }
      }
      ok := true;
    }

    method IsBlocked(secondary: bool) returns (b: bool)
      ensures b == Blocked(View().pauses, secondary)
    {
      if pauses.emergency || pauses.global { return true; }
      b := if secondary then pauses.secondary else pauses.primary;
    }

    method TripAnomalyPauseIfExceeded(amount: int) returns (tripped: bool)
      modifies this`pauses
      ensures tripped == Trips(old(View()).pauses, amount)
      ensures pauses == old(pauses).(emergency := tripped || old(pauses.emergency))
    {
      if pauses.anomaly.None? || amount <= pauses.anomaly.value { return false; }
      pauses := pauses.(emergency := true);
      tripped := true;
    }

    method IsTokenApproved(token: Address) returns (b: bool)
      ensures b == Approved(View().treasury, token)
    {
      if treasury.approved == [] { return true; }
      for i := 0 to |treasury.approved|
        invariant token !in treasury.approved[..i]
      {
        if treasury.approved[i] == token { return true; }
      }
      b := false;
    }

    // ----- Registry -----

    method WriteShares(recipients: seq<Recipient>)
      modifies this`registry
      ensures registry == old(registry).(collaborators := Some(Addresses(recipients)), shareMap := Some(ToMap(recipients)))
    {
      var list: seq<Address> := [];
      var shares: map<Address, u32> := map[];
      for i := 0 to |recipients|
        invariant list == Addresses(recipients)[..i] && shares == ToMap(recipients[..i])
      {
        assert recipients[..i + 1][..i] == recipients[..i];
        list := list + [recipients[i].address];
        shares := shares[recipients[i].address := recipients[i].share];
      }
      assert recipients[..|recipients|] == recipients;
      assert Addresses(recipients)[..|recipients|] == Addresses(recipients);
      registry := registry.(collaborators := Some(list), shareMap := Some(shares));
    }

    method RecordJoins(who: seq<Address>, now: u64)
      modifies this`registry
      ensures registry == old(registry).(joined := JoinedAt(old(registry.joined), who, now))
    {
      var dates := registry.joined;
      hide JoinedAt;
      JoinedNone(registry.joined, now);
      for i := 0 to |who|
        invariant registry == old(registry) && dates == JoinedAt(registry.joined, who[..i], now)
      {
        JoinedSnoc(registry.joined, who, i, now);
        if who[i] !in dates { dates := dates[who[i] := now]; }
      }
      assert who[..|who|] == who;
      registry := registry.(joined := dates);
    }

    method Initialize(now: u64, signers: set<Address>, cs: seq<Address>, shares: seq<u32>) returns (r: Result<()>)
      modifies this`registry, this`admins
      ensures Meets(InitializeOp(old(View()), now, signers, cs, shares), r, View())
    {
      hide InitializeValidatedOp;
      if admins.admin.Some? { return Err(AlreadyInitialized); }
      if cs == [] { return Err(EmptyCollaborators); }
      if |cs| > MAX_RECIPIENTS { return Err(TooManyRecipients); }
      if cs[0] !in signers { return Err(HostPanic); }
      r := InitializeValidated(now, cs, shares);
    }

    method RevealInitialize(now: u64, signers: set<Address>, cs: seq<Address>, shares: seq<u32>, opening: Opening)
      returns (r: Result<()>)
      modifies this`registry, this`admins
      ensures Meets(RevealInitializeOp(old(View()), now, signers, cs, shares, opening), r, View())
    {
      hide InitializeValidatedOp;
      if admins.admin.Some? { return Err(AlreadyInitialized); }
      if opening == NoCommitment { return Err(NoInitializationCommitment); }
      if opening == TooEarly { return Err(InitRevealTooEarly); }
      if opening == Mismatch { return Err(InitCommitmentMismatch); }
      if cs == [] { return Err(EmptyCollaborators); }
      if cs[0] !in signers { return Err(HostPanic); }
      r := InitializeValidated(now, cs, shares);
    }

    method InitializeValidated(now: u64, cs: seq<Address>, shares: seq<u32>) returns (r: Result<()>)
      modifies this`registry, this`admins
      ensures Meets(InitializeValidatedOp(old(View()), now, cs, shares), r, View())
    {
      if cs == [] { return Err(EmptyCollaborators); }
      if |cs| > MAX_RECIPIENTS { return Err(TooManyRecipients); }
      if |cs| != |shares| { return Err(LengthMismatch); }
      var total := 0;
      for i := 0 to |shares|
        invariant total == Sum(shares[..i]) && 0 <= total < U32_LIMIT
        invariant registry == old(registry) && admins == old(admins)
      {
        assert shares[..i + 1][..i] == shares[..i];
        SumPrefix(shares, i + 1);
        if total + shares[i] >= U32_LIMIT { return Err(ArithmeticOverflow); }
        total := total + shares[i];
      }
      assert shares[..|shares|] == shares;
      if total != 10_000 { return Err(InvalidShareTotal); }
      var defect := FirstInitDefect(cs, shares);
      if defect.Some? { return Err(defect.value); }
      assert Addresses(Zip(cs, shares)) == cs;
      WriteShares(Zip(cs, shares));
      registry := registry.(joined := map[]);
      RecordJoins(cs, now);
      admins := admins.(admin := Some(cs[0]));
      r := Ok(());
    }

    method FirstInitDefect(cs: seq<Address>, shares: seq<u32>) returns (r: Option<Error>)
      requires |cs| == |shares|
      ensures r == InitDefect(cs, shares)
    {
      for i := 0 to |cs|
        invariant InitDefect(cs[..i], shares[..i]).None?
      {
        assert cs[..i + 1][..i] == cs[..i] && shares[..i + 1][..i] == shares[..i];
        if shares[i] == 0 || cs[i] in cs[..i] {
          InitDefectStays(cs, shares, i + 1);
          return Some(if shares[i] == 0 then ZeroShare else DuplicateRecipient);
        }
      }
      assert cs[..|cs|] == cs && shares[..|cs|] == shares;
      r := None;
    }

    method SetRecipients(now: u64, signers: set<Address>, rs: seq<Recipient>) returns (r: Result<()>)
      modifies this`registry
      ensures Meets(SetRecipientsOp(old(View()), now, signers, rs), r, View())
    {
      var ok := CheckAdminAuth(signers);
      if !ok { return Err(HostPanic); }
      var defect := ValidateRecipientList(rs);
      if defect.Some? { return Err(defect.value); }
      WriteShares(rs);
      RecordJoins(registry.collaborators.value, now);
      r := Ok(());
    }

    method SetDefaultRecipients(signers: set<Address>, rs: seq<Recipient>) returns (r: Result<()>)
      modifies this`registry
      ensures Meets(SetDefaultsOp(old(View()), signers, rs), r, View())
    {
      var ok := CheckAdminAuth(signers);
      if !ok { return Err(HostPanic); }
      for i := 0 to |rs|
        invariant forall j :: 0 <= j < i ==> rs[j].share <= 10_000
      {
        if rs[i].share > 10_000 { return Err(InvalidBasisPoints); }
      }
      var defect := ValidateRecipientList(rs);
      if defect.Some? { return Err(defect.value); }
      registry := registry.(defaults := rs);
      r := Ok(());
    }

    method UpdateShare(signers: set<Address>, c: Address, newShare: u32) returns (r: Result<()>)
      modifies this`registry
      ensures Meets(UpdateShareOp(old(View()), signers, c, newShare), r, View())
    {
      var ok := CheckAdminAuth(signers);
      if !ok || registry.shareMap.None? { return Err(HostPanic); }
      if c !in registry.shareMap.value { return Err(CollaboratorNotFound); }
      var total := TotalShares(registry.shareMap.value);
      if total.Err? { return Err(total.error); }
      MapTotalRemove(registry.shareMap.value, c);
      MapTotalNonNegative(registry.shareMap.value - {c});
      assert total.value - registry.shareMap.value[c] >= 0;
      var newTotal := total.value - registry.shareMap.value[c] + newShare;
      if newTotal >= U32_LIMIT { return Err(ArithmeticOverflow); }
      if newTotal != 10_000 { return Err(InvalidUpdatedShareTotal); }
      if newShare == 0 { return Err(ZeroShare); }
      registry := registry.(shareMap := Some(registry.shareMap.value[c := newShare]));
      r := Ok(());
    }

    method GetRecipients() returns (rs: seq<Recipient>)
      ensures rs == BaseRecipients(View().registry)
    {
      var list := if registry.collaborators.Some? then registry.collaborators.value else [];
      var shares := if registry.shareMap.Some? then registry.shareMap.value else map[];
      rs := [];
      for i := 0 to |list|
        invariant rs == Stored(list, shares)[..i]
      {
        rs := rs + [Recipient(list[i], if list[i] in shares then shares[list[i]] else 0)];
      }
    }

    method CalculateIncentiveShares(now: u64) returns (rs: seq<Recipient>)
      requires Valid()
      ensures rs == IncentiveRecipients(View().registry, now)
      ensures registry.collaborators.Some? ==>
                exists base :: StoredAs(View().registry, base) && IncentiveList(View().registry, now, base, rs)
    {
      if registry.collaborators.Some? { ListSpelledOut(View(), now); }
      var base := GetRecipients();
      if !registry.incentives || base == [] { return base; }
      var raw: seq<u32> := [];
      for i := 0 to |base|
        invariant raw == Bonuses(base, registry.joined, registry.activity, now)[..i]
      {
        var a := base[i].address;
        raw := raw + [Bonus(if a in registry.joined then Some(registry.joined[a]) else None,
                            if a in registry.activity then registry.activity[a] else 0, now)];
      }
      assert raw == BonusList(View().registry, now);
      rs := Adjust(base, raw);
      SameRecipients(rs, IncentiveRecipients(View().registry, now));
    }

    // ----- Payments -----

    method Move(token: Address, from: Address, to: Address, amount: int, refusing: set<Address>) returns (ok: bool)
      modifies this`treasury
      ensures ok == Transfer(old(treasury.ledger), token, from, to, amount, refusing).Some?
      ensures treasury == if ok then old(treasury).(ledger := Transfer(old(treasury.ledger), token, from, to, amount, refusing).value)
                          else old(treasury)
    {
      var l := Transfer(treasury.ledger, token, from, to, amount, refusing);
      if l.Some? { treasury := treasury.(ledger := l.value); }
      ok := l.Some?;
    }

    /** The transfer loop after a split: the first failing transfer traps. */
    method TransferAll(token: Address, ps: seq<Payment>, refusing: set<Address>) returns (ok: bool)
      modifies this`treasury
      ensures ok == PayAll(old(treasury.ledger), token, ps, refusing).Some?
      ensures ok ==> treasury == old(treasury).(ledger := PayAll(old(treasury.ledger), token, ps, refusing).value)
    {
      for i := 0 to |ps|
        invariant PayAll(old(treasury.ledger), token, ps[..i], refusing) == Some(treasury.ledger)
        invariant treasury == old(treasury).(ledger := treasury.ledger)
      {
        assert ps[..i + 1][..i] == ps[..i];
        var sent := Move(token, SELF, ps[i].to, ps[i].amount, refusing);
        if !sent {
          PayAllStops(old(treasury.ledger), token, ps, refusing, i + 1);
          return false;
        }
      }
      assert ps[..|ps|] == ps;
      ok := true;
    }

    /** Split and pay; used by every distribution that stops at a failing transfer. */
    method SplitAndPay(token: Address, amount: Balance, rs: seq<Recipient>, refusing: set<Address>) returns (r: Result<()>)
      requires rs != [] && Sum(Shares(rs)) == 10_000
      modifies this`treasury
      ensures match PayOut(old(treasury.ledger), token, amount, rs, refusing)
              case Ok(l) => r == Ok(()) && treasury == old(treasury).(ledger := l)
              case Err(x) => r == Err(x)
    {
      var ps := ComputePayouts(amount, rs);
      if ps.Err? { return Err(ps.error); }
      var ok := TransferAll(token, ps.value, refusing);
      r := if ok then Ok(()) else Err(HostPanic);
    }

    method EffectiveRecipients(override: seq<Recipient>) returns (rs: Option<seq<Recipient>>)
      ensures rs == Effective(View().registry, override)
    {
      if override != [] { return Some(override); }
      if registry.defaults != [] { return Some(registry.defaults); }
      if registry.collaborators.None? || registry.shareMap.None? { return None; }
      var base := GetRecipients();
      rs := Some(base);
    }

    method CountDistributions(now: u64, n: nat)
      modifies this`treasury
      ensures treasury == Counted(old(treasury), old(treasury).ledger, now, n)
    {
      treasury := treasury.(lastDistribution := Some(now));
      treasury := treasury.(count := SaturatingAdd(treasury.count, n, U64_LIMIT));
    }

    method DistributeWithOverride(e: Env, token: Address, override: seq<Recipient>)
      returns (r: Result<()>)
      modifies this`treasury, this`pauses
      ensures Meets(DistributeOp(old(View()), e, token, override), r, View())
    {
      var ok := CheckAdminAuth(e.signers);
      if !ok { return Err(HostPanic); }
      if pauses.emergency { return Err(EmergencyContractPaused); }
      var blocked := IsBlocked(false);
      if blocked { return Err(ContractPaused); }
      var approved := IsTokenApproved(token);
      if !approved { return Err(TokenNotApproved); }
      var amount := Bal(treasury.ledger, token, SELF);
      if amount == 0 { return Err(Underfunded); }
      var tripped := TripAnomalyPauseIfExceeded(amount);
      if tripped { return Ok(()); }
      var rs := EffectiveRecipients(override);
      if rs.None? { return Err(HostPanic); }
      var defect := ValidateRecipientList(rs.value);
      if defect.Some? { return Err(defect.value); }
      if amount < |rs.value| { return Err(AmountTooSmall); }
      var paid := SplitAndPay(token, amount, rs.value, e.refusing);
      if paid.Err? { return Err(paid.error); }
      CountDistributions(e.now, 1);
      r := Ok(());
    }

    /** The best-effort transfer loop: a failing transfer is noted and skipped. */
    method TryTransferAll(token: Address, ps: seq<Payment>, refusing: set<Address>) returns (failed: seq<Payment>)
      modifies this`treasury
      ensures Attempt(treasury.ledger, failed) == TryPayAll(old(treasury.ledger), token, ps, refusing)
      ensures treasury == old(treasury).(ledger := treasury.ledger)
      ensures |failed| <= |ps|
    {
      failed := [];
      for i := 0 to |ps|
        invariant Attempt(treasury.ledger, failed) == TryPayAll(old(treasury.ledger), token, ps[..i], refusing) && |failed| <= i
        invariant treasury == old(treasury).(ledger := treasury.ledger)
      {
        assert ps[..i + 1][..i] == ps[..i];
        var sent := Move(token, SELF, ps[i].to, ps[i].amount, refusing);
        if !sent { failed := failed + [ps[i]]; }
      }
      assert ps[..|ps|] == ps;
    }

    method DistributeResilient(e: Env, token: Address, override: seq<Recipient>) returns (r: Result<()>, failed: seq<Payment>)
      modifies this`treasury
      ensures Meets(ResilientOp(old(View()), e, token, override), r, View())
      ensures r.Ok? ==> NotPaid(old(View()), e, token, override, failed)
    {
      failed := [];
      var ok := CheckAdminAuth(e.signers);
      if !ok { return Err(HostPanic), []; }
      var blocked := IsBlocked(false);
      if blocked { return Err(ContractPaused), []; }
      var amount := Bal(treasury.ledger, token, SELF);
      if amount == 0 { return Err(Underfunded), []; }
      var rs := EffectiveRecipients(override);
      if rs.None? { return Err(HostPanic), []; }
      var defect := ValidateRecipientList(rs.value);
      if defect.Some? { return Err(defect.value), []; }
      if amount < |rs.value| { return Err(AmountTooSmall), []; }
      var ps := ComputePayouts(amount, rs.value);
      if ps.Err? { return Err(ps.error), []; }
      failed := TryTransferAll(token, ps.value, e.refusing);
      if |failed| < |ps.value| { CountDistributions(e.now, 1); }
      r := Ok(());
    }

    method DistributeWithIncentives(e: Env, token: Address) returns (r: Result<()>)
      requires Valid()
      modifies this`treasury
      ensures Meets(IncentivesOp(old(View()), e, token), r, View())
    {
      var ok := CheckAdminAuth(e.signers);
      if !ok { return Err(HostPanic); }
      var rs := CalculateIncentiveShares(e.now);
      r := ExecuteDistribution(e.now, e.refusing, token, rs);
    }

    method ExecuteDistribution(now: u64, refusing: set<Address>, token: Address, rs: seq<Recipient>) returns (r: Result<()>)
      modifies this`treasury
      ensures var s := old(View());
        if Blocked(s.pauses, false) then r == Err(ContractPaused)
        else if Bal(s.treasury.ledger, token, SELF) == 0 then r == Err(Underfunded)
        else match PayBalance(s.treasury, token, rs, now, refusing)
             case Ok(t) => r == Ok(()) && View() == s.(treasury := t)
             case Err(x) => r == Err(x)
    {
      var blocked := IsBlocked(false);
      if blocked { return Err(ContractPaused); }
      var amount := Bal(treasury.ledger, token, SELF);
      if amount == 0 { return Err(Underfunded); }
      var defect := ValidateRecipientList(rs);
      if defect.Some? { return Err(defect.value); }
      if amount < |rs| { return Err(AmountTooSmall); }
      var paid := SplitAndPay(token, amount, rs, refusing);
      if paid.Err? { return Err(paid.error); }
      CountDistributions(now, 1);
      r := Ok(());
    }

    method BatchDistribute(e: Env, tokens: seq<Address>) returns (r: Result<()>)
      modifies this`treasury, this`pauses
      ensures Meets(BatchOp(old(View()), e, tokens), r, View())
    {
      var ok := CheckAdminAuth(e.signers);
      if !ok { return Err(HostPanic); }
      if |tokens| > MAX_BATCH_TOKENS { return Err(TooManyBatchTokens); }
      for i := 0 to |tokens|
        invariant treasury == old(treasury) && pauses == old(pauses)
        invariant forall j :: 0 <= j < i ==> Approved(treasury, tokens[j])
      {
        var approved := IsTokenApproved(tokens[i]);
        if !approved {
          assert !Approved(treasury, tokens[i]);
          return Err(TokenNotApproved);
        }
      }
      if pauses.emergency { return Err(EmergencyContractPaused); }
      if pauses.global { return Err(ContractPaused); }
      var list := EffectiveRecipients([]);
      if list.None? { return Err(HostPanic); }
      var rs := list.value;
      if rs == [] { return Err(EmptyRecipients); }
      var total := AddShares(rs);
      if total.Err? { return Err(total.error); }
      if total.value != 10_000 { return Err(InvalidShareTotal); }
      r := BatchLoop(e.refusing, tokens, rs);
      if r.Err? || pauses.emergency { return r; }
      CountDistributions(e.now, |tokens|);
    }

    method BatchLoop(refusing: set<Address>, tokens: seq<Address>, rs: seq<Recipient>) returns (r: Result<()>)
      requires rs != [] && Sum(Shares(rs)) == 10_000 && !pauses.emergency
      modifies this`treasury, this`pauses
      ensures match BatchRun(old(treasury.ledger), old(pauses), rs, tokens, refusing)
              case Paying(l) => r == Ok(()) && treasury == old(treasury).(ledger := l) && pauses == old(pauses)
              case Tripped(_, l) => r == Ok(()) && treasury == old(treasury).(ledger := l) && pauses == old(pauses).(emergency := true)
              case Failed(x) => r == Err(x)
    {
      hide PayOut, Sum, Shares, Bal, Transfer;
      for i := 0 to |tokens|
        invariant BatchRun(old(treasury.ledger), old(pauses), rs, tokens[..i], refusing) == Paying(treasury.ledger)
        invariant treasury == old(treasury).(ledger := treasury.ledger) && pauses == old(pauses)
      {
        assert tokens[..i + 1][..i] == tokens[..i];
        BatchStops(old(treasury.ledger), old(pauses), rs, tokens, refusing, i + 1);
        var amount := Bal(treasury.ledger, tokens[i], SELF);
        var tripped := TripAnomalyPauseIfExceeded(amount);
        if tripped { return Ok(()); }
        if amount == 0 { return Err(NoBalance); }
        if amount < |rs| { return Err(AmountTooSmall); }
        var paid := SplitAndPay(tokens[i], amount, rs, refusing);
        if paid.Err? { return Err(paid.error); }
      }
      assert tokens[..|tokens|] == tokens;
      r := Ok(());
    }

    method RecordSecondaryRoyalty(e: Env, token: Address, from: Address, amount: int)
      returns (r: Result<()>)
      modifies this`treasury, this`registry
      ensures Meets(RecordOp(old(View()), e, token, from, amount), r, View())
    {
      if from !in e.signers { return Err(HostPanic); }
      if amount <= 0 { return Err(RoyaltyAmountNotPositive); }
      var approved := IsTokenApproved(token);
      if !approved { return Err(TokenNotApproved); }
      var ok := Move(token, from, SELF, amount, e.refusing);
      if !ok { return Err(HostPanic); }
      if treasury.pool + amount > I128_MAX { return Err(ArithmeticOverflow); }
      treasury := treasury.(pool := treasury.pool + amount);
      treasury := treasury.(poolToken := Some(token));
      if registry.shareMap.Some? && from in registry.shareMap.value {
        var seen := if from in registry.activity then registry.activity[from] else 0;
        registry := registry.(activity := registry.activity[from := SaturatingAdd(seen, 1, U32_LIMIT)]);
      }
      r := Ok(());
    }

    method DistributeSecondary(e: Env) returns (r: Result<()>)
      requires Valid()
      modifies this`treasury, this`pauses
      ensures Meets(SecondaryOp(old(View()), e), r, View())
    {
      var ok := CheckAdminAuth(e.signers);
      if !ok { return Err(HostPanic); }
      if pauses.emergency { return Err(EmergencyContractPaused); }
      var blocked := IsBlocked(true);
      if blocked { return Err(ContractPaused); }
      if registry.shareMap.None? { return Err(HostPanic); }
      var total := TotalShares(registry.shareMap.value);
      if total.Err? { return Err(total.error); }
      if total.value != 10_000 { return Err(InvalidShareTotal); }
      if treasury.pool == 0 { return Err(NoSecondaryRoyalties); }
      if treasury.poolToken.None? { return Err(NoSecondaryToken); }
      var token := treasury.poolToken.value;
      var tripped := TripAnomalyPauseIfExceeded(treasury.pool);
      if tripped { return Ok(()); }
      if treasury.pool > Bal(treasury.ledger, token, SELF) { return Err(PoolExceedsBalance); }
      var rs := GetRecipients();
      var paid := SplitAndPay(token, treasury.pool, rs, e.refusing);
      if paid.Err? { return Err(paid.error); }
      treasury := treasury.(pool := 0);
      treasury := treasury.(lastSecondary := Some(e.now));
      r := Ok(());
    }

    method Withdraw(e: Env, token: Address, amount: int) returns (r: Result<()>)
      modifies this`treasury
      ensures Meets(WithdrawOp(old(View()), e, token, amount), r, View())
    {
      if admins.admin.None? { return Err(NotInitialized); }
      var ok := CheckAdminAuth(e.signers);
      if !ok { return Err(HostPanic); }
      if amount <= 0 { return Err(AmountNotPositive); }
      if amount > Bal(treasury.ledger, token, SELF) { return Err(InsufficientBalance); }
      var sent := Move(token, SELF, admins.admin.value, amount, e.refusing);
      r := if sent then Ok(()) else Err(HostPanic);
    }

    method ClawLoop(e: Env, token: Address, sources: seq<Address>, amounts: seq<int>) returns (r: Result<()>)
      requires |sources| == |amounts|
      modifies this`treasury
      ensures match ClawAll(old(treasury.ledger), e, token, sources, amounts)
              case Ok(l) => r == Ok(()) && treasury == old(treasury).(ledger := l)
              case Err(x) => r == Err(x)
    {
      for i := 0 to |sources|
        invariant ClawAll(old(treasury.ledger), e, token, sources[..i], amounts[..i]) == Ok(treasury.ledger)
        invariant treasury == old(treasury).(ledger := treasury.ledger)
      {
        assert sources[..i + 1][..i] == sources[..i] && amounts[..i + 1][..i] == amounts[..i];
        ClawStops(old(treasury.ledger), e, token, sources, amounts, i + 1);
        if amounts[i] <= 0 { return Err(AmountNotPositive); }
        if sources[i] !in e.signers { return Err(HostPanic); }
        var moved := Move(token, sources[i], SELF, amounts[i], e.refusing);
        if !moved { return Err(HostPanic); }
      }
      assert sources[..|sources|] == sources && amounts[..|sources|] == amounts;
      r := Ok(());
    }

    method Clawback(e: Env, id: u64, token: Address, sources: seq<Address>, amounts: seq<int>) returns (r: Result<()>)
      modifies this`treasury, this`disputes
      ensures Meets(ClawbackOp(old(View()), e, id, token, sources, amounts), r, View())
    {
      var ok := CheckAdminAuth(e.signers);
      if !ok { return Err(HostPanic); }
      if |sources| != |amounts| { return Err(LengthMismatch); }
      if |sources| > MAX_RECIPIENTS { return Err(TooManyRecipients); }
      r := ClawLoop(e, token, sources, amounts);
      if r.Ok? { r := Close(e.now, id, ClawedBack); }
    }

    // ----- Settings -----

    method SetApprovedTokens(signers: set<Address>, tokens: seq<Address>) returns (r: Result<()>)
      modifies this`treasury
      ensures Meets(SetApprovedOp(old(View()), signers, tokens), r, View())
    {
      var ok := CheckAdminAuth(signers);
      if !ok { return Err(HostPanic); }
      if |tokens| > MAX_APPROVED_TOKENS { return Err(InputTooLarge); }
      var distinct := AllDistinct(tokens);
      if !distinct { return Err(DuplicateRecipient); }
      treasury := treasury.(approved := tokens);
      r := Ok(());
    }

    method SetAdmins(signers: set<Address>, list: seq<Address>, threshold: u32) returns (r: Result<()>)
      modifies this`admins
      ensures Meets(LiftAdmins(old(View()), SetAdminsOp(old(View()).admins, signers, list, threshold)), r, View())
    {
      var ok := CheckAdminAuth(signers);
      if !ok || list == [] { return Err(HostPanic); }
      if |list| > MAX_ADMIN_LIST { return Err(InputTooLarge); }
      if threshold < 1 || threshold > |list| { return Err(HostPanic); }
      var distinct := AllDistinct(list);
      if !distinct { return Err(HostPanic); }
      admins := admins.(list := list, threshold := threshold);
      r := Ok(());
    }

    method SetIncentivesEnabled(signers: set<Address>, on: bool) returns (r: Result<()>)
      modifies this`registry
      ensures Meets(SetIncentivesOp(old(View()), signers, on), r, View())
    {
      var ok := CheckAdminAuth(signers);
      if !ok { return Err(HostPanic); }
      registry := registry.(incentives := on);
      r := Ok(());
    }

    method SetPaused(signers: set<Address>, scope: Scope, on: bool) returns (r: Result<()>)
      modifies this`pauses
      ensures Meets(SetPausedOp(old(View()), signers, scope, on), r, View())
    {
      var ok := CheckAdminAuth(signers);
      if !ok { return Err(HostPanic); }
      match scope {
        case Global => pauses := pauses.(global := on);
        case Primary => pauses := pauses.(primary := on);
        case Secondary => pauses := pauses.(secondary := on);
      }
      r := if admins.admin.None? then Err(NotInitialized) else Ok(());
    }

    method SetAnomalyThreshold(signers: set<Address>, maxAmount: int) returns (r: Result<()>)
      modifies this`pauses
      ensures Meets(SetAnomalyOp(old(View()), signers, Some(maxAmount)), r, View())
    {
      var ok := CheckAdminAuth(signers);
      if !ok || maxAmount <= 0 { return Err(HostPanic); }
      pauses := pauses.(anomaly := Some(maxAmount));
      r := Ok(());
    }

    method ClearAnomalyThreshold(signers: set<Address>) returns (r: Result<()>)
      modifies this`pauses
      ensures Meets(SetAnomalyOp(old(View()), signers, None), r, View())
    {
      var ok := CheckAdminAuth(signers);
      if !ok { return Err(HostPanic); }
      pauses := pauses.(anomaly := None);
      r := Ok(());
    }

    method TriggerEmergencyPause(signers: set<Address>) returns (r: Result<()>)
      modifies this`pauses
      ensures Meets(EmergencyOp(old(View()), signers, true), r, View())
    {
      var ok := CheckAdminAuth(signers);
      if !ok { return Err(HostPanic); }
      pauses := pauses.(emergency := true);
      r := Ok(());
    }

    method ClearEmergencyPause(signers: set<Address>) returns (r: Result<()>)
      modifies this`pauses
      ensures Meets(EmergencyOp(old(View()), signers, false), r, View())
    {
      var ok := CheckAllAdmins(signers);
      if !ok { return Err(HostPanic); }
      pauses := pauses.(emergency := false);
      r := Ok(());
    }

    // ----- Admin hand-over -----

    method AdminTransfer(signers: set<Address>, newAdmin: Address) returns (r: Result<()>)
      modifies this`admins
      ensures Meets(LiftAdmins(old(View()), AdminTransferOp(old(View()).admins, signers, newAdmin)), r, View())
    {
      if admins.list != [] || admins.admin.None? || admins.admin.value !in signers { return Err(HostPanic); }
      admins := admins.(admin := Some(newAdmin));
      r := Ok(());
    }

    method ProposeAdminTransfer(signers: set<Address>, newAdmin: Address) returns (r: Result<()>)
      modifies this`admins
      ensures Meets(LiftAdmins(old(View()), AdminControl.ProposeOp(old(View()).admins, signers, newAdmin)), r, View())
    {
      var ok := CheckAdminAuth(signers);
      if !ok { return Err(HostPanic); }
      admins := admins.(proposed := Some(newAdmin));
      r := Ok(());
    }

    method AcceptAdmin(signers: set<Address>) returns (r: Result<()>)
      modifies this`admins
      ensures Meets(LiftAdmins(old(View()), AcceptOp(old(View()).admins, signers)), r, View())
    {
      if admins.proposed.None? || admins.proposed.value !in signers || admins.admin.None? { return Err(HostPanic); }
      admins := admins.(admin := admins.proposed, proposed := None);
      r := Ok(());
    }

    method InitiateAdminRotation(now: u64, signers: set<Address>, newAdmin: Address) returns (r: Result<()>)
      modifies this`admins
      ensures Meets(LiftAdmins(old(View()), InitiateOp(old(View()).admins, signers, now, newAdmin)), r, View())
    {
      var ok := CheckAdminAuth(signers);
      if !ok { return Err(HostPanic); }
      admins := admins.(rotation := Some(Rotation(newAdmin, now)));
      r := Ok(());
    }

    method CancelAdminRotation(signers: set<Address>) returns (r: Result<()>)
      modifies this`admins
      ensures Meets(LiftAdmins(old(View()), CancelOp(old(View()).admins, signers)), r, View())
    {
      var ok := CheckAdminAuth(signers);
      if !ok || admins.rotation.None? { return Err(HostPanic); }
      admins := admins.(rotation := None);
      r := Ok(());
    }

    method FinalizeAdminRotation(now: u64) returns (r: Result<()>)
      modifies this`admins
      ensures Meets(LiftAdmins(old(View()), FinalizeOp(old(View()).admins, now)), r, View())
    {
      if admins.rotation.None? { return Err(HostPanic); }
      var timelock := if admins.timelock.Some? then admins.timelock.value else DEFAULT_ADMIN_ROTATION_TIMELOCK;
      var readyAt := admins.rotation.value.initiatedAt + timelock;
      if readyAt >= U64_LIMIT || now < readyAt || admins.admin.None? { return Err(HostPanic); }
      admins := admins.(admin := Some(admins.rotation.value.newAdmin));
      admins := admins.(rotation := None);
      r := Ok(());
    }

    method SetAdminRotationTimelock(signers: set<Address>, seconds: u64) returns (r: Result<()>)
      modifies this`admins
      ensures Meets(LiftAdmins(old(View()), SetTimelockOp(old(View()).admins, signers, seconds)), r, View())
    {
      var ok := CheckAdminAuth(signers);
      if !ok || seconds < MIN_ADMIN_ROTATION_TIMELOCK || seconds > MAX_ADMIN_ROTATION_TIMELOCK { return Err(HostPanic); }
      admins := admins.(timelock := Some(seconds));
      r := Ok(());
    }

    // ----- Governance -----

    method ApplyRate(newRate: u32, now: u64, caller: Address)
      modifies this`gov
      ensures View().gov == G.SetRate(old(View()).gov, newRate, now, caller)
    {
      var change := G.RateChange(gov.rate, newRate, now, caller);
      gov := gov.(rate := newRate);
      if |gov.history| >= G.RATE_HISTORY_CAP {
        var trimmed: seq<G.RateChange> := [];
        for i := 1 to |gov.history|
          invariant trimmed == gov.history[1..i]
        {
          trimmed := trimmed + [gov.history[i]];
        }
        gov := gov.(history := trimmed);
      }
      gov := gov.(history := gov.history + [change]);
    }

    method SetRoyaltyRate(now: u64, signers: set<Address>, newRate: u32) returns (r: Result<()>)
      modifies this`gov
      ensures Meets(SetRateOp(old(View()), now, signers, newRate), r, View())
    {
      var ok := CheckAdminAuth(signers);
      if !ok { return Err(HostPanic); }
      if newRate == 0 { return Err(RoyaltyRateZero); }
      if newRate > 10_000 { return Err(RoyaltyRateTooHigh); }
      if admins.admin.None? { return Err(HostPanic); }
      ApplyRate(newRate, now, admins.admin.value);
      r := Ok(());
    }

    method ProposeRateChange(now: u64, signers: set<Address>, proposer: Address, newRate: u32, duration: u64)
      returns (r: Result<()>, id: u64)
      modifies this`gov
      ensures Meets(LiftGov(old(View()), G.ProposeOp(old(View()).gov, old(registry.shareMap), signers, now, proposer, newRate, duration)), r, View())
      ensures r.Ok? ==> id == gov.count == old(gov.count) + 1
    {
      id := 0;
      if proposer !in signers { return Err(HostPanic), 0; }
      if registry.shareMap.None? { return Err(NoShareMap), 0; }
      if proposer !in registry.shareMap.value { return Err(CollaboratorNotFound), 0; }
      if newRate == 0 { return Err(RoyaltyRateZero), 0; }
      if newRate > 10_000 { return Err(RoyaltyRateTooHigh), 0; }
      if duration < G.MIN_PROPOSAL_DURATION || duration > G.MAX_PROPOSAL_DURATION { return Err(InvalidProposalDuration), 0; }
      if gov.count + 1 >= U64_LIMIT { return Err(HostPanic), 0; }
      id := gov.count + 1;
      var p := G.Proposal(newRate, proposer, now, SaturatingAdd(now, duration, U64_LIMIT), 0, 0, false, false);
      gov := gov.(proposals := gov.proposals[id := p], count := id);
      r := Ok(());
    }

    method Vote(now: u64, signers: set<Address>, voter: Address, id: u64, support: bool) returns (r: Result<()>)
      modifies this`gov
      ensures Meets(LiftGov(old(View()), G.VoteOp(old(View()).gov, old(registry.shareMap), signers, now, voter, id, support)), r, View())
    {
      if voter !in signers { return Err(HostPanic); }
      if registry.shareMap.None? { return Err(NoShareMap); }
      if voter !in registry.shareMap.value { return Err(CollaboratorNotFound); }
      var weight := registry.shareMap.value[voter];
      if id !in gov.proposals { return Err(ProposalNotFound); }
      var p := gov.proposals[id];
      if p.executed || p.rejected { return Err(ProposalAlreadyExecuted); }
      if now >= p.deadline { return Err(ProposalVotingClosed); }
      var cast := if id in gov.votes then gov.votes[id] else map[];
      if voter in cast { return Err(AlreadyVoted); }
      gov := gov.(votes := gov.votes[id := cast[voter := support]]);
      if support {
        p := p.(yesWeight := SaturatingAdd(p.yesWeight, weight, U32_LIMIT));
      } else {
        p := p.(noWeight := SaturatingAdd(p.noWeight, weight, U32_LIMIT));
      }
      gov := gov.(proposals := gov.proposals[id := p]);
      r := Ok(());
    }

    method ExecuteProposal(now: u64, id: u64) returns (r: Result<()>)
      modifies this`gov
      ensures Meets(LiftGov(old(View()), G.ExecuteOp(old(View()).gov, now, id)), r, View())
    {
      if id !in gov.proposals { return Err(ProposalNotFound); }
      var p := gov.proposals[id];
      if p.executed || p.rejected { return Err(ProposalAlreadyExecuted); }
      if now < p.deadline { return Err(ProposalStillOpen); }
      if !(p.yesWeight > G.TOTAL_SHARE_WEIGHT / 2 && p.yesWeight > p.noWeight) {
        gov := gov.(proposals := gov.proposals[id := p.(rejected := true)]);
        return Ok(());
      }
      ApplyRate(p.newRate, now, p.proposer);
      gov := gov.(proposals := gov.proposals[id := p.(executed := true)]);
      r := Ok(());
    }

    // ----- Disputes -----

    method Close(now: u64, id: u64, status: DisputeStatus) returns (r: Result<()>)
      modifies this`disputes
      ensures match CloseDispute(old(View()).disputes, now, id, status)
              case Ok(d) => r == Ok(()) && View() == old(View()).(disputes := d)
              case Err(x) => r == Err(x) && View() == old(View())
    {
      if id !in disputes.items { return Err(DisputeNotFound); }
      if disputes.items[id].status != Open { return Err(DisputeAlreadyResolved); }
      disputes := disputes.(items := disputes.items[id := disputes.items[id].(status := status, resolvedAt := now)]);
      r := Ok(());
    }

    method RecordDispute(now: u64, signers: set<Address>, transactionId: u64, amount: int) returns (r: Result<()>, id: u64)
      modifies this`disputes
      ensures Meets(RecordDisputeOp(old(View()), now, signers, transactionId, amount), r, View())
      ensures r.Ok? ==> id == disputes.count == old(disputes.count) + 1
    {
      id := 0;
      var ok := CheckAdminAuth(signers);
      if !ok { return Err(HostPanic), 0; }
      if amount <= 0 { return Err(AmountNotPositive), 0; }
      if admins.admin.None? { return Err(NotInitialized), 0; }
      if disputes.count + 1 >= U64_LIMIT { return Err(HostPanic), 0; }
      id := disputes.count + 1;
      disputes := disputes.(items := disputes.items[id := Dispute(transactionId, amount, Open, admins.admin.value, now, 0)]);
      disputes := disputes.(count := id);
      r := Ok(());
    }

    method ResolveDispute(now: u64, signers: set<Address>, id: u64) returns (r: Result<()>)
      modifies this`disputes
      ensures Meets(ResolveOp(old(View()), now, signers, id), r, View())
    {
      var ok := CheckAdminAuth(signers);
      if !ok { return Err(HostPanic); }
      r := Close(now, id, Resolved);
    }

    // ----- The host -----

    /** Someone else's token transfer. */
    method OutsideTransfer(refusing: set<Address>, token: Address, from: Address, to: Address, amount: int)
      returns (r: Result<()>)
      modifies this`treasury
      ensures Meets(OutsideOp(old(View()), token, from, to, amount, refusing), r, View())
    {
      if from == SELF { return Err(HostPanic); }
      var ok := Move(token, from, to, amount, refusing);
      r := if ok then Ok(()) else Err(HostPanic);
    }

    /** The host's rollback. */
    method Restore(s: State)
      modifies this
      ensures View() == s
    {
      registry, admins, pauses, treasury, gov, disputes := s.registry, s.admins, s.pauses, s.treasury, s.gov, s.disputes;
    }

    method DispatchAdmin(st: Step) returns (r: Result<()>)
      requires IsAdminCall(st.call)
      modifies this
      ensures Meets(ExecAdmin(old(View()), st), r, View())
    {
      hide SetAdminsOp, AdminTransferOp, AdminControl.ProposeOp, AcceptOp, InitiateOp, CancelOp, FinalizeOp, SetTimelockOp;
      var Env(now, signers, _) := st.env;
      match st.call {
        case SetAdmins(list, threshold) => r := SetAdmins(signers, list, threshold);
        case AdminTransfer(a) => r := AdminTransfer(signers, a);
        case ProposeAdminTransfer(a) => r := ProposeAdminTransfer(signers, a);
        case AcceptAdmin => r := AcceptAdmin(signers);
        case InitiateAdminRotation(a) => r := InitiateAdminRotation(now, signers, a);
        case CancelAdminRotation => r := CancelAdminRotation(signers);
        case FinalizeAdminRotation => r := FinalizeAdminRotation(now);
        case SetAdminRotationTimelock(seconds) => r := SetAdminRotationTimelock(signers, seconds);
      }
    }

    method DispatchGov(st: Step) returns (r: Result<()>)
      requires IsGovCall(st.call)
      modifies this
      ensures Meets(ExecGov(old(View()), st), r, View())
    {
      hide SetRateOp, G.ProposeOp, G.VoteOp, G.ExecuteOp;
      var Env(now, signers, _) := st.env;
      var id: u64;
      match st.call {
        case SetRoyaltyRate(rate) => r := SetRoyaltyRate(now, signers, rate);
        case ProposeRateChange(a, rate, duration) => r, id := ProposeRateChange(now, signers, a, rate, duration);
        case Vote(voter, p, support) => r := Vote(now, signers, voter, p, support);
        case ExecuteProposal(p) => r := ExecuteProposal(now, p);
      }
    }

    method DispatchPrimary(st: Step) returns (r: Result<()>)
      requires Valid() && IsPrimaryPayment(st.call)
      modifies this
      ensures Meets(ExecPrimary(old(View()), st), r, View())
    {
      hide DistributeOp, ResilientOp, BatchOp, IncentivesOp, Inv;
      var failed: seq<Payment>;
      match st.call {
        case DistributeWithOverride(token, rs) => r := DistributeWithOverride(st.env, token, rs);
        case DistributeResilient(token, rs) => r, failed := DistributeResilient(st.env, token, rs);
        case BatchDistribute(tokens) => r := BatchDistribute(st.env, tokens);
        case DistributeWithIncentives(token) => r := DistributeWithIncentives(st.env, token);
      }
    }

    method DispatchTreasury(st: Step) returns (r: Result<()>)
      requires Valid() && IsTreasuryCall(st.call)
      modifies this
      ensures Meets(ExecTreasury(old(View()), st), r, View())
    {
      hide RecordOp, SecondaryOp, WithdrawOp, SetApprovedOp, OutsideOp, Inv;
      match st.call {
        case RecordSecondaryRoyalty(token, from, amount) => r := RecordSecondaryRoyalty(st.env, token, from, amount);
        case DistributeSecondary => r := DistributeSecondary(st.env);
        case Withdraw(token, amount) => r := Withdraw(st.env, token, amount);
        case SetApprovedTokens(tokens) => r := SetApprovedTokens(st.env.signers, tokens);
        case OutsideTransfer(token, from, to, amount) => r := OutsideTransfer(st.env.refusing, token, from, to, amount);
      }
    }

    method DispatchPauses(st: Step) returns (r: Result<()>)
      requires IsPauseCall(st.call)
      modifies this
      ensures Meets(ExecPauses(old(View()), st), r, View())
    {
      hide SetPausedOp, SetAnomalyOp, EmergencyOp;
      match st.call {
        case SetPaused(scope, on) => r := SetPaused(st.env.signers, scope, on);
        case SetAnomalyThreshold(x) => r := SetAnomalyThreshold(st.env.signers, x);
        case ClearAnomalyThreshold => r := ClearAnomalyThreshold(st.env.signers);
        case TriggerEmergencyPause => r := TriggerEmergencyPause(st.env.signers);
        case ClearEmergencyPause => r := ClearEmergencyPause(st.env.signers);
      }
    }

    method DispatchDisputes(st: Step) returns (r: Result<()>)
      requires IsDisputeCall(st.call)
      modifies this
      ensures Meets(ExecDisputes(old(View()), st), r, View())
    {
      hide RecordDisputeOp, ResolveOp, ClawbackOp;
      var Env(now, signers, _) := st.env;
      var id: u64;
      match st.call {
        case RecordDispute(tx, amount) => r, id := RecordDispute(now, signers, tx, amount);
        case ResolveDispute(d) => r := ResolveDispute(now, signers, d);
        case Clawback(d, token, sources, amounts) => r := Clawback(st.env, d, token, sources, amounts);
      }
    }

    method DispatchRegistry(st: Step) returns (r: Result<()>)
      requires IsRegistryCall(st.call)
      modifies this
      ensures Meets(ExecRegistry(old(View()), st), r, View())
    {
      hide InitializeOp, RevealInitializeOp, SetRecipientsOp, SetDefaultsOp, UpdateShareOp, SetIncentivesOp;
      var Env(now, signers, _) := st.env;
      match st.call {
        case Initialize(cs, shares) => r := Initialize(now, signers, cs, shares);
        case RevealInitialize(cs, shares, opening) => r := RevealInitialize(now, signers, cs, shares, opening);
        case SetRecipients(rs) => r := SetRecipients(now, signers, rs);
        case SetDefaultRecipients(rs) => r := SetDefaultRecipients(signers, rs);
        case UpdateShare(c, share) => r := UpdateShare(signers, c, share);
        case SetIncentivesEnabled(on) => r := SetIncentivesEnabled(signers, on);
      }
    }

    /** One invocation: a call that fails, wherever it fails, leaves the state as it was. */
    method Invoke(st: Step) returns (r: Result<()>)
      requires Valid()
      modifies this
      ensures Valid() && View() == Apply(old(View()), st)
      ensures r.Ok? == Exec(old(View()), st).Ok?
    {
      hide ExecRegistry, ExecPrimary, ExecTreasury, ExecPauses, ExecAdmin, ExecGov, ExecDisputes, Inv;
      var before := View();
      if IsRegistryCall(st.call) {
        r := DispatchRegistry(st);
      } else if IsPrimaryPayment(st.call) {
        r := DispatchPrimary(st);
      } else if IsTreasuryCall(st.call) {
        r := DispatchTreasury(st);
      } else if IsPauseCall(st.call) {
        r := DispatchPauses(st);
      } else if IsAdminCall(st.call) {
        r := DispatchAdmin(st);
      } else if IsGovCall(st.call) {
        r := DispatchGov(st);
      } else {
        r := DispatchDisputes(st);
      }
      if r.Err? { Restore(before); }
      StepKeepsInv(before, st);
    }
  }

  // ----- Loops against their specifications -----

  method AllDistinct(xs: seq<Address>) returns (b: bool)
    ensures b <==> Distinct(xs)
  {
    for i := 0 to |xs|
      invariant forall j, k :: 0 <= j < k < i ==> xs[j] != xs[k]
    {
      if xs[i] in xs[..i] {
        var j :| 0 <= j < i && xs[j] == xs[i];
        return false;
      }
    }
    b := true;
  }

  method AddShares(rs: seq<Recipient>) returns (r: Result<int>)
    ensures r == if Sum(Shares(rs)) < U32_LIMIT then Ok(Sum(Shares(rs))) else Err(ArithmeticOverflow)
  {
    var total := 0;
    for i := 0 to |rs|
      invariant total == Sum(Shares(rs)[..i]) && 0 <= total < U32_LIMIT
    {
      assert Shares(rs)[..i + 1][..i] == Shares(rs)[..i];
      SumPrefix(Shares(rs), i + 1);
      if total + rs[i].share >= U32_LIMIT { return Err(ArithmeticOverflow); }
      total := total + rs[i].share;
    }
    assert Shares(rs)[..|rs|] == Shares(rs);
    r := Ok(total);
  }

  /** A failing transfer, batch entry, clawback or initialization entry decides the whole loop. */
  lemma {:induction false} PayAllStops(l: Balances, token: Address, ps: seq<Payment>, refusing: set<Address>, k: nat)
    requires k <= |ps| && PayAll(l, token, ps[..k], refusing).None?
    ensures PayAll(l, token, ps, refusing).None?
  {
    if k < |ps| {
      assert ps[..|ps| - 1][..k] == ps[..k];
      PayAllStops(l, token, ps[..|ps| - 1], refusing, k);
    } else {
      assert ps[..k] == ps;
    }
  }

  lemma {:induction false} BatchStops(l: Balances, p: Pauses, rs: seq<Recipient>, tokens: seq<Address>, refusing: set<Address>, k: nat)
    requires rs != [] && k <= |tokens|
    ensures !BatchRun(l, p, rs, tokens[..k], refusing).Paying? ==>
      BatchRun(l, p, rs, tokens, refusing) == BatchRun(l, p, rs, tokens[..k], refusing)
  {
    if k < |tokens| {
      assert tokens[..|tokens| - 1][..k] == tokens[..k];
      BatchStops(l, p, rs, tokens[..|tokens| - 1], refusing, k);
    } else {
      assert tokens[..k] == tokens;
    }
  }

  lemma {:induction false} ClawStops(l: Balances, e: Env, token: Address, sources: seq<Address>, amounts: seq<int>, k: nat)
    requires |sources| == |amounts| && k <= |sources|
    ensures ClawAll(l, e, token, sources[..k], amounts[..k]).Err? ==>
      ClawAll(l, e, token, sources, amounts) == ClawAll(l, e, token, sources[..k], amounts[..k])
  {
    var n := |sources| - 1;
    if k <= n {
      assert sources[..n][..k] == sources[..k] && amounts[..n][..k] == amounts[..k];
      ClawStops(l, e, token, sources[..n], amounts[..n], k);
    } else {
      assert sources[..k] == sources && amounts[..k] == amounts;
    }
  }

  lemma {:induction false} InitDefectStays(cs: seq<Address>, shares: seq<u32>, k: nat)
    requires |cs| == |shares| && k <= |cs| && InitDefect(cs[..k], shares[..k]).Some?
    ensures InitDefect(cs, shares) == InitDefect(cs[..k], shares[..k])
  {
    var n := |cs| - 1;
    if k <= n {
      assert cs[..n][..k] == cs[..k] && shares[..n][..k] == shares[..k];
      InitDefectStays(cs[..n], shares[..n], k);
    } else {
      assert cs[..k] == cs && shares[..k] == shares;
    }
  }

  lemma ListSpelledOut(s: State, now: u64)
    requires Inv(s) && s.registry.collaborators.Some?
    ensures exists base :: StoredAs(s.registry, base) && IncentiveList(s.registry, now, base, IncentiveRecipients(s.registry, now))
  {
    BaseIsStored(s.registry);
    IncentivesSpelledOut(s.registry, now);
  }

  lemma SameRecipients(rs: seq<Recipient>, qs: seq<Recipient>)
    requires Addresses(rs) == Addresses(qs) && Shares(rs) == Shares(qs)
    ensures rs == qs
  {
    assert |rs| == |Addresses(rs)| == |Addresses(qs)| == |qs|;
    forall i | 0 <= i < |rs| ensures rs[i] == qs[i] {
      assert Addresses(rs)[i] == Addresses(qs)[i] && Shares(rs)[i] == Shares(qs)[i];
    }
  }
}
