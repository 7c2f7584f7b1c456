/** Exactly when the distributions succeed, over the lists they pay. */
module PaymentRules {
  import opened Types
  import opened Split
  import opened Ledger
  import opened Recipients
  import opened AdminControl
  import opened ContractState
  import opened ContractInvariant
  import opened PayoutEffects
  import opened PayLists
  import opened CallRules

  /** There is one list for an override. */
  lemma ListForIsEffective(r: Registry, override: seq<Recipient>, rs: seq<Recipient>)
    requires ListFor(r, override, rs)
    ensures Effective(r, override) == Some(rs)
  {
    if override == [] && r.defaults == [] {
      BaseIsStored(r);
      assert forall i :: 0 <= i < |rs| ==> rs[i] == BaseRecipients(r)[i];
      assert rs == BaseRecipients(r);
    }
  }

  /** A list that can be paid out of this amount. */
  ghost predicate Splits(amount: int, rs: seq<Recipient>) {
    && ValidRecipients(rs) && amount >= |rs|
    && forall i :: 0 <= i < |rs| - 1 ==> amount * rs[i].share < 0x1_0000_0000_0000_0000_0000_0000_0000_0000
  }

  lemma SplitsMeans(amount: int, rs: seq<Recipient>)
    ensures Splits(amount, rs) <==> Defect(rs).None? && amount >= |rs| && !SplitOverflows(amount, rs)
  {
    DefectIffInvalid(rs);
    hide ValidRecipients, Defect;
    assert forall i :: 0 <= i < |rs| - 1 ==> (ProductFits(amount, rs[i].share) <==> amount * rs[i].share < U128_LIMIT);
  }

  ghost predicate PrimaryOpen(s: State, signers: set<Address>) {
    AdminsHaveSigned(s.admins, signers) && !s.pauses.emergency && !s.pauses.global && !s.pauses.primary
  }

  /** With willing recipients: the admins, open pauses, the whitelist, and a positive balance that is above
      the threshold or splits over the list. */
  lemma OverrideOkIff(s: State, e: Env, token: Address, override: seq<Recipient>, rs: seq<Recipient>)
    requires Inv(s) && ListFor(s.registry, override, rs) && SELF !in Addresses(rs)
    requires Payable(s.treasury.ledger, token, rs, e.refusing)
    ensures var amount := Bal(s.treasury.ledger, token, SELF);
      DistributeOp(s, e, token, override).Ok? <==>
        && PrimaryOpen(s, e.signers) && (s.treasury.approved == [] || token in s.treasury.approved)
        && amount > 0 && (Exceeds(s.pauses, amount) || Splits(amount, rs))
  {
    ListForIsEffective(s.registry, override, rs);
    SignaturesMean(s.admins, e.signers);
    SplitsMeans(Bal(s.treasury.ledger, token, SELF), rs);
    DefectIffInvalid(rs);
    hide Effective, Payable, Splits, SplitOverflows, ListFor, Inv, ValidRecipients, Defect, DistributeOp;
    DistributeOkIff(s, e, token, override);
  }

  /** What an open distribution with override reports, in order: a token that is not whitelisted, no balance,
      and below the threshold the list's own defect, too small a balance, or an overflow. */
  lemma OverrideReports(s: State, e: Env, token: Address, override: seq<Recipient>, rs: seq<Recipient>)
    requires PrimaryOpen(s, e.signers) && ListFor(s.registry, override, rs)
    ensures var amount, x := Bal(s.treasury.ledger, token, SELF), DistributeOp(s, e, token, override);
      var listed := s.treasury.approved == [] || token in s.treasury.approved;
      && (!listed ==> x == Err(TokenNotApproved))
      && (listed && amount == 0 ==> x == Err(Underfunded))
      && (listed && amount > 0 && !Exceeds(s.pauses, amount) ==> ListReports(amount, rs, x))
  {
    ListForIsEffective(s.registry, override, rs);
    SignaturesMean(s.admins, e.signers);
    hide Effective, ListFor, AdminSigned, AdminsHaveSigned, PayAll, Payments, SplitOverflows, Defect;
  }

  /** A balance that cannot be split over a list is reported by the list's defect, or as too small, or as an
      overflow. */
  ghost predicate ListReports<T(!new)>(amount: int, rs: seq<Recipient>, x: Result<T>) {
    && (Defect(rs).Some? ==> x == Err(Defect(rs).value))
    && (Defect(rs).None? && amount < |rs| ==> x == Err(AmountTooSmall))
    && (Defect(rs).None? && amount >= |rs| && SplitOverflows(amount, rs) ==> x == Err(ArithmeticOverflow))
  }

  /** And an open resilient one: no balance, then the same. */
  lemma ResilientReports(s: State, e: Env, token: Address, override: seq<Recipient>, rs: seq<Recipient>)
    requires PrimaryOpen(s, e.signers) && ListFor(s.registry, override, rs)
    ensures var amount, x := Bal(s.treasury.ledger, token, SELF), ResilientOp(s, e, token, override);
      && (amount == 0 ==> x == Err(Underfunded))
      && (amount > 0 ==> ListReports(amount, rs, x))
  {
    ListForIsEffective(s.registry, override, rs);
    SignaturesMean(s.admins, e.signers);
    hide Effective, ListFor, AdminSigned, AdminsHaveSigned, PayAll, Payments, SplitOverflows, Defect;
  }

  /** And an open one with incentives. */
  lemma IncentivesReport(s: State, e: Env, token: Address, base: seq<Recipient>, rs: seq<Recipient>)
    requires Inv(s) && PrimaryOpen(s, e.signers) && StoredAs(s.registry, base) && IncentiveList(s.registry, e.now, base, rs)
    ensures var amount, x := Bal(s.treasury.ledger, token, SELF), IncentivesOp(s, e, token);
      && (amount == 0 ==> x == Err(Underfunded))
      && (amount > 0 ==> ListReports(amount, rs, x))
  {
    OneIncentiveList(s, e.now, base, rs);
    SignaturesMean(s.admins, e.signers);
    hide Inv, StoredAs, IncentiveList, IncentiveRecipients, AdminSigned, AdminsHaveSigned, PayAll, Payments, SplitOverflows, Defect;
  }

  /** A signed, open secondary distribution reports an empty pool, and below the threshold a pool the
      contract does not hold, or an overflow. */
  lemma SecondaryReports(s: State, e: Env, rs: seq<Recipient>)
    requires Inv(s) && StoredAs(s.registry, rs) && AdminsHaveSigned(s.admins, e.signers)
    requires !s.pauses.emergency && !s.pauses.global && !s.pauses.secondary
    ensures var pool, x := s.treasury.pool, SecondaryOp(s, e);
      && (pool == 0 ==> x == Err(NoSecondaryRoyalties))
      && (pool > 0 && !Exceeds(s.pauses, pool) ==>
            && s.treasury.poolToken.Some?
            && var held := Bal(s.treasury.ledger, s.treasury.poolToken.value, SELF);
              && (pool > held ==> x == Err(PoolExceedsBalance))
              && (pool <= held && SplitOverflows(pool, rs) ==> x == Err(ArithmeticOverflow)))
  {
    StoredIsBase(s, rs);
    StoredMapTotal(s);
    SignaturesMean(s.admins, e.signers);
    PoolHasToken(s);
    hide SplitOverflows, Inv, ValidRecipients, PayAll, Payments, StoredAs, MapTotal, AdminSigned, AdminsHaveSigned, BaseRecipients;
  }

  /** The first token of a batch that cannot go on: without balance, or with too small a one. */
  lemma BatchReports(s: State, e: Env, tokens: seq<Address>, k: nat, rs: seq<Recipient>)
    requires rs != [] && k < |tokens|
    requires BatchRun(s.treasury.ledger, s.pauses, rs, tokens[..k], e.refusing).Paying?
    ensures var l := BatchRun(s.treasury.ledger, s.pauses, rs, tokens[..k], e.refusing).ledger;
      var amount, after := Bal(l, tokens[k], SELF), BatchRun(s.treasury.ledger, s.pauses, rs, tokens[..k + 1], e.refusing);
      && (Exceeds(s.pauses, amount) <==> after.Tripped?)
      && (!Exceeds(s.pauses, amount) && amount == 0 ==> after == Failed(NoBalance))
      && (!Exceeds(s.pauses, amount) && 0 < amount < |rs| ==> after == Failed(AmountTooSmall))
  {
    assert tokens[..k + 1][..k] == tokens[..k];
    hide PayOut;
  }

  /** Whoever refuses: the admins, open pauses, and a positive balance that splits over the list. */
  lemma ResilientOkIff(s: State, e: Env, token: Address, override: seq<Recipient>, rs: seq<Recipient>)
    requires ListFor(s.registry, override, rs)
    ensures var amount := Bal(s.treasury.ledger, token, SELF);
      ResilientOp(s, e, token, override).Ok? <==> PrimaryOpen(s, e.signers) && amount > 0 && Splits(amount, rs)
  {
    ListForIsEffective(s.registry, override, rs);
    SignaturesMean(s.admins, e.signers);
    SplitsMeans(Bal(s.treasury.ledger, token, SELF), rs);
    hide Effective, Splits, SplitOverflows, ListFor, Defect, AdminSigned, AdminsHaveSigned;
  }

  /** With willing recipients: the admins, open pauses, and a positive balance that splits over the list
      with incentives. */
  lemma IncentivesOkIff(s: State, e: Env, token: Address, base: seq<Recipient>, rs: seq<Recipient>)
    requires Inv(s) && StoredAs(s.registry, base) && IncentiveList(s.registry, e.now, base, rs)
    requires SELF !in Addresses(rs) && Payable(s.treasury.ledger, token, rs, e.refusing)
    ensures var amount := Bal(s.treasury.ledger, token, SELF);
      IncentivesOp(s, e, token).Ok? <==> PrimaryOpen(s, e.signers) && amount > 0 && Splits(amount, rs)
  {
    var amount := Bal(s.treasury.ledger, token, SELF);
    OneIncentiveList(s, e.now, base, rs);
    SignaturesMean(s.admins, e.signers);
    SplitsMeans(amount, rs);
    DefectIffInvalid(rs);
    if ValidRecipients(rs) { PayOutOkIff(s.treasury.ledger, token, amount, rs, e.refusing); }
    hide Payable, Splits, SplitOverflows, Inv, ValidRecipients, Defect, PayOut, IncentiveRecipients, StoredAs, IncentiveList,
         AdminSigned, AdminsHaveSigned;
  }

  /** The stored collaborators and the list with incentives are determined. */
  lemma OneIncentiveList(s: State, now: u64, base: seq<Recipient>, rs: seq<Recipient>)
    requires Inv(s) && StoredAs(s.registry, base) && IncentiveList(s.registry, now, base, rs)
    ensures IncentiveRecipients(s.registry, now) == rs
  {
    BaseIsStored(s.registry);
    assert forall i :: 0 <= i < |base| ==> base[i] == BaseRecipients(s.registry)[i];
    assert base == BaseRecipients(s.registry);
    IncentivesSpelledOut(s.registry, now);
    SameIncentiveList(s.registry, now, base, rs, IncentiveRecipients(s.registry, now));
  }

  lemma SameIncentiveList(r: Registry, now: u64, base: seq<Recipient>, a: seq<Recipient>, b: seq<Recipient>)
    requires base != [] && IncentiveList(r, now, base, a) && IncentiveList(r, now, base, b)
    ensures a == b
  {
    hide Earned, EarnedBy;
    if r.incentives && EarnedBy(r, base, now) != 0 {
      var k := |base| - 1;
      assert forall i :: 0 <= i < k ==> a[i] == b[i];
      SharesSnoc(a);
      SharesSnoc(b);
      assert a[..k] == b[..k];
      hide Sum;
      assert a[k] == b[k];
    }
  }

  /** With willing collaborators: the admins, open pauses, and a recorded pool that is above the threshold
      or is held by the contract and splits over the collaborators. */
  lemma SecondaryOkIff(s: State, e: Env, rs: seq<Recipient>)
    requires Inv(s) && StoredAs(s.registry, rs) && SELF !in Addresses(rs)
    requires s.treasury.poolToken.Some? ==> Payable(s.treasury.ledger, s.treasury.poolToken.value, rs, e.refusing)
    ensures SecondaryOp(s, e).Ok? <==>
      && AdminsHaveSigned(s.admins, e.signers) && !s.pauses.emergency && !s.pauses.global && !s.pauses.secondary
      && s.treasury.pool > 0
      && (|| Exceeds(s.pauses, s.treasury.pool)
          || (&& s.treasury.poolToken.Some? && s.treasury.pool <= Bal(s.treasury.ledger, s.treasury.poolToken.value, SELF)
              && !SplitOverflows(s.treasury.pool, rs)))
  {
    StoredIsBase(s, rs);
    StoredMapTotal(s);
    SignaturesMean(s.admins, e.signers);
    PoolHasToken(s);
    if s.treasury.poolToken.Some? && s.treasury.pool <= Bal(s.treasury.ledger, s.treasury.poolToken.value, SELF) {
      PayOutOkIff(s.treasury.ledger, s.treasury.poolToken.value, s.treasury.pool, rs, e.refusing);
    }
    hide Payable, SplitOverflows, Inv, ValidRecipients, PayOut, StoredAs, MapTotal, AdminSigned, AdminsHaveSigned, BaseRecipients;
  }

  lemma PoolHasToken(s: State)
    requires Inv(s)
    ensures s.treasury.pool > 0 ==> s.treasury.poolToken.Some?
  {
  }

  lemma StoredIsBase(s: State, rs: seq<Recipient>)
    requires Inv(s) && StoredAs(s.registry, rs)
    ensures rs == BaseRecipients(s.registry) && ValidRecipients(rs) && rs != []
  {
    BaseIsStored(s.registry);
    assert forall i :: 0 <= i < |rs| ==> rs[i] == BaseRecipients(s.registry)[i];
  }

  // ----- Batches -----

  /** Distinct tokens, each approved, held within the threshold, and payable over the list. */
  ghost predicate BatchReady(s: State, e: Env, tokens: seq<Address>, rs: seq<Recipient>) {
    && |tokens| <= 50 && Distinct(tokens)
    && forall t :: t in tokens ==>
         && (s.treasury.approved == [] || t in s.treasury.approved)
         && Payable(s.treasury.ledger, t, rs, e.refusing)
         && !Exceeds(s.pauses, Bal(s.treasury.ledger, t, SELF)) && Splits(Bal(s.treasury.ledger, t, SELF), rs)
  }

  /** Such a batch goes through: every token is paid out. */
  lemma ReadyBatchCompletes(s: State, e: Env, tokens: seq<Address>, rs: seq<Recipient>)
    requires Inv(s) && ListFor(s.registry, [], rs) && ValidRecipients(rs) && SELF !in Addresses(rs)
    requires AdminsHaveSigned(s.admins, e.signers) && !s.pauses.emergency && !s.pauses.global
    requires BatchReady(s, e, tokens, rs)
    ensures BatchOp(s, e, tokens).Ok? && BatchComplete(s, BatchOp(s, e, tokens).value, rs, tokens, e.now)
  {
    ListForIsEffective(s.registry, [], rs);
    SignaturesMean(s.admins, e.signers);
    ReadyRun(s, e, tokens, rs);
    hide Effective, ListFor, Payable, Splits, BatchRun, BatchComplete, BatchStopped, Inv, Exceeds, AdminSigned, AdminsHaveSigned;
    BatchOutcome(s, e, tokens);
    NotStopped(s, e, tokens, rs);
  }

  /** Conversely, a batch that succeeds without setting the emergency pause had distinct, approved tokens,
      at most fifty, each held within the threshold and splitting over the list. */
  lemma CompletedBatchWasReady(s: State, e: Env, tokens: seq<Address>, rs: seq<Recipient>)
    requires Inv(s) && ListFor(s.registry, [], rs) && SELF !in Addresses(rs)
    requires BatchOp(s, e, tokens).Ok? && !BatchOp(s, e, tokens).value.pauses.emergency
    ensures |tokens| <= 50 && Distinct(tokens)
    ensures forall t :: t in tokens ==>
      && (s.treasury.approved == [] || t in s.treasury.approved)
      && !Exceeds(s.pauses, Bal(s.treasury.ledger, t, SELF)) && Splits(Bal(s.treasury.ledger, t, SELF), rs)
  {
    ListForIsEffective(s.registry, [], rs);
    ApprovedTokens(s, e, tokens);
    hide Effective, ListFor, PaidOut, SameToken, Splits, Exceeds;
    BatchOutcome(s, e, tokens);
    BatchTokensSplit(s.treasury.ledger, s.pauses, rs, tokens, e.refusing);
    hide Inv, BatchRun;
  }

  lemma ApprovedTokens(s: State, e: Env, tokens: seq<Address>)
    requires BatchOp(s, e, tokens).Ok?
    ensures |tokens| <= 50
    ensures forall t :: t in tokens ==> s.treasury.approved == [] || t in s.treasury.approved
  {
    hide BatchRun, AdminSigned, Effective;
  }

  lemma {:induction false} BatchTokensSplit(l: Balances, p: Pauses, rs: seq<Recipient>, tokens: seq<Address>, refusing: set<Address>)
    requires ValidRecipients(rs) && SELF !in Addresses(rs) && BatchRun(l, p, rs, tokens, refusing).Paying?
    ensures forall t :: t in tokens ==> Splits(Bal(l, t, SELF), rs)
  {
    if tokens != [] {
      var k := |tokens| - 1;
      var mid := BatchRun(l, p, rs, tokens[..k], refusing).ledger;
      LastOfBatch(l, p, rs, tokens, refusing);
      LastSplits(l, p, rs, tokens, refusing);
      BatchTokensSplit(l, p, rs, tokens[..k], refusing);
      BatchProgress(l, p, rs, tokens[..k], refusing);
      hide BatchRun, PaidOut, ValidRecipients, PayOut, Splits;
      FundedIsNew(l, mid, rs, tokens[..k], tokens[k]);
      assert SameToken(l, mid, tokens[k]);
      assert tokens == tokens[..k] + [tokens[k]];
    }
  }

  lemma LastSplits(l: Balances, p: Pauses, rs: seq<Recipient>, tokens: seq<Address>, refusing: set<Address>)
    requires ValidRecipients(rs) && tokens != [] && BatchRun(l, p, rs, tokens, refusing).Paying?
    ensures var k := |tokens| - 1;
      var before := BatchRun(l, p, rs, tokens[..k], refusing);
      before.Paying? && Splits(Bal(before.ledger, tokens[k], SELF), rs)
  {
    var k := |tokens| - 1;
    var before := BatchRun(l, p, rs, tokens[..k], refusing);
    if before.Paying? { SplitsMeans(Bal(before.ledger, tokens[k], SELF), rs); }
    DefectIffInvalid(rs);
    hide ValidRecipients, Defect, Splits, SplitOverflows, PayAll;
  }

  lemma NotStopped(s: State, e: Env, tokens: seq<Address>, rs: seq<Recipient>)
    requires rs != [] && forall t :: t in tokens ==> !Exceeds(s.pauses, Bal(s.treasury.ledger, t, SELF))
    ensures forall s', k: nat :: !BatchStopped(s, s', rs, tokens, k)
  {
  }

  lemma {:induction false} ReadyRun(s: State, e: Env, tokens: seq<Address>, rs: seq<Recipient>)
    requires ValidRecipients(rs) && SELF !in Addresses(rs) && BatchReady(s, e, tokens, rs)
    ensures BatchRun(s.treasury.ledger, s.pauses, rs, tokens, e.refusing).Paying?
  {
    if tokens != [] {
      var k := |tokens| - 1;
      var l := s.treasury.ledger;
      assert tokens == tokens[..k] + [tokens[k]];
      assert BatchReady(s, e, tokens[..k], rs) by { hide Payable, Splits, Exceeds; FrontReady(s, e, tokens, rs); }
      ReadyRun(s, e, tokens[..k], rs);
      BatchProgress(l, s.pauses, rs, tokens[..k], e.refusing);
      var mid := BatchRun(l, s.pauses, rs, tokens[..k], e.refusing).ledger;
      assert tokens[k] !in tokens[..k];
      assert SameToken(l, mid, tokens[k]);
      NextTokenPays(l, mid, tokens[k], rs, e.refusing, s.pauses);
      hide Payable, Splits, PayOut, PaidOut, ValidRecipients, SameToken;
    }
  }

  lemma FrontReady(s: State, e: Env, tokens: seq<Address>, rs: seq<Recipient>)
    requires tokens != [] && BatchReady(s, e, tokens, rs)
    ensures BatchReady(s, e, tokens[..|tokens| - 1], rs)
  {
    hide Payable, Splits, Exceeds;
    assert forall t :: t in tokens[..|tokens| - 1] ==> t in tokens;
  }

  lemma NextTokenPays(l: Balances, mid: Balances, token: Address, rs: seq<Recipient>, refusing: set<Address>, p: Pauses)
    requires ValidRecipients(rs) && SELF !in Addresses(rs) && SameToken(l, mid, token)
    requires Payable(l, token, rs, refusing) && Splits(Bal(l, token, SELF), rs) && !Exceeds(p, Bal(l, token, SELF))
    ensures var amount := Bal(mid, token, SELF);
      amount == Bal(l, token, SELF) && amount >= |rs| > 0 && !Trips(p, amount) && PayOut(mid, token, amount, rs, refusing).Ok?
  {
    SplitsMeans(Bal(l, token, SELF), rs);
    assert Payable(mid, token, rs, refusing);
    PayOutOkIff(mid, token, Bal(mid, token, SELF), rs, refusing);
  }
}
