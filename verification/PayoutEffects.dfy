/** What the contract's payment calls do to balances. */
module PayoutEffects {
  import opened Types
  import opened Split
  import opened Ledger
  import opened Recipients
  import opened AdminControl
  import opened ContractState
  import opened ContractInvariant

  /** Payments over a valid list that leaves the contract out go to distinct outside addresses,
      and their amounts are the payouts. */
  lemma PaymentsFacts(amount: nat, rs: seq<Recipient>)
    requires ValidRecipients(rs) && SELF !in Addresses(rs)
    ensures Outward(Payments(amount, rs))
    ensures Amounts(Payments(amount, rs)) == Payouts(amount, Shares(rs))
    ensures Sum(Amounts(Payments(amount, rs))) == amount
    ensures forall i :: 0 <= i < |rs| ==> Payments(amount, rs)[i].to == Addresses(rs)[i]
  {
    SplitIsExact(amount, Shares(rs));
    assert forall i :: 0 <= i < |rs| ==> Payments(amount, rs)[i].to == Addresses(rs)[i];
  }

  /** In one token, `amount` left the contract, each recipient got its payout, and nobody else's balance moved. */
  ghost predicate PaidOut(l: Balances, l': Balances, token: Address, amount: nat, rs: seq<Recipient>)
    requires rs != []
  {
    && Bal(l', token, SELF) == Bal(l, token, SELF) - amount
    && (forall i :: 0 <= i < |rs| ==>
          Bal(l', token, rs[i].address) == Bal(l, token, rs[i].address) + Payouts(amount, Shares(rs))[i])
    && (forall who :: who != SELF && who !in Addresses(rs) ==> Bal(l', token, who) == Bal(l, token, who))
  }

  ghost predicate SameToken(l: Balances, l': Balances, token: Address) {
    forall who :: Bal(l', token, who) == Bal(l, token, who)
  }

  lemma PayOutEffect(l: Balances, token: Address, amount: nat, rs: seq<Recipient>, refusing: set<Address>)
    requires ValidRecipients(rs) && SELF !in Addresses(rs)
    requires PayOut(l, token, amount, rs, refusing).Ok?
    ensures PaidOut(l, PayOut(l, token, amount, rs, refusing).value, token, amount, rs)
    ensures forall t :: t != token ==> SameToken(l, PayOut(l, token, amount, rs, refusing).value, t)
  {
    var ps := Payments(amount, rs);
    PaymentsFacts(amount, rs);
    PayAllEffect(l, token, ps, refusing);
    forall who | who !in Addresses(rs) ensures !Receives(ps, who) {
    }
    assert forall i :: 0 <= i < |rs| ==> ps[i].amount == Amounts(ps)[i];
  }

  /** A primary distribution that pays empties the contract of the token and pays the split of
      its whole balance; the only other success is an anomaly trip, which moves nothing. */
  lemma DistributeEffect(s: State, e: Env, token: Address, override: seq<Recipient>)
    requires Inv(s) && DistributeOp(s, e, token, override).Ok?
    requires Effective(s.registry, override).Some? ==> SELF !in Addresses(Effective(s.registry, override).value)
    ensures var s', amount := DistributeOp(s, e, token, override).value, Bal(s.treasury.ledger, token, SELF);
      if Exceeds(s.pauses, amount) then s' == s.(pauses := s.pauses.(emergency := true))
      else
        var rs := Effective(s.registry, override);
        && rs.Some? && ValidRecipients(rs.value)
        && PaidOut(s.treasury.ledger, s'.treasury.ledger, token, amount, rs.value)
        && Bal(s'.treasury.ledger, token, SELF) == 0
        && (forall t :: t != token ==> SameToken(s.treasury.ledger, s'.treasury.ledger, t))
        && s'.pauses == s.pauses && s'.treasury.lastDistribution == Some(e.now)
        && s'.treasury.count == SaturatingAdd(s.treasury.count, 1, U64_LIMIT)
  {
    var amount := Bal(s.treasury.ledger, token, SELF);
    if !Trips(s.pauses, amount) {
      var rs := Effective(s.registry, override).value;
      DefectIffInvalid(rs);
      PayOutEffect(s.treasury.ledger, token, amount, rs, e.refusing);
    }
  }

  /** A distribution with incentives pays the split of the whole balance over the incentive list. */
  lemma IncentivesEffect(s: State, e: Env, token: Address)
    requires Inv(s) && IncentivesOp(s, e, token).Ok?
    requires SELF !in Addresses(IncentiveRecipients(s.registry, e.now))
    ensures var s', amount, rs := IncentivesOp(s, e, token).value, Bal(s.treasury.ledger, token, SELF),
                                  IncentiveRecipients(s.registry, e.now);
      && ValidRecipients(rs)
      && PaidOut(s.treasury.ledger, s'.treasury.ledger, token, amount, rs)
      && Bal(s'.treasury.ledger, token, SELF) == 0
      && (forall t :: t != token ==> SameToken(s.treasury.ledger, s'.treasury.ledger, t))
      && s' == s.(treasury := s.treasury.(ledger := s'.treasury.ledger, lastDistribution := Some(e.now),
                                          count := SaturatingAdd(s.treasury.count, 1, U64_LIMIT)))
  {
    var rs := IncentiveRecipients(s.registry, e.now);
    DefectIffInvalid(rs);
    hide IncentiveRecipients, Inv;
    PayOutEffect(s.treasury.ledger, token, Bal(s.treasury.ledger, token, SELF), rs, e.refusing);
  }

  /** A withdrawal moves exactly its amount from the contract to the stored admin, and nothing else. */
  lemma WithdrawEffect(s: State, e: Env, token: Address, amount: int)
    requires WithdrawOp(s, e, token, amount).Ok?
    ensures s.admins.admin.Some? && AdminSigned(s.admins, e.signers) && 0 < amount <= Bal(s.treasury.ledger, token, SELF)
    ensures var s', admin := WithdrawOp(s, e, token, amount).value, s.admins.admin.value;
      && s' == s.(treasury := s.treasury.(ledger := s'.treasury.ledger))
      && (forall t, who :: Bal(s'.treasury.ledger, t, who) ==
            Bal(s.treasury.ledger, t, who)
            - (if t == token && who == SELF then amount else 0) + (if t == token && who == admin then amount else 0))
  {
  }

  /** No receiver refuses, and each has room for everything the contract holds. */
  ghost predicate Payable(l: Balances, token: Address, rs: seq<Recipient>, refusing: set<Address>) {
    forall a :: a in Addresses(rs) ==> a !in refusing && Bal(l, token, a) + Bal(l, token, SELF) <= I128_MAX
  }

  /** A list paid to willing receivers with room goes through when the contract holds the total. */
  lemma {:induction false} PayAllSucceeds(l: Balances, token: Address, ps: seq<Payment>, refusing: set<Address>)
    requires Outward(ps) && forall i :: 0 <= i < |ps| ==>
      ps[i].amount >= 0 && ps[i].to !in refusing && Bal(l, token, ps[i].to) + Bal(l, token, SELF) <= I128_MAX
    requires Sum(Amounts(ps)) <= Bal(l, token, SELF)
    ensures PayAll(l, token, ps, refusing).Some?
  {
    if ps != [] {
      var front, last := ps[..|ps| - 1], ps[|ps| - 1];
      AmountsLast(ps);
      PayAllSucceeds(l, token, front, refusing);
      PayAllEffect(l, token, front, refusing);
      assert forall i :: 0 <= i < |front| ==> Amounts(front)[i] >= 0;
      SumNonNegative(Amounts(front));
      assert !Receives(front, last.to);
    }
  }

  lemma PayoutsNonNegative(amount: nat, rs: seq<Recipient>)
    requires ValidRecipients(rs)
    ensures forall i :: 0 <= i < |rs| ==> Payouts(amount, Shares(rs))[i] >= 0
  {
    SplitIsExact(amount, Shares(rs));
  }

  /** With willing receivers, the only arithmetic failure of a split-and-pay of anything up to the balance
      is an overflowing product. */
  lemma PayOutOkIff(l: Balances, token: Address, amount: nat, rs: seq<Recipient>, refusing: set<Address>)
    requires ValidRecipients(rs) && SELF !in Addresses(rs) && Payable(l, token, rs, refusing) && amount <= Bal(l, token, SELF)
    ensures PayOut(l, token, amount, rs, refusing).Ok? <==> !SplitOverflows(amount, rs)
  {
    PaymentsFacts(amount, rs);
    PayoutsNonNegative(amount, rs);
    var ps := Payments(amount, rs);
    hide Payments, Payouts, Part, Floors, Sum, SplitOverflows, ValidRecipients;
    forall i | 0 <= i < |ps|
      ensures ps[i].amount >= 0 && ps[i].to !in refusing && Bal(l, token, ps[i].to) + Bal(l, token, SELF) <= I128_MAX
    {
      assert ps[i].amount == Amounts(ps)[i] && ps[i].to == Addresses(rs)[i];
      assert Addresses(rs)[i] in Addresses(rs);
    }
    PayAllSucceeds(l, token, ps, refusing);
  }

  /** Exactly when a primary distribution succeeds, if the list leaves the contract out and its
      members are willing: authorization, pauses, approval, an empty or too small balance, an
      invalid list and an overflowing product are the only things that stop it. */
  lemma DistributeOkIff(s: State, e: Env, token: Address, override: seq<Recipient>)
    requires Inv(s) && Effective(s.registry, override).Some?
    requires SELF !in Addresses(Effective(s.registry, override).value)
    requires Payable(s.treasury.ledger, token, Effective(s.registry, override).value, e.refusing)
    ensures var amount, rs := Bal(s.treasury.ledger, token, SELF), Effective(s.registry, override).value;
      DistributeOp(s, e, token, override).Ok? <==>
        && AdminSigned(s.admins, e.signers)
        && !s.pauses.emergency && !s.pauses.global && !s.pauses.primary
        && (s.treasury.approved == [] || token in s.treasury.approved)
        && amount > 0
        && (Exceeds(s.pauses, amount)
            || (ValidRecipients(rs) && amount >= |rs| && !SplitOverflows(amount, rs)))
  {
    hide Inv, SplitOverflows, Payable, PayOut;
    var rs := Effective(s.registry, override).value;
    DefectIffInvalid(rs);
    if ValidRecipients(rs) {
      PayOutOkIff(s.treasury.ledger, token, Bal(s.treasury.ledger, token, SELF), rs, e.refusing);
    }
  }

  /** Best effort over the split of `amount`: the contract still holds the failed payments, and
      every other recipient has its payout. */
  ghost predicate PartlyPaid(l: Balances, l': Balances, token: Address, amount: nat, rs: seq<Recipient>, failed: seq<Payment>)
    requires rs != []
  {
    && Bal(l', token, SELF) == Bal(l, token, SELF) - amount + Sum(Amounts(failed))
    && (forall i :: 0 <= i < |rs| ==>
          Bal(l', token, rs[i].address) - Bal(l, token, rs[i].address)
          == if Payments(amount, rs)[i] in failed then 0 else Payouts(amount, Shares(rs))[i])
    && (forall who :: who != SELF && who !in Addresses(rs) ==> Bal(l', token, who) == Bal(l, token, who))
  }

  lemma TryPayOutEffect(l: Balances, token: Address, amount: nat, rs: seq<Recipient>, refusing: set<Address>)
    requires ValidRecipients(rs) && SELF !in Addresses(rs)
    ensures var a := TryPayAll(l, token, Payments(amount, rs), refusing);
      && PartlyPaid(l, a.ledger, token, amount, rs, a.failed)
      && forall t :: t != token ==> SameToken(l, a.ledger, t)
  {
    var ps := Payments(amount, rs);
    PaymentsFacts(amount, rs);
    TryPayAllEffect(l, token, ps, refusing);
    TryPayAllFrame(l, token, ps, refusing);
    forall who | who !in Addresses(rs) ensures !Receives(ps, who) {
    }
    assert forall i :: 0 <= i < |rs| ==> ps[i].amount == Amounts(ps)[i];
  }

  /** After a best-effort distribution the contract holds exactly the failed recipients' payouts, for
      every pattern of failures; the counter and the time move exactly when somebody was paid. */
  lemma ResilientEffect(s: State, e: Env, token: Address, override: seq<Recipient>)
    requires Inv(s) && ResilientOp(s, e, token, override).Ok?
    requires SELF !in Addresses(Effective(s.registry, override).value)
    ensures var s', amount, rs := ResilientOp(s, e, token, override).value, Bal(s.treasury.ledger, token, SELF),
                                  Effective(s.registry, override).value;
      && ValidRecipients(rs)
      && var failed := TryPayAll(s.treasury.ledger, token, Payments(amount, rs), e.refusing).failed;
      && PartlyPaid(s.treasury.ledger, s'.treasury.ledger, token, amount, rs, failed)
      && Bal(s'.treasury.ledger, token, SELF) == Sum(Amounts(failed))
      && s'.treasury.count == (if |failed| < |rs| then SaturatingAdd(s.treasury.count, 1, U64_LIMIT) else s.treasury.count)
      && s'.treasury.lastDistribution == (if |failed| < |rs| then Some(e.now) else s.treasury.lastDistribution)
      && (forall t :: t != token ==> SameToken(s.treasury.ledger, s'.treasury.ledger, t))
  {
    var rs := Effective(s.registry, override).value;
    DefectIffInvalid(rs);
    TryPayOutEffect(s.treasury.ledger, token, Bal(s.treasury.ledger, token, SELF), rs, e.refusing);
  }

  /** A secondary distribution that pays moves exactly the pool, split over the collaborators. */
  lemma SecondaryEffect(s: State, e: Env)
    requires Inv(s) && SecondaryOp(s, e).Ok? && !Exceeds(s.pauses, s.treasury.pool)
    requires SELF !in Addresses(BaseRecipients(s.registry))
    ensures s.treasury.poolToken.Some? && ValidRecipients(BaseRecipients(s.registry))
    ensures var s' := SecondaryOp(s, e).value;
      && s'.treasury.pool == 0
      && PaidOut(s.treasury.ledger, s'.treasury.ledger, s.treasury.poolToken.value, s.treasury.pool, BaseRecipients(s.registry))
      && (forall t :: t != s.treasury.poolToken.value ==> SameToken(s.treasury.ledger, s'.treasury.ledger, t))
  {
    PayOutEffect(s.treasury.ledger, s.treasury.poolToken.value, s.treasury.pool, BaseRecipients(s.registry), e.refusing);
  }

  // ----- Batches -----

  /** While a batch is still paying, its tokens so far are pairwise distinct, each has been paid
      out in full, and no other token has moved. */
  ghost predicate BatchPaid(l: Balances, l': Balances, rs: seq<Recipient>, tokens: seq<Address>)
    requires rs != []
  {
    && Distinct(tokens)
    && (forall t :: t in tokens ==> Bal(l, t, SELF) > 0 && PaidOut(l, l', t, Bal(l, t, SELF), rs))
    && (forall t :: t !in tokens ==> SameToken(l, l', t))
  }

  lemma {:induction false} BatchProgress(l: Balances, p: Pauses, rs: seq<Recipient>, tokens: seq<Address>, refusing: set<Address>)
    requires ValidRecipients(rs) && SELF !in Addresses(rs)
    requires BatchRun(l, p, rs, tokens, refusing).Paying?
    ensures BatchPaid(l, BatchRun(l, p, rs, tokens, refusing).ledger, rs, tokens)
  {
    if tokens != [] {
      var k := |tokens| - 1;
      var mid := BatchRun(l, p, rs, tokens[..k], refusing).ledger;
      LastOfBatch(l, p, rs, tokens, refusing);
      BatchProgress(l, p, rs, tokens[..k], refusing);
      hide BatchRun, PayOut, BatchPaid, ValidRecipients;
      OneMoreToken(l, mid, BatchRun(l, p, rs, tokens, refusing).ledger, rs, tokens[..k], tokens[k], refusing);
      assert tokens == tokens[..k] + [tokens[k]];
    } else {
      hide ValidRecipients;
    }
  }

  lemma OneMoreToken(l: Balances, mid: Balances, l': Balances, rs: seq<Recipient>, front: seq<Address>, token: Address,
                     refusing: set<Address>)
    requires ValidRecipients(rs) && SELF !in Addresses(rs) && BatchPaid(l, mid, rs, front)
    requires Bal(mid, token, SELF) > 0 && PayOut(mid, token, Bal(mid, token, SELF), rs, refusing) == Ok(l')
    ensures BatchPaid(l, l', rs, front + [token])
  {
    hide PayOut, BatchPaid, PaidOut, SameToken;
    FundedIsNew(l, mid, rs, front, token);
    PayOutEffect(mid, token, Bal(mid, token, SELF), rs, refusing);
    BatchSnoc(l, mid, l', rs, front, token);
  }

  lemma LastOfBatch(l: Balances, p: Pauses, rs: seq<Recipient>, tokens: seq<Address>, refusing: set<Address>)
    requires rs != [] && tokens != [] && BatchRun(l, p, rs, tokens, refusing).Paying?
    ensures var k := |tokens| - 1;
      && BatchRun(l, p, rs, tokens[..k], refusing).Paying?
      && var mid := BatchRun(l, p, rs, tokens[..k], refusing).ledger;
        && Bal(mid, tokens[k], SELF) > 0 && !Exceeds(p, Bal(mid, tokens[k], SELF))
        && PayOut(mid, tokens[k], Bal(mid, tokens[k], SELF), rs, refusing) == Ok(BatchRun(l, p, rs, tokens, refusing).ledger)
  {
  }

  /** A token that was paid out has no balance left to pay out again. */
  lemma FundedIsNew(l: Balances, mid: Balances, rs: seq<Recipient>, front: seq<Address>, token: Address)
    requires rs != [] && BatchPaid(l, mid, rs, front) && Bal(mid, token, SELF) > 0
    ensures token !in front
  {
    forall t | t in front ensures Bal(mid, t, SELF) == 0 {
      assert PaidOut(l, mid, t, Bal(l, t, SELF), rs);
    }
  }

  lemma BatchSnoc(l: Balances, mid: Balances, l': Balances, rs: seq<Recipient>, front: seq<Address>, token: Address)
    requires rs != [] && token !in front && BatchPaid(l, mid, rs, front)
    requires Bal(mid, token, SELF) > 0 && PaidOut(mid, l', token, Bal(mid, token, SELF), rs)
    requires forall t :: t != token ==> SameToken(mid, l', t)
    ensures BatchPaid(l, l', rs, front + [token])
  {
    assert SameToken(l, mid, token);
    forall t | t in front ensures PaidOut(l, l', t, Bal(l, t, SELF), rs) {
      assert SameToken(mid, l', t) && PaidOut(l, mid, t, Bal(l, t, SELF), rs);
    }
    forall t | t !in front + [token] ensures SameToken(l, l', t) {
      assert t !in front && t != token;
      assert SameToken(l, mid, t) && SameToken(mid, l', t);
    }
  }

  /** No token of a paying batch is above the threshold. */
  lemma {:induction false} BatchWithinThreshold(l: Balances, p: Pauses, rs: seq<Recipient>, tokens: seq<Address>, refusing: set<Address>)
    requires ValidRecipients(rs) && SELF !in Addresses(rs)
    requires BatchRun(l, p, rs, tokens, refusing).Paying?
    ensures forall t :: t in tokens ==> !Exceeds(p, Bal(l, t, SELF))
  {
    if tokens != [] {
      var k := |tokens| - 1;
      var mid := BatchRun(l, p, rs, tokens[..k], refusing).ledger;
      LastOfBatch(l, p, rs, tokens, refusing);
      BatchWithinThreshold(l, p, rs, tokens[..k], refusing);
      BatchProgress(l, p, rs, tokens[..k], refusing);
      hide BatchRun, PaidOut, ValidRecipients, PayOut;
      FundedIsNew(l, mid, rs, tokens[..k], tokens[k]);
      assert SameToken(l, mid, tokens[k]);
      assert tokens == tokens[..k] + [tokens[k]];
    }
  }

  /** A batch stopped at index k paid exactly the tokens before k. */
  lemma {:induction false} TrippedPrefix(l: Balances, p: Pauses, rs: seq<Recipient>, tokens: seq<Address>, refusing: set<Address>)
    requires rs != [] && BatchRun(l, p, rs, tokens, refusing).Tripped?
    ensures var b := BatchRun(l, p, rs, tokens, refusing);
      && b.k < |tokens|
      && BatchRun(l, p, rs, tokens[..b.k], refusing) == Paying(b.ledger)
      && Trips(p, Bal(b.ledger, tokens[b.k], SELF))
  {
    var n := |tokens| - 1;
    var before := BatchRun(l, p, rs, tokens[..n], refusing);
    if before.Tripped? {
      TrippedPrefix(l, p, rs, tokens[..n], refusing);
      assert tokens[..n][..before.k] == tokens[..before.k];
    }
  }

  /** Every token of the batch was paid: the contract holds none of them and the counter rose by their number. */
  ghost predicate BatchComplete(s: State, s': State, rs: seq<Recipient>, tokens: seq<Address>, now: u64)
    requires rs != []
  {
    && BatchPaid(s.treasury.ledger, s'.treasury.ledger, rs, tokens)
    && (forall t :: t in tokens ==> Bal(s'.treasury.ledger, t, SELF) == 0)
    && (forall t :: t in tokens ==> !Exceeds(s.pauses, Bal(s.treasury.ledger, t, SELF)))
    && s' == s.(treasury := s.treasury.(ledger := s'.treasury.ledger, lastDistribution := Some(now),
                                        count := SaturatingAdd(s.treasury.count, |tokens|, U64_LIMIT)))
  }

  /** The amount is above the anomaly threshold, if there is one. */
  ghost predicate Exceeds(p: Pauses, amount: int) {
    match p.anomaly case None => false case Some(limit) => amount > limit
  }

  /** The batch stopped at index k: the tokens before it are paid in full, that token and all tokens
      not before it stand still, the emergency pause is on, and counter and time are unchanged. */
  ghost predicate BatchStopped(s: State, s': State, rs: seq<Recipient>, tokens: seq<Address>, k: nat)
    requires rs != []
  {
    && k < |tokens| && tokens[k] !in tokens[..k]
    && BatchPaid(s.treasury.ledger, s'.treasury.ledger, rs, tokens[..k])
    && Exceeds(s.pauses, Bal(s.treasury.ledger, tokens[k], SELF))
    && s' == s.(pauses := s.pauses.(emergency := true), treasury := s.treasury.(ledger := s'.treasury.ledger))
  }

  /** A batch that succeeds is complete, with pairwise distinct tokens, or stopped by the anomaly check. */
  lemma BatchOutcome(s: State, e: Env, tokens: seq<Address>)
    requires Inv(s) && BatchOp(s, e, tokens).Ok?
    requires SELF !in Addresses(Effective(s.registry, []).value)
    ensures var s', rs := BatchOp(s, e, tokens).value, Effective(s.registry, []).value;
      && ValidRecipients(rs)
      && (BatchComplete(s, s', rs, tokens, e.now) || exists k: nat :: BatchStopped(s, s', rs, tokens, k))
  {
    var rs := Effective(s.registry, []).value;
    var l := s.treasury.ledger;
    match BatchRun(l, s.pauses, rs, tokens, e.refusing)
    case Failed(_) =>
    case Paying(l') =>
      BatchProgress(l, s.pauses, rs, tokens, e.refusing);
      BatchWithinThreshold(l, s.pauses, rs, tokens, e.refusing);
      forall t | t in tokens ensures Bal(l', t, SELF) == 0 {
        assert PaidOut(l, l', t, Bal(l, t, SELF), rs);
      }
    case Tripped(k, l') =>
      TrippedPrefix(l, s.pauses, rs, tokens, e.refusing);
      BatchProgress(l, s.pauses, rs, tokens[..k], e.refusing);
      forall t | t in tokens[..k] ensures Bal(l', t, SELF) == 0 {
        assert PaidOut(l, l', t, Bal(l, t, SELF), rs);
      }
      assert SameToken(l, l', tokens[k]);
      assert BatchStopped(s, BatchOp(s, e, tokens).value, rs, tokens, k);
  }
}
