/** Which list a distribution pays, spelled out from the stored state and the call. */
module PayLists {
  import opened Types
  import opened Split
  import opened Ledger
  import opened Recipients
  import opened Incentives
  import opened AdminControl
  import opened ContractState
  import opened ContractInvariant
  import opened PayoutEffects

  /** The stored collaborators in order, each with the share the map gives it. */
  ghost predicate StoredAs(r: Registry, rs: seq<Recipient>) {
    && r.collaborators.Some? && r.shareMap.Some? && |rs| == |r.collaborators.value|
    && forall i :: 0 <= i < |rs| ==>
         && rs[i].address == r.collaborators.value[i]
         && rs[i].share == if rs[i].address in r.shareMap.value then r.shareMap.value[rs[i].address] else 0
  }

  lemma BaseIsStored(r: Registry)
    requires r.collaborators.Some? && r.shareMap.Some?
    ensures StoredAs(r, BaseRecipients(r))
  {
  }

  /** The list for an override: the override itself, else the defaults, else the collaborators. */
  ghost predicate ListFor(r: Registry, override: seq<Recipient>, rs: seq<Recipient>) {
    && (override != [] ==> rs == override)
    && (override == [] && r.defaults != [] ==> rs == r.defaults)
    && (override == [] && r.defaults == [] ==> StoredAs(r, rs))
  }

  /** The contract's own address is on no list. */
  ghost predicate Outside(r: Registry, override: seq<Recipient>) {
    && SELF !in Addresses(override) && SELF !in Addresses(r.defaults)
    && (r.collaborators.Some? ==> SELF !in r.collaborators.value)
  }

  lemma EffectiveIsListFor(r: Registry, override: seq<Recipient>)
    requires Effective(r, override).Some?
    ensures ListFor(r, override, Effective(r, override).value)
    ensures Outside(r, override) ==> SELF !in Addresses(Effective(r, override).value)
  {
    if r.collaborators.Some? && r.shareMap.Some? {
      BaseIsStored(r);
      assert Addresses(BaseRecipients(r)) == r.collaborators.value;
    }
  }

  /** A distribution with override pays the list for its override, or trips above the threshold. */
  lemma OverridePaid(s: State, e: Env, token: Address, override: seq<Recipient>) returns (rs: seq<Recipient>)
    requires Inv(s) && DistributeOp(s, e, token, override).Ok? && Outside(s.registry, override)
    ensures var s', amount := DistributeOp(s, e, token, override).value, Bal(s.treasury.ledger, token, SELF);
      if Exceeds(s.pauses, amount) then s' == s.(pauses := s.pauses.(emergency := true))
      else
        && ListFor(s.registry, override, rs) && ValidRecipients(rs)
        && PaidOut(s.treasury.ledger, s'.treasury.ledger, token, amount, rs)
        && (forall t :: t != token ==> SameToken(s.treasury.ledger, s'.treasury.ledger, t))
  {
    rs := [];
    if Effective(s.registry, override).Some? {
      rs := Effective(s.registry, override).value;
      EffectiveIsListFor(s.registry, override);
    }
    hide Effective, PaidOut, SameToken, Outside, ListFor, Inv;
    DistributeEffect(s, e, token, override);
  }

  /** A resilient distribution pays what it can of the split over the list for its override. */
  lemma ResilientPaid(s: State, e: Env, token: Address, override: seq<Recipient>)
    returns (rs: seq<Recipient>, failed: seq<Payment>)
    requires Inv(s) && ResilientOp(s, e, token, override).Ok? && Outside(s.registry, override)
    ensures var s', amount := ResilientOp(s, e, token, override).value, Bal(s.treasury.ledger, token, SELF);
      && ListFor(s.registry, override, rs) && ValidRecipients(rs)
      && PartlyPaid(s.treasury.ledger, s'.treasury.ledger, token, amount, rs, failed)
      && (forall p :: p in failed ==> p in Payments(amount, rs))
      && (forall t :: t != token ==> SameToken(s.treasury.ledger, s'.treasury.ledger, t))
  {
    rs := Effective(s.registry, override).value;
    EffectiveIsListFor(s.registry, override);
    hide Effective, PartlyPaid, SameToken, ListFor, Outside, Inv, Payments, TryPayAll, ResilientOp;
    ResilientEffect(s, e, token, override);
    var ps := Payments(Bal(s.treasury.ledger, token, SELF), rs);
    failed := TryPayAll(s.treasury.ledger, token, ps, e.refusing).failed;
    TryPayAllFrame(s.treasury.ledger, token, ps, e.refusing);
  }

  /** A batch pays the defaults, else the collaborators: all of its tokens, or those before the first one
      above the threshold. */
  lemma BatchPaidLists(s: State, e: Env, tokens: seq<Address>) returns (rs: seq<Recipient>)
    requires Inv(s) && BatchOp(s, e, tokens).Ok? && Outside(s.registry, [])
    ensures var s' := BatchOp(s, e, tokens).value;
      && ListFor(s.registry, [], rs) && ValidRecipients(rs)
      && (BatchComplete(s, s', rs, tokens, e.now) || exists k: nat :: BatchStopped(s, s', rs, tokens, k))
  {
    rs := Effective(s.registry, []).value;
    EffectiveIsListFor(s.registry, []);
    hide Effective, ListFor, BatchComplete, BatchStopped, Inv, Outside;
    BatchOutcome(s, e, tokens);
  }

  /** A secondary distribution pays the pool over the stored collaborators, or trips above the threshold. */
  lemma SecondaryPaid(s: State, e: Env) returns (rs: seq<Recipient>)
    requires Inv(s) && SecondaryOp(s, e).Ok? && Outside(s.registry, [])
    ensures var s' := SecondaryOp(s, e).value;
      if Exceeds(s.pauses, s.treasury.pool) then s' == s.(pauses := s.pauses.(emergency := true))
      else
        && StoredAs(s.registry, rs) && ValidRecipients(rs) && s.treasury.poolToken.Some? && s'.treasury.pool == 0
        && PaidOut(s.treasury.ledger, s'.treasury.ledger, s.treasury.poolToken.value, s.treasury.pool, rs)
        && s'.treasury.lastSecondary == Some(e.now)
  {
    rs := BaseRecipients(s.registry);
    if !Exceeds(s.pauses, s.treasury.pool) {
      CollaboratorsOutside(s);
      SecondaryEffect(s, e);
      hide PaidOut, StoredAs, Outside, Inv;
    }
  }

  lemma CollaboratorsOutside(s: State)
    requires Inv(s) && s.registry.shareMap.Some? && Outside(s.registry, [])
    ensures StoredAs(s.registry, BaseRecipients(s.registry)) && SELF !in Addresses(BaseRecipients(s.registry))
  {
    BaseIsStored(s.registry);
    assert Addresses(BaseRecipients(s.registry)) == s.registry.collaborators.value;
  }

  // ----- Incentives -----

  /** What one collaborator earns: 50 in its first thirty days, and 10 for each hundred royalties it
      recorded, up to 100. */
  ghost function Earned(r: Registry, who: Address, now: u64): int {
    (if who in r.joined && now as int - r.joined[who] as int <= 30 * 24 * 60 * 60 then 50 else 0)
    + if who !in r.activity then 0 else if r.activity[who] >= 1_000 then 100 else 10 * (r.activity[who] / 100)
  }

  ghost function EarnedBy(r: Registry, base: seq<Recipient>, now: u64): int {
    if base == [] then 0 else EarnedBy(r, base[..|base| - 1], now) + Earned(r, base[|base| - 1].address, now)
  }

  /** The list paid with incentives: the base list when switched off or when nobody earns anything; else
      everybody but the last gets its part of what the bonuses leave, rounded down, and its own bonus,
      and the last the rest. */
  ghost predicate IncentiveList(r: Registry, now: u64, base: seq<Recipient>, rs: seq<Recipient>) {
    var total := EarnedBy(r, base, now);
    if !r.incentives || total == 0 then rs == base
    else
      && |rs| == |base| && Sum(Shares(rs)) == 10_000
      && (forall i :: 0 <= i < |base| ==> rs[i].address == base[i].address)
      && (forall i :: 0 <= i < |base| - 1 ==>
            rs[i].share == (10_000 - total) * base[i].share / 10_000 + Earned(r, base[i].address, now))
  }

  lemma {:induction false} BonusesAreEarned(r: Registry, base: seq<Recipient>, now: u64)
    ensures var bs := Bonuses(base, r.joined, r.activity, now);
      && Sum(bs) == EarnedBy(r, base, now)
      && forall i :: 0 <= i < |base| ==> bs[i] == Earned(r, base[i].address, now)
  {
    var bs := Bonuses(base, r.joined, r.activity, now);
    if base != [] {
      var k := |base| - 1;
      BonusesAreEarned(r, base[..k], now);
      assert bs[..k] == Bonuses(base[..k], r.joined, r.activity, now);
    }
  }

  /** The list the contract computes is that list. */
  lemma IncentivesSpelledOut(r: Registry, now: u64)
    requires ValidRecipients(BaseRecipients(r))
    ensures IncentiveList(r, now, BaseRecipients(r), IncentiveRecipients(r, now))
  {
    var base, bonuses := BaseRecipients(r), BonusList(r, now);
    BonusesAreEarned(r, base, now);
    AdjustedTotal(base, bonuses);
    BonusTotal(bonuses);
    if r.incentives { SharesSpelledOut(r, base, bonuses, now, IncentiveRecipients(r, now)); }
  }

  lemma SharesSpelledOut(r: Registry, base: seq<Recipient>, bonuses: seq<u32>, now: u64, rs: seq<Recipient>)
    requires ValidRecipients(base) && |bonuses| == |base| && r.incentives
    requires Sum(bonuses) == EarnedBy(r, base, now) && 0 <= Sum(bonuses) <= 1_500
    requires forall i :: 0 <= i < |base| ==> bonuses[i] == Earned(r, base[i].address, now)
    requires Addresses(rs) == Addresses(base) && Shares(rs) == AdjustedShares(base, bonuses)
    requires Sum(AdjustedShares(base, bonuses)) == 10_000
    ensures IncentiveList(r, now, base, rs)
  {
    AdjustedForm(base, bonuses);
    hide AdjustedShares, Sum, ValidRecipients, Earned, EarnedBy, Part, Raised, Addresses, Shares, FloorOf;
    if Sum(bonuses) == 0 {
      SameList(rs, base);
    } else {
      var pool := 10_000 - Sum(bonuses);
      var front := Raised(base[..|base| - 1], bonuses[..|base| - 1], pool);
      FrontShares(base, bonuses, pool);
      ReadBack(rs, base, front, 10_000 - Sum(front));
      FloorsAre(pool, base);
    }
  }

  lemma SameList(a: seq<Recipient>, b: seq<Recipient>)
    requires Addresses(a) == Addresses(b) && Shares(a) == Shares(b)
    ensures a == b
  {
    assert |a| == |Addresses(a)| == |b|;
    forall i | 0 <= i < |a| ensures a[i] == b[i] {
      assert Addresses(a)[i] == Addresses(b)[i] && Shares(a)[i] == Shares(b)[i];
    }
  }

  lemma ReadBack(rs: seq<Recipient>, base: seq<Recipient>, front: seq<int>, last: int)
    requires Addresses(rs) == Addresses(base) && Shares(rs) == front + [last]
    ensures |rs| == |base| == |front| + 1
    ensures forall i :: 0 <= i < |rs| ==> rs[i].address == base[i].address
    ensures forall i :: 0 <= i < |front| ==> rs[i].share == front[i]
  {
    assert |rs| == |Addresses(rs)| == |base| && |rs| == |Shares(rs)|;
    forall i | 0 <= i < |rs| ensures rs[i].address == base[i].address && rs[i].share == Shares(rs)[i] {
      assert Addresses(rs)[i] == Addresses(base)[i];
    }
  }

  lemma FloorsAre(pool: int, base: seq<Recipient>)
    ensures forall i :: 0 <= i < |base| ==> FloorOf(pool, base[i].share) == pool * base[i].share / 10_000
  {
  }

  ghost function FloorOf(pool: int, share: int): int {
    pool * share / 10_000
  }

  lemma FrontShares(base: seq<Recipient>, bonuses: seq<u32>, pool: nat)
    requires base != [] && |bonuses| == |base|
    ensures var front := Raised(base[..|base| - 1], bonuses[..|base| - 1], pool);
      forall i :: 0 <= i < |base| - 1 ==> front[i] == FloorOf(pool, base[i].share) + bonuses[i]
  {
    forall i | 0 <= i < |base| - 1
      ensures Raised(base[..|base| - 1], bonuses[..|base| - 1], pool)[i] == FloorOf(pool, base[i].share) + bonuses[i]
    {
      PartIsFloor(pool, base[i].share);
      hide Part, FloorOf;
    }
  }

  lemma PartIsFloor(amount: nat, bps: u32)
    ensures Part(amount, bps) == FloorOf(amount, bps)
  {
  }

  /** A distribution with incentives pays the whole balance over that list. */
  lemma IncentivesPaid(s: State, e: Env, token: Address) returns (base: seq<Recipient>, rs: seq<Recipient>)
    requires Inv(s) && IncentivesOp(s, e, token).Ok? && Outside(s.registry, [])
    ensures var s' := IncentivesOp(s, e, token).value;
      && StoredAs(s.registry, base) && IncentiveList(s.registry, e.now, base, rs) && ValidRecipients(rs)
      && PaidOut(s.treasury.ledger, s'.treasury.ledger, token, Bal(s.treasury.ledger, token, SELF), rs)
      && (forall t :: t != token ==> SameToken(s.treasury.ledger, s'.treasury.ledger, t))
  {
    base, rs := BaseRecipients(s.registry), IncentiveRecipients(s.registry, e.now);
    PaidNeedsCollaborators(s, e, token);
    CollaboratorsOutside(s);
    IncentivesSpelledOut(s.registry, e.now);
    IncentivesEffect(s, e, token);
    hide PaidOut, SameToken, StoredAs, Inv, IncentiveList, Outside;
  }

  lemma PaidNeedsCollaborators(s: State, e: Env, token: Address)
    requires Inv(s) && IncentivesOp(s, e, token).Ok?
    ensures s.registry.shareMap.Some? && ValidRecipients(BaseRecipients(s.registry))
    ensures Addresses(IncentiveRecipients(s.registry, e.now)) == Addresses(BaseRecipients(s.registry))
  {
    DefectIffInvalid([]);
  }
}
