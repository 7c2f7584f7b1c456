/** The two-stage share adjustment behind `distribute_with_incentives`. */
module Incentives {
  import opened Types
  import opened Split
  import opened Recipients

  const EARLY_ADOPTER_WINDOW_SECS: int := 2_592_000
  const EARLY_ADOPTER_BONUS_BPS: int := 50
  const ACTIVITY_BONUS_BPS_PER_STEP: int := 10
  const ACTIVITY_BONUS_STEP: int := 100
  const ACTIVITY_BONUS_MAX_STEPS: int := 10
  const MAX_INDIVIDUAL_INCENTIVE_BPS: int := 1_000
  const MAX_TOTAL_INCENTIVE_BPS: int := 2_000

  function Min(x: int, y: int): int {
    if x <= y then x else y
  }

  /** One collaborator's bonus: early adoption plus capped activity. The 1_000 bps cap never binds. */
  function Bonus(joined: Option<u64>, activity: u32, now: u64): (r: u32)
    ensures 0 <= r <= 150
    ensures r == (if joined.Some? && now <= joined.value + EARLY_ADOPTER_WINDOW_SECS then 50 else 0)
              + (if activity >= 1_000 then 100 else 10 * (activity / 100))
  {
    var early := if joined.Some? && SaturatingSub(now, joined.value) <= EARLY_ADOPTER_WINDOW_SECS
                 then EARLY_ADOPTER_BONUS_BPS else 0;
    var steps := Min(activity / ACTIVITY_BONUS_STEP, ACTIVITY_BONUS_MAX_STEPS);
    Min(SaturatingAdd(early, steps * ACTIVITY_BONUS_BPS_PER_STEP, U32_LIMIT), MAX_INDIVIDUAL_INCENTIVE_BPS)
  }

  /** The bonus of every listed collaborator, from the stored join dates and activity counts. */
  function Bonuses(base: seq<Recipient>, joined: map<Address, u64>, activity: map<Address, u32>, now: u64): (r: seq<u32>)
    ensures |r| == |base| && forall i :: 0 <= i < |r| ==> r[i] <= 150
  {
    seq(|base|, i requires 0 <= i < |base| =>
      var a := base[i].address;
      Bonus(if a in joined then Some(joined[a]) else None, if a in activity then activity[a] else 0, now))
  }

  /** Shares of all recipients but the last: the base share shrunk to what the bonuses leave, plus the bonus. */
  function Raised(base: seq<Recipient>, bonuses: seq<u32>, pool: nat): (r: seq<int>)
    requires |bonuses| == |base|
    ensures |r| == |base|
  {
    seq(|base|, i requires 0 <= i < |base| => Part(pool, base[i].share) + bonuses[i])
  }

  /** The shares paid with incentives on: no cap appears, because none can bind. */
  ghost function AdjustedShares(base: seq<Recipient>, bonuses: seq<u32>): (r: seq<int>)
    requires |bonuses| == |base| && base != [] && Sum(bonuses) <= 10_000
    ensures |r| == |base|
  {
    if Sum(bonuses) == 0 then Shares(base)
    else
      var front := Raised(base[..|base| - 1], bonuses[..|base| - 1], 10_000 - Sum(bonuses));
      front + [10_000 - Sum(front)]
  }

  lemma {:induction false} RaisedSum(base: seq<Recipient>, bonuses: seq<u32>, pool: nat)
    requires |bonuses| == |base|
    ensures Sum(Raised(base, bonuses, pool)) == Sum(Floors(pool, Shares(base))) + Sum(bonuses)
  {
    if base != [] {
      var k := |base| - 1;
      RaisedSum(base[..k], bonuses[..k], pool);
      var x := Part(pool, base[k].share);
      assert Raised(base, bonuses, pool) == Raised(base[..k], bonuses[..k], pool) + [x + bonuses[k]];
      SumAppend(Raised(base[..k], bonuses[..k], pool), x + bonuses[k]);
      assert Shares(base)[..k] == Shares(base[..k]);
      assert Floors(pool, Shares(base)) == Floors(pool, Shares(base[..k])) + [x];
      SumAppend(Floors(pool, Shares(base[..k])), x);
    }
  }

  lemma {:induction false} BonusTotal(bonuses: seq<u32>)
    requires forall i :: 0 <= i < |bonuses| ==> bonuses[i] <= 150
    ensures 0 <= Sum(bonuses) <= 150 * |bonuses|
    ensures Sum(bonuses) > 0 <==> exists i :: 0 <= i < |bonuses| && bonuses[i] > 0
  {
    if bonuses != [] {
      BonusTotal(bonuses[..|bonuses| - 1]);
    }
  }

  /** What the recipients before the last take leaves the last one a positive share. */
  lemma FrontLeavesRoom(base: seq<Recipient>, bonuses: seq<u32>)
    requires ValidRecipients(base) && |bonuses| == |base|
    requires forall i :: 0 <= i < |bonuses| ==> bonuses[i] <= 150
    ensures var n := |base|;
      && 0 <= Sum(bonuses) <= 1_500
      && 0 <= Sum(Raised(base[..n - 1], bonuses[..n - 1], 10_000 - Sum(bonuses))) <= 9_999
  {
    hide Part, Raised, Floors;
    var n := |base|;
    BonusTotal(bonuses);
    BonusTotal(bonuses[..n - 1]);
    var pool := 10_000 - Sum(bonuses);
    var front := base[..n - 1];
    RaisedSum(front, bonuses[..n - 1], pool);
    FloorsBound(pool, Shares(front));
    SumNonNegative(Floors(pool, Shares(front)));
    SharesSnoc(base);
    ScaledBelow(pool, Sum(Shares(front)), base[n - 1].share);
  }

  lemma ScaledBelow(pool: nat, rest: int, last: int)
    requires pool >= 8_500 && last >= 1 && rest + last == 10_000
    ensures pool * rest < 10_000 * pool
  {
    Distribute(pool, rest, last);
  }

  /** With bonuses the shares still sum to 10_000 and the last one is at least 1. */
  lemma AdjustedTotal(base: seq<Recipient>, bonuses: seq<u32>)
    requires ValidRecipients(base) && |bonuses| == |base|
    requires forall i :: 0 <= i < |bonuses| ==> bonuses[i] <= 150
    ensures Sum(bonuses) <= 1_500
    ensures var adjusted := AdjustedShares(base, bonuses);
      && Sum(adjusted) == 10_000
      && adjusted[|base| - 1] >= 1
      && forall i :: 0 <= i < |base| ==> 0 <= adjusted[i] <= 10_000
  {
    FrontLeavesRoom(base, bonuses);
    var n := |base|;
    if Sum(bonuses) == 0 {
      SumNonNegative(Shares(base));
    } else {
      var front := Raised(base[..n - 1], bonuses[..n - 1], 10_000 - Sum(bonuses));
      SumAppend(front, 10_000 - Sum(front));
      SumNonNegative(front);
    }
  }

  /** A shrunk share vanishes exactly when it was 1 and earns no bonus. */
  lemma RaisedIsZeroIff(pool: nat, share: u32, bonus: u32)
    requires 8_500 <= pool < 10_000 && share > 0
    ensures Part(pool, share) + bonus == 0 <==> share == 1 && bonus == 0
  {
    if share >= 2 {
      Distribute(pool, 2, share - 2);
      assert pool * (share - 2) >= 0;
    }
  }

  function WithShares(base: seq<Recipient>, shares: seq<u32>): (r: seq<Recipient>)
    requires |shares| == |base|
    ensures Addresses(r) == Addresses(base) && Shares(r) == shares
  {
    var r := seq(|base|, i requires 0 <= i < |base| => Recipient(base[i].address, shares[i]));
    assert forall i :: 0 <= i < |base| ==> Addresses(r)[i] == Addresses(base)[i];
    r
  }

  /** With some bonus positive, the adjusted list passes the validator exactly when no recipient
      before the last has share 1 and no bonus. */
  lemma AdjustedValidIff(base: seq<Recipient>, bonuses: seq<u32>)
    requires ValidRecipients(base) && |bonuses| == |base|
    requires forall i :: 0 <= i < |bonuses| ==> bonuses[i] <= 150
    requires Sum(bonuses) > 0
    ensures Sum(bonuses) <= 1_500 && forall i :: 0 <= i < |base| ==> 0 <= AdjustedShares(base, bonuses)[i] <= 10_000
    ensures ValidRecipients(WithShares(base, AdjustedShares(base, bonuses)))
      <==> !exists i :: 0 <= i < |base| - 1 && base[i].share == 1 && bonuses[i] == 0
  {
    AdjustedTotal(base, bonuses);
    AdjustedZeroIff(base, bonuses);
    hide Sum, AdjustedShares;
    var list := WithShares(base, AdjustedShares(base, bonuses));
    SameListValidIff(base, list);
    assert forall i :: 0 <= i < |base| ==> list[i].share == Shares(list)[i];
    hide ValidRecipients, WithShares;
  }

  /** The last adjusted share is positive, and another one is zero exactly for share 1 and bonus 0. */
  lemma AdjustedZeroIff(base: seq<Recipient>, bonuses: seq<u32>)
    requires ValidRecipients(base) && |bonuses| == |base|
    requires forall i :: 0 <= i < |bonuses| ==> bonuses[i] <= 150
    requires 0 < Sum(bonuses) <= 1_500
    ensures AdjustedShares(base, bonuses)[|base| - 1] >= 1
    ensures forall i :: 0 <= i < |base| - 1 ==>
              (AdjustedShares(base, bonuses)[i] == 0 <==> base[i].share == 1 && bonuses[i] == 0)
  {
    AdjustedTotal(base, bonuses);
    AdjustedForm(base, bonuses);
    hide Sum, AdjustedShares, Part;
    forall i | 0 <= i < |base| - 1
      ensures AdjustedShares(base, bonuses)[i] == 0 <==> base[i].share == 1 && bonuses[i] == 0
    {
      RaisedIsZeroIff(10_000 - Sum(bonuses), base[i].share, bonuses[i]);
    }
  }

  /** A list with the addresses of a valid one and the same total is valid when no share is zero. */
  lemma SameListValidIff(base: seq<Recipient>, list: seq<Recipient>)
    requires ValidRecipients(base) && Addresses(list) == Addresses(base) && Sum(Shares(list)) == 10_000
    ensures ValidRecipients(list) <==> forall i :: 0 <= i < |list| ==> list[i].share > 0
  {
    hide Sum;
    assert |list| == |Addresses(list)| == |base|;
  }

  ghost predicate ScaledDown(raw: seq<u32>, scaled: seq<int>, total: int) {
    |scaled| == |raw| && total > 0 && forall i :: 0 <= i < |raw| ==> scaled[i] == raw[i] * MAX_TOTAL_INCENTIVE_BPS / total
  }

  /** The total bonus and the bonuses after the total cap; below the cap they are kept as they are. */
  method ScaleBonuses(raw: seq<u32>) returns (scaled: seq<int>, total: int, scaledSum: int)
    ensures |scaled| == |raw| && total == if Sum(raw) < U32_LIMIT then Sum(raw) else U32_LIMIT - 1
    ensures Sum(raw) <= MAX_TOTAL_INCENTIVE_BPS ==> scaled == raw && scaledSum == total
    ensures Sum(raw) > MAX_TOTAL_INCENTIVE_BPS ==> ScaledDown(raw, scaled, total)
  {
    total := 0;
    for i := 0 to |raw|
      invariant Sum(raw[..i]) >= 0
      invariant total == if Sum(raw[..i]) < U32_LIMIT then Sum(raw[..i]) else U32_LIMIT - 1
    {
      assert raw[..i + 1][..i] == raw[..i];
      total := SaturatingAdd(total, raw[i], U32_LIMIT);
    }
    assert raw[..|raw|] == raw;
    var effective := Min(total, MAX_TOTAL_INCENTIVE_BPS);
    scaled, scaledSum := [], 0;
    for i := 0 to |raw|
      invariant |scaled| == i && 0 <= scaledSum < U32_LIMIT
      invariant forall j :: 0 <= j < i ==> scaled[j] == ScaledBonus(raw[j], effective, total)
      invariant total == effective ==> scaledSum == Sum(raw[..i]) <= total
    {
      ScaledSumStep(raw, i);
      var share := ScaledBonus(raw[i], effective, total);
      scaledSum := SaturatingAdd(scaledSum, share, U32_LIMIT);
      scaled := scaled + [share];
    }
  }

  function ScaledBonus(bonus: u32, effective: int, total: int): (r: int)
    requires 0 <= effective <= total
    ensures r >= 0
    ensures total == effective ==> r == bonus
  {
    assert bonus * effective >= 0;
    if total == effective then bonus else bonus * effective / total
  }

  lemma ScaledSumStep(raw: seq<u32>, i: nat)
    requires i < |raw|
    ensures Sum(raw[..i + 1]) == Sum(raw[..i]) + raw[i] && Sum(raw[..i + 1]) <= Sum(raw)
  {
    assert raw[..i + 1][..i] == raw[..i];
    SumPrefix(raw, i + 1);
  }

  /** The adjustment loops of `calculate_incentive_shares`. The checked subtraction never fails. */
  method Adjust(base: seq<Recipient>, raw: seq<u32>) returns (r: seq<Recipient>)
    requires ValidRecipients(base) && |raw| == |base|
    requires forall i :: 0 <= i < |raw| ==> raw[i] <= 150
    ensures Sum(raw) <= 1_500
    ensures Addresses(r) == Addresses(base) && Shares(r) == AdjustedShares(base, raw)
  {
    var n := |base|;
    FrontLeavesRoom(base, raw);
    hide Sum, ScaledDown, ValidRecipients, Part, AdjustedShares, Addresses, Shares, Raised;
    var scaled, total, scaledSum := ScaleBonuses(raw);
    if total == 0 {
      AdjustedForm(base, raw);
      return base;
    }
    ghost var front := Raised(base[..n - 1], raw[..n - 1], 10_000 - scaledSum);
    FrontNonNegative(front, base, scaled, 10_000 - scaledSum);
    var given: u32;
    r, given := RaiseFront(base, scaled, 10_000 - scaledSum, front);
    r := r + [Recipient(base[n - 1].address, 10_000 - given)];
    FrontAndRest(base, raw, front, r);
  }

  lemma FrontAndRest(base: seq<Recipient>, raw: seq<u32>, front: seq<int>, r: seq<Recipient>)
    requires base != [] && |raw| == |base| && 0 < Sum(raw) <= 10_000
    requires front == Raised(base[..|base| - 1], raw[..|base| - 1], 10_000 - Sum(raw))
    requires |r| == |base| && r[|base| - 1].address == base[|base| - 1].address && r[|base| - 1].share == 10_000 - Sum(front)
    requires forall j :: 0 <= j < |front| ==> r[j].address == base[j].address && r[j].share == front[j]
    ensures Addresses(r) == Addresses(base) && Shares(r) == AdjustedShares(base, raw)
  {
    AdjustedForm(base, raw);
    hide Sum, AdjustedShares, Raised;
    LastAppended(base, r[..|base| - 1], r, front);
  }

  lemma AdjustedForm(base: seq<Recipient>, raw: seq<u32>)
    requires base != [] && |raw| == |base| && Sum(raw) <= 10_000
    ensures Sum(raw) == 0 ==> AdjustedShares(base, raw) == Shares(base)
    ensures Sum(raw) > 0 ==>
              var front := Raised(base[..|base| - 1], raw[..|base| - 1], 10_000 - Sum(raw));
              AdjustedShares(base, raw) == front + [10_000 - Sum(front)]
  {
    hide Sum, Raised;
  }

  lemma FrontNonNegative(front: seq<int>, base: seq<Recipient>, raw: seq<u32>, pool: nat)
    requires base != [] && |raw| == |base| && front == Raised(base[..|base| - 1], raw[..|base| - 1], pool)
    ensures forall j :: 0 <= j < |front| ==> front[j] == Part(pool, base[j].share) + raw[j] >= 0
  {
    hide Part;
  }

  /** Every recipient but the last: its share of what the bonuses leave, and its bonus. */
  method RaiseFront(base: seq<Recipient>, scaled: seq<int>, pool: nat, ghost front: seq<int>)
    returns (r: seq<Recipient>, given: u32)
    requires base != [] && |scaled| == |base| && |front| == |base| - 1 && Sum(front) <= 9_999
    requires forall j :: 0 <= j < |front| ==> front[j] == Part(pool, base[j].share) + scaled[j] >= 0
    ensures |r| == |front| && given == Sum(front)
    ensures forall j :: 0 <= j < |front| ==> r[j].address == base[j].address && r[j].share == front[j]
  {
    hide Sum, Part;
    r, given := [], 0;
    PrefixStep(front, 0);
    for i := 0 to |base| - 1
      invariant |r| == i && given == Sum(front[..i]) <= 9_999
      invariant forall j :: 0 <= j < i ==> r[j].address == base[j].address && r[j].share == front[j]
    {
      PrefixStep(front, i);
      var share := Part(pool, base[i].share) + scaled[i];
      given := SaturatingAdd(given, share, U32_LIMIT);
      r := r + [Recipient(base[i].address, share)];
    }
    assert front[..|base| - 1] == front;
  }

  lemma PrefixStep(front: seq<int>, i: nat)
    requires (forall j :: 0 <= j < |front| ==> front[j] >= 0) && Sum(front) <= 9_999 && i <= |front|
    ensures Sum(front[..0]) == 0
    ensures i < |front| ==> Sum(front[..i + 1]) == Sum(front[..i]) + front[i] && 0 <= Sum(front[..i]) <= Sum(front[..i + 1]) <= 9_999
  {
    if i < |front| {
      assert front[..i + 1][..i] == front[..i];
      SumPrefix(front, i + 1);
      SumNonNegative(front[..i]);
      SumNonNegative(front);
    }
  }

  lemma LastAppended(base: seq<Recipient>, before: seq<Recipient>, r: seq<Recipient>, front: seq<int>)
    requires |before| == |front| == |base| - 1 && |r| == |base| && r[..|base| - 1] == before
    requires r[|base| - 1].address == base[|base| - 1].address
    requires forall j :: 0 <= j < |front| ==> before[j].address == base[j].address && before[j].share == front[j]
    ensures Addresses(r) == Addresses(base) && Shares(r) == front + [r[|base| - 1].share]
  {
    assert forall j :: 0 <= j < |front| ==> r[j] == before[j];
    assert forall i :: 0 <= i < |base| ==> Addresses(r)[i] == Addresses(base)[i];
  }
}
