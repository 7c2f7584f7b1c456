/** The basis-point split shared by every payout loop of the contract. */
module Split {
  import opened Types



  function Sum(xs: seq<int>): int {
    if xs == [] then 0 else Sum(xs[..|xs| - 1]) + xs[|xs| - 1]
  }

  /** floor(amount * bps / 10_000) when the u128 product does not overflow. */
  function CheckedBpsAmount(amount: int, bps: u32): (r: Result<int>)
    ensures r.Ok? <==> 0 <= amount && amount * bps < U128_LIMIT
    ensures r.Ok? ==> 0 <= r.value <= I128_MAX && r.value * 10_000 <= amount * bps < (r.value + 1) * 10_000
    ensures r.Err? ==> r.error == ArithmeticOverflow
  {
    if amount < 0 then Err(ArithmeticOverflow)
    else
      var numerator := amount * bps;
      if numerator >= U128_LIMIT then Err(ArithmeticOverflow)
      else if numerator / 10_000 > I128_MAX then Err(ArithmeticOverflow)
      else
        assert numerator >= 0;
        Ok(numerator / 10_000)
  }

  function Floors(amount: nat, shares: seq<u32>): (r: seq<int>)
    ensures |r| == |shares|
  {
    seq(|shares|, i requires 0 <= i < |shares| => Part(amount, shares[i]))
  }

  /** What each recipient is owed: the floor of its share, and the remainder for the last one. */
  function Payouts(amount: nat, shares: seq<u32>): (r: seq<int>)
    requires shares != []
    ensures |r| == |shares|
  {
    var front := Floors(amount, shares[..|shares| - 1]);
    front + [amount - Sum(front)]
  }

  function Shares(recipients: seq<Recipient>): (r: seq<u32>)
    ensures |r| == |recipients|
  {
    seq(|recipients|, i requires 0 <= i < |recipients| => recipients[i].share)
  }

  /** The payments of one distribution, in list order. */
  function Payments(amount: nat, recipients: seq<Recipient>): (r: seq<Payment>)
    requires recipients != []
    ensures |r| == |recipients|
  {
    var owed := Payouts(amount, Shares(recipients));
    seq(|recipients|, i requires 0 <= i < |recipients| => Payment(recipients[i].address, owed[i]))
  }

  /** Some product computed by the loop (the last share is never multiplied) leaves u128. */
  ghost predicate SplitOverflows(amount: int, recipients: seq<Recipient>) {
    exists i :: 0 <= i < |recipients| - 1 && !ProductFits(amount, recipients[i].share)
  }

  predicate ProductFits(amount: int, bps: u32) {
    amount * bps < U128_LIMIT
  }

  lemma CheckedIsPart(amount: nat, bps: u32)
    ensures CheckedBpsAmount(amount, bps).Ok? <==> ProductFits(amount, bps)
    ensures ProductFits(amount, bps) ==> CheckedBpsAmount(amount, bps).value == Part(amount, bps)
  {
  }

  lemma {:induction false} SumAppend(xs: seq<int>, x: int)
    ensures Sum(xs + [x]) == Sum(xs) + x
  {
    assert (xs + [x])[..|xs|] == xs;
  }

  lemma {:induction false} SumNonNegative(xs: seq<int>)
    requires forall i :: 0 <= i < |xs| ==> xs[i] >= 0
    ensures Sum(xs) >= 0
    ensures forall i :: 0 <= i < |xs| ==> xs[i] <= Sum(xs)
  {
    if xs != [] { SumNonNegative(xs[..|xs| - 1]); }
  }

  /** A prefix of a non-negative sequence sums to no more than the whole. */
  lemma {:induction false} SumPrefix(xs: seq<int>, k: nat)
    requires k <= |xs| && forall i :: 0 <= i < |xs| ==> xs[i] >= 0
    ensures 0 <= Sum(xs[..k]) <= Sum(xs)
  {
    if k == |xs| {
      assert xs[..k] == xs;
      SumNonNegative(xs);
    } else {
      assert xs[..|xs| - 1][..k] == xs[..k];
      SumPrefix(xs[..|xs| - 1], k);
    }
  }

  /** The part of `amount` that `bps` basis points stand for, rounded down. */
  function Part(amount: nat, bps: u32): (r: int)
    ensures 0 <= r && 10_000 * r <= amount * bps < 10_000 * r + 10_000
  {
    var product := amount * bps;
    assert product >= 0;
    product / 10_000
  }

  lemma Distribute(x: int, y: int, z: int)
    ensures x * (y + z) == x * y + x * z
    ensures (y + z) * x == y * x + z * x
  {
  }

  /** What is left after the floors, compared with the exact last share. */
  lemma RemainderBound(amount: nat, rest: int, last: int, floors: int, slack: int)
    requires rest + last == 10_000
    requires 10_000 * floors <= amount * rest <= 10_000 * floors + slack
    ensures amount * last <= 10_000 * (amount - floors) <= amount * last + slack
  {
    Distribute(amount, rest, last);
  }

  /** Flooring n products loses less than n units in total. */
  lemma {:induction false} FloorsBound(amount: nat, shares: seq<u32>)
    ensures forall i :: 0 <= i < |shares| ==> Floors(amount, shares)[i] >= 0
    ensures var exact, got := amount * Sum(shares), 10_000 * Sum(Floors(amount, shares));
      got <= exact <= got + 9_999 * |shares|
  {
    if shares != [] {
      var front, last := shares[..|shares| - 1], shares[|shares| - 1];
      FloorsBound(amount, front);
      assert Floors(amount, shares) == Floors(amount, front) + [Part(amount, last)];
      SumAppend(Floors(amount, front), Part(amount, last));
      Distribute(amount, Sum(front), last);
    }
  }

  /** Payouts are non-negative and add up to the amount; every recipient but the last gets
      the floor of its exact share, and the last gets its exact share or more, by less than
      n - 1 units (exactly its share when it is alone). */
  lemma {:induction false} SplitIsExact(amount: nat, shares: seq<u32>)
    requires shares != [] && Sum(shares) == 10_000
    ensures var owed, n := Payouts(amount, shares), |shares|;
      && Sum(owed) == amount
      && (forall i :: 0 <= i < n ==> 0 <= owed[i] <= amount)
      && (forall i :: 0 <= i < n - 1 ==> owed[i] == Part(amount, shares[i]))
      && amount * shares[n - 1] <= 10_000 * owed[n - 1] <= amount * shares[n - 1] + 9_999 * (n - 1)
  {
    var n := |shares|;
    var front, last := shares[..n - 1], shares[n - 1];
    FloorsBound(amount, front);
    SumAppend(Floors(amount, front), amount - Sum(Floors(amount, front)));
    RemainderBound(amount, Sum(front), last, Sum(Floors(amount, front)), 9_999 * (n - 1));
    assert Part(amount, last) >= 0;
    SumNonNegative(Payouts(amount, shares));
  }

  /** The payout loop. The checked addition never fails, and only an
      overflowing product makes the split fail. */
  method ComputePayouts(amount: nat, recipients: seq<Recipient>) returns (r: Result<seq<Payment>>)
    requires 0 <= amount <= I128_MAX
    requires recipients != [] && Sum(Shares(recipients)) == 10_000
    ensures r.Ok? <==> !SplitOverflows(amount, recipients)
    ensures r.Ok? ==> r.value == Payments(amount, recipients)
    ensures r.Err? ==> r.error == ArithmeticOverflow
  {
    hide ProductFits, Part, CheckedBpsAmount, Sum;
    var n := |recipients|;
    ghost var front := Floors(amount, Shares(recipients)[..n - 1]);
    NothingYet(front);
    var payouts: seq<Payment> := [];
    var total := 0;
    for i := 0 to n - 1
      invariant |payouts| == i && total == Sum(front[..i])
      invariant forall j :: 0 <= j < i ==> ProductFits(amount, recipients[j].share)
      invariant forall j :: 0 <= j < i ==> payouts[j] == Payment(recipients[j].address, front[j])
    {
      var payout := CheckedBpsAmount(amount, recipients[i].share);
      CheckedIsPart(amount, recipients[i].share);
      RunningTotal(amount, recipients, i);
      if payout.Err? { return Err(payout.error); }
      payouts := payouts + [Payment(recipients[i].address, payout.value)];
      assert total + payout.value <= I128_MAX;
      total := total + payout.value;
    }
    assert front[..n - 1] == front;
    payouts := payouts + [Payment(recipients[n - 1].address, amount - total)];
    assert payouts == Payments(amount, recipients);
    r := Ok(payouts);
  }

  lemma NothingYet(front: seq<int>)
    ensures Sum(front[..0]) == 0
  {
  }

  /** The running total after step i is the sum of the floors so far and never passes the amount. */
  lemma RunningTotal(amount: nat, recipients: seq<Recipient>, i: nat)
    requires i < |recipients| - 1 && Sum(Shares(recipients)) == 10_000
    ensures var front := Floors(amount, Shares(recipients)[..|recipients| - 1]);
      && front[i] == Part(amount, recipients[i].share)
      && Sum(front[..i + 1]) == Sum(front[..i]) + front[i] <= amount
  {
    var shares := Shares(recipients);
    var front := Floors(amount, shares[..|recipients| - 1]);
    SplitIsExact(amount, shares);
    FloorsBound(amount, shares[..|recipients| - 1]);
    assert front[..i + 1][..i] == front[..i];
    SumPrefix(front, i + 1);
    assert Payouts(amount, shares)[|recipients| - 1] == amount - Sum(front);
  }

  /** Receipts of one position over a series of distributions with the same shares. */
  function Received(amounts: seq<nat>, shares: seq<u32>, i: int): int
    requires 0 <= i < |shares|
  {
    if amounts == [] then 0
    else Received(amounts[..|amounts| - 1], shares, i) + Payouts(amounts[|amounts| - 1], shares)[i]
  }

  /** Over any series of distributions, each recipient but the last is below its exact
      cumulative share by less than one unit per distribution, and the last one is above its
      own by less than n - 1 units per distribution. */
  lemma {:induction false} CumulativeReceipts(amounts: seq<nat>, shares: seq<u32>, i: nat)
    requires i < |shares| && Sum(shares) == 10_000
    ensures var k, n, exact, got := |amounts|, |shares|, Sum(amounts) * shares[i], 10_000 * Received(amounts, shares, i);
      && (i < n - 1 ==> exact - 9_999 * k <= got <= exact)
      && (i == n - 1 ==> exact <= got <= exact + k * (9_999 * (n - 1)))
  {
    if amounts != [] {
      var k := |amounts| - 1;
      var front, last := amounts[..k], amounts[k];
      CumulativeReceipts(front, shares, i);
      OneReceipt(last, shares, i);
      Distribute(shares[i], Sum(front), last);
      Distribute(9_999 * (|shares| - 1), k, 1);
    }
  }

  lemma OneReceipt(amount: nat, shares: seq<u32>, i: nat)
    requires i < |shares| && Sum(shares) == 10_000
    ensures var n, exact, got := |shares|, amount * shares[i], 10_000 * Payouts(amount, shares)[i];
      && (i < n - 1 ==> exact - 9_999 <= got <= exact)
      && (i == n - 1 ==> exact <= got <= exact + 9_999 * (n - 1))
  {
    SplitIsExact(amount, shares);
  }
}
