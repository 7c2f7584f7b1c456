/** Recipient lists: the validator, and the list/map pair that stores the collaborators. */
module Recipients {
  import opened Types
  import opened Split

  const MAX_RECIPIENTS: int := 10

  ghost predicate Distinct<T(!new)>(xs: seq<T>) {
    forall i, j :: 0 <= i < j < |xs| ==> xs[i] != xs[j]
  }

  function Addresses(rs: seq<Recipient>): (r: seq<Address>)
    ensures |r| == |rs|
  {
    seq(|rs|, i requires 0 <= i < |rs| => rs[i].address)
  }

  /** A list that can be paid: one to ten distinct addresses, positive shares, 10_000 in all. */
  ghost predicate ValidRecipients(rs: seq<Recipient>) {
    && 1 <= |rs| <= MAX_RECIPIENTS
    && Distinct(Addresses(rs))
    && (forall i :: 0 <= i < |rs| ==> rs[i].share > 0)
    && Sum(Shares(rs)) == 10_000
  }

  /** Running share total with the checks of the validator's second loop. */
  function ScanShares(rs: seq<Recipient>): Result<int> {
    if rs == [] then Ok(0)
    else
      var last := rs[|rs| - 1].share;
      match ScanShares(rs[..|rs| - 1])
      case Err(e) => Err(e)
      case Ok(total) =>
        if last == 0 then Err(ZeroShare)
        else if total + last >= U32_LIMIT then Err(ArithmeticOverflow)
        else Ok(total + last)
  }

  /** The error the validator reports, if any, in its order of checks. */
  ghost function Defect(rs: seq<Recipient>): Option<Error> {
    if rs == [] then Some(EmptyRecipients)
    else if |rs| > MAX_RECIPIENTS then Some(TooManyRecipients)
    else if !Distinct(Addresses(rs)) then Some(DuplicateRecipient)
    else match ScanShares(rs)
      case Err(e) => Some(e)
      case Ok(total) => if total != 10_000 then Some(InvalidShareTotal) else None
  }

  lemma SharesSnoc(rs: seq<Recipient>)
    requires rs != []
    ensures Sum(Shares(rs)) == Sum(Shares(rs[..|rs| - 1])) + rs[|rs| - 1].share
  {
    assert Shares(rs) == Shares(rs[..|rs| - 1]) + [rs[|rs| - 1].share];
    SumAppend(Shares(rs[..|rs| - 1]), rs[|rs| - 1].share);
  }

  lemma {:induction false} ScanSharesMeaning(rs: seq<Recipient>)
    ensures ScanShares(rs).Ok? <==> (forall i :: 0 <= i < |rs| ==> rs[i].share > 0) && Sum(Shares(rs)) < U32_LIMIT
    ensures ScanShares(rs).Ok? ==> ScanShares(rs).value == Sum(Shares(rs))
  {
    if rs != [] {
      ScanSharesMeaning(rs[..|rs| - 1]);
      SharesSnoc(rs);
    }
  }

  /** The validator accepts exactly the valid lists. */
  lemma DefectIffInvalid(rs: seq<Recipient>)
    ensures Defect(rs).None? <==> ValidRecipients(rs)
  {
    ScanSharesMeaning(rs);
  }

  /** Which defect is reported: an empty list, then a long one, then a repeated address, then the first
      zero share or u32 overflow, then a wrong total. */
  lemma DefectOrder(rs: seq<Recipient>)
    ensures rs == [] <==> Defect(rs) == Some(EmptyRecipients)
    ensures |rs| > 10 <==> Defect(rs) == Some(TooManyRecipients)
    ensures 1 <= |rs| <= 10 && !Distinct(Addresses(rs)) <==> Defect(rs) == Some(DuplicateRecipient)
    ensures 1 <= |rs| <= 10 && Distinct(Addresses(rs)) ==>
              && (Defect(rs) == Some(InvalidShareTotal) <==>
                  (forall i :: 0 <= i < |rs| ==> rs[i].share > 0) && Sum(Shares(rs)) < U32_LIMIT && Sum(Shares(rs)) != 10_000)
              && (Defect(rs) == Some(ZeroShare) <==> exists i :: ZeroAt(rs, i))
  {
    ScanSharesMeaning(rs);
    ScanSharesErrors(rs);
    hide Distinct, Sum, ScanShares, ZeroAt;
  }

  /** The first zero share stands at i, and the shares before it stay within u32. */
  ghost predicate ZeroAt(rs: seq<Recipient>, i: int) {
    && 0 <= i < |rs| && rs[i].share == 0
    && Sum(Shares(rs[..i])) < U32_LIMIT && forall j :: 0 <= j < i ==> rs[j].share > 0
  }

  lemma {:induction false} ScanSharesErrors(rs: seq<Recipient>)
    ensures ScanShares(rs).Err? ==> ScanShares(rs).error in {ZeroShare, ArithmeticOverflow}
    ensures ScanShares(rs) == Err(ZeroShare) <==> exists i :: ZeroAt(rs, i)
  {
    if rs != [] {
      var k := |rs| - 1;
      var front := rs[..k];
      ScanSharesErrors(front);
      ZeroAtLast(rs);
      hide ZeroAt;
      forall i | ZeroAt(rs, i) ensures ScanShares(rs) == Err(ZeroShare) {
        ZeroAtRange(rs, i);
        ZeroAtFront(rs, i);
      }
      if ScanShares(front) == Err(ZeroShare) {
        var i :| ZeroAt(front, i);
        ZeroAtRange(front, i);
        ZeroAtFront(rs, i);
      }
    } else {
      forall i ensures !ZeroAt(rs, i) { }
    }
  }

  lemma ZeroAtRange(rs: seq<Recipient>, i: int)
    requires ZeroAt(rs, i)
    ensures 0 <= i < |rs|
  {
  }

  lemma ZeroAtFront(rs: seq<Recipient>, i: int)
    requires rs != []
    ensures i < |rs| - 1 ==> (ZeroAt(rs, i) <==> ZeroAt(rs[..|rs| - 1], i))
    ensures i >= |rs| - 1 ==> !ZeroAt(rs[..|rs| - 1], i)
  {
    hide Sum;
    var front := rs[..|rs| - 1];
    if 0 <= i < |front| {
      assert front[..i] == rs[..i];
      assert forall j :: 0 <= j < i ==> front[j] == rs[j];
    }
  }

  lemma ZeroAtLast(rs: seq<Recipient>)
    requires rs != []
    ensures ZeroAt(rs, |rs| - 1) <==> ScanShares(rs[..|rs| - 1]).Ok? && rs[|rs| - 1].share == 0
  {
    ScanSharesMeaning(rs[..|rs| - 1]);
    hide Sum, ScanShares;
  }

  method FirstRepeat(rs: seq<Recipient>) returns (repeated: bool)
    ensures repeated <==> !Distinct(Addresses(rs))
  {
    ghost var xs := Addresses(rs);
    for i := 0 to |rs|
      invariant forall j, k :: 0 <= j < k < i ==> xs[j] != xs[k]
    {
      for j := 0 to i
        invariant forall k :: 0 <= k < j ==> xs[k] != xs[i]
      {
        if rs[j].address == rs[i].address {
          assert xs[j] == xs[i];
          return true;
        }
      }
    }
    repeated := false;
  }

  method ValidateRecipientList(rs: seq<Recipient>) returns (r: Option<Error>)
    ensures r == Defect(rs)
    ensures r.None? <==> ValidRecipients(rs)
  {
    DefectIffInvalid(rs);
    if rs == [] { return Some(EmptyRecipients); }
    if |rs| > MAX_RECIPIENTS { return Some(TooManyRecipients); }
    var repeated := FirstRepeat(rs);
    if repeated { return Some(DuplicateRecipient); }
    var total := 0;
    for i := 0 to |rs|
      invariant ScanShares(rs[..i]) == Ok(total)
    {
      assert rs[..i + 1][..i] == rs[..i];
      if rs[i].share == 0 || total + rs[i].share >= U32_LIMIT {
        ScanStops(rs, i + 1);
        return Some(if rs[i].share == 0 then ZeroShare else ArithmeticOverflow);
      }
      total := total + rs[i].share;
    }
    assert rs[..|rs|] == rs;
    r := if total != 10_000 then Some(InvalidShareTotal) else None;
  }

  /** Once the scan has failed, it keeps the same error. */
  lemma {:induction false} ScanStops(rs: seq<Recipient>, k: nat)
    requires k <= |rs| && ScanShares(rs[..k]).Err?
    ensures ScanShares(rs) == ScanShares(rs[..k])
  {
    if k < |rs| {
      assert rs[..|rs| - 1][..k] == rs[..k];
      ScanStops(rs[..|rs| - 1], k);
    } else {
      assert rs[..k] == rs;
    }
  }

  /** The map written by `set_recipients`: later entries overwrite earlier ones. */
  function ToMap(rs: seq<Recipient>): (m: map<Address, u32>) {
    if rs == [] then map[] else ToMap(rs[..|rs| - 1])[rs[|rs| - 1].address := rs[|rs| - 1].share]
  }

  /** The stored list read back through the map, with 0 for an address without an entry. */
  function Stored(collaborators: seq<Address>, shares: map<Address, u32>): (rs: seq<Recipient>)
    ensures |rs| == |collaborators|
    ensures Addresses(rs) == collaborators
  {
    seq(|collaborators|, i requires 0 <= i < |collaborators| =>
      Recipient(collaborators[i], if collaborators[i] in shares then shares[collaborators[i]] else 0))
  }

  lemma {:induction false} ToMapMeaning(rs: seq<Recipient>)
    ensures forall a :: a in ToMap(rs) <==> a in Addresses(rs)
    ensures Distinct(Addresses(rs)) ==> forall i :: 0 <= i < |rs| ==>
              rs[i].address in ToMap(rs) && ToMap(rs)[rs[i].address] == rs[i].share
  {
    if rs != [] {
      var front, last := rs[..|rs| - 1], rs[|rs| - 1];
      ToMapMeaning(front);
      assert Addresses(rs) == Addresses(front) + [last.address];
      if Distinct(Addresses(rs)) {
        forall i, j | 0 <= i < j < |front| ensures Addresses(front)[i] != Addresses(front)[j] {
          assert Addresses(rs)[i] != Addresses(rs)[j];
        }
        forall i | 0 <= i < |rs|
          ensures rs[i].address in ToMap(rs) && ToMap(rs)[rs[i].address] == rs[i].share
        {
          assert Addresses(rs)[i] == rs[i].address && Addresses(rs)[|front|] == last.address;
          if i < |front| {
            assert front[i] == rs[i];
          }
        }
      }
    }
  }

  /** Writing a list of distinct addresses and reading it back is the identity. */
  lemma StoreRoundTrip(rs: seq<Recipient>)
    requires Distinct(Addresses(rs))
    ensures Stored(Addresses(rs), ToMap(rs)) == rs
    ensures ToMap(rs).Keys == set a | a in Addresses(rs)
  {
    ToMapMeaning(rs);
    forall i | 0 <= i < |rs| ensures Stored(Addresses(rs), ToMap(rs))[i] == rs[i] {
      assert Addresses(rs)[i] == rs[i].address;
    }
  }

  /** The sum of a map's values, in whatever order they are visited. */
  ghost function MapTotal(m: map<Address, u32>): int
    decreases |m|
  {
    if m == map[] then 0
    else
      var a :| a in m;
      MapTotal(m - {a}) + m[a]
  }

  /** Any entry may be taken out first. */
  lemma {:induction false} MapTotalRemove(m: map<Address, u32>, a: Address)
    requires a in m
    ensures MapTotal(m) == MapTotal(m - {a}) + m[a]
    decreases |m|
  {
    var b :| b in m && MapTotal(m) == MapTotal(m - {b}) + m[b];
    if b != a {
      MapTotalRemove(m - {b}, a);
      MapTotalRemove(m - {a}, b);
      assert m - {b} - {a} == m - {a} - {b};
    }
  }

  lemma {:induction false} MapTotalNonNegative(m: map<Address, u32>)
    ensures MapTotal(m) >= 0
    decreases |m|
  {
    if m != map[] {
      var a :| a in m && MapTotal(m) == MapTotal(m - {a}) + m[a];
      MapTotalNonNegative(m - {a});
    }
  }

  /** The map's total is the list's total when the map's keys are exactly the list. */
  lemma {:induction false} StoredTotal(collaborators: seq<Address>, shares: map<Address, u32>)
    requires Distinct(collaborators) && shares.Keys == set a | a in collaborators
    ensures MapTotal(shares) == Sum(Shares(Stored(collaborators, shares)))
    decreases |collaborators|
  {
    if collaborators == [] {
      assert shares == map[];
    } else {
      var front, last := collaborators[..|collaborators| - 1], collaborators[|collaborators| - 1];
      var rest := shares - {last};
      assert rest.Keys == set a | a in front by { FrontKeys(collaborators, shares); }
      assert Distinct(front);
      StoredTotal(front, rest);
      MapTotalRemove(shares, last);
      hide MapTotal, Sum, Distinct;
      StoredSnoc(collaborators, shares);
    }
  }

  lemma StoredSnoc(collaborators: seq<Address>, shares: map<Address, u32>)
    requires Distinct(collaborators) && collaborators != [] && collaborators[|collaborators| - 1] in shares
    ensures var n := |collaborators| - 1;
      Sum(Shares(Stored(collaborators, shares)))
      == Sum(Shares(Stored(collaborators[..n], shares - {collaborators[n]}))) + shares[collaborators[n]]
  {
    var n := |collaborators| - 1;
    hide Sum;
    SharesSnoc(Stored(collaborators, shares));
    assert Stored(collaborators, shares)[..n] == Stored(collaborators[..n], shares - {collaborators[n]});
  }

  lemma FrontKeys(collaborators: seq<Address>, shares: map<Address, u32>)
    requires Distinct(collaborators) && collaborators != [] && shares.Keys == set a | a in collaborators
    ensures var n := |collaborators| - 1;
      (shares - {collaborators[n]}).Keys == set a | a in collaborators[..n]
  {
    var n := |collaborators| - 1;
    assert collaborators == collaborators[..n] + [collaborators[n]];
  }

  /** The loop of `get_total_shares`: the order of the entries does not matter. */
  method TotalShares(m: map<Address, u32>) returns (r: Result<int>)
    ensures r.Ok? <==> MapTotal(m) < U32_LIMIT
    ensures r.Ok? ==> r.value == MapTotal(m)
    ensures r.Err? ==> r.error == ArithmeticOverflow
  {
    var rest := m;
    var total := 0;
    while rest != map[]
      invariant 0 <= total < U32_LIMIT && total + MapTotal(rest) == MapTotal(m)
      decreases |rest|
    {
      var a :| a in rest;
      MapTotalRemove(rest, a);
      MapTotalNonNegative(rest - {a});
      assert |rest - {a}| < |rest|;
      if total + rest[a] >= U32_LIMIT { return Err(ArithmeticOverflow); }
      total := total + rest[a];
      rest := rest - {a};
    }
    r := Ok(total);
  }
}
