/** An honest token ledger: balances per token and holder, all-or-nothing payment of a list,
    and best-effort payment that skips the transfers that fail. */
module Ledger {
  import opened Types
  import opened Split

  /** A key is a token and a holder; an absent key is a zero balance. */
  type Balances = map<(Address, Address), Balance>

  function Bal(l: Balances, token: Address, who: Address): Balance {
    if (token, who) in l then l[(token, who)] else 0
  }

  /** One token transfer. It fails when the amount is negative, the sender lacks it, the receiver's
      balance would leave i128, or the receiver is in `refusing` (a frozen account, say). */
  function Transfer(l: Balances, token: Address, from: Address, to: Address, amount: int, refusing: set<Address>)
    : Option<Balances>
  {
    if amount < 0 || Bal(l, token, from) < amount || to in refusing then None
    else
      var debited := l[(token, from) := Bal(l, token, from) - amount];
      if Bal(debited, token, to) + amount > I128_MAX then None
      else Some(debited[(token, to) := Bal(debited, token, to) + amount])
  }

  /** A transfer to somebody else moves its amount and no other balance. */
  lemma TransferEffect(l: Balances, token: Address, from: Address, to: Address, amount: int, refusing: set<Address>)
    requires from != to && Transfer(l, token, from, to, amount, refusing).Some?
    ensures var l' := Transfer(l, token, from, to, amount, refusing).value;
      && Bal(l', token, from) == Bal(l, token, from) - amount
      && Bal(l', token, to) == Bal(l, token, to) + amount
      && (forall t, who :: t != token || (who != from && who != to) ==> Bal(l', t, who) == Bal(l, t, who))
  {
  }

  /** Pay a list from SELF in order; the whole list fails if one transfer fails. */
  function PayAll(l: Balances, token: Address, ps: seq<Payment>, refusing: set<Address>): Option<Balances> {
    if ps == [] then Some(l)
    else
      var before := PayAll(l, token, ps[..|ps| - 1], refusing);
      if before.None? then None
      else Transfer(before.value, token, SELF, ps[|ps| - 1].to, ps[|ps| - 1].amount, refusing)
  }

  datatype Attempt = Attempt(ledger: Balances, failed: seq<Payment>)

  /** Pay a list from SELF in order, collecting the payments whose transfer fails. */
  function TryPayAll(l: Balances, token: Address, ps: seq<Payment>, refusing: set<Address>): Attempt {
    if ps == [] then Attempt(l, [])
    else
      var before := TryPayAll(l, token, ps[..|ps| - 1], refusing);
      var last := ps[|ps| - 1];
      match Transfer(before.ledger, token, SELF, last.to, last.amount, refusing)
      case Some(l') => before.(ledger := l')
      case None => before.(failed := before.failed + [last])
  }

  function Amounts(ps: seq<Payment>): (r: seq<int>)
    ensures |r| == |ps|
  {
    seq(|ps|, i requires 0 <= i < |ps| => ps[i].amount)
  }

  /** Distinct receivers, none of them the contract. */
  ghost predicate Outward(ps: seq<Payment>) {
    && (forall i :: 0 <= i < |ps| ==> ps[i].to != SELF)
    && (forall i, j :: 0 <= i < j < |ps| ==> ps[i].to != ps[j].to)
  }

  ghost predicate Receives(ps: seq<Payment>, who: Address) {
    exists i :: 0 <= i < |ps| && ps[i].to == who
  }

  lemma AmountsSnoc(ps: seq<Payment>, p: Payment)
    ensures Sum(Amounts(ps + [p])) == Sum(Amounts(ps)) + p.amount
  {
    assert Amounts(ps + [p]) == Amounts(ps) + [p.amount];
    SumAppend(Amounts(ps), p.amount);
  }

  lemma AmountsLast(ps: seq<Payment>)
    requires ps != []
    ensures Sum(Amounts(ps)) == Sum(Amounts(ps[..|ps| - 1])) + ps[|ps| - 1].amount
  {
    assert ps == ps[..|ps| - 1] + [ps[|ps| - 1]];
    AmountsSnoc(ps[..|ps| - 1], ps[|ps| - 1]);
  }

  lemma ReceivesLast(ps: seq<Payment>)
    requires Outward(ps) && ps != []
    ensures var front, last := ps[..|ps| - 1], ps[|ps| - 1].to;
      Outward(front) && !Receives(front, last) && forall who :: Receives(ps, who) <==> who == last || Receives(front, who)
  {
    var front, last := ps[..|ps| - 1], ps[|ps| - 1].to;
    assert ps == front + [ps[|ps| - 1]];
    forall who | Receives(front, who) ensures Receives(ps, who) {
      var i :| 0 <= i < |front| && front[i].to == who;
      assert ps[i].to == who;
    }
    assert Receives(ps, last);
  }

  /** A list paid in full: the contract loses exactly the total, every receiver gains its own
      payment, and no other balance of any token moves. */
  lemma {:induction false} PayAllEffect(l: Balances, token: Address, ps: seq<Payment>, refusing: set<Address>)
    requires Outward(ps) && PayAll(l, token, ps, refusing).Some?
    ensures var l' := PayAll(l, token, ps, refusing).value;
      && Bal(l', token, SELF) == Bal(l, token, SELF) - Sum(Amounts(ps))
      && (forall i :: 0 <= i < |ps| ==> Bal(l', token, ps[i].to) == Bal(l, token, ps[i].to) + ps[i].amount)
      && (forall t, who :: t != token || (who != SELF && !Receives(ps, who)) ==> Bal(l', t, who) == Bal(l, t, who))
  {
    if ps != [] {
      var front, last := ps[..|ps| - 1], ps[|ps| - 1];
      PayAllEffect(l, token, front, refusing);
      TransferEffect(PayAll(l, token, front, refusing).value, token, SELF, last.to, last.amount, refusing);
      AmountsLast(ps);
      hide Sum, Amounts, Transfer, Bal, Receives;
      ReceivesLast(ps);
    }
  }

  lemma {:induction false} TryPayAllFrame(l: Balances, token: Address, ps: seq<Payment>, refusing: set<Address>)
    ensures var a := TryPayAll(l, token, ps, refusing);
      && (forall p :: p in a.failed ==> p in ps)
      && (forall t, who :: t != token || (who != SELF && !Receives(ps, who)) ==> Bal(a.ledger, t, who) == Bal(l, t, who))
  {
    if ps != [] {
      var front := ps[..|ps| - 1];
      TryPayAllFrame(l, token, front, refusing);
      assert forall p :: p in front ==> p in ps;
      forall who | Receives(front, who) ensures Receives(ps, who) {
        var i :| 0 <= i < |front| && front[i].to == who;
        assert ps[i].to == who;
      }
      assert Receives(ps, ps[|ps| - 1].to);
    }
  }

  /** What one receiver of a best-effort payment ends up with. */
  lemma {:induction false} TryPayAllOne(l: Balances, token: Address, ps: seq<Payment>, refusing: set<Address>, i: nat)
    requires Outward(ps) && i < |ps|
    ensures var a := TryPayAll(l, token, ps, refusing);
      Bal(a.ledger, token, ps[i].to) == Bal(l, token, ps[i].to) + (if ps[i] in a.failed then 0 else ps[i].amount)
  {
    var front, last := ps[..|ps| - 1], ps[|ps| - 1];
    var before := TryPayAll(l, token, front, refusing);
    TryPayAllFrame(l, token, front, refusing);
    if Transfer(before.ledger, token, SELF, last.to, last.amount, refusing).Some? {
      TransferEffect(before.ledger, token, SELF, last.to, last.amount, refusing);
    }
    hide Transfer, Bal;
    if i < |front| {
      TryPayAllOne(l, token, front, refusing, i);
      assert ps[i] == front[i] && ps[i] != last;
    } else {
      assert !Receives(front, last.to);
      assert last !in front;
    }
  }

  /** Best effort: the contract keeps exactly the failed payments; a receiver whose transfer
      failed has gained nothing, and every other receiver its payment. */
  lemma {:induction false} TryPayAllEffect(l: Balances, token: Address, ps: seq<Payment>, refusing: set<Address>)
    requires Outward(ps)
    ensures var a := TryPayAll(l, token, ps, refusing);
      && Bal(a.ledger, token, SELF) == Bal(l, token, SELF) - Sum(Amounts(ps)) + Sum(Amounts(a.failed))
      && forall i :: 0 <= i < |ps| ==>
          Bal(a.ledger, token, ps[i].to) == Bal(l, token, ps[i].to) + if ps[i] in a.failed then 0 else ps[i].amount
  {
    forall i | 0 <= i < |ps|
      ensures Bal(TryPayAll(l, token, ps, refusing).ledger, token, ps[i].to)
        == Bal(l, token, ps[i].to) + if ps[i] in TryPayAll(l, token, ps, refusing).failed then 0 else ps[i].amount
    {
      TryPayAllOne(l, token, ps, refusing, i);
    }
    if ps != [] {
      var front, last := ps[..|ps| - 1], ps[|ps| - 1];
      var before := TryPayAll(l, token, front, refusing);
      TryPayAllEffect(l, token, front, refusing);
      AmountsLast(ps);
      AmountsSnoc(before.failed, last);
      if Transfer(before.ledger, token, SELF, last.to, last.amount, refusing).Some? {
        TransferEffect(before.ledger, token, SELF, last.to, last.amount, refusing);
      }
      hide Transfer, Bal, Sum, Amounts;
    }
  }
}
