/** The per-account build lock: a mutual exclusion made of a chain of promises. */
module BuildLock {
  import opened Types

  /** The promises in play: the resolved default, the promise a caller's release resolves, and the
      derived promise `previous.then(() => current)` that the caller leaves as the tail of the chain. */
  datatype Ref = Ready | Current(call: nat) | Chained(call: nat)

  /** Waiting at `await previous`, running fn, or past the finally block with fn's outcome. */
  datatype Phase = Waiting | Inside | Left(rejected: bool)

  datatype Call = Call(key: Address, previous: Ref, phase: Phase)

  /** `calls` holds every call so far in call order; `settled` the calls whose derived promise is fulfilled. */
  datatype Locks = Locks(tails: map<Address, Ref>, calls: seq<Call>, settled: set<nat>)

  /** One turn of the event loop. Settles is the adoption of `current` by the derived promise: it
      comes at any time after both are fulfilled. */
  datatype Event = Calls(key: Address) | Enters(call: nat) | Leaves(call: nat, rejected: bool) | Settles(call: nat)

  const Unlocked := Locks(map[], [], {})

  predicate Fulfilled(s: Locks, p: Ref) {
    match p
    case Ready => true
    case Current(c) => c < |s.calls| && s.calls[c].phase.Left?
    case Chained(c) => c in s.settled
  }

  predicate Enabled(s: Locks, ev: Event) {
    match ev
    case Calls(_) => true
    case Enters(c) => c < |s.calls| && s.calls[c].phase.Waiting? && Fulfilled(s, s.calls[c].previous)
    case Leaves(c, _) => c < |s.calls| && s.calls[c].phase.Inside?
    case Settles(c) => c < |s.calls| && c !in s.settled && Fulfilled(s, s.calls[c].previous) && Fulfilled(s, Current(c))
  }

  function Tail(s: Locks, key: Address): Ref {
    if key in s.tails then s.tails[key] else Ready
  }

  function Next(s: Locks, ev: Event): Locks
    requires Enabled(s, ev)
  {
    match ev
    case Calls(key) =>
      s.(tails := s.tails[key := Chained(|s.calls|)], calls := s.calls + [Call(key, Tail(s, key), Waiting)])
    case Enters(c) => s.(calls := s.calls[c := s.calls[c].(phase := Inside)])
    case Leaves(c, rejected) =>
      var key := s.calls[c].key;
      s.(tails := if Tail(s, key) == Current(c) then s.tails - {key} else s.tails,
         calls := s.calls[c := s.calls[c].(phase := Left(rejected))])
    case Settles(c) => s.(settled := s.settled + {c})
  }

  /** The account whose lock an event concerns. */
  function KeyOf(s: Locks, ev: Event): Address
    requires Enabled(s, ev)
  {
    if ev.Calls? then ev.key else s.calls[ev.call].key
  }

  class AccountBuildLocks {
    var tails: map<Address, Ref>
    var calls: seq<Call>
    var settled: set<nat>

    function View(): Locks
      reads this
    {
      Locks(tails, calls, settled)
    }

    constructor ()
      ensures View() == Unlocked
    {
      tails, calls, settled := map[], [], {};
    }

    /** withAccountBuildLock up to its first await. */
    method Begin(key: Address) returns (call: nat)
      modifies this
      ensures View() == Next(old(View()), Calls(key)) && call == |old(calls)|
    {
      var previous := if key in tails then tails[key] else Ready;
      call := |calls|;
      tails := tails[key := Chained(call)];
      calls := calls + [Call(key, previous, Waiting)];
    }

    /** The await returns and fn starts. */
    method Resume(call: nat)
      requires Enabled(View(), Enters(call))
      modifies this
      ensures View() == Next(old(View()), Enters(call))
    {
      calls := calls[call := calls[call].(phase := Inside)];
    }

    /** fn has returned or thrown: the finally block. On every run it leaves the map alone. */
    method Finish(call: nat, rejected: bool)
      requires Enabled(View(), Leaves(call, rejected))
      modifies this
      ensures View() == Next(old(View()), Leaves(call, rejected))
      ensures Inv(old(View())) ==> tails == old(tails)
    {
      var key := calls[call].key;
      if Inv(View()) { CleanupNeverFires(View(), call); }
      calls := calls[call := calls[call].(phase := Left(rejected))];
      if key in tails && tails[key] == Current(call) { tails := tails - {key}; }
    }
  }

  // ----- The invariant -----

  /** p is the derived promise of the latest of the first n calls for this account, if there is one. */
  ghost predicate IsLatest(calls: seq<Call>, n: nat, key: Address, p: Ref)
    requires n <= |calls|
  {
    match p
    case Ready => forall a :: 0 <= a < n ==> calls[a].key != key
    case Current(_) => false
    case Chained(b) => b < n && calls[b].key == key && forall a :: b < a < n ==> calls[a].key != key
  }

  ghost predicate Chain(s: Locks) {
    && (forall key :: IsLatest(s.calls, |s.calls|, key, Tail(s, key)))
    && (forall c :: 0 <= c < |s.calls| ==> IsLatest(s.calls, c, s.calls[c].key, s.calls[c].previous))
  }

  /** Nobody passes a promise before it is fulfilled. */
  ghost predicate Waited(s: Locks) {
    && (forall c :: c in s.settled ==> c < |s.calls| && s.calls[c].phase.Left?)
    && (forall c :: 0 <= c < |s.calls| && !s.calls[c].phase.Waiting? ==> Fulfilled(s, s.calls[c].previous))
  }

  /** A call has entered only after every earlier call for the account has left, rejected or not. */
  ghost predicate InOrder(s: Locks) {
    forall a, b :: 0 <= a < b < |s.calls| && s.calls[a].key == s.calls[b].key && !s.calls[b].phase.Waiting? ==>
      s.calls[a].phase.Left?
  }

  ghost predicate Inv(s: Locks) {
    Chain(s) && Waited(s) && InOrder(s)
  }

  lemma CleanupNeverFires(s: Locks, c: nat)
    requires Inv(s) && c < |s.calls|
    ensures Tail(s, s.calls[c].key) != Current(c)
  {
    assert IsLatest(s.calls, |s.calls|, s.calls[c].key, Tail(s, s.calls[c].key));
  }

  lemma CallKeeps(s: Locks, key: Address)
    requires Inv(s)
    ensures Inv(Next(s, Calls(key)))
  {
    var t := Next(s, Calls(key));
    assert IsLatest(s.calls, |s.calls|, key, Tail(s, key));
    forall k ensures IsLatest(t.calls, |t.calls|, k, Tail(t, k)) {
      assert IsLatest(s.calls, |s.calls|, k, Tail(s, k));
      assert k != key ==> Tail(t, k) == Tail(s, k);
    }
    forall c | 0 <= c < |t.calls| ensures IsLatest(t.calls, c, t.calls[c].key, t.calls[c].previous) {
      if c < |s.calls| { assert IsLatest(s.calls, c, s.calls[c].key, s.calls[c].previous); }
    }
  }

  /** The chain mentions only accounts and promises, which later turns leave alone. */
  lemma ChainKept(s: Locks, t: Locks)
    requires Chain(s) && |t.calls| == |s.calls| && t.tails == s.tails
    requires forall c :: 0 <= c < |s.calls| ==>
                           t.calls[c].key == s.calls[c].key && t.calls[c].previous == s.calls[c].previous
    ensures Chain(t)
  {
    forall k ensures IsLatest(t.calls, |t.calls|, k, Tail(t, k)) {
      assert IsLatest(s.calls, |s.calls|, k, Tail(s, k));
    }
    forall c | 0 <= c < |t.calls| ensures IsLatest(t.calls, c, t.calls[c].key, t.calls[c].previous) {
      assert IsLatest(s.calls, c, s.calls[c].key, s.calls[c].previous);
    }
  }

  lemma EnterKeeps(s: Locks, c: nat)
    requires Inv(s) && Enabled(s, Enters(c))
    ensures Inv(Next(s, Enters(c)))
  {
    var t := Next(s, Enters(c));
    ChainKept(s, t);
    EarlierHaveLeft(s, c);
    forall d | 0 <= d < |t.calls| && !t.calls[d].phase.Waiting? ensures Fulfilled(t, t.calls[d].previous) {
      assert IsLatest(s.calls, d, s.calls[d].key, s.calls[d].previous);
      assert Fulfilled(s, s.calls[d].previous);
    }
  }

  /** The tail a caller waits for stands for all the earlier calls of its account. */
  lemma EarlierHaveLeft(s: Locks, c: nat)
    requires Inv(s) && c < |s.calls| && Fulfilled(s, s.calls[c].previous)
    ensures forall a :: 0 <= a < c && s.calls[a].key == s.calls[c].key ==> s.calls[a].phase.Left?
  {
    assert IsLatest(s.calls, c, s.calls[c].key, s.calls[c].previous);
  }

  lemma LeaveKeeps(s: Locks, c: nat, rejected: bool)
    requires Inv(s) && Enabled(s, Leaves(c, rejected))
    ensures Inv(Next(s, Leaves(c, rejected)))
  {
    var t := Next(s, Leaves(c, rejected));
    CleanupNeverFires(s, c);
    ChainKept(s, t);
    forall d | 0 <= d < |t.calls| && !t.calls[d].phase.Waiting? ensures Fulfilled(t, t.calls[d].previous) {
      assert IsLatest(s.calls, d, s.calls[d].key, s.calls[d].previous);
      assert Fulfilled(s, s.calls[d].previous);
    }
  }

  lemma SettleKeeps(s: Locks, c: nat)
    requires Inv(s) && Enabled(s, Settles(c))
    ensures Inv(Next(s, Settles(c)))
  {
    var t := Next(s, Settles(c));
    ChainKept(s, t);
    forall d | 0 <= d < |t.calls| && !t.calls[d].phase.Waiting? ensures Fulfilled(t, t.calls[d].previous) {
      assert Fulfilled(s, s.calls[d].previous);
    }
  }

  lemma NextKeepsInv(s: Locks, ev: Event)
    requires Inv(s) && Enabled(s, ev)
    ensures Inv(Next(s, ev))
  {
    hide Inv, Next, Enabled;
    match ev
    case Calls(key) => CallKeeps(s, key);
    case Enters(c) => EnterKeeps(s, c);
    case Leaves(c, rejected) => LeaveKeeps(s, c, rejected);
    case Settles(c) => SettleKeeps(s, c);
  }

  // ----- Every interleaving -----

  ghost predicate IsRun(ss: seq<Locks>, evs: seq<Event>) {
    && |ss| == |evs| + 1 && ss[0] == Unlocked
    && forall i :: 0 <= i < |evs| ==> Enabled(ss[i], evs[i]) && ss[i + 1] == Next(ss[i], evs[i])
  }

  lemma {:induction false} ReachableInv(ss: seq<Locks>, evs: seq<Event>, k: nat)
    requires IsRun(ss, evs) && k < |ss|
    ensures Inv(ss[k])
  {
    if k > 0 {
      ReachableInv(ss, evs, k - 1);
      NextKeepsInv(ss[k - 1], evs[k - 1]);
    }
  }

  /** At most one caller per account is inside fn. */
  lemma MutualExclusion(ss: seq<Locks>, evs: seq<Event>, k: nat, a: nat, b: nat)
    requires IsRun(ss, evs) && k < |ss| && a < |ss[k].calls| && b < |ss[k].calls|
    requires ss[k].calls[a].phase.Inside? && ss[k].calls[b].phase.Inside? && ss[k].calls[a].key == ss[k].calls[b].key
    ensures a == b
  {
    ReachableInv(ss, evs, k);
  }

  /** Callers of an account enter in call order, whatever became of the earlier ones. */
  lemma EntersInCallOrder(ss: seq<Locks>, evs: seq<Event>, k: nat, c: nat)
    requires IsRun(ss, evs) && k < |evs| && evs[k] == Enters(c) && c < |ss[k].calls|
    ensures forall a :: 0 <= a < |ss[k].calls| && a != c && ss[k].calls[a].key == ss[k].calls[c].key ==>
                          if a < c then ss[k].calls[a].phase.Left? else ss[k].calls[a].phase.Waiting?
  {
    ReachableInv(ss, evs, k);
    EarlierHaveLeft(ss[k], c);
  }

  /** When every earlier caller has left, the next one enters after at most one more turn, and that
      turn belongs to its own account. */
  lemma NextInLineEnters(ss: seq<Locks>, evs: seq<Event>, k: nat, c: nat)
    requires IsRun(ss, evs) && k < |ss| && c < |ss[k].calls| && ss[k].calls[c].phase.Waiting?
    requires forall a :: 0 <= a < c && ss[k].calls[a].key == ss[k].calls[c].key ==> ss[k].calls[a].phase.Left?
    ensures var s := ss[k];
      Enabled(s, Enters(c)) ||
      exists b: nat :: Enabled(s, Settles(b)) && s.calls[b].key == s.calls[c].key && Enabled(Next(s, Settles(b)), Enters(c))
  {
    ReachableInv(ss, evs, k);
    var s := ss[k];
    assert IsLatest(s.calls, c, s.calls[c].key, s.calls[c].previous);
    if !Enabled(s, Enters(c)) {
      var b := s.calls[c].previous.call;
      assert Fulfilled(s, s.calls[b].previous);
      assert Enabled(s, Settles(b));
    }
  }

  /** Accounts never block each other: a turn of one neither enables nor disables a turn of another. */
  lemma AccountsAreIndependent(ss: seq<Locks>, evs: seq<Event>, k: nat, ev: Event)
    requires IsRun(ss, evs) && k < |evs|
    requires !ev.Calls? && ev.call < |ss[k].calls| && ss[k].calls[ev.call].key != KeyOf(ss[k], evs[k])
    ensures Enabled(ss[k + 1], ev) <==> Enabled(ss[k], ev)
  {
    ReachableInv(ss, evs, k);
    var s := ss[k];
    assert IsLatest(s.calls, ev.call, s.calls[ev.call].key, s.calls[ev.call].previous);
  }

  /** A caller waits for a derived promise of its own account, if for any. */
  lemma PreviousIsOwn(s: Locks, c: nat)
    requires Inv(s) && c < |s.calls|
    ensures var p := s.calls[c].previous; p.Ready? || (p.Chained? && p.call < c && s.calls[p.call].key == s.calls[c].key)
  {
    assert IsLatest(s.calls, c, s.calls[c].key, s.calls[c].previous);
  }

  /** A turn leaves a turn of another account possible, and leaves the map alone. */
  lemma TurnLeavesOther(s: Locks, e: Event, f: Event)
    requires Inv(s) && Enabled(s, e) && Enabled(s, f) && !e.Calls? && !f.Calls? && KeyOf(s, e) != KeyOf(s, f)
    ensures Enabled(Next(s, e), f) && Next(s, e).tails == s.tails
  {
    PreviousIsOwn(s, f.call);
    CleanupNeverFires(s, e.call);
    hide Inv;
  }

  /** So the two turns can be swapped. */
  lemma AccountsCommute(s: Locks, e: Event, f: Event)
    requires Inv(s) && Enabled(s, e) && Enabled(s, f) && !e.Calls? && !f.Calls? && KeyOf(s, e) != KeyOf(s, f)
    ensures Enabled(Next(s, e), f) && Enabled(Next(s, f), e)
    ensures Next(Next(s, e), f) == Next(Next(s, f), e)
  {
    TurnLeavesOther(s, e, f);
    TurnLeavesOther(s, f, e);
    hide Inv;
    TailsAfterBoth(s, e, f);
    TailsAfterBoth(s, f, e);
    CallsCommute(s, e, f);
  }

  lemma TailsAfterBoth(s: Locks, e: Event, f: Event)
    requires Enabled(s, e) && Enabled(s, f) && !e.Calls? && !f.Calls? && e.call != f.call
    requires Enabled(Next(s, e), f) && Next(s, e).tails == s.tails && Next(s, f).tails == s.tails
    ensures Next(Next(s, e), f).tails == s.tails
  {
  }

  lemma CallsCommute(s: Locks, e: Event, f: Event)
    requires Enabled(s, e) && Enabled(s, f) && !e.Calls? && !f.Calls? && e.call != f.call
    requires Enabled(Next(s, e), f) && Enabled(Next(s, f), e)
    ensures Next(Next(s, e), f).calls == Next(Next(s, f), e).calls
    ensures Next(Next(s, e), f).settled == Next(Next(s, f), e).settled
  {
    hide Fulfilled;
  }

  /** The map only grows: an account's tail is replaced by later calls and never deleted. */
  lemma {:induction false} TailsNeverDeleted(ss: seq<Locks>, evs: seq<Event>, i: nat, j: nat)
    requires IsRun(ss, evs) && i <= j < |ss|
    ensures ss[i].tails.Keys <= ss[j].tails.Keys
  {
    if i < j {
      TailsNeverDeleted(ss, evs, i, j - 1);
      ReachableInv(ss, evs, j - 1);
      var ev := evs[j - 1];
      if ev.Leaves? { CleanupNeverFires(ss[j - 1], ev.call); }
    }
  }
}
