/** The replay guard of the request-signature verifier: a timestamp window, and a nonce cache bounded
    in time and in size. */
module NonceCache {
  import opened Types

  datatype Config = Config(maxAge: nat, ttl: nat, maxEntries: nat)

  datatype Entry = Entry(nonce: string, expiresAt: int)

  /** A request after header parsing; `genuine` is the verdict of key, encoding and signature checks. */
  datatype Request = Request(nonce: string, timestamp: int, genuine: bool)

  /** The clock readings of one verification, in program order: the window check, the two of the nonce
      lookup, and the two of recording. */
  datatype Clock = Clock(window: int, evict: int, compare: int, reEvict: int, record: int) {
    predicate Ordered() {
      window <= evict <= compare <= reEvict <= record
    }
  }

  datatype Verdict = Accepted | SignatureExpired | NonceReused | NotGenuine

  /** A Map in insertion order without its expired entries. */
  function Evict(es: seq<Entry>, now: int): seq<Entry> {
    if es == [] then []
    else
      var front := Evict(es[..|es| - 1], now);
      if es[|es| - 1].expiresAt <= now then front else front + [es[|es| - 1]]
  }

  function Lookup(es: seq<Entry>, nonce: string): Option<int> {
    if es == [] then None
    else if es[|es| - 1].nonce == nonce then Some(es[|es| - 1].expiresAt)
    else Lookup(es[..|es| - 1], nonce)
  }

  /** Map.set: an existing key keeps its place, a new one goes last. */
  function Set(es: seq<Entry>, nonce: string, expiresAt: int): seq<Entry> {
    if es == [] then [Entry(nonce, expiresAt)]
    else if es[0].nonce == nonce then [Entry(nonce, expiresAt)] + es[1..]
    else [es[0]] + Set(es[1..], nonce, expiresAt)
  }

  predicate Seen(es: seq<Entry>, nonce: string, clock: Clock) {
    var found := Lookup(Evict(es, clock.evict), nonce);
    found.Some? && found.value > clock.compare
  }

  function Record(cfg: Config, es: seq<Entry>, nonce: string, clock: Clock): seq<Entry> {
    var live := Evict(es, clock.reEvict);
    var room := if |live| >= cfg.maxEntries && live != [] then live[1..] else live;
    Set(room, nonce, clock.record + cfg.ttl)
  }

  function VerdictOf(cfg: Config, es: seq<Entry>, req: Request, clock: Clock): Verdict {
    var age := clock.window - req.timestamp;
    if age < 0 || age > cfg.maxAge then SignatureExpired
    else if Seen(es, req.nonce, clock) then NonceReused
    else if !req.genuine then NotGenuine
    else Accepted
  }

  function CacheAfter(cfg: Config, es: seq<Entry>, req: Request, clock: Clock): seq<Entry> {
    match VerdictOf(cfg, es, req, clock)
    case SignatureExpired => es
    case NonceReused => Evict(es, clock.evict)
    case NotGenuine => Evict(es, clock.evict)
    case Accepted => Record(cfg, Evict(es, clock.evict), req.nonce, clock)
  }

  class Verifier {
    const cfg: Config
    var nonceCache: seq<Entry>

    /** A Map holds each key once. */
    ghost predicate Valid()
      reads this
    {
      NoRepeats(nonceCache)
    }

    constructor (cfg: Config)
      ensures this.cfg == cfg && nonceCache == [] && Valid()
    {
      this.cfg := cfg;
      nonceCache := [];
    }

    /** Iterates the Map in insertion order, deleting the current key when it has expired. */
    method EvictExpired(now: int)
      modifies this`nonceCache
      ensures nonceCache == Evict(old(nonceCache), now)
    {
      var i := 0;
      ghost var done := 0;
      while i < |nonceCache|
        invariant 0 <= i <= |nonceCache| && done + |nonceCache| == |old(nonceCache)| + i
        invariant 0 <= done <= |old(nonceCache)|
        invariant nonceCache[..i] == Evict(old(nonceCache)[..done], now)
        invariant nonceCache[i..] == old(nonceCache)[done..]
        decreases |nonceCache| - i
      {
        assert nonceCache[i] == nonceCache[i..][0] == old(nonceCache)[done];
        assert old(nonceCache)[..done + 1][..done] == old(nonceCache)[..done];
        assert nonceCache[i..][1..] == nonceCache[i + 1..] && old(nonceCache)[done..][1..] == old(nonceCache)[done + 1..];
        if nonceCache[i].expiresAt <= now {
          var rest := nonceCache[i + 1..];
          nonceCache := nonceCache[..i] + rest;
          assert nonceCache[i..] == rest;
        } else {
          i := i + 1;
        }
        done := done + 1;
      }
      assert old(nonceCache)[..done] == old(nonceCache) && nonceCache[..i] == nonceCache;
    }

    method IsNonceSeen(nonce: string, clock: Clock) returns (seen: bool)
      modifies this`nonceCache
      ensures seen == Seen(old(nonceCache), nonce, clock)
      ensures nonceCache == Evict(old(nonceCache), clock.evict)
    {
      EvictExpired(clock.evict);
      var expiresAt := Lookup(nonceCache, nonce);
      seen := expiresAt.Some? && expiresAt.value > clock.compare;
    }

    method RecordNonce(nonce: string, clock: Clock)
      modifies this`nonceCache
      ensures nonceCache == Record(cfg, old(nonceCache), nonce, clock)
    {
      EvictExpired(clock.reEvict);
      if |nonceCache| >= cfg.maxEntries && nonceCache != [] { nonceCache := nonceCache[1..]; }
      nonceCache := Set(nonceCache, nonce, clock.record + cfg.ttl);
    }

    /** Accepted exactly for a genuine request inside the window whose nonce is not remembered; nothing
        but an acceptance adds an entry. */
    method VerifyRequestSignature(req: Request, clock: Clock) returns (v: Verdict)
      requires Valid()
      modifies this`nonceCache
      ensures Valid()
      ensures v == VerdictOf(cfg, old(nonceCache), req, clock)
      ensures nonceCache == CacheAfter(cfg, old(nonceCache), req, clock)
      ensures v == Accepted <==>
              && req.genuine && 0 <= clock.window - req.timestamp <= cfg.maxAge
              && forall e :: e in old(nonceCache) && e.nonce == req.nonce && e.expiresAt > clock.evict ==> e.expiresAt <= clock.compare
      ensures v != Accepted ==> forall e :: e in nonceCache ==> e in old(nonceCache)
    {
      AcceptedIff(cfg, nonceCache, req, clock);
      CacheKeepsKeys(cfg, nonceCache, req, clock);
      var age := clock.window - req.timestamp;
      if age < 0 || age > cfg.maxAge { return SignatureExpired; }
      var seen := IsNonceSeen(req.nonce, clock);
      if seen { return NonceReused; }
      if !req.genuine { return NotGenuine; }
      RecordNonce(req.nonce, clock);
      v := Accepted;
    }
  }

  // ----- Runs -----

  datatype Event = Verify(req: Request, clock: Clock) | Stats(now: int)

  /** An acceptance: what was accepted, when its window was checked, and until when it is remembered. */
  datatype Acceptance = Acceptance(nonce: string, timestamp: int, at: int, expiresAt: int)

  datatype Guard = Guard(cache: seq<Entry>, log: seq<Acceptance>, clock: int)

  function Next(cfg: Config, g: Guard, ev: Event): Guard {
    match ev
    case Stats(now) => g.(cache := Evict(g.cache, now), clock := now)
    case Verify(req, clock) =>
      var log := if VerdictOf(cfg, g.cache, req, clock) == Accepted
                 then g.log + [Acceptance(req.nonce, req.timestamp, clock.window, clock.record + cfg.ttl)] else g.log;
      Guard(CacheAfter(cfg, g.cache, req, clock), log, clock.record)
  }

  /** The clock never goes back, and the nonce lookup follows the window check by less than `delay`. */
  predicate Timely(delay: int, g: Guard, ev: Event) {
    match ev
    case Stats(now) => g.clock <= now
    case Verify(_, clock) => g.clock <= clock.window && clock.Ordered() && clock.compare - clock.window < delay
  }

  /** A run whose lookups come within `delay`, over any requests at all. */
  ghost predicate IsRun(cfg: Config, delay: int, gs: seq<Guard>, evs: seq<Event>) {
    && |gs| == |evs| + 1
    && gs[0].cache == [] && gs[0].log == []
    && forall i :: 0 <= i < |evs| ==> Timely(delay, gs[i], evs[i]) && gs[i + 1] == Next(cfg, gs[i], evs[i])
  }

  function Remembered(a: Acceptance): Entry {
    Entry(a.nonce, a.expiresAt)
  }

  ghost predicate ByExpiry(es: seq<Entry>) {
    forall i, j :: 0 <= i < j < |es| ==> es[i].expiresAt <= es[j].expiresAt
  }

  ghost predicate NoRepeats(es: seq<Entry>) {
    forall i, j :: 0 <= i < j < |es| ==> es[i].nonce != es[j].nonce
  }

  /** The cache is a suffix of the acceptances: what was dropped has expired, or has been followed by
      maxEntries further acceptances. */
  ghost predicate CacheIsRecent(cfg: Config, g: Guard) {
    var d := |g.log| - |g.cache|;
    && d >= 0
    && (forall p :: 0 <= p < |g.cache| ==> g.cache[p] == Remembered(g.log[d + p]))
    && (forall i :: 0 <= i < d ==> g.log[i].expiresAt <= g.clock || |g.log| - 1 - i >= cfg.maxEntries)
  }

  ghost predicate LogSound(cfg: Config, g: Guard) {
    && (forall i :: 0 <= i < |g.log| ==> 0 <= g.log[i].at - g.log[i].timestamp <= cfg.maxAge)
    && (forall i :: 0 <= i < |g.log| ==> g.log[i].at + cfg.ttl <= g.log[i].expiresAt <= g.clock + cfg.ttl)
    && (forall i, j :: 0 <= i < j < |g.log| ==> g.log[i].expiresAt <= g.log[j].expiresAt)
  }

  /** Any two acceptances of the same request are separated by at least maxEntries others. */
  ghost predicate ReplaysFarApart(cfg: Config, log: seq<Acceptance>) {
    forall i, j :: 0 <= i < j < |log| && log[i].nonce == log[j].nonce && log[i].timestamp == log[j].timestamp
      ==> j - i - 1 >= cfg.maxEntries
  }

  ghost predicate Inv(cfg: Config, g: Guard) {
    CacheIsRecent(cfg, g) && LogSound(cfg, g) && NoRepeats(g.cache) && ReplaysFarApart(cfg, g.log)
  }

  /** Eviction keeps exactly the unexpired entries. */
  lemma {:induction false} EvictMembers(es: seq<Entry>, now: int)
    ensures forall e :: e in Evict(es, now) <==> e in es && e.expiresAt > now
  {
    if es != [] {
      EvictMembers(es[..|es| - 1], now);
      assert es == es[..|es| - 1] + [es[|es| - 1]];
    }
  }

  lemma {:induction false} EvictNoRepeats(es: seq<Entry>, now: int)
    requires NoRepeats(es)
    ensures NoRepeats(Evict(es, now))
  {
    if es != [] {
      var front := es[..|es| - 1];
      EvictNoRepeats(front, now);
      EvictMembers(front, now);
      assert forall i :: 0 <= i < |front| ==> front[i].nonce != es[|es| - 1].nonce;
      SnocNoRepeats(Evict(front, now), es[|es| - 1]);
    }
  }

  lemma SnocNoRepeats(es: seq<Entry>, last: Entry)
    requires NoRepeats(es) && forall e :: e in es ==> e.nonce != last.nonce
    ensures NoRepeats(es + [last])
  {
    assert forall i :: 0 <= i < |es| ==> es[i] in es;
  }

  /** The lookup finds the one entry of a nonce. */
  lemma LookupFindsEntry(es: seq<Entry>, nonce: string)
    requires NoRepeats(es)
    ensures forall e :: e in es && e.nonce == nonce ==> Lookup(es, nonce) == Some(e.expiresAt)
    ensures Lookup(es, nonce).Some? ==> Entry(nonce, Lookup(es, nonce).value) in es
  {
    LookupMeaning(es, nonce);
    forall e | e in es && e.nonce == nonce ensures Lookup(es, nonce) == Some(e.expiresAt) {
      var i :| 0 <= i < |es| && es[i] == e;
      var j :| 0 <= j < |es| && es[j] == Entry(nonce, Lookup(es, nonce).value);
      assert i == j;
    }
  }

  /** Which requests are accepted, in terms of the cache as it was. */
  lemma AcceptedIff(cfg: Config, es: seq<Entry>, req: Request, clock: Clock)
    requires NoRepeats(es)
    ensures VerdictOf(cfg, es, req, clock) == Accepted <==>
            && req.genuine && 0 <= clock.window - req.timestamp <= cfg.maxAge
            && forall e :: e in es && e.nonce == req.nonce && e.expiresAt > clock.evict ==> e.expiresAt <= clock.compare
  {
    EvictMembers(es, clock.evict);
    EvictNoRepeats(es, clock.evict);
    LookupFindsEntry(Evict(es, clock.evict), req.nonce);
    hide Evict, Lookup, NoRepeats;
  }

  lemma {:induction false} SetNoRepeats(es: seq<Entry>, nonce: string, expiresAt: int)
    requires NoRepeats(es)
    ensures NoRepeats(Set(es, nonce, expiresAt))
    ensures forall e :: e in Set(es, nonce, expiresAt) ==> e.nonce == nonce || e in es
  {
    if es != [] {
      var rest := es[1..];
      assert es == [es[0]] + rest;
      assert forall i :: 0 <= i < |rest| ==> rest[i] == es[i + 1];
      if es[0].nonce == nonce {
        ConsNoRepeats(Entry(nonce, expiresAt), rest);
      } else {
        SetNoRepeats(rest, nonce, expiresAt);
        ConsNoRepeats(es[0], Set(rest, nonce, expiresAt));
      }
    }
  }

  lemma ConsNoRepeats(first: Entry, es: seq<Entry>)
    requires NoRepeats(es) && forall e :: e in es ==> e.nonce != first.nonce
    ensures NoRepeats([first] + es)
  {
    assert forall i :: 0 <= i < |es| ==> es[i] in es;
  }

  /** Every verification leaves a Map, and only an acceptance adds to it. */
  lemma CacheKeepsKeys(cfg: Config, es: seq<Entry>, req: Request, clock: Clock)
    requires NoRepeats(es)
    ensures NoRepeats(CacheAfter(cfg, es, req, clock))
    ensures VerdictOf(cfg, es, req, clock) != Accepted ==> forall e :: e in CacheAfter(cfg, es, req, clock) ==> e in es
  {
    hide Evict, Set, NoRepeats, VerdictOf;
    EvictMembers(es, clock.evict);
    EvictNoRepeats(es, clock.evict);
    var live := Evict(Evict(es, clock.evict), clock.reEvict);
    EvictNoRepeats(Evict(es, clock.evict), clock.reEvict);
    if live != [] { TailNoRepeats(live); }
    var room := if |live| >= cfg.maxEntries && live != [] then live[1..] else live;
    SetNoRepeats(room, req.nonce, clock.record + cfg.ttl);
  }

  lemma TailNoRepeats(es: seq<Entry>)
    requires NoRepeats(es) && es != []
    ensures NoRepeats(es[1..])
  {
  }

  /** Evicting from a cache in expiry order drops a prefix, all of it expired. */
  lemma {:induction false} EvictIsSuffix(es: seq<Entry>, now: int) returns (k: nat)
    requires ByExpiry(es)
    ensures k <= |es| && Evict(es, now) == es[k..]
    ensures forall i :: 0 <= i < k ==> es[i].expiresAt <= now
    ensures forall i :: k <= i < |es| ==> es[i].expiresAt > now
    ensures k < |es| ==> es[k].expiresAt > now
  {
    k := 0;
    if es != [] {
      var n := |es| - 1;
      k := EvictIsSuffix(es[..n], now);
      assert forall i :: 0 <= i < n ==> es[..n][i] == es[i];
      if es[n].expiresAt <= now {
        k := |es|;
      } else {
        EvictKeepsLast(es, k);
      }
    }
  }

  lemma EvictKeepsLast(es: seq<Entry>, k: nat)
    requires es != [] && k < |es|
    ensures es[..|es| - 1][k..] + [es[|es| - 1]] == es[k..]
  {
  }

  lemma {:induction false} LookupMeaning(es: seq<Entry>, nonce: string)
    ensures Lookup(es, nonce).None? <==> forall i :: 0 <= i < |es| ==> es[i].nonce != nonce
    ensures Lookup(es, nonce).Some? ==> exists i :: 0 <= i < |es| && es[i] == Entry(nonce, Lookup(es, nonce).value)
  {
    if es != [] {
      LookupMeaning(es[..|es| - 1], nonce);
      if es[|es| - 1].nonce != nonce && Lookup(es[..|es| - 1], nonce).Some? {
        var i :| 0 <= i < |es| - 1 && es[..|es| - 1][i] == Entry(nonce, Lookup(es, nonce).value);
        assert es[i] == Entry(nonce, Lookup(es, nonce).value);
      }
    }
  }

  lemma {:induction false} SetAppends(es: seq<Entry>, nonce: string, expiresAt: int)
    requires forall i :: 0 <= i < |es| ==> es[i].nonce != nonce
    ensures Set(es, nonce, expiresAt) == es + [Entry(nonce, expiresAt)]
  {
    if es != [] { SetAppends(es[1..], nonce, expiresAt); }
  }

  /** In every state that keeps the invariant, Map order is expiry order. */
  lemma CacheByExpiry(cfg: Config, g: Guard)
    requires CacheIsRecent(cfg, g) && LogSound(cfg, g)
    ensures ByExpiry(g.cache)
  {
    var d := |g.log| - |g.cache|;
    forall i, j | 0 <= i < j < |g.cache| ensures g.cache[i].expiresAt <= g.cache[j].expiresAt {
      assert g.log[d + i].expiresAt <= g.log[d + j].expiresAt;
    }
  }

  /** Time passing and expired entries leaving keeps the invariant. */
  lemma EvictKeeps(cfg: Config, g: Guard, now: int, later: int)
    requires Inv(cfg, g) && g.clock <= now <= later
    ensures Inv(cfg, g.(cache := Evict(g.cache, now), clock := later))
    ensures forall e :: e in Evict(g.cache, now) ==> e.expiresAt > now
  {
    hide Evict;
    CacheByExpiry(cfg, g);
    var k := EvictIsSuffix(g.cache, now);
    SuffixKeeps(cfg, g, k, now, later);
  }

  lemma SuffixKeeps(cfg: Config, g: Guard, k: nat, now: int, later: int)
    requires CacheIsRecent(cfg, g) && LogSound(cfg, g) && NoRepeats(g.cache)
    requires k <= |g.cache| && g.clock <= now <= later && forall i :: 0 <= i < k ==> g.cache[i].expiresAt <= now
    ensures var g' := g.(cache := g.cache[k..], clock := later);
      CacheIsRecent(cfg, g') && LogSound(cfg, g') && NoRepeats(g'.cache)
  {
    var g' := g.(cache := g.cache[k..], clock := later);
    var d := |g.log| - |g.cache|;
    forall i | d <= i < d + k ensures g.log[i].expiresAt <= now {
      assert g.cache[i - d] == Remembered(g.log[i]);
    }
    assert forall p :: 0 <= p < |g'.cache| ==> g'.cache[p] == g.cache[k + p];
  }

  /** The cache just before an acceptance is recorded holds no entry for its nonce. */
  lemma NotCached(es: seq<Entry>, nonce: string, clock: Clock)
    requires ByExpiry(es) && NoRepeats(es) && clock.Ordered() && !Seen(es, nonce, clock)
    ensures forall e :: e in Evict(Evict(es, clock.evict), clock.reEvict) ==> e.nonce != nonce
    ensures forall e :: e in Evict(es, clock.evict) && e.nonce == nonce ==> e.expiresAt <= clock.compare
  {
    var k := EvictIsSuffix(es, clock.evict);
    var live := Evict(es, clock.evict);
    LookupMeaning(live, nonce);
    var m := EvictIsSuffix(live, clock.reEvict);
    hide Evict;
    forall e | e in live && e.nonce == nonce ensures e.expiresAt <= clock.compare {
      var i :| 0 <= i < |live| && live[i] == e;
      var j :| 0 <= j < |live| && live[j] == Entry(nonce, Lookup(live, nonce).value);
      assert es[k + i] == live[i] && es[k + j] == live[j];
    }
    forall e | e in live[m..] ensures e.nonce != nonce {
      assert e in live;
    }
  }

  /** An accepted request was dropped from the cache, if ever, by capacity and not by time. */
  lemma ReplayNeedsCapacity(cfg: Config, g: Guard, req: Request, clock: Clock, i: nat)
    requires Inv(cfg, g) && Timely(cfg.ttl - cfg.maxAge, g, Verify(req, clock)) && VerdictOf(cfg, g.cache, req, clock) == Accepted
    requires i < |g.log| && g.log[i].nonce == req.nonce && g.log[i].timestamp == req.timestamp
    ensures |g.log| - 1 - i >= cfg.maxEntries
  {
    var g1 := g.(cache := Evict(g.cache, clock.evict), clock := clock.evict);
    CacheByExpiry(cfg, g);
    EvictKeeps(cfg, g, clock.evict, clock.evict);
    NotCached(g.cache, req.nonce, clock);
    hide Evict, Lookup, NoRepeats, ByExpiry, Set, ReplaysFarApart;
    var d := |g1.log| - |g1.cache|;
    assert g.log[i].expiresAt > clock.compare;
    forall m | d <= m < |g.log|
      ensures g.log[m].nonce != req.nonce || g.log[m].expiresAt <= clock.compare
    {
      assert g1.cache[m - d] == Remembered(g.log[m]) && g1.cache[m - d] in g1.cache;
    }
  }

  /** Recording: the cache with the new entry is again the recent end of the acceptances. */
  lemma RecordKeeps(cfg: Config, g: Guard, room: seq<Entry>, a: Acceptance, now: int)
    requires CacheIsRecent(cfg, g) && LogSound(cfg, g) && NoRepeats(g.cache)
    requires forall e :: e in g.cache ==> e.nonce != a.nonce
    requires room == if |g.cache| >= cfg.maxEntries && g.cache != [] then g.cache[1..] else g.cache
    requires g.clock <= now && a.expiresAt == now + cfg.ttl
    requires 0 <= a.at - a.timestamp <= cfg.maxAge && a.at <= now
    ensures var g' := Guard(room + [Remembered(a)], g.log + [a], now);
      CacheIsRecent(cfg, g') && LogSound(cfg, g') && NoRepeats(g'.cache)
  {
    var g' := Guard(room + [Remembered(a)], g.log + [a], now);
    assert CacheIsRecent(cfg, g') by { hide LogSound, NoRepeats; RecordedIsRecent(cfg, g, room, a, now); }
    assert LogSound(cfg, g') by { hide CacheIsRecent, NoRepeats; }
    assert NoRepeats(g'.cache) by { hide LogSound, CacheIsRecent; RecordedNoRepeats(g.cache, room, a); }
  }

  lemma RecordedIsRecent(cfg: Config, g: Guard, room: seq<Entry>, a: Acceptance, now: int)
    requires CacheIsRecent(cfg, g) && g.clock <= now
    requires room == if |g.cache| >= cfg.maxEntries && g.cache != [] then g.cache[1..] else g.cache
    ensures CacheIsRecent(cfg, Guard(room + [Remembered(a)], g.log + [a], now))
  {
    var g' := Guard(room + [Remembered(a)], g.log + [a], now);
    var d, d' := |g.log| - |g.cache|, |g'.log| - |g'.cache|;
    forall p | 0 <= p < |g'.cache| ensures g'.cache[p] == Remembered(g'.log[d' + p]) {
      if p < |room| { assert room[p] == g.cache[p + d' - d]; }
    }
    assert forall i :: 0 <= i < |g.log| ==> g'.log[i] == g.log[i];
  }

  lemma RecordedNoRepeats(cache: seq<Entry>, room: seq<Entry>, a: Acceptance)
    requires NoRepeats(cache) && (forall e :: e in cache ==> e.nonce != a.nonce)
    requires room == cache || (cache != [] && room == cache[1..])
    ensures NoRepeats(room + [Remembered(a)])
  {
    assert forall e :: e in room ==> e in cache;
    assert NoRepeats(room);
    var all := room + [Remembered(a)];
    assert forall i :: 0 <= i < |room| ==> all[i] == room[i] && room[i] in room;
  }

  lemma AcceptKeeps(cfg: Config, g: Guard, req: Request, clock: Clock)
    requires Inv(cfg, g) && Timely(cfg.ttl - cfg.maxAge, g, Verify(req, clock)) && VerdictOf(cfg, g.cache, req, clock) == Accepted
    ensures Inv(cfg, Next(cfg, g, Verify(req, clock)))
  {
    hide Evict, CacheIsRecent, LogSound, NoRepeats;
    var a := Acceptance(req.nonce, req.timestamp, clock.window, clock.record + cfg.ttl);
    var g1 := g.(cache := Evict(g.cache, clock.evict), clock := clock.evict);
    var g2 := g.(cache := Evict(g1.cache, clock.reEvict), clock := clock.reEvict);
    CacheByExpiry(cfg, g);
    EvictKeeps(cfg, g, clock.evict, clock.evict);
    EvictKeeps(cfg, g1, clock.reEvict, clock.reEvict);
    NotCached(g.cache, req.nonce, clock);
    var room := if |g2.cache| >= cfg.maxEntries && g2.cache != [] then g2.cache[1..] else g2.cache;
    RecordKeeps(cfg, g2, room, a, clock.record);
    SetAppends(room, req.nonce, clock.record + cfg.ttl);
    forall i | 0 <= i < |g.log| && g.log[i].nonce == a.nonce && g.log[i].timestamp == a.timestamp
      ensures |g.log| - i - 1 >= cfg.maxEntries
    {
      ReplayNeedsCapacity(cfg, g, req, clock, i);
    }
  }

  lemma NextKeepsInv(cfg: Config, g: Guard, ev: Event)
    requires Inv(cfg, g) && Timely(cfg.ttl - cfg.maxAge, g, ev)
    ensures Inv(cfg, Next(cfg, g, ev))
  {
    match ev
    case Stats(now) => EvictKeeps(cfg, g, now, now);
    case Verify(req, clock) =>
      if VerdictOf(cfg, g.cache, req, clock) == Accepted {
        AcceptKeeps(cfg, g, req, clock);
      } else {
        EvictKeeps(cfg, g, clock.evict, clock.record);
        LaterKeeps(cfg, g, clock.record);
      }
  }

  lemma LaterKeeps(cfg: Config, g: Guard, later: int)
    requires Inv(cfg, g) && g.clock <= later
    ensures Inv(cfg, g.(clock := later))
  {
  }

  /** In every reachable state of every run with lookups in time, the Map is in expiry order and is the
      recent end of the acceptances; and a request is accepted again only after maxEntries others. */
  lemma {:induction false} ReplayGuard(cfg: Config, delay: int, gs: seq<Guard>, evs: seq<Event>, k: nat)
    requires delay <= cfg.ttl - cfg.maxAge && IsRun(cfg, delay, gs, evs) && k < |gs|
    ensures Inv(cfg, gs[k]) && ByExpiry(gs[k].cache)
  {
    hide Next, Inv;
    if k > 0 {
      ReplayGuard(cfg, delay, gs, evs, k - 1);
      NextKeepsInv(cfg, gs[k - 1], evs[k - 1]);
    } else {
      NothingAccepted(cfg, gs[0]);
    }
    InvByExpiry(cfg, gs[k]);
  }

  lemma NothingAccepted(cfg: Config, g: Guard)
    requires g.cache == [] && g.log == []
    ensures Inv(cfg, g)
  {
  }

  lemma InvByExpiry(cfg: Config, g: Guard)
    requires Inv(cfg, g)
    ensures ByExpiry(g.cache)
  {
    CacheByExpiry(cfg, g);
  }

  /** Below capacity, each request is accepted at most once in the whole run. */
  lemma AtMostOnce(cfg: Config, delay: int, gs: seq<Guard>, evs: seq<Event>, i: nat, j: nat)
    requires delay <= cfg.ttl - cfg.maxAge && IsRun(cfg, delay, gs, evs)
    requires |gs[|evs|].log| <= cfg.maxEntries + 1
    requires i < j < |gs[|evs|].log|
    ensures var log := gs[|evs|].log; !(log[i].nonce == log[j].nonce && log[i].timestamp == log[j].timestamp)
  {
    ReplayGuard(cfg, delay, gs, evs, |evs|);
  }

  // ----- What was accepted -----

  /** A verification that must be accepted: a genuine request inside the window, none of whose entries is
      still alive. */
  ghost predicate Acceptable(cfg: Config, es: seq<Entry>, ev: Event) {
    && ev.Verify? && ev.req.genuine && 0 <= ev.clock.window - ev.req.timestamp <= cfg.maxAge
    && forall e :: e in es && e.nonce == ev.req.nonce && e.expiresAt > ev.clock.evict ==> e.expiresAt <= ev.clock.compare
  }

  /** The acceptable verifications among the first k turns, in order. */
  ghost function AcceptedSoFar(cfg: Config, gs: seq<Guard>, evs: seq<Event>, k: nat): seq<Acceptance>
    requires k <= |evs| && |gs| == |evs| + 1
  {
    if k == 0 then []
    else
      var ev := evs[k - 1];
      AcceptedSoFar(cfg, gs, evs, k - 1)
        + if Acceptable(cfg, gs[k - 1].cache, ev)
          then [Acceptance(ev.req.nonce, ev.req.timestamp, ev.clock.window, ev.clock.record + cfg.ttl)] else []
  }

  /** On every run, whatever the delays, the acceptances are exactly the acceptable verifications, in
      order, so none carries a bad signature. */
  lemma {:induction false} LogIsAccepted(cfg: Config, delay: int, gs: seq<Guard>, evs: seq<Event>, k: nat)
    requires IsRun(cfg, delay, gs, evs) && k < |gs|
    ensures NoRepeats(gs[k].cache)
    ensures gs[k].log == AcceptedSoFar(cfg, gs, evs, k)
  {
    hide Evict, NoRepeats, VerdictOf, CacheAfter, Acceptable;
    if k > 0 {
      LogIsAccepted(cfg, delay, gs, evs, k - 1);
      LogStep(cfg, gs[k - 1], evs[k - 1]);
    } else {
      EmptyNoRepeats();
    }
  }

  lemma EmptyNoRepeats()
    ensures NoRepeats([])
  {
  }

  lemma LogStep(cfg: Config, g: Guard, ev: Event)
    requires NoRepeats(g.cache)
    ensures NoRepeats(Next(cfg, g, ev).cache)
    ensures Next(cfg, g, ev).log == g.log
              + if Acceptable(cfg, g.cache, ev)
                then [Acceptance(ev.req.nonce, ev.req.timestamp, ev.clock.window, ev.clock.record + cfg.ttl)] else []
  {
    match ev
    case Stats(now) => EvictNoRepeats(g.cache, now);
    case Verify(req, clock) =>
      AcceptedIff(cfg, g.cache, req, clock);
      CacheKeepsKeys(cfg, g.cache, req, clock);
  }

  // ----- The exact bound on the delay -----

  predicate NonceChar(c: char) {
    'a' <= c <= 'z' || 'A' <= c <= 'Z' || '0' <= c <= '9' || c == '_' || c == '-'
  }

  /** What header extraction lets through. */
  predicate FromHeaders(req: Request) {
    req.timestamp > 0 && 16 <= |req.nonce| <= 128 && forall i :: 0 <= i < |req.nonce| ==> NonceChar(req.nonce[i])
  }

  ghost predicate AllFromHeaders(evs: seq<Event>) {
    forall i :: 0 <= i < |evs| && evs[i].Verify? ==> FromHeaders(evs[i].req)
  }

  /** Whenever lookups may come as late as ttl - maxAge after the window check, any genuine request can
      be accepted twice in a row. */
  lemma SlowVerificationReplays(cfg: Config, delay: int, nonce: string, t: int)
    returns (gs: seq<Guard>, evs: seq<Event>)
    requires delay > 0 && delay > cfg.ttl - cfg.maxAge
    ensures IsRun(cfg, delay, gs, evs) && |gs| == |evs| + 1 && forall i :: 0 <= i < |evs| ==> evs[i].Verify? && evs[i].req == Request(nonce, t, true)
    ensures var log := gs[|evs|].log;
      |log| == 2 && log[0].nonce == log[1].nonce == nonce && log[0].timestamp == log[1].timestamp == t
    ensures cfg.maxEntries >= 1 ==> !ReplaysFarApart(cfg, gs[|evs|].log)
  {
    var req := Request(nonce, t, true);
    var late := if cfg.ttl >= cfg.maxAge then t + cfg.ttl else t + cfg.maxAge;
    var first, second := Clock(t, t, t, t, t), Clock(t + cfg.maxAge, late, late, late, late);
    evs := [Verify(req, first), Verify(req, second)];
    FirstAcceptance(cfg, req);
    var g0 := Guard([], [], t);
    var g1 := Next(cfg, g0, evs[0]);
    SecondAcceptance(cfg, req, second);
    var g2 := Next(cfg, g1, evs[1]);
    gs := [g0, g1, g2];
  }

  lemma FirstAcceptance(cfg: Config, req: Request)
    requires req.genuine
    ensures var t := req.timestamp;
      Next(cfg, Guard([], [], t), Verify(req, Clock(t, t, t, t, t)))
        == Guard([Entry(req.nonce, t + cfg.ttl)], [Acceptance(req.nonce, t, t, t + cfg.ttl)], t)
  {
    var t := req.timestamp;
    assert Evict([], t) == [];
    assert VerdictOf(cfg, [], req, Clock(t, t, t, t, t)) == Accepted;
  }

  lemma SecondAcceptance(cfg: Config, req: Request, clock: Clock)
    requires req.genuine && clock.Ordered() && clock.window == req.timestamp + cfg.maxAge
    requires clock.evict >= req.timestamp + cfg.ttl
    ensures VerdictOf(cfg, [Entry(req.nonce, req.timestamp + cfg.ttl)], req, clock) == Accepted
  {
    assert Evict([Entry(req.nonce, req.timestamp + cfg.ttl)], clock.evict) == [];
  }

  ghost predicate KeepsReplaysApart(cfg: Config, gs: seq<Guard>) {
    forall k :: 0 <= k < |gs| ==> ReplaysFarApart(cfg, gs[k].log)
  }

  /** The exact bound: over all runs of requests that pass header extraction, lookups within `delay` of
      the window check keep replays maxEntries acceptances apart if and only if `delay` is at most
      ttl - maxAge, or no lookup can be in time at all, or the capacity is zero. */
  lemma ReplayGuardIff(cfg: Config, delay: int)
    ensures (forall gs: seq<Guard>, evs: seq<Event> ::
               IsRun(cfg, delay, gs, evs) && AllFromHeaders(evs) ==> KeepsReplaysApart(cfg, gs))
            <==> delay <= cfg.ttl - cfg.maxAge || delay <= 0 || cfg.maxEntries == 0
  {
    hide Next, ReplaysFarApart, IsRun, FromHeaders;
    if delay <= cfg.ttl - cfg.maxAge || delay <= 0 || cfg.maxEntries == 0 {
      forall gs: seq<Guard>, evs: seq<Event> | IsRun(cfg, delay, gs, evs) ensures KeepsReplaysApart(cfg, gs) {
        forall k | 0 <= k < |gs| ensures ReplaysFarApart(cfg, gs[k].log) {
          StateKeepsReplaysApart(cfg, delay, gs, evs, k);
        }
      }
    } else {
      var nonce := "abcdefghijklmnop";
      var gs, evs := SlowVerificationReplays(cfg, delay, nonce, 1);
      SampleFromHeaders(nonce);
      assert AllFromHeaders(evs) && |gs| == |evs| + 1 && !KeepsReplaysApart(cfg, gs);
    }
  }

  lemma SampleFromHeaders(nonce: string)
    requires nonce == "abcdefghijklmnop"
    ensures FromHeaders(Request(nonce, 1, true))
  {
  }

  lemma StateKeepsReplaysApart(cfg: Config, delay: int, gs: seq<Guard>, evs: seq<Event>, k: nat)
    requires delay <= cfg.ttl - cfg.maxAge || delay <= 0 || cfg.maxEntries == 0
    requires IsRun(cfg, delay, gs, evs) && k < |gs|
    ensures ReplaysFarApart(cfg, gs[k].log)
  {
    if delay <= cfg.ttl - cfg.maxAge {
      hide Next, IsRun, ReplaysFarApart;
      ReplayGuard(cfg, delay, gs, evs, k);
    } else if delay <= 0 {
      hide Next, IsRun, ReplaysFarApart;
      NoTimeToAccept(cfg, delay, gs, evs, k);
    } else {
      NoPromise(cfg, gs[k].log);
    }
  }

  lemma NoPromise(cfg: Config, log: seq<Acceptance>)
    requires cfg.maxEntries == 0
    ensures ReplaysFarApart(cfg, log)
  {
  }

  /** With no time between check and lookup there is no verification at all. */
  lemma {:induction false} NoTimeToAccept(cfg: Config, delay: int, gs: seq<Guard>, evs: seq<Event>, k: nat)
    requires delay <= 0 && IsRun(cfg, delay, gs, evs) && k < |gs|
    ensures gs[k].log == [] && ReplaysFarApart(cfg, gs[k].log)
  {
    if k > 0 { NoTimeToAccept(cfg, delay, gs, evs, k - 1); }
  }
}
