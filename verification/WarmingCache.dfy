/** The contract-state cache: expiry, a warming window before it, and single-flight background refresh. */
module WarmingCache {
  import opened Types

  type Key = nat
  type Value = int

  datatype Config = Config(ttlMs: int, warmLeadTimeMs: int) {
    predicate WarmingEnabled() {
      warmLeadTimeMs < ttlMs
    }
  }

  datatype Entry = Entry(value: Value, fetchedAt: int, expiresAt: int)

  /** A started fetch. Threw: the fetch function threw instead of returning a promise. */
  datatype Status = Running | Settled | Threw

  datatype Fetch = Fetch(key: Key, startedAt: int, status: Status)

  datatype Metrics = Metrics(hits: nat, misses: nat, staleServes: nat, refreshLatencyMs: int)

  datatype Cache = Cache(
    configured: bool,
    cacheStore: map<Key, Entry>,
    refreshInFlight: map<Key, nat>,
    fetches: seq<Fetch>,
    metrics: Metrics)

  const Empty := Cache(false, map[], map[], [], Metrics(0, 0, 0, 0))

  /** One turn of the event loop. `throws` says whether a fetch started in this turn throws at once. */
  datatype Event =
    | Configure
    | Sets(key: Key, value: Value, ttlMs: int, at: int)
    | Gets(key: Key, at: int, startedAt: int, throws: bool)
    | Refreshes(key: Key, startedAt: int, throws: bool)
    | Succeeds(fetch: nat, fetched: Value, at: int, endedAt: int)
    | Fails(fetch: nat)
    | ResetMetrics

  function CacheSet(c: Cache, key: Key, value: Value, ttlMs: int, now: int): Cache {
    c.(cacheStore := c.cacheStore[key := Entry(value, now, now + ttlMs)])
  }

  /** What cacheGet returns. */
  function Lookup(c: Cache, key: Key, now: int): Option<Value> {
    if key in c.cacheStore && now < c.cacheStore[key].expiresAt then Some(c.cacheStore[key].value) else None
  }

  predicate InWarmingWindow(cfg: Config, c: Cache, key: Key, now: int) {
    && Lookup(c, key, now).Some?
    && cfg.WarmingEnabled() && now >= c.cacheStore[key].expiresAt - cfg.warmLeadTimeMs
  }

  function Refresh(c: Cache, key: Key, startedAt: int, throws: bool): Cache {
    if !c.configured || key in c.refreshInFlight then c
    else
      c.(fetches := c.fetches + [Fetch(key, startedAt, if throws then Threw else Running)],
         refreshInFlight := c.refreshInFlight[key := |c.fetches|])
  }

  function CacheGet(cfg: Config, c: Cache, key: Key, now: int, startedAt: int, throws: bool): Cache {
    var m := c.metrics;
    if Lookup(c, key, now).None? then c.(metrics := m.(misses := m.misses + 1))
    else if InWarmingWindow(cfg, c, key, now) then
      Refresh(c, key, startedAt, throws).(metrics := m.(staleServes := m.staleServes + 1))
    else c.(metrics := m.(hits := m.hits + 1))
  }

  predicate IsRunning(c: Cache, fetch: nat) {
    fetch < |c.fetches| && c.fetches[fetch].status.Running?
  }

  /** The refresh's finally block, common to both outcomes. */
  function Settle(c: Cache, fetch: nat): Cache
    requires IsRunning(c, fetch)
  {
    c.(refreshInFlight := c.refreshInFlight - {c.fetches[fetch].key},
       fetches := c.fetches[fetch := c.fetches[fetch].(status := Settled)])
  }

  function Succeed(cfg: Config, c: Cache, fetch: nat, value: Value, now: int, endedAt: int): Cache
    requires IsRunning(c, fetch)
  {
    var f := c.fetches[fetch];
    var m := c.metrics;
    Settle(CacheSet(c, f.key, value, cfg.ttlMs, now), fetch)
      .(metrics := m.(refreshLatencyMs := m.refreshLatencyMs + (endedAt - f.startedAt)))
  }

  predicate Enabled(c: Cache, ev: Event) {
    ev.Succeeds? || ev.Fails? ==> IsRunning(c, ev.fetch)
  }

  function Next(cfg: Config, c: Cache, ev: Event): Cache
    requires Enabled(c, ev)
  {
    match ev
    case Configure => c.(configured := true)
    case Sets(key, value, ttlMs, at) => CacheSet(c, key, value, ttlMs, at)
    case Gets(key, at, startedAt, throws) => CacheGet(cfg, c, key, at, startedAt, throws)
    case Refreshes(key, startedAt, throws) => Refresh(c, key, startedAt, throws)
    case Succeeds(fetch, fetched, at, endedAt) => Succeed(cfg, c, fetch, fetched, at, endedAt)
    case Fails(fetch) => Settle(c, fetch)
    case ResetMetrics => c.(metrics := Metrics(0, 0, 0, 0))
  }

  class ContractCache {
    const cfg: Config
    var configured: bool
    var cacheStore: map<Key, Entry>
    var refreshInFlight: map<Key, nat>
    var fetches: seq<Fetch>
    var metrics: Metrics

    function View(): Cache
      reads this
    {
      Cache(configured, cacheStore, refreshInFlight, fetches, metrics)
    }

    constructor (cfg: Config)
      ensures this.cfg == cfg && View() == Empty
    {
      this.cfg := cfg;
      configured, cacheStore, refreshInFlight, fetches, metrics := false, map[], map[], [], Metrics(0, 0, 0, 0);
    }

    method Set(key: Key, value: Value, ttlMs: int, now: int)
      modifies this
      ensures View() == Next(cfg, old(View()), Sets(key, value, ttlMs, now))
    {
      cacheStore := cacheStore[key := Entry(value, now, now + ttlMs)];
    }

    method Get(key: Key, now: int, startedAt: int, throws: bool) returns (value: Option<Value>)
      modifies this
      ensures View() == Next(cfg, old(View()), Gets(key, now, startedAt, throws))
      ensures value == Lookup(old(View()), key, now)
    {
      if key !in cacheStore {
        metrics := metrics.(misses := metrics.misses + 1);
        return None;
      }
      var entry := cacheStore[key];
      var isExpired := now >= entry.expiresAt;
      var isWarmingWindow := cfg.WarmingEnabled() && now >= entry.expiresAt - cfg.warmLeadTimeMs;
      if isExpired {
        metrics := metrics.(misses := metrics.misses + 1);
        return None;
      }
      if isWarmingWindow {
        if key !in refreshInFlight {
          var _ := RefreshContract(key, startedAt, throws);
        }
        metrics := metrics.(staleServes := metrics.staleServes + 1);
        return Some(entry.value);
      }
      metrics := metrics.(hits := metrics.hits + 1);
      return Some(entry.value);
    }

    /** The refresh that serves this call: the one in flight if there is one, else a new one. */
    method RefreshContract(key: Key, startedAt: int, throws: bool) returns (fetch: Option<nat>)
      modifies this
      ensures View() == Next(cfg, old(View()), Refreshes(key, startedAt, throws))
      ensures fetch.Some? <==> configured
      ensures fetch.Some? ==> key in refreshInFlight && refreshInFlight[key] == fetch.value
    {
      if !configured { return None; }
      if key in refreshInFlight { return Some(refreshInFlight[key]); }
      fetch := Some(|fetches|);
      fetches := fetches + [Fetch(key, startedAt, if throws then Threw else Running)];
      if throws { refreshInFlight := refreshInFlight - {key}; }
      refreshInFlight := refreshInFlight[key := fetch.value];
    }

    /** The awaited fetch resolves (Some) or rejects (None). */
    method FetchSettles(fetch: nat, fetched: Option<Value>, now: int, endedAt: int)
      requires IsRunning(View(), fetch)
      modifies this
      ensures fetched.Some? ==> View() == Next(cfg, old(View()), Succeeds(fetch, fetched.value, now, endedAt))
      ensures fetched.None? ==> View() == Next(cfg, old(View()), Fails(fetch))
    {
      var f := fetches[fetch];
      if fetched.Some? {
        Set(f.key, fetched.value, cfg.ttlMs, now);
        metrics := metrics.(refreshLatencyMs := metrics.refreshLatencyMs + (endedAt - f.startedAt));
      }
      refreshInFlight := refreshInFlight - {f.key};
      fetches := fetches[fetch := f.(status := Settled)];
    }
  }

  // ----- Single flight -----

  /** A key in flight points at its own fetch, which is running or threw; and conversely. */
  ghost predicate Inv(c: Cache) {
    && (forall key :: key in c.refreshInFlight ==>
          c.refreshInFlight[key] < |c.fetches| && c.fetches[c.refreshInFlight[key]].key == key)
    && (forall key :: key in c.refreshInFlight ==> !c.fetches[c.refreshInFlight[key]].status.Settled?)
    && (forall f :: 0 <= f < |c.fetches| && !c.fetches[f].status.Settled? ==>
          c.fetches[f].key in c.refreshInFlight && c.refreshInFlight[c.fetches[f].key] == f)
  }

  lemma NextKeepsInv(cfg: Config, c: Cache, ev: Event)
    requires Inv(c) && Enabled(c, ev)
    ensures Inv(Next(cfg, c, ev))
  {
    hide Inv, Refresh, Settle;
    var d := Next(cfg, c, ev);
    match ev
    case Succeeds(fetch, value, at, _) =>
      var stored := CacheSet(c, c.fetches[fetch].key, value, cfg.ttlMs, at);
      SameFlights(c, stored);
      SettleKeepsInv(stored, fetch);
      SameFlights(Settle(stored, fetch), d);
    case Fails(fetch) => SettleKeepsInv(c, fetch);
    case Gets(key, at, startedAt, throws) =>
      RefreshKeepsInv(c, key, startedAt, throws);
      SameFlights(if InWarmingWindow(cfg, c, key, at) then Refresh(c, key, startedAt, throws) else c, d);
    case Refreshes(key, startedAt, throws) => RefreshKeepsInv(c, key, startedAt, throws);
    case _ => SameFlights(c, d);
  }

  /** The invariant is about fetches and flights only. */
  lemma SameFlights(c: Cache, d: Cache)
    requires Inv(c) && d.refreshInFlight == c.refreshInFlight && d.fetches == c.fetches
    ensures Inv(d)
  {
  }

  lemma RefreshKeepsInv(c: Cache, key: Key, startedAt: int, throws: bool)
    requires Inv(c)
    ensures Inv(Refresh(c, key, startedAt, throws))
  {
    var d := Refresh(c, key, startedAt, throws);
    assert forall f :: 0 <= f < |c.fetches| ==> d.fetches[f] == c.fetches[f];
  }

  lemma SettleKeepsInv(c: Cache, fetch: nat)
    requires Inv(c) && IsRunning(c, fetch)
    ensures Inv(Settle(c, fetch))
  {
    var d := Settle(c, fetch);
    assert forall f :: 0 <= f < |c.fetches| && f != fetch ==> d.fetches[f] == c.fetches[f];
    assert forall key :: key in d.refreshInFlight ==> key in c.refreshInFlight && c.refreshInFlight[key] != fetch;
  }

  ghost predicate IsRun(cfg: Config, cs: seq<Cache>, evs: seq<Event>) {
    && |cs| == |evs| + 1 && cs[0] == Empty
    && forall i :: 0 <= i < |evs| ==> Enabled(cs[i], evs[i]) && cs[i + 1] == Next(cfg, cs[i], evs[i])
  }

  lemma {:induction false} ReachableInv(cfg: Config, cs: seq<Cache>, evs: seq<Event>, k: nat)
    requires IsRun(cfg, cs, evs) && k < |cs|
    ensures Inv(cs[k])
  {
    if k > 0 {
      ReachableInv(cfg, cs, evs, k - 1);
      NextKeepsInv(cfg, cs[k - 1], evs[k - 1]);
    }
  }

  /** At most one fetch per key is running. */
  lemma SingleFlight(cfg: Config, cs: seq<Cache>, evs: seq<Event>, k: nat, f: nat, g: nat)
    requires IsRun(cfg, cs, evs) && k < |cs| && IsRunning(cs[k], f) && IsRunning(cs[k], g)
    requires cs[k].fetches[f].key == cs[k].fetches[g].key
    ensures f == g
  {
    ReachableInv(cfg, cs, evs, k);
  }

  predicate StartThrows(ev: Event) {
    (ev.Gets? || ev.Refreshes?) && ev.throws
  }

  /** As long as the fetch function returns promises, a key is in flight exactly while its fetch runs. */
  lemma {:induction false} InFlightIffRunning(cfg: Config, cs: seq<Cache>, evs: seq<Event>, k: nat, key: Key)
    requires IsRun(cfg, cs, evs) && k < |cs|
    requires forall i :: 0 <= i < k ==> !StartThrows(evs[i])
    ensures key in cs[k].refreshInFlight <==>
            exists f: nat :: IsRunning(cs[k], f) && cs[k].fetches[f].key == key
  {
    ReachableInv(cfg, cs, evs, k);
    NeverThrew(cfg, cs, evs, k);
    if key in cs[k].refreshInFlight { assert IsRunning(cs[k], cs[k].refreshInFlight[key]); }
  }

  lemma {:induction false} NeverThrew(cfg: Config, cs: seq<Cache>, evs: seq<Event>, k: nat)
    requires IsRun(cfg, cs, evs) && k < |cs|
    requires forall i :: 0 <= i < k ==> !StartThrows(evs[i])
    ensures forall f :: 0 <= f < |cs[k].fetches| ==> !cs[k].fetches[f].status.Threw?
  {
    if k > 0 {
      NeverThrew(cfg, cs, evs, k - 1);
      var c := cs[k - 1];
      assert !StartThrows(evs[k - 1]);
      forall f | 0 <= f < |cs[k].fetches| ensures !cs[k].fetches[f].status.Threw? {
        if f < |c.fetches| { assert !c.fetches[f].status.Threw?; }
      }
    }
  }

  /** In every reachable state and for every key, being in flight means that a fetch of it is running,
      and conversely, if and only if no fetch of that key has thrown instead of returning a promise. */
  lemma InFlightMeansRunningIff(cfg: Config, cs: seq<Cache>, evs: seq<Event>, k: nat, key: Key)
    requires IsRun(cfg, cs, evs) && k < |cs|
    ensures (key in cs[k].refreshInFlight <==> exists f: nat :: IsRunning(cs[k], f) && cs[k].fetches[f].key == key)
            <==> forall f :: 0 <= f < |cs[k].fetches| && cs[k].fetches[f].key == key ==> !cs[k].fetches[f].status.Threw?
  {
    ReachableInv(cfg, cs, evs, k);
    var c := cs[k];
    if key in c.refreshInFlight && c.fetches[c.refreshInFlight[key]].status.Running? {
      assert IsRunning(c, c.refreshInFlight[key]);
    }
  }

  /** A fetch function that throws at once leaves its key in flight for good: no refresh of that key
      ever starts again. */
  lemma {:induction false} ThrowBlocksKeyForever(cfg: Config, cs: seq<Cache>, evs: seq<Event>, i: nat, j: nat, f: nat)
    requires IsRun(cfg, cs, evs) && i <= j < |cs| && f < |cs[i].fetches| && cs[i].fetches[f].status.Threw?
    ensures f < |cs[j].fetches| && cs[j].fetches[f] == cs[i].fetches[f]
    ensures var key := cs[i].fetches[f].key;
      key in cs[j].refreshInFlight && cs[j].refreshInFlight[key] == f &&
      forall g: nat :: IsRunning(cs[j], g) ==> cs[j].fetches[g].key != key
  {
    if i < j { ThrowBlocksKeyForever(cfg, cs, evs, i, j - 1, f); }
    ReachableInv(cfg, cs, evs, j);
  }

  // ----- What cacheGet returns -----

  /** The entry written by the latest cacheSet for the key among the first k turns, a resolved refresh
      included. */
  ghost function LastSet(cfg: Config, cs: seq<Cache>, evs: seq<Event>, k: nat, key: Key): Option<Entry>
    requires IsRun(cfg, cs, evs) && k < |cs|
  {
    if k == 0 then None
    else
      var ev := evs[k - 1];
      if ev.Sets? && ev.key == key then Some(Entry(ev.value, ev.at, ev.at + ev.ttlMs))
      else if ev.Succeeds? && cs[k - 1].fetches[ev.fetch].key == key then
        Some(Entry(ev.fetched, ev.at, ev.at + cfg.ttlMs))
      else LastSet(cfg, cs, evs, k - 1, key)
  }

  /** A turn changes the stored entry of a key only by setting that key. */
  lemma StoreStep(cfg: Config, c: Cache, ev: Event, key: Key)
    requires Enabled(c, ev)
    ensures var before, after := c.cacheStore, Next(cfg, c, ev).cacheStore;
      if ev.Sets? && ev.key == key then key in after && after[key] == Entry(ev.value, ev.at, ev.at + ev.ttlMs)
      else if ev.Succeeds? && c.fetches[ev.fetch].key == key then
        key in after && after[key] == Entry(ev.fetched, ev.at, ev.at + cfg.ttlMs)
      else (key in after <==> key in before) && (key in before ==> after[key] == before[key])
  {
  }

  lemma {:induction false} StoreIsLastSet(cfg: Config, cs: seq<Cache>, evs: seq<Event>, k: nat, key: Key)
    requires IsRun(cfg, cs, evs) && k < |cs|
    ensures LastSet(cfg, cs, evs, k, key) ==
            if key in cs[k].cacheStore then Some(cs[k].cacheStore[key]) else None
  {
    if k > 0 {
      StoreIsLastSet(cfg, cs, evs, k - 1, key);
      StoreStep(cfg, cs[k - 1], evs[k - 1], key);
      hide Next;
    }
  }

  /** cacheGet returns the latest value set for the key, and returns it exactly until that value's own
      expiry, whatever gets, failed refreshes and refreshes of other keys came between. */
  lemma GetReturnsLatestUnexpired(cfg: Config, cs: seq<Cache>, evs: seq<Event>, k: nat, key: Key, now: int)
    requires IsRun(cfg, cs, evs) && k < |cs|
    ensures var last := LastSet(cfg, cs, evs, k, key);
      Lookup(cs[k], key, now) == if last.Some? && now < last.value.expiresAt then Some(last.value.value) else None
  {
    StoreIsLastSet(cfg, cs, evs, k, key);
  }

  /** The gets among the first k turns since the metrics were last reset. */
  function GetsSinceReset(evs: seq<Event>, k: nat): nat
    requires k <= |evs|
  {
    if k == 0 || evs[k - 1].ResetMetrics? then 0
    else GetsSinceReset(evs, k - 1) + if evs[k - 1].Gets? then 1 else 0
  }

  /** Every get is counted once, as a hit, a miss or a stale serve. */
  lemma {:induction false} GetsAreCounted(cfg: Config, cs: seq<Cache>, evs: seq<Event>, k: nat)
    requires IsRun(cfg, cs, evs) && k < |cs|
    ensures var m := cs[k].metrics;
      m.hits + m.misses + m.staleServes == GetsSinceReset(evs, k)
  {
    hide Next;
    if k > 0 {
      GetsAreCounted(cfg, cs, evs, k - 1);
      MetricsStep(cfg, cs[k - 1], evs[k - 1]);
    }
  }

  lemma MetricsStep(cfg: Config, c: Cache, ev: Event)
    requires Enabled(c, ev)
    ensures var m, m' := c.metrics, Next(cfg, c, ev).metrics;
      m'.hits + m'.misses + m'.staleServes ==
        if ev.ResetMetrics? then 0 else m.hits + m.misses + m.staleServes + if ev.Gets? then 1 else 0
    ensures var m, m' := c.metrics, Next(cfg, c, ev).metrics;
      m'.refreshLatencyMs ==
        if ev.ResetMetrics? then 0
        else m.refreshLatencyMs + if ev.Succeeds? then ev.endedAt - c.fetches[ev.fetch].startedAt else 0
  {
  }

  /** Which counter a get raises, from the stored entry's own expiry: a miss without an entry or at and
      after its expiry; a stale serve in the last lead time before it, if the lead is shorter than the
      standard lifetime; else a hit. */
  lemma GetRaisesOne(cfg: Config, c: Cache, key: Key, at: int, startedAt: int, throws: bool)
    ensures var m, d := c.metrics, Next(cfg, c, Gets(key, at, startedAt, throws));
      if key !in c.cacheStore || at >= c.cacheStore[key].expiresAt then
        d.metrics == m.(misses := m.misses + 1) && d.fetches == c.fetches
      else if cfg.warmLeadTimeMs < cfg.ttlMs && c.cacheStore[key].expiresAt - at <= cfg.warmLeadTimeMs then
        d.metrics == m.(staleServes := m.staleServes + 1)
      else d.metrics == m.(hits := m.hits + 1) && d.fetches == c.fetches
  {
  }

  /** When a turn starts a fetch: a function is configured, none is in flight for the key, and the key
      is refreshed explicitly or read within the lead time before its expiry. */
  lemma FetchStartsIff(cfg: Config, c: Cache, ev: Event)
    requires Enabled(c, ev) && (ev.Gets? || ev.Refreshes?)
    ensures |Next(cfg, c, ev).fetches| > |c.fetches| <==>
            && c.configured && ev.key !in c.refreshInFlight
            && (ev.Refreshes? ||
                (&& ev.key in c.cacheStore && ev.at < c.cacheStore[ev.key].expiresAt
                 && cfg.warmLeadTimeMs < cfg.ttlMs && c.cacheStore[ev.key].expiresAt - ev.at <= cfg.warmLeadTimeMs))
  {
  }

  /** A get in the warming window leaves a refresh of the key in flight, and starts one only if none was. */
  lemma WarmingGetRefreshes(cfg: Config, c: Cache, key: Key, at: int, startedAt: int, throws: bool)
    requires Inv(c) && c.configured && InWarmingWindow(cfg, c, key, at)
    ensures var d := Next(cfg, c, Gets(key, at, startedAt, throws));
      && key in d.refreshInFlight
      && Lookup(d, key, at) == Some(c.cacheStore[key].value)
      && (|d.fetches| > |c.fetches| <==> forall f: nat :: f < |c.fetches| && c.fetches[f].key == key ==> c.fetches[f].status.Settled?)
  {
    if key in c.refreshInFlight { assert !c.fetches[c.refreshInFlight[key]].status.Settled?; }
  }
}
