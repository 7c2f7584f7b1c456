/** The SQLite connection pool: a stack of free connections, a queue of waiters, and timeouts. */
module ConnectionPool {
  import opened Types

  /** What has become of one acquire's promise. Only the first settlement counts. */
  datatype Promise = Pending | Got(conn: nat) | TimedOut | Refused

  /** Functions are compared by identity: the queue holds a wrapper around the promise's own resolve. */
  datatype Resolver = Raw(id: nat) | Wrapper(id: nat)

  datatype Waiter = Waiter(resolve: Resolver, startedAt: int)

  datatype Metrics = Metrics(activeConnections: int, queueLength: int, totalWaitMs: int, timeouts: int, acquires: int)

  /** The pool's fields, the promises handed out so far and their armed timers; and, for the
      statements only, the connections callers hold and those given to a promise already settled. */
  datatype Pool = Pool(
    size: nat,
    available: seq<nat>,
    waiters: seq<Waiter>,
    draining: bool,
    metrics: Metrics,
    promises: seq<Promise>,
    timers: set<nat>,
    held: set<nat>,
    stale: set<nat>)

  function Fresh(size: nat): Pool {
    Pool(size, seq(size, i => i), [], false, Metrics(0, 0, 0, 0, 0), [], {}, {}, {})
  }

  /** acquire(): the promise's id is its position. */
  function Acquire(p: Pool, now: int): Pool {
    var id := |p.promises|;
    if p.draining then p.(promises := p.promises + [Refused])
    else
      var m := p.metrics.(acquires := p.metrics.acquires + 1);
      if p.available != [] then
        var conn := p.available[|p.available| - 1];
        p.(available := p.available[..|p.available| - 1], metrics := m.(activeConnections := m.activeConnections + 1),
           promises := p.promises + [Got(conn)], held := p.held + {conn})
      else
        p.(waiters := p.waiters + [Waiter(Wrapper(id), now)], metrics := m.(queueLength := m.queueLength + 1),
           promises := p.promises + [Pending], timers := p.timers + {id})
  }

  /** The timeout callback: it looks for the raw resolve, which the queue never holds. */
  function TimerFires(p: Pool, id: nat): Pool
    requires id < |p.promises|
  {
    p.(waiters := Without(p.waiters, Raw(id)), timers := p.timers - {id},
       metrics := p.metrics.(queueLength := p.metrics.queueLength - 1, timeouts := p.metrics.timeouts + 1),
       promises := if p.promises[id].Pending? then p.promises[id := TimedOut] else p.promises)
  }

  /** The queue without the first waiter whose resolve is the given function, if there is one. */
  function Without(ws: seq<Waiter>, r: Resolver): seq<Waiter> {
    if ws == [] then []
    else if ws[0].resolve == r then ws[1..]
    else [ws[0]] + Without(ws[1..], r)
  }

  /** release(conn): hand the connection to the first waiter, or put it back. */
  function Release(p: Pool, conn: nat, now: int): Pool
    requires p.waiters != [] ==> p.waiters[0].resolve.id < |p.promises|
  {
    var m := p.metrics.(activeConnections := p.metrics.activeConnections - 1);
    if p.waiters == [] then p.(metrics := m, available := p.available + [conn], held := p.held - {conn})
    else
      var w := p.waiters[0];
      var id := w.resolve.id;
      var taken := p.promises[id].Pending?;
      p.(waiters := p.waiters[1..], timers := p.timers - {id},
         metrics := m.(queueLength := m.queueLength - 1, totalWaitMs := m.totalWaitMs + (now - w.startedAt),
                       activeConnections := m.activeConnections + 1),
         promises := if taken then p.promises[id := Got(conn)] else p.promises,
         held := if taken then p.held else p.held - {conn},
         stale := if taken then p.stale else p.stale + {conn})
  }

  class SqlitePool {
    const size: nat
    var available: seq<nat>
    var waiters: seq<Waiter>
    var draining: bool
    var metrics: Metrics
    // The event loop's side: promises, timers, and where the connections are
    var promises: seq<Promise>
    var timers: set<nat>
    ghost var held: set<nat>
    ghost var stale: set<nat>

    ghost function View(): Pool
      reads this
    {
      Pool(size, available, waiters, draining, metrics, promises, timers, held, stale)
    }

    ghost predicate Valid()
      reads this
    {
      Inv(View())
    }

    constructor (size: nat)
      requires size >= 1
      ensures Valid() && View() == Fresh(size)
    {
      this.size := size;
      available := seq(size, i => i);
      waiters, draining, metrics, promises, timers := [], false, Metrics(0, 0, 0, 0, 0), [], {};
      held, stale := {}, {};
      new;
      FreshInv(size);
    }

    method AcquireConnection(now: int) returns (id: nat)
      requires Valid()
      modifies this
      ensures Valid() && View() == Acquire(old(View()), now) && id == |old(promises)|
    {
      hide Inv;
      id := |promises|;
      AcquireKeeps(View(), now);
      if draining {
        promises := promises + [Refused];
        return;
      }
      metrics := metrics.(acquires := metrics.acquires + 1);
      if |available| > 0 {
        var conn := available[|available| - 1];
        available := available[..|available| - 1];
        metrics := metrics.(activeConnections := metrics.activeConnections + 1);
        promises := promises + [Got(conn)];
        held := held + {conn};
        return;
      }
      metrics := metrics.(queueLength := metrics.queueLength + 1);
      promises, timers := promises + [Pending], timers + {id};
      waiters := waiters + [Waiter(Wrapper(id), now)];
    }

    /** Drop the first waiter whose resolve is the given function, if there is one. */
    method DropWaiter(r: Resolver)
      modifies this`waiters
      ensures waiters == Without(old(waiters), r)
    {
      var idx := 0;
      while idx < |waiters| && waiters[idx].resolve != r
        invariant 0 <= idx <= |waiters|
        invariant Without(waiters, r) == waiters[..idx] + Without(waiters[idx..], r)
      {
        assert waiters[idx..][1..] == waiters[idx + 1..];
        idx := idx + 1;
      }
      if idx < |waiters| {
        assert waiters[idx..][1..] == waiters[idx + 1..];
        waiters := waiters[..idx] + waiters[idx + 1..];
      }
    }

    /** Only an armed timer fires. The waiter stays in the queue. */
    method OnTimeout(id: nat)
      requires Valid() && id in timers
      modifies this
      ensures Valid() && View() == TimerFires(old(View()), id)
      ensures waiters == old(waiters)
    {
      hide Inv;
      TimerKeeps(View(), id);
      DropWaiter(Raw(id));
      timers := timers - {id};
      metrics := metrics.(queueLength := metrics.queueLength - 1, timeouts := metrics.timeouts + 1);
      if promises[id].Pending? { promises := promises[id := TimedOut]; }
    }

    /** Callers return only connections they hold. */
    method ReleaseConnection(conn: nat, now: int)
      requires Valid() && conn in held
      modifies this
      ensures Valid() && View() == Release(old(View()), conn, now)
    {
      hide Inv;
      ReleaseKeeps(View(), conn, now);
      metrics := metrics.(activeConnections := metrics.activeConnections - 1);
      if |waiters| > 0 {
        var waiter := waiters[0];
        waiters := waiters[1..];
        var id := waiter.resolve.id;
        timers := timers - {id};
        metrics := metrics.(queueLength := metrics.queueLength - 1,
                            totalWaitMs := metrics.totalWaitMs + (now - waiter.startedAt),
                            activeConnections := metrics.activeConnections + 1);
        if promises[id].Pending? {
          promises := promises[id := Got(conn)];
        } else {
          held, stale := held - {conn}, stale + {conn};
        }
      } else {
        available := available + [conn];
        held := held - {conn};
      }
    }

    method StartDrain()
      requires Valid()
      modifies this
      ensures Valid() && View() == old(View()).(draining := true)
    {
      draining := true;
    }

    /** One poll of drain(): it finishes exactly when nobody holds a connection and none was ever
        handed to a settled promise; then every connection is free and nobody is queued. */
    method DrainCheck() returns (done: bool)
      requires Valid()
      ensures done <==> held == {} && stale == {}
      ensures done ==> waiters == [] && |available| == size
    {
      HeldPlusStale(View());
      done := metrics.activeConnections == 0;
    }
  }

  // ----- The invariant -----

  /** The queue holds wrappers of distinct earlier promises, oldest first. */
  ghost predicate QueueInv(p: Pool) {
    && (forall i :: 0 <= i < |p.waiters| ==> p.waiters[i].resolve.Wrapper? && p.waiters[i].resolve.id < |p.promises|)
    && (forall i, j :: 0 <= i < j < |p.waiters| ==> p.waiters[i].resolve.id < p.waiters[j].resolve.id)
  }

  function Ids(ws: seq<Waiter>): set<nat> {
    set i | 0 <= i < |ws| :: ws[i].resolve.id
  }

  /** A queued promise is pending with its timer armed, or timed out without; and no other promise is pending. */
  ghost predicate PromiseInv(p: Pool) {
    && p.timers <= Ids(p.waiters)
    && (forall id :: id in Ids(p.waiters) ==> id < |p.promises|)
    && (forall id :: id in Ids(p.waiters) ==> p.promises[id] == (if id in p.timers then Pending else TimedOut))
    && (forall id :: 0 <= id < |p.promises| && p.promises[id].Pending? ==> id in p.timers)
  }

  /** Service is first come, first served: while a promise is pending, no later one has a connection. */
  ghost predicate Fifo(p: Pool) {
    forall a, b :: 0 <= a < b < |p.promises| && p.promises[a].Pending? ==> !p.promises[b].Got?
  }

  /** Every connection is free, held, or stale, and only one of these. */
  ghost predicate ConnInv(p: Pool) {
    && (forall i, j :: 0 <= i < j < |p.available| ==> p.available[i] != p.available[j])
    && (forall c :: c in p.available ==> c < p.size && c !in p.held && c !in p.stale)
    && p.held !! p.stale
    && (forall c :: c in p.held + p.stale ==> c < p.size)
  }

  /** The metrics count what they are read as, up to stale dispatches. */
  ghost predicate MetricsInv(p: Pool) {
    && |p.available| + p.metrics.activeConnections == p.size
    && p.metrics.activeConnections == |p.held| + |p.stale|
    && p.metrics.queueLength == |p.timers| - |p.stale|
    && p.metrics.timeouts == |p.waiters| - |p.timers| + |p.stale|
  }

  ghost predicate Inv(p: Pool) {
    && p.size >= 1
    && (p.waiters != [] ==> p.available == [])
    && QueueInv(p) && PromiseInv(p) && Fifo(p) && ConnInv(p) && MetricsInv(p)
  }

  lemma FreshInv(size: nat)
    requires size >= 1
    ensures Inv(Fresh(size))
  {
  }

  lemma IdsSnoc(ws: seq<Waiter>, w: Waiter)
    ensures Ids(ws + [w]) == Ids(ws) + {w.resolve.id}
  {
    assert forall i :: 0 <= i < |ws| ==> (ws + [w])[i] == ws[i];
    assert (ws + [w])[|ws|] == w;
  }

  lemma IdsTail(p: Pool)
    requires QueueInv(p) && p.waiters != []
    ensures Ids(p.waiters[1..]) == Ids(p.waiters) - {p.waiters[0].resolve.id}
  {
    forall i | 1 <= i < |p.waiters| ensures p.waiters[i].resolve.id in Ids(p.waiters[1..]) {
      assert p.waiters[1..][i - 1] == p.waiters[i];
    }
  }

  lemma AcquireKeeps(p: Pool, now: int)
    requires Inv(p)
    ensures Inv(Acquire(p, now))
  {
    if p.draining {
    } else if p.available == [] {
      AcquireQueues(p, now);
    } else {
      AcquireTakes(p, now);
    }
  }

  lemma AcquireTakes(p: Pool, now: int)
    requires Inv(p) && !p.draining && p.available != []
    ensures Inv(Acquire(p, now))
  {
    var q := Acquire(p, now);
    assert Ids(p.waiters) == {};
    assert PromiseInv(q) && Fifo(q) by { hide ConnInv, MetricsInv; NothingPending(p); }
    assert ConnInv(q) && MetricsInv(q) by { hide PromiseInv, Fifo, QueueInv; TakenConnection(p, now); }
  }

  lemma NothingPending(p: Pool)
    requires Inv(p) && p.waiters == []
    ensures p.timers == {} && forall id :: 0 <= id < |p.promises| ==> !p.promises[id].Pending?
  {
    assert Ids(p.waiters) == {};
  }

  lemma TakenConnection(p: Pool, now: int)
    requires ConnInv(p) && MetricsInv(p) && !p.draining && p.available != [] && p.waiters == []
    ensures ConnInv(Acquire(p, now)) && MetricsInv(Acquire(p, now))
  {
    var q := Acquire(p, now);
    var conn := p.available[|p.available| - 1];
    assert conn in p.available && conn !in q.available;
    assert forall c :: c in q.available ==> c in p.available;
    assert forall c :: c in q.held + q.stale ==> c == conn || c in p.held + p.stale;
  }

  lemma AcquireQueues(p: Pool, now: int)
    requires Inv(p) && !p.draining && p.available == []
    ensures Inv(Acquire(p, now))
  {
    hide QueueInv, PromiseInv, Fifo, ConnInv, MetricsInv;
    NewIdIsFresh(p);
    QueuedPromise(p, now);
    QueuedFifo(p, now);
    QueuedMetrics(p, now);
  }

  lemma QueuedFifo(p: Pool, now: int)
    requires Fifo(p) && !p.draining && p.available == []
    ensures Fifo(Acquire(p, now))
  {
  }

  lemma NewIdIsFresh(p: Pool)
    requires QueueInv(p) && PromiseInv(p)
    ensures |p.promises| !in p.timers
  {
    assert |p.promises| in p.timers ==> |p.promises| in Ids(p.waiters);
  }

  lemma QueuedMetrics(p: Pool, now: int)
    requires ConnInv(p) && MetricsInv(p) && !p.draining && p.available == [] && |p.promises| !in p.timers
    ensures ConnInv(Acquire(p, now)) && MetricsInv(Acquire(p, now))
  {
    assert |p.timers + {|p.promises|}| == |p.timers| + 1;
  }

  lemma QueuedPromise(p: Pool, now: int)
    requires QueueInv(p) && PromiseInv(p) && !p.draining && p.available == []
    ensures QueueInv(Acquire(p, now)) && PromiseInv(Acquire(p, now))
  {
    var id := |p.promises|;
    var q := Acquire(p, now);
    IdsSnoc(p.waiters, Waiter(Wrapper(id), now));
    assert id !in Ids(p.waiters);
    assert q.promises == p.promises + [Pending];
    assert forall a :: a in q.timers <==> a in p.timers || a == id;
  }

  /** The callback's search comes back empty, so a timed-out waiter stays in the queue. */
  lemma {:induction false} RawIsNeverQueued(ws: seq<Waiter>, id: nat)
    requires forall i :: 0 <= i < |ws| ==> ws[i].resolve.Wrapper?
    ensures Without(ws, Raw(id)) == ws
  {
    if ws != [] { RawIsNeverQueued(ws[1..], id); }
  }

  lemma TimerKeeps(p: Pool, id: nat)
    requires Inv(p) && id in p.timers
    ensures id < |p.promises| && Inv(TimerFires(p, id)) && TimerFires(p, id).waiters == p.waiters
  {
    RawIsNeverQueued(p.waiters, id);
    hide Without, ConnInv, MetricsInv, QueueInv, PromiseInv, Fifo, Ids;
    TimerKeepsPromises(p, id);
    TimerKeepsRest(p, id);
  }

  lemma TimerKeepsPromises(p: Pool, id: nat)
    requires QueueInv(p) && PromiseInv(p) && id in p.timers
    ensures id < |p.promises|
    ensures Without(p.waiters, Raw(id)) == p.waiters ==>
              QueueInv(TimerFires(p, id)) && PromiseInv(TimerFires(p, id))
  {
    hide Without;
    assert id in Ids(p.waiters);
  }

  lemma TimerKeepsRest(p: Pool, id: nat)
    requires id < |p.promises| && ConnInv(p) && MetricsInv(p) && Fifo(p) && id in p.timers
    ensures Without(p.waiters, Raw(id)) == p.waiters ==>
              ConnInv(TimerFires(p, id)) && MetricsInv(TimerFires(p, id)) && Fifo(TimerFires(p, id))
  {
    hide Without;
    assert |p.timers - {id}| == |p.timers| - 1;
  }

  lemma ReleaseKeeps(p: Pool, conn: nat, now: int)
    requires Inv(p) && conn in p.held
    ensures p.waiters != [] ==> p.waiters[0].resolve.id < |p.promises|
    ensures Inv(Release(p, conn, now))
  {
    if p.waiters == [] {
      ReleaseReturns(p, conn, now);
    } else if p.promises[p.waiters[0].resolve.id].Pending? {
      ReleaseServes(p, conn, now);
    } else {
      ReleaseLoses(p, conn, now);
    }
  }

  lemma ReleaseReturns(p: Pool, conn: nat, now: int)
    requires Inv(p) && conn in p.held && p.waiters == []
    ensures Inv(Release(p, conn, now))
  {
    var q := Release(p, conn, now);
    assert conn in p.held + p.stale;
    assert forall c :: c in q.available ==> c in p.available || c == conn;
    assert forall c :: c in q.held + q.stale ==> c in p.held + p.stale;
    assert conn !in p.available;
    assert ConnInv(q);
  }

  lemma ReleaseServes(p: Pool, conn: nat, now: int)
    requires Inv(p) && conn in p.held && p.waiters != []
    requires p.promises[p.waiters[0].resolve.id].Pending?
    ensures Inv(Release(p, conn, now))
  {
    var id := p.waiters[0].resolve.id;
    assert id in Ids(p.waiters);
    IdsTail(p);
    HeadIsOldest(p, id);
    var q := Release(p, conn, now);
    assert ConnInv(q) && Fifo(q) && QueueInv(q);
  }

  lemma ReleaseLoses(p: Pool, conn: nat, now: int)
    requires Inv(p) && conn in p.held && p.waiters != []
    requires !p.promises[p.waiters[0].resolve.id].Pending?
    ensures Inv(Release(p, conn, now))
  {
    var id := p.waiters[0].resolve.id;
    assert id in Ids(p.waiters) && id !in p.timers;
    var q := Release(p, conn, now);
    assert QueueInv(q) && PromiseInv(q) && Fifo(q) by { hide ConnInv, MetricsInv; IdsTail(p); }
    assert ConnInv(q) by { hide QueueInv, PromiseInv, Fifo, MetricsInv; LostStaysPut(p, conn, now); }
    assert MetricsInv(q) by { hide QueueInv, PromiseInv, Fifo; LostMetrics(p, conn, now); }
  }

  lemma LostStaysPut(p: Pool, conn: nat, now: int)
    requires ConnInv(p) && conn in p.held && p.waiters != []
    requires p.waiters[0].resolve.id < |p.promises| && !p.promises[p.waiters[0].resolve.id].Pending?
    ensures ConnInv(Release(p, conn, now))
  {
    var q := Release(p, conn, now);
    assert q.available == p.available && q.held == p.held - {conn} && q.stale == p.stale + {conn};
    assert conn in p.held + p.stale;
    forall c | c in q.held + q.stale ensures c < q.size { assert c in p.held + p.stale; }
  }

  lemma LostMetrics(p: Pool, conn: nat, now: int)
    requires p.held !! p.stale && MetricsInv(p) && conn in p.held && p.waiters != []
    requires p.waiters[0].resolve.id < |p.promises| && !p.promises[p.waiters[0].resolve.id].Pending?
    requires p.waiters[0].resolve.id !in p.timers
    ensures MetricsInv(Release(p, conn, now))
  {
    var q := Release(p, conn, now);
    assert q.timers == p.timers;
    MoveOne(p.held, p.stale, conn);
  }

  lemma MoveOne(a: set<nat>, b: set<nat>, x: nat)
    requires x in a && x !in b
    ensures |a - {x}| == |a| - 1 && |b + {x}| == |b| + 1
  {
  }

  lemma HeadIsOldest(p: Pool, id: nat)
    requires Inv(p) && p.waiters != [] && id == p.waiters[0].resolve.id
    ensures forall a :: 0 <= a < id && a < |p.promises| ==> !p.promises[a].Pending?
  {
  }

  /** Connections really held are the active ones less the stale dispatches. */
  lemma HeldPlusStale(p: Pool)
    requires Inv(p)
    ensures p.metrics.activeConnections == 0 <==> p.held == {} && p.stale == {}
    ensures p.metrics.activeConnections == 0 ==> p.waiters == [] && |p.available| == p.size
  {
  }

  // ----- Runs -----

  datatype Event = Acquires(at: int) | Fires(id: nat) | Releases(conn: nat, at: int) | Drains

  ghost predicate Enabled(p: Pool, ev: Event) {
    match ev
    case Acquires(_) => true
    case Fires(id) => id in p.timers && id < |p.promises|
    case Releases(conn, _) => conn in p.held && (p.waiters != [] ==> p.waiters[0].resolve.id < |p.promises|)
    case Drains => true
  }

  function Next(p: Pool, ev: Event): Pool
    requires ev.Fires? ==> ev.id < |p.promises|
    requires ev.Releases? && p.waiters != [] ==> p.waiters[0].resolve.id < |p.promises|
  {
    match ev
    case Acquires(at) => Acquire(p, at)
    case Fires(id) => TimerFires(p, id)
    case Releases(conn, at) => Release(p, conn, at)
    case Drains => p.(draining := true)
  }

  ghost predicate IsRun(ps: seq<Pool>, evs: seq<Event>) {
    && |ps| == |evs| + 1
    && ps[0] == Fresh(ps[0].size) && ps[0].size >= 1
    && forall i :: 0 <= i < |evs| ==> Enabled(ps[i], evs[i]) && ps[i + 1] == Next(ps[i], evs[i])
  }

  lemma NextKeepsInv(p: Pool, ev: Event)
    requires Inv(p) && Enabled(p, ev)
    ensures Inv(Next(p, ev))
  {
    match ev
    case Acquires(at) => AcquireKeeps(p, at);
    case Fires(id) => TimerKeeps(p, id);
    case Releases(conn, at) => ReleaseKeeps(p, conn, at);
    case Drains =>
  }

  /** Every reachable state satisfies the invariant. */
  lemma {:induction false} ReachableInv(ps: seq<Pool>, evs: seq<Event>, k: nat)
    requires IsRun(ps, evs) && k < |ps|
    ensures Inv(ps[k])
  {
    if k == 0 {
      FreshInv(ps[0].size);
    } else {
      ReachableInv(ps, evs, k - 1);
      NextKeepsInv(ps[k - 1], evs[k - 1]);
    }
  }

  /** Without timeouts no connection is ever lost, and the metrics are exact. */
  lemma NoTimeoutsNoLoss(ps: seq<Pool>, evs: seq<Event>, k: nat)
    requires IsRun(ps, evs) && k < |ps| && ps[k].metrics.timeouts == 0
    ensures var p := ps[k];
      p.stale == {} && p.metrics.queueLength == |p.waiters| && p.metrics.activeConnections == |p.held|
  {
    ReachableInv(ps, evs, k);
    TimersWithinQueue(ps[k]);
  }

  lemma TimersWithinQueue(p: Pool)
    requires Inv(p)
    ensures |p.timers| <= |p.waiters|
  {
    IdsBound(p.waiters);
    SubsetSize(p.timers, Ids(p.waiters));
  }

  lemma {:induction false} IdsBound(ws: seq<Waiter>)
    ensures |Ids(ws)| <= |ws|
  {
    if ws != [] {
      IdsBound(ws[..|ws| - 1]);
      assert ws == ws[..|ws| - 1] + [ws[|ws| - 1]];
      IdsSnoc(ws[..|ws| - 1], ws[|ws| - 1]);
    }
  }

  lemma {:induction false} SubsetSize(s: set<nat>, t: set<nat>)
    requires s <= t
    ensures |s| <= |t|
  {
    if s != {} {
      var x :| x in s;
      SubsetSize(s - {x}, t - {x});
    }
  }

  /** A stale connection never comes back. */
  lemma {:induction false} StaleForever(ps: seq<Pool>, evs: seq<Event>, i: nat, j: nat)
    requires IsRun(ps, evs) && i <= j < |ps|
    ensures ps[i].stale <= ps[j].stale
  {
    if i < j { StaleForever(ps, evs, i, j - 1); }
  }

  /** The oldest waiter has timed out, so that a release now would hand its connection to nobody. */
  predicate HeadTimedOut(p: Pool) {
    p.waiters != [] && p.waiters[0].resolve.id < |p.promises| && p.promises[p.waiters[0].resolve.id].TimedOut?
  }

  /** How many of the first k turns are releases that find such a waiter. */
  function Losses(ps: seq<Pool>, evs: seq<Event>, k: nat): nat
    requires k <= |evs| && |ps| == |evs| + 1
  {
    if k == 0 then 0
    else Losses(ps, evs, k - 1) + if evs[k - 1].Releases? && HeadTimedOut(ps[k - 1]) then 1 else 0
  }

  lemma StaleStep(p: Pool, ev: Event)
    requires Inv(p) && Enabled(p, ev)
    ensures |Next(p, ev).stale| == |p.stale| + if ev.Releases? && HeadTimedOut(p) then 1 else 0
  {
    if ev.Releases? && p.waiters != [] {
      hide ConnInv, MetricsInv, Fifo;
      HeadIsQueued(p);
      if HeadTimedOut(p) { ReleaseGrowsStale(p, ev.conn, ev.at); }
    }
  }

  lemma HeadIsQueued(p: Pool)
    requires QueueInv(p) && PromiseInv(p) && p.waiters != []
    ensures p.promises[p.waiters[0].resolve.id] in {Pending, TimedOut}
  {
    assert p.waiters[0].resolve.id in Ids(p.waiters);
  }

  lemma ReleaseGrowsStale(p: Pool, conn: nat, now: int)
    requires Inv(p) && conn in p.held && HeadTimedOut(p)
    ensures |Release(p, conn, now).stale| == |p.stale| + 1
  {
    assert conn !in p.stale;
  }

  /** On every run exactly as many connections are lost as releases found a timed-out head. */
  lemma {:induction false} LossesCounted(ps: seq<Pool>, evs: seq<Event>, k: nat)
    requires IsRun(ps, evs) && k < |ps|
    ensures |ps[k].stale| == Losses(ps, evs, k)
  {
    hide Next, Enabled, Inv, HeadTimedOut;
    if k > 0 {
      LossesCounted(ps, evs, k - 1);
      ReachableInv(ps, evs, k - 1);
      StaleStep(ps[k - 1], evs[k - 1]);
    }
  }

  /** No connection is lost if and only if every release found an empty queue, or a head that had not
      timed out. */
  lemma NoLossIff(ps: seq<Pool>, evs: seq<Event>, k: nat)
    requires IsRun(ps, evs) && k < |ps|
    ensures ps[k].stale == {} <==> forall i :: 0 <= i < k && evs[i].Releases? ==> !HeadTimedOut(ps[i])
  {
    LossesCounted(ps, evs, k);
    NoLossesIff(ps, evs, k);
  }

  lemma {:induction false} NoLossesIff(ps: seq<Pool>, evs: seq<Event>, k: nat)
    requires k <= |evs| && |ps| == |evs| + 1
    ensures Losses(ps, evs, k) == 0 <==> forall i :: 0 <= i < k && evs[i].Releases? ==> !HeadTimedOut(ps[i])
  {
    if k > 0 { NoLossesIff(ps, evs, k - 1); }
  }

  /** So drain can finish only if no dispatch ever went to a promise that had timed out. */
  lemma DrainNeedsNoStale(ps: seq<Pool>, evs: seq<Event>, i: nat, j: nat)
    requires IsRun(ps, evs) && i <= j < |ps| && ps[j].metrics.activeConnections == 0
    ensures ps[i].stale == {}
  {
    StaleForever(ps, evs, i, j);
    ReachableInv(ps, evs, j);
  }

  // ----- What the turns do -----

  /** Once draining has begun it never ends, and every later acquire is refused and touches nothing but
      the list of promises. */
  lemma {:induction false} RefusedWhileDraining(ps: seq<Pool>, evs: seq<Event>, i: nat, j: nat)
    requires IsRun(ps, evs) && i < j < |ps| && evs[i].Drains?
    ensures ps[j].draining
    ensures j < |evs| && evs[j].Acquires? ==> ps[j + 1] == ps[j].(promises := ps[j].promises + [Refused])
  {
    if i + 1 < j { RefusedWhileDraining(ps, evs, i, j - 1); }
  }

  /** A connection put back without anybody waiting is the next one handed out, and the state is as if
      it had never been put back, but for the new promise and the count of acquires. */
  lemma LastReturnedFirstTaken(p: Pool, conn: nat, back: int, again: int)
    requires Inv(p) && conn in p.held && p.waiters == [] && !p.draining
    ensures var q := Acquire(Release(p, conn, back), again);
      q == p.(promises := p.promises + [Got(conn)], metrics := p.metrics.(acquires := p.metrics.acquires + 1))
  {
    var r := Release(p, conn, back);
    assert r.available[..|r.available| - 1] == p.available;
    assert p.held - {conn} + {conn} == p.held;
  }

  /** The two totals: acquires counts the acquires not refused, and a wait is added when a release
      serves the head of the queue, from the time it was queued. */
  lemma TotalsStep(p: Pool, ev: Event)
    requires Inv(p) && Enabled(p, ev)
    ensures Next(p, ev).metrics.acquires == p.metrics.acquires + if ev.Acquires? && !p.draining then 1 else 0
    ensures Next(p, ev).metrics.totalWaitMs ==
            p.metrics.totalWaitMs + if ev.Releases? && p.waiters != [] then ev.at - p.waiters[0].startedAt else 0
    ensures ev.Acquires? && Next(p, ev).waiters != p.waiters ==>
              Next(p, ev).waiters == p.waiters + [Waiter(Wrapper(|p.promises|), ev.at)]
  {
    hide Inv;
  }

  /** It does happen: in a pool of one, a caller whose wait timed out is still handed the connection. */
  lemma LostConnection()
    ensures var p := Acquire(Acquire(Fresh(1), 0), 0);
      var timedOut := TimerFires(p, 1);
      var released := Release(timedOut, 0, 5_000);
      && p.timers == {1} && p.held == {0}
      && released.stale == {0} && released.held == {} && released.available == []
      && released.metrics.activeConnections == 1 && released.metrics.queueLength == -1
  {
    var p1 := Acquire(Fresh(1), 0);
    assert p1.available == [] && p1.promises == [Got(0)];
    var p2 := Acquire(p1, 0);
    assert p2.waiters == [Waiter(Wrapper(1), 0)] && p2.timers == {1};
    RawIsNeverQueued(p2.waiters, 1);
  }
}
