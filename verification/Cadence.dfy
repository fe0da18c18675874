/**
  The advancer's service loop and its lease: sleep one interval, renew, work while
  renewing every third of the TTL, repeat. Time is in nanoseconds, the configured
  interval and TTL are whole seconds, database steps are instantaneous, and the
  work of an iteration may take any time at all.
 */
module Cadence {
  import opened Lease
  import Queue

  const ADVANCER := "registration-queue-advancer"

  function Nanos(seconds: nat): nat {
    seconds * 1_000_000_000
  }

  /** The renewal ticker's period, a third of the TTL. */
  function Period(ttl: nat): nat {
    Nanos(ttl) / 3
  }

  /** `validate_cadence`. */
  predicate CadenceOk(interval: nat, ttl: nat) {
    interval >= 1 && Nanos(ttl) > Nanos(interval) + Period(ttl)
  }

  /** One iteration: how long its work takes, and whether a renewal due at the very
      instant the work ends still happens (the select may take either branch). */
  datatype Iteration = Iteration(work: nat, tieRenews: bool)

  /** The last renewal before the work ends at `end`, the previous one being at `renewed`. */
  function LastRenewal(renewed: nat, end: nat, period: nat, tieRenews: bool): (r: nat)
    requires renewed <= end
    ensures renewed <= r <= end
    ensures period > 0 ==> end - r <= period
    decreases end - renewed
  {
    var next := renewed + period;
    if period > 0 && (next < end || (next == end && tieRenews))
    then LastRenewal(next, end, period, tieRenews)
    else renewed
  }

  /** Every renewal of the loop finds the lease unexpired: `clock` is when the last
      work ended, `renewed` when the lease was last renewed. */
  predicate Healthy(interval: nat, ttl: nat, clock: nat, renewed: nat, iterations: seq<Iteration>)
    decreases |iterations|
  {
    iterations == [] ||
    (var wake := clock + Nanos(interval);
     var end := wake + iterations[0].work;
     && wake < renewed + Nanos(ttl)
     && Healthy(interval, ttl, end, LastRenewal(wake, end, Period(ttl), iterations[0].tieRenews), iterations[1..]))
  }

  /** In whole seconds: the TTL must exceed one and a half intervals. */
  lemma CadenceInSeconds(interval: nat, ttl: nat)
    ensures CadenceOk(interval, ttl) <==> interval >= 1 && 2 * ttl > 3 * interval
  {
    var n, third := ttl * 1_000_000_000, Nanos(ttl) / 3;
    assert 3 * third <= n < 3 * third + 3;
    assert Nanos(interval) == interval * 1_000_000_000;
  }

  /** The un-renewed gap never exceeds one interval plus one renewal period. */
  lemma {:induction false} CadenceKeepsLease(interval: nat, ttl: nat, clock: nat, renewed: nat, iterations: seq<Iteration>)
    requires CadenceOk(interval, ttl)
    requires renewed <= clock <= renewed + Period(ttl)
    ensures Healthy(interval, ttl, clock, renewed, iterations)
    decreases |iterations|
  {
    if iterations != [] {
      var wake := clock + Nanos(interval);
      var end := wake + iterations[0].work;
      CadenceKeepsLease(interval, ttl, end, LastRenewal(wake, end, Period(ttl), iterations[0].tieRenews), iterations[1..]);
    }
  }

  /** The configuration check is exactly right: a loop of positive interval keeps its
      lease under every schedule of work if and only if the check passes. */
  lemma CadenceCheckIsExact(interval: nat, ttl: nat)
    requires interval >= 1
    ensures CadenceOk(interval, ttl) <==> forall iterations :: Healthy(interval, ttl, 0, 0, iterations)
  {
    if CadenceOk(interval, ttl) {
      forall iterations ensures Healthy(interval, ttl, 0, 0, iterations) {
        CadenceKeepsLease(interval, ttl, 0, 0, iterations);
      }
    } else {
      var schedule := [Iteration(Period(ttl), false), Iteration(0, true)];
      LateRenewal(interval, ttl);
      assert !Healthy(interval, ttl, 0, 0, schedule);
    }
  }

  /** A schedule that defeats any cadence the check rejects: work that ends exactly on
      a renewal tick, whose renewal is then skipped. */
  lemma LateRenewal(interval: nat, ttl: nat)
    requires interval >= 1 && !CadenceOk(interval, ttl)
    ensures !Healthy(interval, ttl, 0, 0, [Iteration(Period(ttl), false), Iteration(0, true)])
  {
    var wake := Nanos(interval);
    var first, second := Iteration(Period(ttl), false), Iteration(0, true);
    assert [first, second][1..] == [second];
    assert LastRenewal(wake, wake + Period(ttl), Period(ttl), false) == wake;
    assert !Healthy(interval, ttl, wake + Period(ttl), wake, [second]);
  }

  // ---- The loop itself, over the lease table ----

  /** A stretch of time over which the lease table did not change. */
  datatype Stretch = Stretch(from: nat, to: nat, leases: LeaseTable)

  ghost predicate AliveThroughout(trace: seq<Stretch>) {
    forall i, t :: 0 <= i < |trace| && trace[i].from <= t <= trace[i].to ==> Alive(trace[i].leases, ADVANCER, t)
  }

  /** The trace has no gaps: it covers every instant from its start to `clock`. */
  ghost predicate Covers(trace: seq<Stretch>, start: nat, clock: nat) {
    if trace == [] then clock == start
    else
      var last := trace[|trace| - 1];
      last.from <= last.to == clock && Covers(trace[..|trace| - 1], start, last.from)
  }

  lemma Extend(trace: seq<Stretch>, start: nat, clock: nat, s: Stretch)
    requires Covers(trace, start, clock) && AliveThroughout(trace)
    requires s.from == clock <= s.to && Alive(s.leases, ADVANCER, s.to)
    ensures Covers(trace + [s], start, s.to) && AliveThroughout(trace + [s])
  {
    assert (trace + [s])[..|trace|] == trace;
  }

  /** The work of one iteration, renewing on every tick. */
  method WorkRenewing(store: Store, guard: Guard, ttl: nat, wake: nat, it: Iteration, ghost start: nat,
      ghost trace0: seq<Stretch>)
    returns (renewed: nat, ghost trace: seq<Stretch>)
    requires ttl > 0 && guard.name == ADVANCER && Held(store.leases, guard, wake)
    requires store.leases[ADVANCER].expiresAt == wake + Nanos(ttl)
    requires Covers(trace0, start, wake) && AliveThroughout(trace0)
    modifies store
    ensures renewed == LastRenewal(wake, wake + it.work, Period(ttl), it.tieRenews)
    ensures guard.name in store.leases && store.leases[ADVANCER] == LeaseRow(guard.holder, guard.epoch, renewed + Nanos(ttl))
    ensures trace != [] && Covers(trace, start, wake + it.work) && AliveThroughout(trace)
  {
    var end := wake + it.work;
    var period := Period(ttl);
    var last := wake;
    renewed, trace := wake, trace0;
    while last + period < end || (last + period == end && it.tieRenews)
      invariant wake <= last == renewed <= end
      invariant LastRenewal(wake, end, period, it.tieRenews) == LastRenewal(renewed, end, period, it.tieRenews)
      invariant ADVANCER in store.leases && store.leases[ADVANCER] == LeaseRow(guard.holder, guard.epoch, renewed + Nanos(ttl))
      invariant Covers(trace, start, renewed) && AliveThroughout(trace)
      decreases end - last
    {
      ghost var s := Stretch(renewed, renewed + period, store.leases);
      Extend(trace, start, renewed, s);
      trace := trace + [s];
      last := last + period;
      renewed := last;
      var held := store.Renew(guard, Nanos(ttl), last);
    }
    ghost var s := Stretch(renewed, end, store.leases);
    Extend(trace, start, renewed, s);
    trace := trace + [s];
  }

  /** One turn of the inner loop: sleep, renew, work. It keeps the lease exactly when the
      sleep ends before the lease expires; `clock'` is when the work ended, or the last
      instant before the lease expired. */
  method TakeTurn(store: Store, guard: Guard, interval: nat, ttl: nat, clock: nat, renewed: nat, it: Iteration,
                  ghost start: nat, ghost trace0: seq<Stretch>)
    returns (held: bool, clock': nat, renewed': nat, ghost trace: seq<Stretch>)
    requires ttl > 0 && guard.name == ADVANCER && ADVANCER in store.leases
    requires store.leases[ADVANCER] == LeaseRow(guard.holder, guard.epoch, renewed + Nanos(ttl))
    requires renewed <= clock <= renewed + Period(ttl)
    requires Covers(trace0, start, clock) && AliveThroughout(trace0)
    modifies store
    ensures held <==> clock + Nanos(interval) < renewed + Nanos(ttl)
    ensures trace != [] && Covers(trace, start, clock') && AliveThroughout(trace)
    ensures held ==>
              && clock' == clock + Nanos(interval) + it.work
              && renewed' == LastRenewal(clock + Nanos(interval), clock', Period(ttl), it.tieRenews)
              && ADVANCER in store.leases
              && store.leases[ADVANCER] == LeaseRow(guard.holder, guard.epoch, renewed' + Nanos(ttl))
    ensures !held ==> !Alive(store.leases, ADVANCER, clock' + 1)
  {
    var wake := clock + Nanos(interval);
    ghost var table := store.leases;
    held := store.Renew(guard, Nanos(ttl), wake);
    if held {
      Extend(trace0, start, clock, Stretch(clock, wake, table));
      renewed', trace := WorkRenewing(store, guard, ttl, wake, it, start, trace0 + [Stretch(clock, wake, table)]);
      clock' := wake + it.work;
    } else {
      clock', renewed' := renewed + Nanos(ttl) - 1, renewed;
      Extend(trace0, start, clock, Stretch(clock, clock', table));
      trace := trace0 + [Stretch(clock, clock', table)];
    }
  }

  /** `run_advancer` from the instant it acquires the lease, for any number of
      iterations: it loses the lease exactly when the schedule is unhealthy, so never under
      a valid cadence. Either way the lease is alive at every instant from `start` to
      `clock`, which is where the last iteration ended or the last instant before the lease
      expired. */
  method RunAdvancer(store: Store, holder: string, interval: nat, ttl: nat, start: nat, iterations: seq<Iteration>)
    returns (lost: bool, clock: nat, ghost trace: seq<Stretch>)
    requires ttl > 0 && Acquirable(store.leases, ADVANCER, holder, start)
    modifies store
    ensures lost <==> !Healthy(interval, ttl, start, start, iterations)
    ensures CadenceOk(interval, ttl) ==> !lost
    ensures trace != [] && Covers(trace, start, clock) && AliveThroughout(trace)
    ensures lost ==> !Alive(store.leases, ADVANCER, clock + 1)
  {
    if CadenceOk(interval, ttl) {
      CadenceKeepsLease(interval, ttl, start, start, iterations);
    }
    var epoch := store.TryAcquire(ADVANCER, holder, Nanos(ttl), start);
    var guard := Guard(ADVANCER, holder, epoch.value);
    var renewed: nat := start;
    lost, clock, trace := false, start, [Stretch(start, start, store.leases)];
    for k := 0 to |iterations|
      invariant trace != [] && Covers(trace, start, clock) && AliveThroughout(trace)
      invariant renewed <= clock <= renewed + Period(ttl)
      invariant ADVANCER in store.leases && store.leases[ADVANCER] == LeaseRow(holder, guard.epoch, renewed + Nanos(ttl))
      invariant Healthy(interval, ttl, start, start, iterations) <==> Healthy(interval, ttl, clock, renewed, iterations[k..])
    {
      assert iterations[k..][1..] == iterations[k + 1..];
      var held;
      held, clock, renewed, trace := TakeTurn(store, guard, interval, ttl, clock, renewed, iterations[k], start, trace);
      if !held {
        lost := true;
        return;
      }
    }
  }

  // ---- What the chain-writer sees ----

  function Stranded(queued: seq<Queue.Entry>, leases: LeaseTable, now: int): nat {
    if Alive(leases, ADVANCER, now) then 0 else |queued|
  }

  /** The retirement janitor: how many rows it promotes at `now`. */
  function JanitorDrains(queued: seq<Queue.Entry>, leases: LeaseTable, now: int, grace: nat): nat {
    if ADVANCER in leases && leases[ADVANCER].expiresAt > now - grace then 0 else |queued|
  }

  predicate InStretch(s: Stretch, t: int) {
    s.from <= t <= s.to
  }

  /** A trace leaves no instant out. */
  lemma {:induction false} CoversEveryInstant(trace: seq<Stretch>, start: nat, clock: nat, t: nat) returns (i: nat)
    requires trace != [] && Covers(trace, start, clock) && start <= t <= clock
    ensures i < |trace| && InStretch(trace[i], t)
  {
    var last := trace[|trace| - 1];
    if last.from <= t {
      i := |trace| - 1;
    } else {
      i := CoversEveryInstant(trace[..|trace| - 1], start, last.from, t);
    }
  }

  /** At every instant of the loop, whatever is queued and whatever the grace: some table is
      in force, and under each one in force the writer reports no stranded claim and its
      janitor promotes nothing. */
  lemma {:induction false} LiveAdvancerNeverLooksDead(trace: seq<Stretch>, start: nat, clock: nat, t: nat, queued: seq<Queue.Entry>, grace: nat)
    requires trace != [] && Covers(trace, start, clock) && AliveThroughout(trace) && start <= t <= clock
    ensures exists i :: 0 <= i < |trace| && InStretch(trace[i], t)
    ensures forall i :: 0 <= i < |trace| && InStretch(trace[i], t) ==>
      Stranded(queued, trace[i].leases, t) == 0 && JanitorDrains(queued, trace[i].leases, t, grace) == 0
  {
    var i := CoversEveryInstant(trace, start, clock, t);
    forall i | 0 <= i < |trace| && InStretch(trace[i], t) ensures Alive(trace[i].leases, ADVANCER, t) {
      assert trace[i].from <= t <= trace[i].to;
    }
  }

  /** And a dead one does not look alive: claims count as stranded from the instant the lease
      is absent or expired, and the janitor promotes them all from a grace after the expiry,
      or at once when there is no lease to measure from. */
  lemma DeadAdvancerIsNoticed(queued: seq<Queue.Entry>, leases: LeaseTable, now: int, grace: nat)
    ensures ADVANCER !in leases ==> Stranded(queued, leases, now) == |queued| == JanitorDrains(queued, leases, now, grace)
    ensures ADVANCER in leases && now >= leases[ADVANCER].expiresAt ==> Stranded(queued, leases, now) == |queued|
    ensures ADVANCER in leases && now < leases[ADVANCER].expiresAt ==> Stranded(queued, leases, now) == 0
    ensures ADVANCER in leases && now >= leases[ADVANCER].expiresAt + grace ==> JanitorDrains(queued, leases, now, grace) == |queued|
    ensures ADVANCER in leases && now < leases[ADVANCER].expiresAt + grace ==> JanitorDrains(queued, leases, now, grace) == 0
  {
  }

  /** `fallback_drain`: every queued claim or none, and nothing else about any row. */
  method FallbackDrain(reservations: Queue.Reservations, leases: LeaseTable, now: int, grace: nat) returns (promoted: nat)
    modifies reservations
    ensures promoted == JanitorDrains(old(Queue.Queued(reservations.table)), leases, now, grace)
    ensures promoted == 0 ==> Queue.Queued(reservations.table) == old(Queue.Queued(reservations.table))
    ensures promoted > 0 ==> Queue.Queued(reservations.table) == []
    ensures |reservations.table| == |old(reservations.table)|
    ensures forall j :: 0 <= j < |reservations.table| ==> reservations.table[j].entry == old(reservations.table)[j].entry
  {
    if ADVANCER in leases && leases[ADVANCER].expiresAt > now - grace {
      return 0;
    }
    promoted := reservations.PromoteAll();
  }
}
