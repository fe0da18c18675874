/**
  The `writer_lease` table: one expiring, epoch-numbered row per lease name.
  Each SQL statement is one atomic function of the table and the clock.
 */
module Lease {
  import opened Prelude

  datatype LeaseRow = LeaseRow(holder: string, epoch: nat, expiresAt: int)

  datatype Guard = Guard(name: string, holder: string, epoch: nat)

  type LeaseTable = map<string, LeaseRow>

  /** The `LEASE_HELD` / `fence` predicate, read at time `now`. */
  predicate Held(leases: LeaseTable, guard: Guard, now: int) {
    && guard.name in leases
    && leases[guard.name].holder == guard.holder
    && leases[guard.name].epoch == guard.epoch
    && leases[guard.name].expiresAt > now
  }

  /** Whether the named lease is unexpired, whoever holds it. */
  predicate Alive(leases: LeaseTable, name: string, now: int) {
    name in leases && leases[name].expiresAt > now
  }

  /** The `WHERE` of the upsert: free, lapsed, or already ours. */
  predicate Acquirable(leases: LeaseTable, name: string, holder: string, now: int) {
    name !in leases || leases[name].expiresAt < now || leases[name].holder == holder
  }

  function Acquired(leases: LeaseTable, name: string, holder: string, ttl: nat, now: int): LeaseTable {
    if Acquirable(leases, name, holder, now) then
      leases[name := LeaseRow(holder, EpochOf(leases, name) + 1, now + ttl)]
    else
      leases
  }

  function Renewed(leases: LeaseTable, guard: Guard, ttl: nat, now: int): LeaseTable {
    if Held(leases, guard, now) then
      leases[guard.name := leases[guard.name].(expiresAt := now + ttl)]
    else
      leases
  }

  /** The epoch of a name's row; 0 before the first acquisition. */
  function EpochOf(leases: LeaseTable, name: string): nat {
    if name in leases then leases[name].epoch else 0
  }

  /** The table as the source drives it: four statements over one mutable table. */
  class Store {
    var leases: LeaseTable

    constructor ()
      ensures leases == map[]
    {
      leases := map[];
    }

    method TryAcquire(name: string, holder: string, ttl: nat, now: int) returns (epoch: Option<nat>)
      modifies this
      ensures leases == Acquired(old(leases), name, holder, ttl, now)
      ensures epoch.Some? <==>
        name !in old(leases) || old(leases)[name].expiresAt < now || old(leases)[name].holder == holder
      ensures epoch.Some? ==> epoch.value == 1 + (if name in old(leases) then old(leases)[name].epoch else 0)
      ensures epoch.Some? ==> leases == old(leases)[name := LeaseRow(holder, epoch.value, now + ttl)]
      ensures epoch.None? ==> leases == old(leases)
      ensures epoch.Some? && ttl > 0 ==> Held(leases, Guard(name, holder, epoch.value), now)
    {
      if name !in leases {
        leases := leases[name := LeaseRow(holder, 1, now + ttl)];
        return Some(1);
      }
      var row := leases[name];
      if row.expiresAt < now || row.holder == holder {
        leases := leases[name := LeaseRow(holder, row.epoch + 1, now + ttl)];
        return Some(row.epoch + 1);
      }
      return None;
    }

    method Renew(guard: Guard, ttl: nat, now: int) returns (held: bool)
      modifies this
      ensures held == old(Held(leases, guard, now))
      ensures held <==>
        && guard.name in old(leases) && old(leases)[guard.name].holder == guard.holder
        && old(leases)[guard.name].epoch == guard.epoch && old(leases)[guard.name].expiresAt > now
      ensures held ==> leases == old(leases)[guard.name := LeaseRow(guard.holder, guard.epoch, now + ttl)]
      ensures !held ==> leases == old(leases)
      ensures leases == Renewed(old(leases), guard, ttl, now)
    {
      held := Held(leases, guard, now);
      if held {
        var row := leases[guard.name];
        leases := leases[guard.name := LeaseRow(row.holder, row.epoch, now + ttl)];
      }
    }
  }

  // ---- Runs: any interleaving of acquisitions and renewals by any holders ----

  datatype Event =
    | Acquire(name: string, holder: string, ttl: nat)
    | Renew(guard: Guard, ttl: nat)
    | Wait(delay: nat)

  datatype State = State(now: int, leases: LeaseTable)

  function Apply(s: State, e: Event): State {
    match e
    case Acquire(name, holder, ttl) => s.(leases := Acquired(s.leases, name, holder, ttl, s.now))
    case Renew(guard, ttl) => s.(leases := Renewed(s.leases, guard, ttl, s.now))
    case Wait(delay) => s.(now := s.now + delay)
  }

  function Run(s: State, events: seq<Event>): State
    decreases |events|
  {
    if events == [] then s else Run(Apply(s, events[0]), events[1..])
  }

  lemma {:induction false} RunConcat(s: State, a: seq<Event>, b: seq<Event>)
    ensures Run(s, a + b) == Run(Run(s, a), b)
    decreases |a|
  {
    if a == [] {
      assert a + b == b;
    } else {
      assert (a + b)[1..] == a[1..] + b;
      RunConcat(Apply(s, a[0]), a[1..], b);
    }
  }

  /** Rows stay, epochs never fall, and one epoch belongs to one holder. */
  lemma {:induction false} EpochsNeverFall(s: State, events: seq<Event>, name: string)
    ensures EpochOf(s.leases, name) <= EpochOf(Run(s, events).leases, name)
    ensures name in s.leases ==>
              && name in Run(s, events).leases
              && (s.leases[name].epoch == Run(s, events).leases[name].epoch ==>
                    s.leases[name].holder == Run(s, events).leases[name].holder)
    decreases |events|
  {
    if events != [] {
      EpochsNeverFall(Apply(s, events[0]), events[1..], name);
    }
  }

  /** The guard's epoch has been issued and its interval is over. */
  predicate Spent(s: State, guard: Guard) {
    guard.name in s.leases && guard.epoch <= s.leases[guard.name].epoch && !Held(s.leases, guard, s.now)
  }

  lemma {:induction false} SpentForever(s: State, events: seq<Event>, guard: Guard)
    requires Spent(s, guard)
    ensures Spent(Run(s, events), guard)
    decreases |events|
  {
    if events != [] {
      SpentForever(Apply(s, events[0]), events[1..], guard);
    }
  }

  /** Once a guard that was valid stops being valid, no later event revives it:
      it is valid over one unbroken interval. */
  lemma OneUnbrokenInterval(s: State, first: seq<Event>, second: seq<Event>, guard: Guard)
    requires Held(s.leases, guard, s.now)
    requires Held(Run(s, first + second).leases, guard, Run(s, first + second).now)
    ensures Held(Run(s, first).leases, guard, Run(s, first).now)
  {
    RunConcat(s, first, second);
    EpochsNeverFall(s, first, guard.name);
    var mid := Run(s, first);
    if !Held(mid.leases, guard, mid.now) {
      SpentForever(mid, second, guard);
    }
  }

  /** A live lease is safe from every other holder, and each acquisition that
      succeeds later in a run gets a strictly larger epoch: no epoch is issued twice. */
  lemma EpochsAreIssuedOnce(s: State, name: string, a: string, ttlA: nat, between: seq<Event>, b: string, ttlB: nat)
    requires Acquirable(s.leases, name, a, s.now)
    ensures
      var taken := Apply(s, Acquire(name, a, ttlA));
      var later := Run(taken, between);
      && EpochOf(s.leases, name) < EpochOf(taken.leases, name) <= EpochOf(later.leases, name)
      && (Acquirable(later.leases, name, b, later.now) ==>
            EpochOf(taken.leases, name) < EpochOf(Apply(later, Acquire(name, b, ttlB)).leases, name))
      && (Alive(later.leases, name, later.now) && b != later.leases[name].holder ==>
            Apply(later, Acquire(name, b, ttlB)) == later)
  {
    EpochsNeverFall(Apply(s, Acquire(name, a, ttlA)), between, name);
  }

  /** Successful guarded writes happen in non-decreasing epoch order, and two that
      share an epoch (in particular two at the same instant) share the whole guard. */
  lemma GuardedWritesInEpochOrder(s: State, between: seq<Event>, g: Guard, h: Guard)
    requires g.name == h.name
    requires Held(s.leases, g, s.now)
    requires Held(Run(s, between).leases, h, Run(s, between).now)
    ensures g.epoch <= h.epoch
    ensures g.epoch == h.epoch ==> g == h
  {
    EpochsNeverFall(s, between, g.name);
  }

  /** Nobody is locked out: wherever a run has led, once a lease is absent or the clock has
      passed its expiry, any holder's acquisition succeeds, with the next epoch and a guard
      that is valid for exactly the TTL. */
  lemma LapsedIsTakeable(s: State, events: seq<Event>, name: string, holder: string, ttl: nat, t: int)
    requires var now := Run(s, events); name !in now.leases || now.leases[name].expiresAt < now.now
    ensures var now := Run(s, events);
      var taken := Apply(now, Acquire(name, holder, ttl));
      var guard := Guard(name, holder, EpochOf(now.leases, name) + 1);
      taken.now == now.now && (Held(taken.leases, guard, t) <==> t < now.now + ttl)
  {
  }

  /** And a holder keeps what it renews: after a renewal in time the guard is valid for
      exactly the TTL from then. */
  lemma RenewalExtends(s: State, guard: Guard, ttl: nat, t: int)
    requires Held(s.leases, guard, s.now)
    ensures Held(Apply(s, Renew(guard, ttl)).leases, guard, t) <==> t < s.now + ttl
  {
  }
}
