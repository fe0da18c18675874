/**
  Any number of chain-writers over one outbox and one lease. A writer acquires
  the lease, claims rows for its two lanes under that guard, and writes marks on
  the rows it claimed; time passes, leases lapse, other writers take over and
  crash, in any interleaving. `asOf` is a statement's own `now()`, which
  Postgres fixes when the transaction begins, so it may trail the clock.
 */
module WriterProtocol {
  import opened Prelude
  import opened Lease
  import opened Outbox

  /** A process holding a guard: the rows each lane has claimed and not settled. */
  datatype Writer = Writer(guard: Guard, people: set<int>, dotns: set<int>)

  /** An open transaction holding the lease row's lock: its writer, and its `now()`, which
      every statement of the transaction shares. */
  datatype Fencing = Fencing(w: nat, asOf: int)

  datatype Sys = Sys(
    now: int,
    leases: LeaseTable,
    rows: Rows,
    writers: map<nat, Writer>,
    fence: Option<Fencing>)

  datatype Event =
    | Pause(delay: nat)
    | Insert(id: int, name: string, queued: bool, withDotns: bool)
    | Promote(id: int)
    | TakeLease(w: nat, holder: string, ttl: nat, asOf: int)
    | Heartbeat(w: nat, ttl: nat, asOf: int)
    | Claim(w: nat, ids: set<int>, asOf: int)
    | ClaimDotns(w: nat, ids: set<int>, asOf: int)
    | ClaimSubmitting(w: nat)
    | ClaimDotnsSubmitting(w: nat)
    | Write(w: nat, id: int, mark: Mark, asOf: int)
    | Fence(w: nat, asOf: int)
    | FencedWrite(w: nat, id: int, mark: Mark)
    | Rollback(w: nat)
    | Crash(w: nat)

  const LEASE := "people-chain-writer"

  /** Landing and failing a People row run inside a fencing transaction. */
  predicate NeedsFence(m: Mark) {
    m.MarkAssigned? || m.MarkFailed?
  }

  predicate Claimed(w: Writer, id: int, m: Mark) {
    if IsPeopleMark(m) then id in w.people else id in w.dotns
  }

  /** The claim set after a mark: a final mark settles the row. */
  function Settle(w: Writer, id: int, m: Mark): Writer {
    if !IsFinal(m) then w
    else if IsPeopleMark(m) then w.(people := w.people - {id})
    else w.(dotns := w.dotns - {id})
  }

  ghost predicate Step(s: Sys, e: Event, s': Sys) {
    match e
    case Pause(delay) => s' == s.(now := s.now + delay)
    case Insert(id, name, queued, withDotns) =>
      id !in s.rows && NameFree(s.rows, name) && s' == s.(rows := s.rows[id := NewRow(name, queued, withDotns)])
    case Promote(id) =>
      // The queue advancer's slot, or the retirement janitor.
      && id in s.rows && s.rows[id].status == Queued
      && s' == s.(rows := s.rows[id := s.rows[id].(status := Reserved)])
    case TakeLease(w, holder, ttl, asOf) =>
      // The fence's row lock makes the upsert wait.
      && asOf <= s.now && s.fence.None?
      && Acquirable(s.leases, LEASE, holder, asOf)
      && var leases := Acquired(s.leases, LEASE, holder, ttl, asOf);
      s' == s.(leases := leases,
               writers := s.writers[w := Writer(Guard(LEASE, holder, leases[LEASE].epoch), {}, {})])
    case Heartbeat(w, ttl, asOf) =>
      && asOf <= s.now && s.fence.None? && w in s.writers
      && s' == s.(leases := Renewed(s.leases, s.writers[w].guard, ttl, asOf))
    case Claim(w, ids, asOf) =>
      && asOf <= s.now && w in s.writers
      && ids <= s.rows.Keys && (forall id :: id in ids ==> Due(s.rows[id], asOf))
      && s' == s.(writers := s.writers[w := s.writers[w].(people := ids)])
    case ClaimDotns(w, ids, asOf) =>
      && asOf <= s.now && w in s.writers
      && ids <= s.rows.Keys && (forall id :: id in ids ==> DotnsDue(s.rows[id], asOf))
      && s' == s.(writers := s.writers[w := s.writers[w].(dotns := ids)])
    case ClaimSubmitting(w) =>
      && w in s.writers
      && var ids := set id | id in s.rows && s.rows[id].status == Submitting;
      s' == s.(writers := s.writers[w := s.writers[w].(people := ids)])
    case ClaimDotnsSubmitting(w) =>
      && w in s.writers
      && var ids := set id | id in s.rows && s.rows[id].dotns == Some(DotnsSubmitting);
      s' == s.(writers := s.writers[w := s.writers[w].(dotns := ids)])
    case Write(w, id, mark, asOf) =>
      && asOf <= s.now && w in s.writers && !NeedsFence(mark)
      && Claimed(s.writers[w], id, mark)
      && s' == s.(rows := Written(s.rows, s.leases, s.writers[w].guard, asOf, id, mark),
                  writers := s.writers[w := Settle(s.writers[w], id, mark)])
    case Fence(w, asOf) =>
      && asOf <= s.now && s.fence.None? && w in s.writers
      && Held(s.leases, s.writers[w].guard, asOf)
      && s' == s.(fence := Some(Fencing(w, asOf)))
    case FencedWrite(w, id, mark) =>
      && s.fence.Some? && s.fence.value.w == w && w in s.writers && NeedsFence(mark)
      && Claimed(s.writers[w], id, mark)
      && s' == s.(rows := Written(s.rows, s.leases, s.writers[w].guard, s.fence.value.asOf, id, mark),
                  writers := s.writers[w := Settle(s.writers[w], id, mark)],
                  fence := None)
    case Rollback(w) => s.fence.Some? && s.fence.value.w == w && s' == s.(fence := None)
    case Crash(w) =>
      s' == s.(writers := s.writers - {w}, fence := if s.fence.Some? && s.fence.value.w == w then None else s.fence)
  }

  // ---- The invariant ----

  /** The two lanes of one row agree. */
  predicate Coupled(r: Row) {
    && (DotnsAttempted(r.dotns) ==> r.status == Assigned)
    && (r.dotns == Some(DotnsAbandoned) ==> r.status == FailedTerminal)
    && (r.status == FailedTerminal ==> r.dotns.None? || r.dotns == Some(DotnsAbandoned))
  }

  predicate InPeopleLane(r: Row) {
    r.status == Reserved || r.status == RetryAfter || r.status == Submitting
  }

  predicate InDotnsLane(r: Row) {
    && r.status == Assigned
    && (DotnsOpen(r.dotns) || r.dotns == Some(DotnsSubmitting))
  }

  /** The guard carries the epoch the lease row carries now, expired or not. */
  predicate Current(leases: LeaseTable, g: Guard) {
    g.name in leases && leases[g.name].epoch == g.epoch
  }

  ghost predicate GuardOk(s: Sys, g: Guard) {
    && g.name == LEASE && LEASE in s.leases
    && g.epoch <= s.leases[LEASE].epoch
    && (Current(s.leases, g) ==> s.leases[LEASE].holder == g.holder)
  }

  /** A current writer's claims are still open: nobody else can have moved them. */
  ghost predicate ClaimsOpen(s: Sys, w: Writer) {
    Current(s.leases, w.guard) ==>
      && (forall id :: id in w.people ==> id in s.rows && InPeopleLane(s.rows[id]))
      && (forall id :: id in w.dotns ==> id in s.rows && InDotnsLane(s.rows[id]))
  }

  ghost predicate Inv(s: Sys) {
    && (forall id :: id in s.rows ==> Coupled(s.rows[id]))
    && (forall w :: w in s.writers ==> GuardOk(s, s.writers[w].guard) && ClaimsOpen(s, s.writers[w]))
    && (forall v, w :: v in s.writers && w in s.writers && v != w ==>
          s.writers[v].guard.epoch != s.writers[w].guard.epoch)
    && (s.fence.Some? ==>
          s.fence.value.w in s.writers && Held(s.leases, s.writers[s.fence.value.w].guard, s.fence.value.asOf))
  }

  /** What one step may do to one row of the outbox. */
  predicate RowStep(r: Row, r': Row) {
    && (Terminal(r.status) ==> r'.status == r.status)
    && (DotnsTerminal(r.dotns) ==> r'.dotns == r.dotns)
    && (r'.dotns != r.dotns && r'.dotns != Some(DotnsAbandoned) ==> r.status == Assigned)
    && r'.name == r.name && (r.dotns.None? ==> r'.dotns.None?)
    && (r.status != Queued ==> r'.status != Queued)
    && (r.status == Queued ==> r'.status == Queued || r'.status == Reserved)
    && (r.status != Queued && r'.status == Reserved ==> r.status == Reserved)
  }

  predicate RowsStep(rows: Rows, rows': Rows) {
    && rows.Keys <= rows'.Keys
    && (forall id :: id in rows ==> RowStep(rows[id], rows'[id]))
  }

  /** A mark that lands was written by the current writer on a row still in its lane. */
  lemma MarkKeepsRow(s: Sys, w: nat, id: int, mark: Mark, asOf: int)
    requires Inv(s) && w in s.writers && Claimed(s.writers[w], id, mark)
    ensures RowsStep(s.rows, Written(s.rows, s.leases, s.writers[w].guard, asOf, id, mark))
    ensures forall i :: i in Written(s.rows, s.leases, s.writers[w].guard, asOf, id, mark) ==>
              Coupled(Written(s.rows, s.leases, s.writers[w].guard, asOf, id, mark)[i])
  {
    if Held(s.leases, s.writers[w].guard, asOf) {
      assert ClaimsOpen(s, s.writers[w]);
    }
  }

  /** The writing writer's other claims stay open, and no other writer is current. */
  lemma MarkKeepsClaims(s: Sys, w: nat, id: int, mark: Mark, asOf: int, s': Sys, v: nat)
    requires Inv(s) && w in s.writers && v in s.writers && Claimed(s.writers[w], id, mark)
    requires s'.leases == s.leases
    requires s'.rows == Written(s.rows, s.leases, s.writers[w].guard, asOf, id, mark)
    ensures ClaimsOpen(s', if v == w then Settle(s.writers[w], id, mark) else s.writers[v])
  {
    assert ClaimsOpen(s, s.writers[v]) && ClaimsOpen(s, s.writers[w]);
    assert GuardOk(s, s.writers[w].guard);
  }

  lemma MarkKeepsInv(s: Sys, w: nat, id: int, mark: Mark, asOf: int, s': Sys)
    requires Inv(s) && w in s.writers && Claimed(s.writers[w], id, mark)
    requires s'.leases == s.leases && (s'.fence == s.fence || s'.fence.None?)
    requires s'.rows == Written(s.rows, s.leases, s.writers[w].guard, asOf, id, mark)
    requires s'.writers == s.writers[w := Settle(s.writers[w], id, mark)]
    ensures Inv(s')
  {
    MarkKeepsRow(s, w, id, mark, asOf);
    forall v | v in s'.writers
      ensures GuardOk(s', s'.writers[v].guard) && ClaimsOpen(s', s'.writers[v])
    {
      assert GuardOk(s, s.writers[v].guard);
      MarkKeepsClaims(s, w, id, mark, asOf, s', v);
    }
  }

  /** A takeover makes every older guard stale before the new one claims anything. */
  lemma TakeoverKeepsInv(s: Sys, e: Event, s': Sys)
    requires Inv(s) && Step(s, e, s') && e.TakeLease?
    ensures Inv(s')
  {
    forall v | v in s'.writers
      ensures GuardOk(s', s'.writers[v].guard) && ClaimsOpen(s', s'.writers[v])
    {
      if v != e.w {
        assert GuardOk(s, s.writers[v].guard);
      }
    }
  }

  /** The two queries a pass claims with pick up only rows open in their lane. */
  lemma ClaimDueKeepsInv(s: Sys, e: Event, s': Sys)
    requires Inv(s) && Step(s, e, s')
    requires e.Claim? || e.ClaimDotns?
    ensures Inv(s')
  {
    forall v | v in s'.writers
      ensures GuardOk(s', s'.writers[v].guard) && ClaimsOpen(s', s'.writers[v])
    {
      assert GuardOk(s, s.writers[v].guard) && ClaimsOpen(s, s.writers[v]);
    }
  }

  /** So do the two queries the startup reconciliation claims with. */
  lemma ClaimSubmittingKeepsInv(s: Sys, e: Event, s': Sys)
    requires Inv(s) && Step(s, e, s')
    requires e.ClaimSubmitting? || e.ClaimDotnsSubmitting?
    ensures Inv(s')
  {
    forall v | v in s'.writers
      ensures GuardOk(s', s'.writers[v].guard) && ClaimsOpen(s', s'.writers[v])
    {
      assert GuardOk(s, s.writers[v].guard) && ClaimsOpen(s, s.writers[v]);
    }
  }

  lemma IntakeKeepsInv(s: Sys, e: Event, s': Sys)
    requires Inv(s) && Step(s, e, s')
    requires e.Pause? || e.Insert? || e.Promote?
    ensures Inv(s')
  {
    forall v | v in s'.writers
      ensures GuardOk(s', s'.writers[v].guard) && ClaimsOpen(s', s'.writers[v])
    {
      assert GuardOk(s, s.writers[v].guard) && ClaimsOpen(s, s.writers[v]);
    }
  }

  lemma LeaseKeepsInv(s: Sys, e: Event, s': Sys)
    requires Inv(s) && Step(s, e, s')
    requires e.Heartbeat? || e.Fence? || e.Rollback? || e.Crash?
    ensures Inv(s')
  {
    forall v | v in s'.writers
      ensures GuardOk(s', s'.writers[v].guard) && ClaimsOpen(s', s'.writers[v])
    {
      assert GuardOk(s, s.writers[v].guard) && ClaimsOpen(s, s.writers[v]);
    }
  }

  lemma StepKeepsInv(s: Sys, e: Event, s': Sys)
    requires Inv(s) && Step(s, e, s')
    ensures Inv(s')
    ensures RowsStep(s.rows, s'.rows)
  {
    match e
    case Write(w, id, mark, asOf) =>
      MarkKeepsInv(s, w, id, mark, asOf, s');
      MarkKeepsRow(s, w, id, mark, asOf);
    case FencedWrite(w, id, mark) =>
      MarkKeepsInv(s, w, id, mark, s.fence.value.asOf, s');
      MarkKeepsRow(s, w, id, mark, s.fence.value.asOf);
    case TakeLease(_, _, _, _) => TakeoverKeepsInv(s, e, s');
    case Claim(_, _, _) => ClaimDueKeepsInv(s, e, s');
    case ClaimDotns(_, _, _) => ClaimDueKeepsInv(s, e, s');
    case ClaimSubmitting(_) => ClaimSubmittingKeepsInv(s, e, s');
    case ClaimDotnsSubmitting(_) => ClaimSubmittingKeepsInv(s, e, s');
    case Pause(_) => IntakeKeepsInv(s, e, s');
    case Insert(_, _, _, _) => IntakeKeepsInv(s, e, s');
    case Promote(_) => IntakeKeepsInv(s, e, s');
    case _ => LeaseKeepsInv(s, e, s');
  }

  // ---- Nothing stands in the way ----

  /** A lapsed or absent lease can be taken by anybody, whatever writers are still around. */
  lemma LapsedLeaseIsTaken(s: Sys, w: nat, holder: string, ttl: nat)
    requires s.fence.None? && (LEASE !in s.leases || s.leases[LEASE].expiresAt < s.now)
    ensures exists s' ::
      && Step(s, TakeLease(w, holder, ttl, s.now), s') && w in s'.writers
      && s'.writers[w].guard.holder == holder && (ttl > 0 ==> Held(s'.leases, s'.writers[w].guard, s'.now))
  {
    var leases := Acquired(s.leases, LEASE, holder, ttl, s.now);
    var s' := s.(leases := leases, writers := s.writers[w := Writer(Guard(LEASE, holder, leases[LEASE].epoch), {}, {})]);
    assert Step(s, TakeLease(w, holder, ttl, s.now), s');
  }

  /** Rows waiting for a first attempt, and retried rows whose time has come, can be claimed
      by any writer; so can rows left in submission. */
  lemma OpenRowsAreClaimed(s: Sys, w: nat, id: int)
    requires w in s.writers && id in s.rows
    ensures s.rows[id].status == Reserved || (s.rows[id].status == RetryAfter && s.rows[id].notBefore.Some? && s.rows[id].notBefore.value <= s.now) ==>
      exists s' :: Step(s, Claim(w, {id}, s.now), s') && s'.writers[w].people == {id}
    ensures s.rows[id].status == Submitting ==> exists s' :: Step(s, ClaimSubmitting(w), s') && id in s'.writers[w].people
    ensures s.rows[id].status == Assigned && s.rows[id].dotns == Some(DotnsPending) ==>
      exists s' :: Step(s, ClaimDotns(w, {id}, s.now), s') && s'.writers[w].dotns == {id}
    ensures s.rows[id].dotns == Some(DotnsSubmitting) ==>
      exists s' :: Step(s, ClaimDotnsSubmitting(w), s') && id in s'.writers[w].dotns
  {
    if Due(s.rows[id], s.now) {
      assert Step(s, Claim(w, {id}, s.now), s.(writers := s.writers[w := s.writers[w].(people := {id})]));
    }
    if DotnsDue(s.rows[id], s.now) {
      assert Step(s, ClaimDotns(w, {id}, s.now), s.(writers := s.writers[w := s.writers[w].(dotns := {id})]));
    }
    var stuck := set i | i in s.rows && s.rows[i].status == Submitting;
    assert Step(s, ClaimSubmitting(w), s.(writers := s.writers[w := s.writers[w].(people := stuck)]));
    var stuckDotns := set i | i in s.rows && s.rows[i].dotns == Some(DotnsSubmitting);
    assert Step(s, ClaimDotnsSubmitting(w), s.(writers := s.writers[w := s.writers[w].(dotns := stuckDotns)]));
  }

  // ---- Whole runs ----

  ghost predicate IsRun(states: seq<Sys>, events: seq<Event>) {
    && |states| == |events| + 1
    && states[0].rows == map[] && states[0].writers == map[] && states[0].fence.None?
    && (forall i :: 0 <= i < |events| ==> Step(states[i], events[i], states[i + 1]))
  }

  lemma {:induction false} InvThroughRun(states: seq<Sys>, events: seq<Event>, k: nat)
    requires IsRun(states, events) && k < |states|
    ensures Inv(states[k])
  {
    if k > 0 {
      InvThroughRun(states, events, k - 1);
      StepKeepsInv(states[k - 1], events[k - 1], states[k]);
    }
  }

  /** A settled half stays settled along any sequence of allowed table steps. */
  lemma {:induction false} SettledThrough(tables: seq<Rows>, id: int)
    requires |tables| > 0 && id in tables[0]
    requires forall k :: 0 <= k < |tables| - 1 ==> RowsStep(tables[k], tables[k + 1])
    ensures var last := tables[|tables| - 1];
      && id in last
      && (Terminal(tables[0][id].status) ==> last[id].status == tables[0][id].status)
      && (DotnsTerminal(tables[0][id].dotns) ==> last[id].dotns == tables[0][id].dotns)
      && (tables[0][id].status != Queued ==> last[id].status != Queued)
  {
    if |tables| > 1 {
      assert RowsStep(tables[0], tables[1]);
      SettledThrough(tables[1..], id);
    }
  }

  lemma RowsStepAlong(states: seq<Sys>, events: seq<Event>, k: nat)
    requires IsRun(states, events) && k < |events|
    ensures RowsStep(states[k].rows, states[k + 1].rows)
  {
    InvThroughRun(states, events, k);
    StepKeepsInv(states[k], events[k], states[k + 1]);
  }

  /** Terminal states are terminal across every interleaving of writers, lapses,
      takeovers and crashes: between any two moments of any run. */
  lemma TerminalStaysTerminal(states: seq<Sys>, events: seq<Event>, i: nat, j: nat, id: int)
    requires IsRun(states, events) && i <= j < |states| && id in states[i].rows
    ensures id in states[j].rows
    ensures Terminal(states[i].rows[id].status) ==> states[j].rows[id].status == states[i].rows[id].status
    ensures DotnsTerminal(states[i].rows[id].dotns) ==> states[j].rows[id].dotns == states[i].rows[id].dotns
    ensures states[i].rows[id].status != Queued ==> states[j].rows[id].status != Queued
  {
    var tables := seq(j - i + 1, n requires 0 <= n <= j - i => states[i + n].rows);
    forall k | 0 <= k < |tables| - 1 ensures RowsStep(tables[k], tables[k + 1]) {
      RowsStepAlong(states, events, i + k);
    }
    SettledThrough(tables, id);
  }

  /** In every reachable state the halves of a row agree: the dotNS half has been
      attempted only on an assigned row, and a failed row has no open dotNS half. */
  lemma LanesStayCoupled(states: seq<Sys>, events: seq<Event>, k: nat, id: int)
    requires IsRun(states, events) && k < |states| && id in states[k].rows
    ensures
      var r := states[k].rows[id];
      && (DotnsAttempted(r.dotns) ==> r.status == Assigned)
      && (r.status == FailedTerminal ==> !DotnsOpen(r.dotns) && r.dotns != Some(DotnsSubmitting))
      && (r.dotns == Some(DotnsAbandoned) ==> r.status == FailedTerminal)
  {
    InvThroughRun(states, events, k);
  }

  /** A dotNS half changes only while its row is assigned, except for the one
      write that abandons it; nothing else about the row's dotNS half moves. */
  lemma DotnsMovesOnlyWhenAssigned(states: seq<Sys>, events: seq<Event>, k: nat, id: int)
    requires IsRun(states, events) && k < |events| && id in states[k].rows
    ensures id in states[k + 1].rows
    ensures states[k + 1].rows[id].dotns != states[k].rows[id].dotns ==>
              || states[k].rows[id].status == Assigned
              || (states[k + 1].rows[id].dotns == Some(DotnsAbandoned)
                  && states[k + 1].rows[id].status == FailedTerminal)
  {
    InvThroughRun(states, events, k);
    InvThroughRun(states, events, k + 1);
    StepKeepsInv(states[k], events[k], states[k + 1]);
  }

  /** From the moment a transaction fences the lease row until it commits, the lease row
      cannot change, however long it stays open and whatever the clock says. */
  lemma {:induction false} FenceBlocksTakeover(states: seq<Sys>, events: seq<Event>, i: nat, j: nat, f: Fencing)
    requires IsRun(states, events) && i <= j < |states|
    requires forall k :: i <= k <= j ==> states[k].fence == Some(f)
    ensures f.w in states[i].writers && f.w in states[j].writers
    ensures LEASE in states[i].leases && LEASE in states[j].leases
    ensures states[j].leases == states[i].leases
    ensures states[j].leases[LEASE].epoch == states[j].writers[f.w].guard.epoch
    decreases j - i
  {
    InvThroughRun(states, events, i);
    if i < j {
      assert states[i].fence == Some(f) && states[i + 1].fence == Some(f);
      assert Step(states[i], events[i], states[i + 1]);
      FenceBlocksTakeover(states, events, i + 1, j, f);
    }
  }

  /** So a fenced write always lands: it is tested against the `now()` its fence was, on a
      lease row that cannot have changed since, and on a row nobody else can have moved. */
  lemma FencedWritesLand(states: seq<Sys>, events: seq<Event>, k: nat)
    requires IsRun(states, events) && k < |events| && events[k].FencedWrite?
    ensures var e := events[k];
      && e.id in states[k].rows && InPeopleLane(states[k].rows[e.id])
      && states[k + 1].rows == states[k].rows[e.id := Marked(states[k].rows[e.id], e.mark)]
  {
    InvThroughRun(states, events, k);
    assert Step(states[k], events[k], states[k + 1]);
    assert ClaimsOpen(states[k], states[k].writers[events[k].w]);
  }

  lemma StepKeepsNames(s: Sys, e: Event, s': Sys)
    requires Step(s, e, s') && RowsStep(s.rows, s'.rows) && NamesUnique(s.rows)
    ensures NamesUnique(s'.rows)
  {
    assert e.Insert? || s'.rows.Keys == s.rows.Keys;
  }

  /** A username belongs to one row in every reachable state, and a row keeps its username. */
  lemma {:induction false} NamesStayUnique(states: seq<Sys>, events: seq<Event>, k: nat)
    requires IsRun(states, events) && k < |states|
    ensures NamesUnique(states[k].rows)
    ensures k > 0 ==> forall id :: id in states[k - 1].rows ==>
      id in states[k].rows && states[k].rows[id].name == states[k - 1].rows[id].name
  {
    if k > 0 {
      NamesStayUnique(states, events, k - 1);
      InvThroughRun(states, events, k - 1);
      StepKeepsInv(states[k - 1], events[k - 1], states[k]);
      StepKeepsNames(states[k - 1], events[k - 1], states[k]);
    }
  }
}
