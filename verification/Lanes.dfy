/**
  The two lanes the engine runs over, and the link between a pass's log and the
  multi-writer protocol: executing the log never writes outside the claim.
 */
module Lanes {
  import opened Prelude
  import Lease
  import opened Outbox
  import opened Engine
  import opened WriterProtocol

  datatype Lane = People | Dotns

  /** The outbox write a log entry turns into (`Lane::record` and `mark`). Only a row's
      own retry and its broadcast spend an attempt. */
  function MarkOf(lane: Lane, e: Entry, until: int): (m: Mark)
    ensures IsPeopleMark(m) <==> lane.People?
    ensures IsFinal(m) <==> e.Recorded?
    ensures m.MarkRetry? && m.attempt != e.row.attempt ==> e.outcome.Retry?
    ensures m.MarkDotnsRetry? && m.attempt != e.row.attempt ==> e.outcome.Retry?
  {
    var attempt := e.row.attempt;
    match e
    case Broadcasting(_) => if lane.People? then MarkSubmitting(attempt + 1) else MarkDotnsSubmitting(attempt + 1)
    case Recorded(_, outcome) =>
      match outcome
      case Landed => if lane.People? then MarkAssigned else MarkDotnsReserved
      case Observed => if lane.People? then MarkAssigned else MarkDotnsReserved
      case Retry(reason) => Again(lane, until, attempt + 1, reason)
      case Park(reason) => Again(lane, until, attempt, reason)
      case Defer(reason) => Again(lane, until, attempt, reason)
      case Failed(reason) => if lane.People? then MarkFailed(reason) else MarkDotnsFailed(reason)
      case Expired(reason) => if lane.People? then MarkFailed(reason) else MarkDotnsExpired(reason)
  }

  function Again(lane: Lane, until: int, attempt: int, reason: string): Mark {
    if lane.People? then MarkRetry(until, attempt, reason) else MarkDotnsRetry(until, attempt, reason)
  }

  function ClaimIds(lane: Lane, w: Writer): set<int> {
    if lane.People? then w.people else w.dotns
  }

  /** The writer's claim after executing a prefix of the log. */
  function After(w: Writer, lane: Lane, log: seq<Entry>): Writer {
    if log == [] then w
    else
      var e := log[|log| - 1];
      Settle(After(w, lane, log[..|log| - 1]), e.row.id, MarkOf(lane, e, 0))
  }

  lemma {:induction false} StillClaimed(w: Writer, lane: Lane, log: seq<Entry>, id: int)
    requires id in ClaimIds(lane, w)
    requires forall i :: 0 <= i < |log| && log[i].Recorded? ==> log[i].row.id != id
    ensures id in ClaimIds(lane, After(w, lane, log))
  {
    if log != [] {
      StillClaimed(w, lane, log[..|log| - 1], id);
    }
  }

  /** The writer has claimed exactly these rows in this lane. */
  ghost predicate HasClaimed(w: Writer, lane: Lane, rows: seq<Claim>) {
    ClaimIds(lane, w) == set r | r in rows :: r.id
  }

  /** A pass, or a startup reconciliation, that claimed its rows and settles each at most
      once only ever performs writes the protocol allows: every entry of its log, and so
      every prefix a lost lease cuts it off at, is a mark on a row still in its claim. */
  lemma PassObeysProtocol(w: Writer, lane: Lane, due: seq<Claim>, log: seq<Entry>, k: nat, until: int)
    requires HasClaimed(w, lane, due) && Settles(due, log) && k < |log|
    ensures Claimed(After(w, lane, log[..k]), log[k].row.id, MarkOf(lane, log[k], until))
    ensures After(w, lane, log[..k + 1]) == Settle(After(w, lane, log[..k]), log[k].row.id, MarkOf(lane, log[k], until))
  {
    assert log[k].row.id in ClaimIds(lane, w);
    StillClaimed(w, lane, log[..k], log[k].row.id);
    assert log[..k + 1][..k] == log[..k];
  }

  // ---- Executing a log ----

  /** The steps one entry takes: landing and failing a People row go through a fence. */
  function EventsOf(lane: Lane, v: nat, e: Entry, until: int, asOf: int): seq<Event> {
    var m := MarkOf(lane, e, until);
    if NeedsFence(m) then [Fence(v, asOf), FencedWrite(v, e.row.id, m)] else [Write(v, e.row.id, m, asOf)]
  }

  /** Wherever other writers' steps have taken the system since the pass's last own step,
      its next entry is enabled: the write, the fence while the lease is held and unfenced,
      and the fenced write once fenced. */
  lemma NextEntryIsEnabled(s: Sys, v: nat, w: Writer, lane: Lane, due: seq<Claim>, log: seq<Entry>, k: nat, until: int, asOf: int)
    requires HasClaimed(w, lane, due) && Settles(due, log) && k < |log|
    requires v in s.writers && s.writers[v] == After(w, lane, log[..k]) && asOf <= s.now
    ensures var m := MarkOf(lane, log[k], until);
      var done := s.writers[v := After(w, lane, log[..k + 1])];
      && (!NeedsFence(m) ==> exists s' :: Step(s, Write(v, log[k].row.id, m, asOf), s') && s'.writers == done)
      && (NeedsFence(m) && s.fence.None? && Lease.Held(s.leases, s.writers[v].guard, asOf) ==>
            exists s' :: Step(s, Fence(v, asOf), s') && s'.writers == s.writers)
      && (NeedsFence(m) && s.fence.Some? && s.fence.value.w == v ==>
            exists s' :: Step(s, FencedWrite(v, log[k].row.id, m), s') && s'.writers == done)
  {
    PassObeysProtocol(w, lane, due, log, k, until);
    var m, id := MarkOf(lane, log[k], until), log[k].row.id;
    var done := s.writers[v := After(w, lane, log[..k + 1])];
    if !NeedsFence(m) {
      var s' := s.(rows := Written(s.rows, s.leases, s.writers[v].guard, asOf, id, m), writers := done);
      assert Step(s, Write(v, id, m, asOf), s') && s'.writers == done;
    } else if s.fence.None? {
      if Lease.Held(s.leases, s.writers[v].guard, asOf) {
        var s' := s.(fence := Some(Fencing(v, asOf)));
        assert Step(s, Fence(v, asOf), s') && s'.writers == s.writers;
      }
    } else if s.fence.value.w == v {
      var s' := s.(rows := Written(s.rows, s.leases, s.writers[v].guard, s.fence.value.asOf, id, m), writers := done, fence := None);
      assert Step(s, FencedWrite(v, id, m), s') && s'.writers == done;
    }
  }

  ghost predicate IsSteps(states: seq<Sys>, events: seq<Event>) {
    && |states| == |events| + 1
    && forall i :: 0 <= i < |events| ==> Step(states[i], events[i], states[i + 1])
  }

  /** The outbox once an entry's write has landed. */
  function MarkRow(rows: Rows, lane: Lane, e: Entry, until: int): Rows {
    if e.row.id in rows then rows[e.row.id := Marked(rows[e.row.id], MarkOf(lane, e, until))] else rows
  }

  /** The outbox after the first `n` entries, each write landing. */
  function RowsAfter(rows: Rows, lane: Lane, log: seq<Entry>, n: nat, until: int): (after: Rows)
    requires n <= |log|
    ensures after.Keys == rows.Keys
  {
    if n == 0 then rows else MarkRow(RowsAfter(rows, lane, log, n - 1, until), lane, log[n - 1], until)
  }

  /** The steps the first `n` entries take. */
  function AllEvents(lane: Lane, v: nat, log: seq<Entry>, n: nat, until: int, asOf: int): seq<Event>
    requires n <= |log|
  {
    if n == 0 then [] else AllEvents(lane, v, log, n - 1, until, asOf) + EventsOf(lane, v, log[n - 1], until, asOf)
  }

  lemma ExecuteOne(s: Sys, v: nat, w: Writer, lane: Lane, due: seq<Claim>, log: seq<Entry>, k: nat, until: int, asOf: int)
    returns (states: seq<Sys>)
    requires HasClaimed(w, lane, due) && Settles(due, log) && k < |log|
    requires v in s.writers && s.writers[v] == After(w, lane, log[..k]) && asOf <= s.now && s.fence.None?
    requires Lease.Held(s.leases, s.writers[v].guard, asOf)
    ensures IsSteps(states, EventsOf(lane, v, log[k], until, asOf)) && states[0] == s
    ensures states[|states| - 1] ==
      s.(rows := MarkRow(s.rows, lane, log[k], until), writers := s.writers[v := After(w, lane, log[..k + 1])])
  {
    PassObeysProtocol(w, lane, due, log, k, until);
    var last := s.(rows := MarkRow(s.rows, lane, log[k], until), writers := s.writers[v := After(w, lane, log[..k + 1])]);
    var m, id := MarkOf(lane, log[k], until), log[k].row.id;
    if NeedsFence(m) {
      var fenced := s.(fence := Some(Fencing(v, asOf)));
      assert Step(s, Fence(v, asOf), fenced) && Step(fenced, FencedWrite(v, id, m), last);
      states := [s, fenced, last];
    } else {
      assert Step(s, Write(v, id, m, asOf), last);
      states := [s, last];
    }
  }

  /** The writer's guard outlives any of its marks. */
  lemma {:induction false} GuardStays(w: Writer, lane: Lane, log: seq<Entry>)
    ensures After(w, lane, log).guard == w.guard
  {
    if log != [] {
      GuardStays(w, lane, log[..|log| - 1]);
    }
  }

  /** `v` is a writer under a held lease that has claimed these rows, with no fence open. */
  ghost predicate Ready(s: Sys, v: nat, lane: Lane, rows: seq<Claim>, asOf: int) {
    && v in s.writers && HasClaimed(s.writers[v], lane, rows)
    && asOf <= s.now && s.fence.None? && Lease.Held(s.leases, s.writers[v].guard, asOf)
  }

  /** The log was carried out from `s`, step by step, and every write landed. */
  ghost predicate CarriedOut(s: Sys, v: nat, lane: Lane, log: seq<Entry>, n: nat, until: int, asOf: int, states: seq<Sys>)
    requires n <= |log| && v in s.writers
  {
    && IsSteps(states, AllEvents(lane, v, log, n, until, asOf)) && states[0] == s
    && states[|states| - 1] ==
       s.(rows := RowsAfter(s.rows, lane, log, n, until), writers := s.writers[v := After(s.writers[v], lane, log[..n])])
  }

  /** Executing a log is a run of the protocol: while the lease is held, the entries of a
      pass or of a reconciliation, one after another, are steps of the writers' state
      machine, and they leave the outbox with every one of them applied. */
  lemma {:induction false} LogIsProtocolRun(s: Sys, v: nat, lane: Lane, due: seq<Claim>, log: seq<Entry>, n: nat, until: int, asOf: int)
    returns (states: seq<Sys>)
    requires Ready(s, v, lane, due, asOf) && Settles(due, log) && n <= |log|
    ensures CarriedOut(s, v, lane, log, n, until, asOf, states)
    decreases n
  {
    var w := s.writers[v];
    if n == 0 {
      states := [s];
      assert s.writers[v := w] == s.writers;
    } else {
      states := LogIsProtocolRun(s, v, lane, due, log, n - 1, until, asOf);
      GuardStays(w, lane, log[..n - 1]);
      var more := ExecuteOne(states[|states| - 1], v, w, lane, due, log, n - 1, until, asOf);
      Appended(states, AllEvents(lane, v, log, n - 1, until, asOf), more, EventsOf(lane, v, log[n - 1], until, asOf));
      states := states + more[1..];
    }
  }

  lemma Appended(a: seq<Sys>, x: seq<Event>, b: seq<Sys>, y: seq<Event>)
    requires IsSteps(a, x) && IsSteps(b, y) && a[|a| - 1] == b[0]
    ensures IsSteps(a + b[1..], x + y) && (a + b[1..])[|a + b[1..]| - 1] == b[|b| - 1]
  {
    var states, events := a + b[1..], x + y;
    forall i | 0 <= i < |events| ensures Step(states[i], events[i], states[i + 1]) {
      if i >= |x| {
        assert states[i] == b[i - |x|] && states[i + 1] == b[i - |x| + 1] && events[i] == y[i - |x|];
      }
    }
  }

  // ---- What the outbox shows in the end ----

  /** The columns of the lane that a recorded outcome leaves: assigned or reserved exactly for
      a landing, failed or expired exactly for a terminal verdict, and otherwise waiting for a
      retry, with an attempt more exactly for a retry of the row's own. */
  predicate Shows(lane: Lane, row: Row, r: Claim, outcome: Outcome, until: int) {
    match lane
    case People =>
      && (row.status == Assigned <==> outcome.Landed? || outcome.Observed?)
      && (row.status == FailedTerminal <==> outcome.Failed? || outcome.Expired?)
      && (row.status == RetryAfter <==> outcome.Retry? || outcome.Park? || outcome.Defer?)
      && (row.status == FailedTerminal ==> !DotnsOpen(row.dotns))
      && (!outcome.Landed? && !outcome.Observed? ==> row.lastError == Some(outcome.reason))
      && (row.status == RetryAfter ==>
            row.notBefore == Some(until) && row.attempt == r.attempt + (if outcome.Retry? then 1 else 0))
    case Dotns =>
      && (row.dotns == Some(DotnsReserved) <==> outcome.Landed? || outcome.Observed?)
      && (row.dotns == Some(DotnsFailedTerminal) <==> outcome.Failed?)
      && (row.dotns == Some(DotnsExpired) <==> outcome.Expired?)
      && (row.dotns == Some(DotnsRetryAfter) <==> outcome.Retry? || outcome.Park? || outcome.Defer?)
      && (!outcome.Landed? && !outcome.Observed? ==> row.dotnsError == Some(outcome.reason))
      && (row.dotns == Some(DotnsRetryAfter) ==>
            row.dotnsNotBefore == Some(until) && row.dotnsAttempt == r.attempt + (if outcome.Retry? then 1 else 0))
  }

  /** The other lane's columns, but for a dotNS half abandoned with a failing row. */
  predicate OtherHalfStays(lane: Lane, row: Row, was: Row) {
    if lane.Dotns? then SamePeople(row, was)
    else SameDotns(row, was) || (row.status == FailedTerminal && DotnsOpen(was.dotns) && row.dotns == Some(DotnsAbandoned))
  }

  /** A row's record is the last word on it. */
  lemma {:induction false} RecordShows(rows: Rows, lane: Lane, due: seq<Claim>, log: seq<Entry>, n: nat, until: int, r: Claim, k: nat)
    requires Settles(due, log) && k < n <= |log| && r.id in rows && log[k].Recorded? && log[k].row == r
    ensures Shows(lane, RowsAfter(rows, lane, log, n, until)[r.id], r, log[k].outcome, until)
    decreases n
  {
    if k < n - 1 {
      RecordShows(rows, lane, due, log, n - 1, until, r, k);
      assert log[n - 1].row.id != r.id;
    }
  }

  /** Rows nothing was written about stay as they were. */
  lemma {:induction false} OthersStay(rows: Rows, lane: Lane, log: seq<Entry>, n: nat, until: int, id: int)
    requires n <= |log| && id in rows && forall i :: 0 <= i < n ==> log[i].row.id != id
    ensures RowsAfter(rows, lane, log, n, until)[id] == rows[id]
  {
    if n > 0 {
      OthersStay(rows, lane, log, n - 1, until, id);
    }
  }

  /** The other half of a recorded row stays, but for an abandoned dotNS half. */
  lemma {:induction false} OtherHalfKept(rows: Rows, lane: Lane, due: seq<Claim>, log: seq<Entry>, n: nat, until: int, r: Claim, k: nat)
    requires Settles(due, log) && k < n <= |log| && r.id in rows && log[k].Recorded? && log[k].row == r
    ensures OtherHalfStays(lane, RowsAfter(rows, lane, log, n, until)[r.id], rows[r.id])
    decreases n
  {
    if k < n - 1 {
      OtherHalfKept(rows, lane, due, log, n - 1, until, r, k);
      assert log[n - 1].row.id != r.id;
    } else {
      forall i | 0 <= i < k && log[i].Recorded? ensures log[i].row.id != r.id {
        assert log[i].row.id != log[k].row.id;
      }
      NotYetFailed(rows, lane, log, k, until, r.id);
    }
  }

  /** Until its record, a row's other half has not been touched at all. */
  lemma {:induction false} NotYetFailed(rows: Rows, lane: Lane, log: seq<Entry>, n: nat, until: int, id: int)
    requires n <= |log| && id in rows && forall i :: 0 <= i < n && log[i].Recorded? ==> log[i].row.id != id
    ensures var row := RowsAfter(rows, lane, log, n, until)[id];
      if lane.Dotns? then SamePeople(row, rows[id]) else SameDotns(row, rows[id])
  {
    if n > 0 {
      NotYetFailed(rows, lane, log, n - 1, until, id);
    }
  }

  /** Landing and failing a People row, and nothing else, go through a fence. */
  lemma LandingIsFenced(lane: Lane, v: nat, e: Entry, until: int, asOf: int)
    ensures EventsOf(lane, v, e, until, asOf)[0].Fence? <==>
      && lane.People? && e.Recorded?
      && (e.outcome.Landed? || e.outcome.Observed? || e.outcome.Failed? || e.outcome.Expired?)
  {
  }

  /** A whole pass under a held lease, as steps of the protocol. */
  method CarryOutPass(w: World, due: seq<Claim>, ghost s: Sys, ghost v: nat, ghost lane: Lane, ghost until: int, ghost asOf: int)
    returns (log: seq<Entry>, ghost states: seq<Sys>)
    requires WellFormed(w, due) && Ready(s, v, lane, due, asOf)
    ensures forall r :: r in due ==> Recorded(r, Verdict(w, due, r)) in log
    ensures CarriedOut(s, v, lane, log, |log|, until, asOf, states)
    ensures forall r :: r in due && r.id in s.rows ==>
      && r.id in states[|states| - 1].rows
      && Shows(lane, states[|states| - 1].rows[r.id], r, Verdict(w, due, r), until)
      && OtherHalfStays(lane, states[|states| - 1].rows[r.id], s.rows[r.id])
    ensures forall id :: id in s.rows && (forall r :: r in due ==> r.id != id) ==>
      id in states[|states| - 1].rows && states[|states| - 1].rows[id] == s.rows[id]
  {
    log := DrainPass(w, due);
    states := LogIsProtocolRun(s, v, lane, due, log, |log|, until, asOf);
    forall r | r in due && r.id in s.rows
      ensures Shows(lane, RowsAfter(s.rows, lane, log, |log|, until)[r.id], r, Verdict(w, due, r), until)
      ensures OtherHalfStays(lane, RowsAfter(s.rows, lane, log, |log|, until)[r.id], s.rows[r.id])
    {
      var k :| 0 <= k < |log| && log[k] == Recorded(r, Verdict(w, due, r));
      RecordShows(s.rows, lane, due, log, |log|, until, r, k);
      OtherHalfKept(s.rows, lane, due, log, |log|, until, r, k);
    }
    forall id | id in s.rows && forall r :: r in due ==> r.id != id
      ensures RowsAfter(s.rows, lane, log, |log|, until)[id] == s.rows[id]
    {
      OthersStay(s.rows, lane, log, |log|, until, id);
    }
  }

  /** A startup reconciliation under a held lease, as steps of the protocol. */
  method CarryOutReconcile(wording: Wording, candidates: map<int, Account>, answers: nat -> Owners, stuck: seq<Claim>,
                           ghost s: Sys, ghost v: nat, ghost lane: Lane, ghost until: int, ghost asOf: int)
    returns (log: seq<Entry>, ghost states: seq<Sys>)
    requires UniqueIds(stuck) && Ready(s, v, lane, stuck, asOf)
    ensures log == ReconcileLog(wording, candidates, answers, stuck)
    ensures CarriedOut(s, v, lane, log, |log|, until, asOf, states)
    ensures forall k :: 0 <= k < |log| && log[k].row.id in s.rows ==>
      && log[k].Recorded? && log[k].row.id in states[|states| - 1].rows
      && Shows(lane, states[|states| - 1].rows[log[k].row.id], log[k].row, log[k].outcome, until)
    ensures forall id :: id in s.rows && (forall k :: 0 <= k < |log| ==> log[k].row.id != id) ==>
      id in states[|states| - 1].rows && states[|states| - 1].rows[id] == s.rows[id]
  {
    var ok;
    log, ok := ReconcileSubmitting(wording, candidates, answers, stuck);
    states := LogIsProtocolRun(s, v, lane, stuck, log, |log|, until, asOf);
    forall k | 0 <= k < |log| && log[k].row.id in s.rows
      ensures log[k].Recorded? && Shows(lane, RowsAfter(s.rows, lane, log, |log|, until)[log[k].row.id], log[k].row, log[k].outcome, until)
    {
      ReconcileOnlyRecords(wording, candidates, answers, stuck, k);
      RecordShows(s.rows, lane, stuck, log, |log|, until, log[k].row, k);
    }
    forall id | id in s.rows && forall k :: 0 <= k < |log| ==> log[k].row.id != id
      ensures RowsAfter(s.rows, lane, log, |log|, until)[id] == s.rows[id]
    {
      OthersStay(s.rows, lane, log, |log|, until, id);
    }
  }

  /** A lone row whose nonce read fails is charged an attempt in the outbox, whatever lane. */
  lemma NonceFailureSpendsAnAttempt(lane: Lane, w: World, due: seq<Claim>, r: Claim, until: int)
    requires WellFormed(w, due) && r in due && AloneWithoutNonce(w, Submittable(w, due), r)
    ensures var m := MarkOf(lane, Recorded(r, Verdict(w, due, r)), until);
      (m.MarkRetry? || m.MarkDotnsRetry?) && m.attempt == r.attempt + 1
  {
    ChargedWithoutFailing(w, due, r);
  }

  // ---- A crash in mid-submission ----

  function AttemptOf(lane: Lane, r: Row): int {
    if lane.People? then r.attempt else r.dotnsAttempt
  }

  predicate InSubmission(lane: Lane, r: Row) {
    if lane.People? then r.status == Submitting else r.dotns == Some(DotnsSubmitting)
  }

  /** A row broadcast and not yet recorded is in submission, with its attempt counted. */
  lemma {:induction false} BroadcastShows(rows: Rows, lane: Lane, due: seq<Claim>, log: seq<Entry>, n: nat, until: int, r: Claim, k: nat)
    requires UniqueIds(due) && Settles(due, log) && k < n <= |log| && r in due && r.id in rows && log[k] == Broadcasting(r)
    requires forall i :: 0 <= i < n && log[i].Recorded? ==> log[i].row.id != r.id
    ensures var after := RowsAfter(rows, lane, log, n, until);
      r.id in after && InSubmission(lane, after[r.id]) && AttemptOf(lane, after[r.id]) == r.attempt + 1
  {
    var e := log[n - 1];
    if e.row.id == r.id {
      assert e.row in due && e.row == r;
    } else {
      BroadcastShows(rows, lane, due, log, n - 1, until, r, k);
    }
  }

  /** A retry leaves one attempt counted, whether or not a broadcast before it counted the
      same one. */
  lemma RetryChargesOnce(rows: Rows, lane: Lane, due: seq<Claim>, log: seq<Entry>, n: nat, until: int, r: Claim, k: nat)
    requires Settles(due, log) && k < n <= |log| && r.id in rows && log[k].Recorded? && log[k].row == r && log[k].outcome.Retry?
    ensures AttemptOf(lane, RowsAfter(rows, lane, log, n, until)[r.id]) == r.attempt + 1
  {
    RecordShows(rows, lane, due, log, n, until, r, k);
  }

  /** One submission cut short is charged twice. A pass that crashes after broadcasting a row
      leaves its attempt counted; the startup reconciliation claims the row as it stands, and
      when the read succeeds and does not name its candidate, re-queues it with the attempt
      counted again. This holds of every row of a broadcast batch. */
  lemma CrashChargesTwice(rows: Rows, lane: Lane, due: seq<Claim>, log: seq<Entry>, n: nat, r: Claim, k: nat,
                          wording: Wording, candidates: map<int, Account>, answers: nat -> Owners, stuck: seq<Claim>, p: nat, until: int)
    requires UniqueIds(due) && Settles(due, log) && k < n <= |log| && r in due && r.id in rows && log[k] == Broadcasting(r)
    requires forall i :: 0 <= i < n && log[i].Recorded? ==> log[i].row.id != r.id
    requires UniqueIds(stuck) && p < |Parsed(candidates, stuck, true)|
    requires var found := Parsed(candidates, stuck, true)[p];
      && found.id == r.id && found.attempt == AttemptOf(lane, RowsAfter(rows, lane, log, n, until)[r.id])
      && answers(p / RECONCILE_READ_CHUNK).Ok? && found.id in candidates
      && !OwnedBy(answers(p / RECONCILE_READ_CHUNK), found.name, candidates[found.id])
    ensures var again := ReconcileLog(wording, candidates, answers, stuck);
      var after := RowsAfter(RowsAfter(rows, lane, log, n, until), lane, again, |again|, until);
      r.id in after && AttemptOf(lane, after[r.id]) == r.attempt + 2
  {
    var found := Parsed(candidates, stuck, true)[p];
    var again := ReconcileLog(wording, candidates, answers, stuck);
    BroadcastShows(rows, lane, due, log, n, until, r, k);
    ReconcileRecordsOnce(wording, candidates, answers, stuck);
    ReconcileDecidesOnlyFromReads(wording, candidates, answers, stuck, p, Retry(wording.reconciled));
    var i :| 0 <= i < |again| && again[i] == Recorded(found, Retry(wording.reconciled));
    RetryChargesOnce(RowsAfter(rows, lane, log, n, until), lane, stuck, again, |again|, until, found, i);
  }
}
