/**
  The reservation outbox: one row per registration, carrying two coupled state
  machines (the People registration and the dotNS reservation). Every status
  write is guarded by the writer lease and tests nothing else about the row.
 */
module Outbox {
  import opened Prelude
  import opened Lease

  datatype Status = Queued | Reserved | Submitting | Assigned | RetryAfter | FailedTerminal

  datatype DotnsStatus =
    | DotnsPending | DotnsSubmitting | DotnsReserved | DotnsRetryAfter
    | DotnsFailedTerminal | DotnsExpired | DotnsAbandoned

  datatype Row = Row(
    name: string,
    status: Status,
    attempt: int,
    notBefore: Option<int>,
    lastError: Option<string>,
    dotns: Option<DotnsStatus>,
    dotnsAttempt: int,
    dotnsNotBefore: Option<int>,
    dotnsError: Option<string>)

  type Rows = map<int, Row>

  const ABANDONED_REASON := "People registration failed terminally; dotNS reservation never attempted"

  predicate DotnsOpen(d: Option<DotnsStatus>) {
    d == Some(DotnsPending) || d == Some(DotnsRetryAfter)
  }

  predicate DotnsTerminal(d: Option<DotnsStatus>) {
    d.Some? && d.value in {DotnsReserved, DotnsFailedTerminal, DotnsExpired, DotnsAbandoned}
  }

  /** The dotNS half has been worked on: submitted, answered, deferred or refused. */
  predicate DotnsAttempted(d: Option<DotnsStatus>) {
    d.Some? && d.value != DotnsPending && d.value != DotnsAbandoned
  }

  predicate Terminal(s: Status) {
    s == Assigned || s == FailedTerminal
  }

  // ---- What each write means for a row ----

  datatype Mark =
    | MarkSubmitting(attempt: int)
    | MarkAssigned
    | MarkRetry(until: int, attempt: int, reason: string)
    | MarkFailed(reason: string)
    | MarkDotnsSubmitting(attempt: int)
    | MarkDotnsReserved
    | MarkDotnsRetry(until: int, attempt: int, reason: string)
    | MarkDotnsFailed(reason: string)
    | MarkDotnsExpired(reason: string)

  predicate IsPeopleMark(m: Mark) {
    m.MarkSubmitting? || m.MarkAssigned? || m.MarkRetry? || m.MarkFailed?
  }

  /** The mark that precedes a broadcast; every other mark settles the claimed row. */
  predicate IsFinal(m: Mark) {
    !m.MarkSubmitting? && !m.MarkDotnsSubmitting?
  }

  function Marked(r: Row, m: Mark): Row {
    match m
    case MarkSubmitting(attempt) => r.(status := Submitting, attempt := attempt)
    case MarkAssigned => r.(status := Assigned)
    case MarkRetry(until, attempt, reason) =>
      r.(status := RetryAfter, notBefore := Some(until), attempt := attempt, lastError := Some(reason))
    case MarkFailed(reason) =>
      var failed := r.(status := FailedTerminal, lastError := Some(reason));
      if DotnsOpen(r.dotns) then
        failed.(dotns := Some(DotnsAbandoned), dotnsError := Some(ABANDONED_REASON), dotnsNotBefore := None)
      else
        failed
    case MarkDotnsSubmitting(attempt) =>
      r.(dotns := Some(DotnsSubmitting), dotnsAttempt := attempt, dotnsNotBefore := None)
    case MarkDotnsReserved => r.(dotns := Some(DotnsReserved))
    case MarkDotnsRetry(until, attempt, reason) =>
      r.(dotns := Some(DotnsRetryAfter), dotnsNotBefore := Some(until), dotnsAttempt := attempt, dotnsError := Some(reason))
    case MarkDotnsFailed(reason) => r.(dotns := Some(DotnsFailedTerminal), dotnsError := Some(reason))
    case MarkDotnsExpired(reason) => r.(dotns := Some(DotnsExpired), dotnsError := Some(reason))
  }

  /** One guarded UPDATE whose `now()` reads `asOf`. */
  function Written(rows: Rows, leases: LeaseTable, guard: Guard, asOf: int, id: int, m: Mark): Rows {
    if id in rows && Held(leases, guard, asOf) then rows[id := Marked(rows[id], m)] else rows
  }

  function NewRow(name: string, queued: bool, withDotns: bool): Row {
    Row(name, if queued then Queued else Reserved, 0, None, None,
        if withDotns then Some(DotnsPending) else None, 0, None, None)
  }

  /** `full_username` is unique. */
  predicate NameFree(rows: Rows, name: string) {
    forall id :: id in rows ==> rows[id].name != name
  }

  predicate NamesUnique(rows: Rows) {
    forall i, j :: i in rows && j in rows && rows[i].name == rows[j].name ==> i == j
  }

  // ---- The claim queries ----

  /** `claim_due`: what one People pass may pick up at `now`. */
  predicate Due(r: Row, now: int) {
    || r.status == Reserved
    || (r.status == RetryAfter && (r.notBefore.None? || r.notBefore.value <= now))
  }

  /** `claim_dotns_due`: only behind an assigned People registration. */
  predicate DotnsDue(r: Row, now: int) {
    && r.status == Assigned
    && (|| r.dotns == Some(DotnsPending)
        || (r.dotns == Some(DotnsRetryAfter) && (r.dotnsNotBefore.None? || r.dotnsNotBefore.value <= now)))
  }

  /** A row is due exactly while it waits for its first attempt or once its waiting time is
      over: a retried row becomes due at the time it was given and not before. */
  lemma DueExactly(r: Row, until: int, attempt: int, reason: string, now: int)
    ensures Due(Marked(r, MarkRetry(until, attempt, reason)), now) <==> until <= now
    ensures r.status == Reserved ==> Due(r, now)
    ensures r.status != Reserved && r.status != RetryAfter ==> !Due(r, now)
    ensures DotnsDue(Marked(r, MarkDotnsRetry(until, attempt, reason)), now) <==> r.status == Assigned && until <= now
    ensures DotnsDue(Marked(r, MarkAssigned), now) <== r.dotns == Some(DotnsPending)
    ensures r.status != Assigned || (r.dotns != Some(DotnsPending) && r.dotns != Some(DotnsRetryAfter)) ==> !DotnsDue(r, now)
  {
  }

  predicate SameDotns(r: Row, r': Row) {
    r.dotns == r'.dotns && r.dotnsAttempt == r'.dotnsAttempt && r.dotnsNotBefore == r'.dotnsNotBefore && r.dotnsError == r'.dotnsError
  }

  predicate SamePeople(r: Row, r': Row) {
    && r.name == r'.name && r.status == r'.status && r.attempt == r'.attempt
    && r.notBefore == r'.notBefore && r.lastError == r'.lastError
  }

  // ---- The statements, column by column ----

  class Table {
    var rows: Rows
    var leases: LeaseTable
    var nextId: int

    constructor ()
      ensures rows == map[] && leases == map[] && Valid()
    {
      rows, leases, nextId := map[], map[], 1;
    }

    /** Ids come from the database's sequence. */
    ghost predicate Valid()
      reads this
    {
      NamesUnique(rows) && forall id :: id in rows ==> id < nextId
    }

    /** `insert_with`: refused exactly when the username is taken, by a row in whatever
        state; otherwise a row of its own appears and no other changes. */
    method Insert(name: string, queued: bool, withDotns: bool) returns (id: Option<int>)
      requires Valid()
      modifies this`rows, this`nextId
      ensures Valid()
      ensures id.None? <==> exists i :: i in old(rows) && old(rows)[i].name == name
      ensures id.None? ==> rows == old(rows)
      ensures id.Some? ==> id.value !in old(rows) && rows == old(rows)[id.value := NewRow(name, queued, withDotns)]
      ensures id.Some? ==>
        && rows[id.value].name == name && rows[id.value].status == (if queued then Queued else Reserved)
        && rows[id.value].dotns == (if withDotns then Some(DotnsPending) else None)
        && rows[id.value].attempt == 0 && rows[id.value].dotnsAttempt == 0
    {
      var issued := nextId;
      nextId := nextId + 1;
      if exists i :: i in rows && rows[i].name == name {
        return None;
      }
      rows := rows[issued := NewRow(name, queued, withDotns)];
      return Some(issued);
    }

    /** `guarded_status`: `CASE` and `COALESCE` per column, `retry` and `err` optional. */
    method GuardedStatus(guard: Guard, id: int, status: Status, retry: Option<(int, int)>, err: Option<string>, now: int)
      returns (done: bool)
      modifies this`rows
      ensures done <==> id in old(rows) && Held(leases, guard, now)
      ensures !done ==> rows == old(rows)
      ensures done ==> rows.Keys == old(rows).Keys && forall i :: i in rows && i != id ==> rows[i] == old(rows)[i]
      ensures done ==> rows[id].status == status && rows[id].name == old(rows)[id].name
      ensures done ==> rows[id].attempt == if retry.Some? then retry.value.1 else old(rows)[id].attempt
      ensures done && status == RetryAfter ==> rows[id].notBefore == if retry.Some? then Some(retry.value.0) else None
      ensures done && status != RetryAfter ==> rows[id].notBefore == old(rows)[id].notBefore
      ensures done ==> rows[id].lastError == if err.Some? then err else old(rows)[id].lastError
      ensures done && status == FailedTerminal && DotnsOpen(old(rows)[id].dotns) ==>
        rows[id].dotns == Some(DotnsAbandoned) && rows[id].dotnsError == Some(ABANDONED_REASON) && rows[id].dotnsNotBefore == None
      ensures done && !(status == FailedTerminal && DotnsOpen(old(rows)[id].dotns)) ==> SameDotns(rows[id], old(rows)[id])
      ensures status == Assigned && retry.None? && err.None? ==>
                rows == Written(old(rows), leases, guard, now, id, MarkAssigned)
      ensures status == RetryAfter && retry.Some? && err.Some? ==>
                rows == Written(old(rows), leases, guard, now, id, MarkRetry(retry.value.0, retry.value.1, err.value))
      ensures status == FailedTerminal && retry.None? && err.Some? ==>
                rows == Written(old(rows), leases, guard, now, id, MarkFailed(err.value))
    {
      done := id in rows && Held(leases, guard, now);
      if !done {
        return;
      }
      var r := rows[id];
      var closesDotns := status == FailedTerminal && DotnsOpen(r.dotns);
      rows := rows[id := Row(
        r.name,
        status,
        if retry.Some? then retry.value.1 else r.attempt,
        if status == RetryAfter then (if retry.Some? then Some(retry.value.0) else None) else r.notBefore,
        if err.Some? then err else r.lastError,
        if closesDotns then Some(DotnsAbandoned) else r.dotns,
        r.dotnsAttempt,
        if closesDotns then None else r.dotnsNotBefore,
        if closesDotns then Some(ABANDONED_REASON) else r.dotnsError)];
    }

    /** `guarded_dotns_status`: touches the dotNS columns alone. */
    method GuardedDotnsStatus(guard: Guard, id: int, status: DotnsStatus, retry: Option<(int, int)>,
        err: Option<string>, now: int)
      returns (done: bool)
      modifies this`rows
      ensures done <==> id in old(rows) && Held(leases, guard, now)
      ensures !done ==> rows == old(rows)
      ensures done ==> rows.Keys == old(rows).Keys && forall i :: i in rows && i != id ==> rows[i] == old(rows)[i]
      ensures done ==> rows[id].dotns == Some(status) && SamePeople(rows[id], old(rows)[id])
      ensures done ==> rows[id].dotnsAttempt == if retry.Some? then retry.value.1 else old(rows)[id].dotnsAttempt
      ensures done && status == DotnsRetryAfter ==> rows[id].dotnsNotBefore == if retry.Some? then Some(retry.value.0) else None
      ensures done && status != DotnsRetryAfter ==> rows[id].dotnsNotBefore == old(rows)[id].dotnsNotBefore
      ensures done ==> rows[id].dotnsError == if err.Some? then err else old(rows)[id].dotnsError
      ensures status == DotnsReserved && retry.None? && err.None? ==>
                rows == Written(old(rows), leases, guard, now, id, MarkDotnsReserved)
      ensures status == DotnsRetryAfter && retry.Some? && err.Some? ==>
                rows == Written(old(rows), leases, guard, now, id, MarkDotnsRetry(retry.value.0, retry.value.1, err.value))
      ensures status == DotnsFailedTerminal && retry.None? && err.Some? ==>
                rows == Written(old(rows), leases, guard, now, id, MarkDotnsFailed(err.value))
      ensures status == DotnsExpired && retry.None? && err.Some? ==>
                rows == Written(old(rows), leases, guard, now, id, MarkDotnsExpired(err.value))
    {
      done := id in rows && Held(leases, guard, now);
      if !done {
        return;
      }
      var r := rows[id];
      rows := rows[id := r.(
        dotns := Some(status),
        dotnsNotBefore := if status == DotnsRetryAfter then (if retry.Some? then Some(retry.value.0) else None) else r.dotnsNotBefore,
        dotnsAttempt := if retry.Some? then retry.value.1 else r.dotnsAttempt,
        dotnsError := if err.Some? then err else r.dotnsError)];
    }

    /** `mark_submitting`: before the broadcast, with the attempt counted. */
    method MarkSubmittingRow(guard: Guard, id: int, attempt: int, now: int) returns (done: bool)
      modifies this`rows
      ensures done <==> id in old(rows) && Held(leases, guard, now)
      ensures rows == Written(old(rows), leases, guard, now, id, MarkSubmitting(attempt))
      ensures done ==> rows == old(rows)[id := old(rows)[id].(status := Submitting, attempt := attempt)]
    {
      done := id in rows && Held(leases, guard, now);
      if done {
        rows := rows[id := rows[id].(status := Submitting, attempt := attempt)];
      }
    }

    /** `mark_dotns_submitting`: the same for the dotNS half, whose waiting time is cleared. */
    method MarkDotnsSubmittingRow(guard: Guard, id: int, attempt: int, now: int) returns (done: bool)
      modifies this`rows
      ensures done <==> id in old(rows) && Held(leases, guard, now)
      ensures rows == Written(old(rows), leases, guard, now, id, MarkDotnsSubmitting(attempt))
      ensures done ==>
        rows == old(rows)[id := old(rows)[id].(dotns := Some(DotnsSubmitting), dotnsAttempt := attempt, dotnsNotBefore := None)]
    {
      done := id in rows && Held(leases, guard, now);
      if done {
        rows := rows[id := rows[id].(dotns := Some(DotnsSubmitting), dotnsAttempt := attempt, dotnsNotBefore := None)];
      }
    }
  }

  /** The updates alone protect nothing: under a valid guard the retry statement
      moves an assigned row back into the lane and reopens a settled dotNS half. */
  lemma BareWritesAreNotSafe(leases: LeaseTable, guard: Guard, now: int, id: int)
    requires Held(leases, guard, now)
    ensures exists rows: Rows, m ::
              && id in rows && rows[id].status == Assigned && DotnsTerminal(rows[id].dotns)
              && Written(rows, leases, guard, now, id, m)[id].status == RetryAfter
    ensures exists rows: Rows, m ::
              && id in rows && DotnsTerminal(rows[id].dotns)
              && DotnsOpen(Written(rows, leases, guard, now, id, m)[id].dotns)
  {
    var r := Row("", Assigned, 1, None, None, Some(DotnsReserved), 1, None, None);
    var rows: Rows := map[id := r];
    assert Written(rows, leases, guard, now, id, MarkRetry(now, 2, ""))[id].status == RetryAfter;
    assert DotnsOpen(Written(rows, leases, guard, now, id, MarkDotnsRetry(now, 2, ""))[id].dotns);
  }
}
