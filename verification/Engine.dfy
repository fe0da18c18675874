/**
  One drain pass of one writer lane: triage the claimed rows, submit what is
  left as one extrinsic, and record every row's fate. `World` holds every answer
  the outside gives during the pass; the log is what the pass writes, in order.
 */
module Engine {
  import opened Prelude

  type Account = nat

  datatype Claim = Claim(id: int, name: string, attempt: int)

  datatype Gate =
    | Pass(candidate: Account)
    | GateFailed(reason: string)
    | GateExpired(reason: string)
    | GateNotYet(until: int, reason: string)

  datatype Outcome =
    | Landed
    | Observed
    | Retry(reason: string)
    | Park(reason: string)
    | Defer(reason: string)
    | Failed(reason: string)
    | Expired(reason: string)

  datatype Entry = Broadcasting(row: Claim) | Recorded(row: Claim, outcome: Outcome)

  type Owners = Result<map<string, Account>, string>

  /** What the lanes word differently. */
  datatype Wording = Wording(ownedElsewhere: string, nonceFetch: string, reconciled: string)

  datatype World = World(
    lane: Wording,
    ctx: Result<(), string>,
    gates: map<int, Gate>,
    triageOwners: Owners,
    nonce: Result<(), string>,
    marked: nat,
    single: Result<(), string>,
    singleOwner: Option<Account>,
    batch: Result<seq<Result<(), string>>, string>,
    failedOwners: Owners,
    reconcileOwners: Owners,
    maxAttempts: int)

  // ---- Failure classification ----

  const ALREADY_REGISTERED := "PeopleLite::AlreadyRegistered"
  const UNFUNDED_SIGNER := "Inability to pay some fees"
  const FINALIZE_TIMEOUT := "finalization timed out"
  const STALE_NONCE := "Transaction is outdated"
  const SIGNER_CONTENTION := [
    "Priority is too low",
    "priority of the transaction is too low",
    "too low priority",
    "Transaction Already Imported",
    "chainHead_follow emitted 'stop' event during transaction submission",
    "the connection was lost"]
  const DETERMINISTIC_REJECTIONS := [
    "Resources::UsernameReservationTaken",
    "Resources::QueueFull",
    "Resources::AlreadyHasReservation"]

  predicate OccursAt(text: string, part: string, i: int) {
    0 <= i <= |text| - |part| && text[i..i + |part|] == part
  }

  predicate Contains(text: string, part: string) {
    exists i | 0 <= i <= |text| :: OccursAt(text, part, i)
  }

  predicate IsSignerContention(reason: string) {
    || Contains(reason, FINALIZE_TIMEOUT)
    || Contains(reason, STALE_NONCE)
    || exists i :: 0 <= i < |SIGNER_CONTENTION| && Contains(reason, SIGNER_CONTENTION[i])
  }

  predicate IsDeterministicRejection(reason: string) {
    exists i :: 0 <= i < |DETERMINISTIC_REJECTIONS| && Contains(reason, DETERMINISTIC_REJECTIONS[i])
  }

  /** `contains`: the part stands somewhere in the text. */
  lemma ContainsExactly(text: string, part: string)
    ensures Contains(text, part) <==> exists before, after :: text == before + part + after
  {
    if Contains(text, part) {
      var i :| 0 <= i <= |text| && OccursAt(text, part, i);
      assert text == text[..i] + part + text[i + |part|..];
    }
    if exists before, after :: text == before + part + after {
      var before, after :| text == before + part + after;
      assert OccursAt(text, part, |before|);
    }
  }

  /** The node's and the runtime's own words that decide who is at fault. */
  lemma FaultsByWording(reason: string)
    ensures IsSignerContention(reason) <==>
      || Contains(reason, "finalization timed out") || Contains(reason, "Transaction is outdated")
      || Contains(reason, "Priority is too low") || Contains(reason, "priority of the transaction is too low")
      || Contains(reason, "too low priority") || Contains(reason, "Transaction Already Imported")
      || Contains(reason, "chainHead_follow emitted 'stop' event during transaction submission")
      || Contains(reason, "the connection was lost")
    ensures IsDeterministicRejection(reason) <==>
      || Contains(reason, "Resources::UsernameReservationTaken") || Contains(reason, "Resources::QueueFull")
      || Contains(reason, "Resources::AlreadyHasReservation")
    ensures SignersFault(reason) <==> Contains(reason, "Inability to pay some fees") || IsSignerContention(reason)
  {
    var c, d := SIGNER_CONTENTION, DETERMINISTIC_REJECTIONS;
    assert |c| == 6 && |d| == 3;
    assert c[0] == "Priority is too low" && c[1] == "priority of the transaction is too low" && c[2] == "too low priority";
    assert c[3] == "Transaction Already Imported" && c[5] == "the connection was lost";
    assert c[4] == "chainHead_follow emitted 'stop' event during transaction submission";
    assert d[0] == "Resources::UsernameReservationTaken" && d[1] == "Resources::QueueFull";
    assert d[2] == "Resources::AlreadyHasReservation";
  }

  function TerminalReason(reason: string): string {
    if IsDeterministicRejection(reason) then "rejected deterministically, not retried: " + reason
    else "max attempts reached: " + reason
  }

  function Settled(r: Claim, candidate: Account, observed: Option<Account>, reason: string, maxAttempts: int): Outcome {
    if observed == Some(candidate) || Contains(reason, ALREADY_REGISTERED) then Landed
    else if Contains(reason, UNFUNDED_SIGNER) then Park(reason)
    else if IsSignerContention(reason) then Defer(reason)
    else if IsDeterministicRejection(reason) || r.attempt + 1 >= maxAttempts then Failed(TerminalReason(reason))
    else Retry(reason)
  }

  // ---- Each row's verdict ----

  /** Rows that pass the offline gates. */
  function Gated(w: World, due: seq<Claim>): seq<Claim>
    requires forall r :: r in due ==> r.id in w.gates
  {
    if due == [] then []
    else (if w.gates[due[0].id].Pass? then [due[0]] else []) + Gated(w, due[1..])
  }

  /** Of those, the rows nobody owns yet: what the pass submits. */
  function Unowned(owners: map<string, Account>, rows: seq<Claim>): seq<Claim> {
    if rows == [] then []
    else (if rows[0].name !in owners then [rows[0]] else []) + Unowned(owners, rows[1..])
  }

  function Submittable(w: World, due: seq<Claim>): seq<Claim>
    requires forall r :: r in due ==> r.id in w.gates
  {
    if w.ctx.Err? || w.triageOwners.Err? then [] else Unowned(w.triageOwners.value, Gated(w, due))
  }

  predicate OwnedBy(owners: Owners, name: string, who: Account) {
    owners.Ok? && name in owners.value && owners.value[name] == who
  }

  function GateOutcome(gate: Gate): Outcome
    requires !gate.Pass?
  {
    match gate
    case GateFailed(reason) => Failed(reason)
    case GateExpired(reason) => Expired(reason)
    case GateNotYet(until, reason) => Defer(reason)
  }

  /** What the batched owner read says about a row somebody owns. */
  function OwnedOutcome(w: World, owners: map<string, Account>, r: Claim): Outcome
    requires r.id in w.gates && w.gates[r.id].Pass? && r.name in owners
  {
    if owners[r.name] == w.gates[r.id].candidate then Observed else Failed(w.lane.ownedElsewhere)
  }

  function OneOutcome(w: World, r: Claim): Outcome
    requires r.id in w.gates && w.gates[r.id].Pass?
  {
    if w.nonce.Err? then Retry(w.lane.nonceFetch + ": " + w.nonce.error)
    else if w.single.Ok? then Landed
    else Settled(r, w.gates[r.id].candidate, w.singleOwner, w.single.error, w.maxAttempts)
  }

  function Lookup(owners: Owners, name: string): Option<Account> {
    if owners.Ok? && name in owners.value then Some(owners.value[name]) else None
  }

  function ItemOutcome(w: World, r: Claim, item: Result<(), string>): Outcome
    requires r.id in w.gates && w.gates[r.id].Pass?
  {
    if item.Ok? then Landed
    else Settled(r, w.gates[r.id].candidate, Lookup(w.failedOwners, r.name), item.error, w.maxAttempts)
  }

  const MISMATCH := "batch item events did not match the calls submitted"

  /** A row of a batch whose items cannot be matched to calls. */
  function RereadOutcome(w: World, r: Claim): Outcome
    requires r.id in w.gates && w.gates[r.id].Pass?
  {
    if w.reconcileOwners.Err? then Defer(MISMATCH + "; owner read failed: " + w.reconcileOwners.error)
    else if OwnedBy(w.reconcileOwners, r.name, w.gates[r.id].candidate) then Landed
    else Defer(MISMATCH)
  }

  /** The item reported at the row's own position. */
  function ItemOf(rows: seq<Claim>, items: seq<Result<(), string>>, r: Claim): Result<(), string>
    requires |rows| == |items| && r in rows
  {
    if rows[0] == r then items[0] else ItemOf(rows[1..], items[1..], r)
  }

  function BatchOutcome(w: World, rows: seq<Claim>, r: Claim): Outcome
    requires r.id in w.gates && w.gates[r.id].Pass? && r in rows
  {
    if w.nonce.Err? then Defer(w.lane.nonceFetch + ": " + w.nonce.error)
    else if w.batch.Err? then Defer(w.batch.error)
    else if |w.batch.value| != |rows| then RereadOutcome(w, r)
    else ItemOutcome(w, r, ItemOf(rows, w.batch.value, r))
  }

  function Verdict(w: World, due: seq<Claim>, r: Claim): Outcome
    requires WellFormed(w, due) && r in due
  {
    if w.ctx.Err? then Defer("lane context read failed: " + w.ctx.error)
    else if !w.gates[r.id].Pass? then GateOutcome(w.gates[r.id])
    else if w.triageOwners.Err? then Defer("owner read failed: " + w.triageOwners.error)
    else if r.name in w.triageOwners.value then OwnedOutcome(w, w.triageOwners.value, r)
    else
      SubmittableProperties(w, due);
      var rows := Submittable(w, due);
      if |rows| == 1 then OneOutcome(w, r) else BatchOutcome(w, rows, r)
  }

  /** The rows marked as broadcasting, which happens before the extrinsic leaves: all of
      them when it was submitted, the first few when marking or signing broke off. */
  function Broadcast(w: World, rows: seq<Claim>): seq<Claim> {
    if rows == [] || w.nonce.Err? then []
    else
      var submitted := if |rows| == 1 then w.single.Ok? else w.batch.Ok?;
      if submitted || w.marked > |rows| then rows else rows[..w.marked]
  }

  /** Nothing is marked before the nonce is known; the rows of a submitted extrinsic are all
      marked; and otherwise the marks are the first rows, in order. */
  lemma BroadcastPrecedesSubmission(w: World, rows: seq<Claim>)
    ensures Broadcast(w, rows) <= rows
    ensures w.nonce.Err? ==> Broadcast(w, rows) == []
    ensures w.nonce.Ok? && (if |rows| == 1 then w.single.Ok? else w.batch.Ok?) ==> Broadcast(w, rows) == rows
    ensures w.nonce.Ok? && !(if |rows| == 1 then w.single.Ok? else w.batch.Ok?) ==>
      |Broadcast(w, rows)| == if w.marked < |rows| then w.marked else |rows|
  {
  }

  // ---- What the verdicts mean ----

  /** The batch reported one item per call, so positions can be trusted. */
  predicate ItemsLineUp(w: World, rows: seq<Claim>) {
    w.batch.Ok? && |w.batch.value| == |rows|
  }

  /** This row's own submission was made and failed, for this reason. */
  ghost predicate FailedItself(w: World, rows: seq<Claim>, r: Claim, reason: string) {
    w.nonce.Ok? &&
    (|| (rows == [r] && w.single == Err(reason))
     || (|rows| > 1 && ItemsLineUp(w, rows) && exists p :: 0 <= p < |rows| && rows[p] == r && w.batch.value[p] == Err(reason)))
  }

  /** The row's own item of the batch: reported as landed, or rejected while the read made
      for rejected items names its candidate. */
  ghost predicate ItemLanded(w: World, rows: seq<Claim>, r: Claim, candidate: Account) {
    && |rows| > 1 && ItemsLineUp(w, rows)
    && exists p :: 0 <= p < |rows| && rows[p] == r
                   && (w.batch.value[p].Ok? || OwnedBy(w.failedOwners, r.name, candidate))
  }

  /** The chain says the row landed, in an answer the pass did get: its own dispatch result
      or the owner read after its failure, its own item of a batch whose items line up, the
      read made because they do not, or the one rejection that means already registered. */
  ghost predicate ChainSaysLanded(w: World, rows: seq<Claim>, r: Claim, candidate: Account) {
    && w.nonce.Ok?
    && (|| (rows == [r] && (w.single.Ok? || w.singleOwner == Some(candidate)))
        || ItemLanded(w, rows, r, candidate)
        || (|rows| > 1 && r in rows && w.batch.Ok? && !ItemsLineUp(w, rows) && OwnedBy(w.reconcileOwners, r.name, candidate))
        || (exists reason :: FailedItself(w, rows, r, reason) && Contains(reason, ALREADY_REGISTERED)))
  }

  /** The row's own submission failed for this reason and the chain does not show it landed. */
  ghost predicate FailedUnlanded(w: World, rows: seq<Claim>, r: Claim, candidate: Account, reason: string) {
    FailedItself(w, rows, r, reason) && !ChainSaysLanded(w, rows, r, candidate)
  }

  /** The failure is the signer's: it cannot pay, or its nonce is contested. */
  predicate SignersFault(reason: string) {
    Contains(reason, UNFUNDED_SIGNER) || IsSignerContention(reason)
  }

  /** Another submission is pointless or not allowed. */
  predicate LastChance(w: World, r: Claim, reason: string) {
    IsDeterministicRejection(reason) || r.attempt + 1 >= w.maxAttempts
  }

  /** A terminal verdict is the row's own: a gate, another owner, or its own rejection that is
      neither the signer's fault nor worth another attempt. */
  ghost predicate RowAtFault(w: World, rows: seq<Claim>, r: Claim, reason: string)
    requires r.id in w.gates
  {
    || w.gates[r.id] == GateFailed(reason)
    || (&& w.gates[r.id].Pass? && w.triageOwners.Ok? && r.name in w.triageOwners.value
        && w.triageOwners.value[r.name] != w.gates[r.id].candidate && reason == w.lane.ownedElsewhere)
    || (exists why ::
          && w.gates[r.id].Pass? && FailedUnlanded(w, rows, r, w.gates[r.id].candidate, why)
          && !SignersFault(why) && LastChance(w, r, why) && reason == TerminalReason(why))
  }

  /** A whole-batch fault: nobody's row's. */
  ghost predicate BatchAtFault(w: World, rows: seq<Claim>, r: Claim, candidate: Account, reason: string) {
    && |rows| > 1 && r in rows
    && (|| (w.nonce.Err? && reason == w.lane.nonceFetch + ": " + w.nonce.error)
        || (w.nonce.Ok? && w.batch == Err(reason))
        || (&& w.nonce.Ok? && w.batch.Ok? && !ItemsLineUp(w, rows) && !OwnedBy(w.reconcileOwners, r.name, candidate)
            && reason == MISMATCH + (if w.reconcileOwners.Err? then "; owner read failed: " + w.reconcileOwners.error else "")))
  }

  /** The row is the only one to submit and the signer's nonce could not be read. */
  predicate AloneWithoutNonce(w: World, rows: seq<Claim>, r: Claim) {
    rows == [r] && w.nonce.Err?
  }

  /** What must be true of the world for a row to get an outcome, and suffices for it. */
  ghost predicate Justified(w: World, due: seq<Claim>, r: Claim, outcome: Outcome)
    requires (forall c :: c in due ==> c.id in w.gates) && r.id in w.gates
  {
    var rows, gate := Submittable(w, due), w.gates[r.id];
    if w.ctx.Err? then outcome == Defer("lane context read failed: " + w.ctx.error)
    else
      match outcome
      case Landed => gate.Pass? && ChainSaysLanded(w, rows, r, gate.candidate)
      case Observed => gate.Pass? && OwnedBy(w.triageOwners, r.name, gate.candidate)
      case Failed(reason) => RowAtFault(w, rows, r, reason)
      case Expired(reason) => gate == GateExpired(reason)
      case Park(reason) =>
        gate.Pass? && FailedUnlanded(w, rows, r, gate.candidate, reason) && Contains(reason, UNFUNDED_SIGNER)
      case Retry(reason) =>
        || (AloneWithoutNonce(w, rows, r) && reason == w.lane.nonceFetch + ": " + w.nonce.error)
        || (&& gate.Pass? && FailedUnlanded(w, rows, r, gate.candidate, reason)
            && !SignersFault(reason) && !LastChance(w, r, reason))
      case Defer(reason) =>
        || (gate.GateNotYet? && reason == gate.reason)
        || (gate.Pass? && w.triageOwners.Err? && reason == "owner read failed: " + w.triageOwners.error)
        || (gate.Pass? && BatchAtFault(w, rows, r, gate.candidate, reason))
        || (&& gate.Pass? && FailedUnlanded(w, rows, r, gate.candidate, reason)
            && !Contains(reason, UNFUNDED_SIGNER) && IsSignerContention(reason))
  }

  lemma {:induction false} ItemIsPositional(rows: seq<Claim>, items: seq<Result<(), string>>, r: Claim) returns (p: nat)
    requires |rows| == |items| && r in rows
    ensures p < |rows| && rows[p] == r && ItemOf(rows, items, r) == items[p]
  {
    if rows[0] == r {
      p := 0;
    } else {
      var q := ItemIsPositional(rows[1..], items[1..], r);
      p := q + 1;
    }
  }

  /** What the chain says of a row that was not submitted: nothing. */
  lemma UnsubmittedIsSilent(w: World, rows: seq<Claim>, r: Claim, candidate: Account)
    requires r !in rows
    ensures forall reason :: !FailedItself(w, rows, r, reason)
    ensures !ChainSaysLanded(w, rows, r, candidate) && !AloneWithoutNonce(w, rows, r)
  {
  }

  lemma GateIsExact(w: World, due: seq<Claim>, r: Claim, outcome: Outcome)
    requires WellFormed(w, due) && r in due && r !in Submittable(w, due) && (w.ctx.Err? || !w.gates[r.id].Pass?)
    ensures Verdict(w, due, r) == outcome <==> Justified(w, due, r, outcome)
  {
    UnsubmittedIsSilent(w, Submittable(w, due), r, 0);
  }

  lemma OwnersAreExact(w: World, due: seq<Claim>, r: Claim, outcome: Outcome)
    requires WellFormed(w, due) && r in due && r !in Submittable(w, due) && w.ctx.Ok? && w.gates[r.id].Pass?
    requires w.triageOwners.Ok? ==> r.name in w.triageOwners.value
    ensures Verdict(w, due, r) == outcome <==> Justified(w, due, r, outcome)
  {
    UnsubmittedIsSilent(w, Submittable(w, due), r, w.gates[r.id].candidate);
  }

  lemma TriageIsExact(w: World, due: seq<Claim>, r: Claim, outcome: Outcome)
    requires WellFormed(w, due) && r in due && r !in Submittable(w, due)
    ensures Verdict(w, due, r) == outcome <==> Justified(w, due, r, outcome)
  {
    SubmittableProperties(w, due);
    if w.ctx.Err? || !w.gates[r.id].Pass? {
      GateIsExact(w, due, r, outcome);
    } else {
      OwnersAreExact(w, due, r, outcome);
    }
  }

  /** The row reached its own submission: it is past the gates and nobody owned its name. */
  ghost predicate Submitted(w: World, due: seq<Claim>, r: Claim)
    requires forall c :: c in due ==> c.id in w.gates
  {
    && w.ctx.Ok? && w.nonce.Ok? && r.id in w.gates && w.gates[r.id].Pass?
    && w.triageOwners.Ok? && r.name !in w.triageOwners.value
    && (|Submittable(w, due)| > 1 ==> ItemsLineUp(w, Submittable(w, due)))
  }

  /** A submission that failed for a reason, and for no other. */
  lemma FailureIsExact(w: World, due: seq<Claim>, r: Claim, observed: Option<Account>, reason: string, outcome: Outcome)
    requires WellFormed(w, due) && Submitted(w, due, r)
    requires forall x :: FailedItself(w, Submittable(w, due), r, x) <==> x == reason
    requires ChainSaysLanded(w, Submittable(w, due), r, w.gates[r.id].candidate) <==>
      observed == Some(w.gates[r.id].candidate) || Contains(reason, ALREADY_REGISTERED)
    ensures Settled(r, w.gates[r.id].candidate, observed, reason, w.maxAttempts) == outcome <==> Justified(w, due, r, outcome)
  {
    assert FailedItself(w, Submittable(w, due), r, reason);
  }

  /** A submission that did not fail. */
  lemma LandingIsExact(w: World, due: seq<Claim>, r: Claim, outcome: Outcome)
    requires WellFormed(w, due) && Submitted(w, due, r)
    requires forall x :: !FailedItself(w, Submittable(w, due), r, x)
    requires ChainSaysLanded(w, Submittable(w, due), r, w.gates[r.id].candidate)
    ensures Landed == outcome <==> Justified(w, due, r, outcome)
  {
  }

  lemma OneIsExact(w: World, due: seq<Claim>, r: Claim, outcome: Outcome)
    requires WellFormed(w, due) && r in due && w.ctx.Ok? && w.gates[r.id].Pass? && Submittable(w, due) == [r]
    ensures OneOutcome(w, r) == outcome <==> Justified(w, due, r, outcome)
  {
    SubmittableProperties(w, due);
    assert r in Submittable(w, due);
    if w.nonce.Ok? && w.single.Err? {
      assert FailedItself(w, [r], r, w.single.error);
      FailureIsExact(w, due, r, w.singleOwner, w.single.error, outcome);
    } else if w.nonce.Ok? {
      LandingIsExact(w, due, r, outcome);
    }
  }

  /** What an item at position `p` says, and no other item does. */
  lemma ItemSpeaks(w: World, rows: seq<Claim>, p: nat, candidate: Account)
    requires Distinct(rows) && p < |rows| && |rows| > 1 && w.nonce.Ok? && ItemsLineUp(w, rows)
    ensures forall reason :: FailedItself(w, rows, rows[p], reason) <==> w.batch.value[p] == Err(reason)
    ensures ChainSaysLanded(w, rows, rows[p], candidate) <==>
      || w.batch.value[p].Ok? || OwnedBy(w.failedOwners, rows[p].name, candidate)
      || Contains(w.batch.value[p].error, ALREADY_REGISTERED)
  {
    forall q | 0 <= q < |rows| && rows[q] == rows[p] ensures q == p {}
    if w.batch.value[p].Err? {
      assert FailedItself(w, rows, rows[p], w.batch.value[p].error);
    }
  }

  lemma ItemIsExact(w: World, due: seq<Claim>, p: nat, outcome: Outcome)
    requires WellFormed(w, due) && p < |Submittable(w, due)| && |Submittable(w, due)| > 1
    requires Submitted(w, due, Submittable(w, due)[p])
    ensures var r := Submittable(w, due)[p]; ItemOutcome(w, r, w.batch.value[p]) == outcome <==> Justified(w, due, r, outcome)
  {
    SubmittableProperties(w, due);
    var r := Submittable(w, due)[p];
    ItemSpeaks(w, Submittable(w, due), p, w.gates[r.id].candidate);
    if w.batch.value[p].Err? {
      FailureIsExact(w, due, r, Lookup(w.failedOwners, r.name), w.batch.value[p].error, outcome);
    } else {
      LandingIsExact(w, due, r, outcome);
    }
  }

  /** What a batch whose items cannot be used says: nothing, but for the read made instead. */
  lemma BatchSpeaks(w: World, rows: seq<Claim>, r: Claim, candidate: Account)
    requires |rows| > 1 && r in rows && !(w.nonce.Ok? && ItemsLineUp(w, rows))
    ensures forall reason :: !FailedItself(w, rows, r, reason)
    ensures ChainSaysLanded(w, rows, r, candidate) <==> w.nonce.Ok? && w.batch.Ok? && OwnedBy(w.reconcileOwners, r.name, candidate)
    ensures !AloneWithoutNonce(w, rows, r)
  {
  }

  lemma WholeBatchIsExact(w: World, due: seq<Claim>, r: Claim, outcome: Outcome)
    requires WellFormed(w, due) && w.ctx.Ok? && w.triageOwners.Ok? && r.id in w.gates && w.gates[r.id].Pass?
    requires r.name !in w.triageOwners.value && r in Submittable(w, due) && |Submittable(w, due)| > 1
    requires !(w.nonce.Ok? && ItemsLineUp(w, Submittable(w, due)))
    ensures BatchOutcome(w, Submittable(w, due), r) == outcome <==> Justified(w, due, r, outcome)
  {
    BatchSpeaks(w, Submittable(w, due), r, w.gates[r.id].candidate);
  }

  lemma BatchIsExact(w: World, due: seq<Claim>, r: Claim, outcome: Outcome)
    requires WellFormed(w, due) && r.id in w.gates && w.gates[r.id].Pass?
    requires r in Submittable(w, due) && |Submittable(w, due)| > 1
    ensures BatchOutcome(w, Submittable(w, due), r) == outcome <==> Justified(w, due, r, outcome)
  {
    SubmittableProperties(w, due);
    if w.nonce.Ok? && ItemsLineUp(w, Submittable(w, due)) {
      var p := ItemIsPositional(Submittable(w, due), w.batch.value, r);
      ItemIsExact(w, due, p, outcome);
    } else {
      WholeBatchIsExact(w, due, r, outcome);
    }
  }

  /** Exactly which outcome each row gets: landed if and only if the chain says so, failed if
      and only if it is at fault itself, parked or deferred if and only if the fault is the
      signer's, a read's or the whole batch's, and retried, which spends an attempt, in the
      remaining failures of its own and when it was alone and the nonce could not be read. */
  lemma VerdictsAreJustified(w: World, due: seq<Claim>, r: Claim, outcome: Outcome)
    requires WellFormed(w, due) && r in due
    ensures Verdict(w, due, r) == outcome <==> Justified(w, due, r, outcome)
  {
    SubmittableProperties(w, due);
    var rows := Submittable(w, due);
    if r !in rows {
      TriageIsExact(w, due, r, outcome);
    } else if |rows| == 1 {
      assert rows == [r];
      OneIsExact(w, due, r, outcome);
    } else {
      BatchIsExact(w, due, r, outcome);
    }
  }

  /** Exactly when a row is charged for something it did not do: it is retried, which spends
      an attempt, without a failed submission of its own if and only if it is the only row
      to submit and the nonce could not be read. */
  lemma ChargedWithoutFailing(w: World, due: seq<Claim>, r: Claim)
    requires WellFormed(w, due) && r in due
    ensures var v := Verdict(w, due, r);
      v.Retry? && !FailedItself(w, Submittable(w, due), r, v.reason) <==> AloneWithoutNonce(w, Submittable(w, due), r)
  {
    SubmittableProperties(w, due);
    VerdictsAreJustified(w, due, r, Verdict(w, due, r));
    if AloneWithoutNonce(w, Submittable(w, due), r) {
      assert r in Submittable(w, due);
    }
  }

  // ---- The log's discipline ----

  ghost function Records(log: seq<Entry>): set<Claim> {
    set i | 0 <= i < |log| && log[i].Recorded? :: log[i].row
  }

  ghost function Marks(log: seq<Entry>): set<Claim> {
    set i | 0 <= i < |log| && log[i].Broadcasting? :: log[i].row
  }

  /** Every record is its row's verdict, nothing is written about a row after its record,
      the rows without one are `open`, and those in `marks` have been marked. */
  ghost predicate Clean(v: map<Claim, Outcome>, marks: set<Claim>, log: seq<Entry>, open: set<Claim>) {
    && (forall i :: 0 <= i < |log| ==> log[i].row in v && (log[i].Recorded? ==> log[i].outcome == v[log[i].row]))
    && (forall i, j :: 0 <= i < j < |log| && log[i].Recorded? ==> log[i].row != log[j].row)
    && Records(log) !! open && Records(log) + open == v.Keys
    && Marks(log) == marks
  }

  /** Each row of `rows` is written about until it is recorded, at most once, and no other
      row is. */
  predicate Settles(rows: seq<Claim>, log: seq<Entry>) {
    && (forall i :: 0 <= i < |log| ==> log[i].row in rows)
    && (forall i, j :: 0 <= i < j < |log| && log[i].Recorded? ==> log[i].row.id != log[j].row.id)
  }

  predicate UniqueIds(rows: seq<Claim>) {
    forall i, j :: 0 <= i < j < |rows| ==> rows[i].id != rows[j].id
  }

  ghost predicate WellFormed(w: World, due: seq<Claim>) {
    && (forall r :: r in due ==> r.id in w.gates)
    && UniqueIds(due)
  }

  ghost function Rows(rows: seq<Claim>): set<Claim> {
    set r | r in rows
  }

  ghost predicate Distinct(rows: seq<Claim>) {
    forall i, j :: 0 <= i < j < |rows| ==> rows[i] != rows[j]
  }

  lemma OneMore(log: seq<Entry>, e: Entry)
    ensures Records(log + [e]) == Records(log) + (if e.Recorded? then {e.row} else {})
    ensures Marks(log + [e]) == Marks(log) + (if e.Broadcasting? then {e.row} else {})
  {
    var log' := log + [e];
    assert log'[|log|] == e;
    forall i | 0 <= i < |log| ensures log'[i] == log[i] {}
    forall r | r in Records(log) ensures r in Records(log') {
      var i :| 0 <= i < |log| && log[i].Recorded? && log[i].row == r;
      assert log'[i].Recorded? && log'[i].row == r;
    }
    forall r | r in Marks(log) ensures r in Marks(log') {
      var i :| 0 <= i < |log| && log[i].Broadcasting? && log[i].row == r;
      assert log'[i].Broadcasting? && log'[i].row == r;
    }
  }

  lemma AppendRecord(v: map<Claim, Outcome>, marks: set<Claim>, log: seq<Entry>, open: set<Claim>, r: Claim)
    requires Clean(v, marks, log, open) && r in open && r in v
    ensures Clean(v, marks, log + [Recorded(r, v[r])], open - {r})
  {
    OneMore(log, Recorded(r, v[r]));
    forall i | 0 <= i < |log| && log[i].Recorded? ensures log[i].row != r {
      assert log[i].row in Records(log);
    }
  }

  lemma AppendMark(v: map<Claim, Outcome>, marks: set<Claim>, log: seq<Entry>, open: set<Claim>, r: Claim)
    requires Clean(v, marks, log, open) && r in open && r in v
    ensures Clean(v, marks + {r}, log + [Broadcasting(r)], open)
  {
    OneMore(log, Broadcasting(r));
    forall i | 0 <= i < |log| && log[i].Recorded? ensures log[i].row != r {
      assert log[i].row in Records(log);
    }
  }

  /** The tail still to settle after the first row of `rows` is settled. */
  lemma RestOpen(rows: seq<Claim>, k: nat)
    requires k < |rows| && Distinct(rows)
    ensures rows[k] in Rows(rows[k..]) && rows[k] !in Rows(rows[k + 1..])
    ensures Rows(rows[k..]) == {rows[k]} + Rows(rows[k + 1..])
  {
    assert rows[k..] == [rows[k]] + rows[k + 1..];
  }

  /** `kept` holds some of the first `k` rows: keep row `k` too, or settle it. */
  lemma KeepOrSettle(rows: seq<Claim>, k: nat, kept: seq<Claim>)
    requires k < |rows| && Distinct(rows) && Rows(kept) !! Rows(rows[k..])
    ensures Rows(kept + [rows[k]]) + Rows(rows[k + 1..]) == Rows(kept) + Rows(rows[k..])
    ensures Rows(kept + [rows[k]]) !! Rows(rows[k + 1..]) && Rows(kept) !! Rows(rows[k + 1..])
    ensures rows[k] in Rows(kept) + Rows(rows[k..])
    ensures Rows(kept) + Rows(rows[k..]) - {rows[k]} == Rows(kept) + Rows(rows[k + 1..])
  {
    RestOpen(rows, k);
  }

  lemma {:induction false} GatedProperties(w: World, due: seq<Claim>)
    requires WellFormed(w, due)
    ensures Distinct(Gated(w, due)) && Distinct(due)
    ensures forall r :: r in Gated(w, due) <==> r in due && w.gates[r.id].Pass?
  {
    if due != [] {
      GatedProperties(w, due[1..]);
      assert forall r :: r in due <==> r == due[0] || r in due[1..];
      assert due[0] !in due[1..];
    }
  }

  lemma {:induction false} UnownedProperties(owners: map<string, Account>, rows: seq<Claim>)
    requires Distinct(rows)
    ensures Distinct(Unowned(owners, rows))
    ensures forall r :: r in Unowned(owners, rows) <==> r in rows && r.name !in owners
  {
    if rows != [] {
      UnownedProperties(owners, rows[1..]);
      assert forall r :: r in rows <==> r == rows[0] || r in rows[1..];
      assert rows[0] !in rows[1..];
    }
  }

  lemma SubmittableProperties(w: World, due: seq<Claim>)
    requires WellFormed(w, due)
    ensures Distinct(Submittable(w, due))
    ensures forall r :: r in Submittable(w, due) <==>
      w.ctx.Ok? && r in due && w.gates[r.id].Pass? && w.triageOwners.Ok? && r.name !in w.triageOwners.value
  {
    GatedProperties(w, due);
    if w.triageOwners.Ok? {
      UnownedProperties(w.triageOwners.value, Gated(w, due));
    }
  }

  /** `part` is what is left of `whole` when some rows are struck out. */
  predicate InOrder(part: seq<Claim>, whole: seq<Claim>)
    decreases whole
  {
    || part == []
    || (whole != [] && ((part[0] == whole[0] && InOrder(part[1..], whole[1..])) || InOrder(part, whole[1..])))
  }

  lemma {:induction false} InOrderTransitive(a: seq<Claim>, b: seq<Claim>, c: seq<Claim>)
    requires InOrder(a, b) && InOrder(b, c)
    ensures InOrder(a, c)
    decreases c
  {
    if a != [] && b != [] {
      if b[0] == c[0] && InOrder(b[1..], c[1..]) {
        if a[0] == b[0] && InOrder(a[1..], b[1..]) {
          InOrderTransitive(a[1..], b[1..], c[1..]);
        } else {
          InOrderTransitive(a, b[1..], c[1..]);
        }
      } else {
        InOrderTransitive(a, b, c[1..]);
      }
    }
  }

  lemma {:induction false} GatedInOrder(w: World, due: seq<Claim>)
    requires forall r :: r in due ==> r.id in w.gates
    ensures InOrder(Gated(w, due), due)
  {
    if due != [] {
      GatedInOrder(w, due[1..]);
      var rest := Gated(w, due[1..]);
      assert ([due[0]] + rest)[1..] == rest && [] + rest == rest;
    }
  }

  lemma {:induction false} UnownedInOrder(owners: map<string, Account>, rows: seq<Claim>)
    ensures InOrder(Unowned(owners, rows), rows)
  {
    if rows != [] {
      UnownedInOrder(owners, rows[1..]);
      var rest := Unowned(owners, rows[1..]);
      assert ([rows[0]] + rest)[1..] == rest && [] + rest == rest;
    }
  }

  /** The rows that are submitted keep the order they were claimed in. */
  lemma SubmittableInOrder(w: World, due: seq<Claim>)
    requires forall r :: r in due ==> r.id in w.gates
    ensures InOrder(Submittable(w, due), due)
  {
    if w.ctx.Ok? && w.triageOwners.Ok? {
      GatedInOrder(w, due);
      UnownedInOrder(w.triageOwners.value, Gated(w, due));
      InOrderTransitive(Submittable(w, due), Gated(w, due), due);
    }
  }

  lemma GatedSnoc(w: World, due: seq<Claim>, k: nat)
    requires forall r :: r in due ==> r.id in w.gates
    requires k < |due|
    ensures Gated(w, due[..k + 1]) == Gated(w, due[..k]) + (if w.gates[due[k].id].Pass? then [due[k]] else [])
    decreases k
  {
    if k > 0 {
      var tail := due[1..];
      GatedSnoc(w, tail, k - 1);
      assert due[..k + 1][1..] == tail[..k] && due[..k][1..] == tail[..k - 1];
    }
  }

  lemma UnownedSnoc(owners: map<string, Account>, rows: seq<Claim>, k: nat)
    requires k < |rows|
    ensures Unowned(owners, rows[..k + 1]) == Unowned(owners, rows[..k]) + (if rows[k].name !in owners then [rows[k]] else [])
    decreases k
  {
    if k > 0 {
      var tail := rows[1..];
      UnownedSnoc(owners, tail, k - 1);
      assert rows[..k + 1][1..] == tail[..k] && rows[..k][1..] == tail[..k - 1];
    }
  }

  // ---- The pass ----

  /** Defer a whole set at an unchanged attempt: nobody's row is at fault. */
  method DeferAll(ghost v: map<Claim, Outcome>, ghost marks: set<Claim>, log0: seq<Entry>, rows: seq<Claim>, reason: string)
    returns (log: seq<Entry>)
    requires Distinct(rows) && Clean(v, marks, log0, Rows(rows))
    requires forall r :: r in rows ==> r in v && v[r] == Defer(reason)
    ensures Clean(v, marks, log, {})
  {
    log := log0;
    assert rows[0..] == rows;
    for k := 0 to |rows|
      invariant Clean(v, marks, log, Rows(rows[k..]))
    {
      RestOpen(rows, k);
      AppendRecord(v, marks, log, Rows(rows[k..]), rows[k]);
      log := log + [Recorded(rows[k], Defer(reason))];
      assert Rows(rows[k..]) - {rows[k]} == Rows(rows[k + 1..]);
    }
  }

  /** The offline gates, row by row. */
  method RunGates(w: World, due: seq<Claim>, ghost v: map<Claim, Outcome>) returns (log: seq<Entry>, gated: seq<Claim>)
    requires WellFormed(w, due) && Distinct(due) && v.Keys == Rows(due)
    requires forall r :: r in due && !w.gates[r.id].Pass? ==> v[r] == GateOutcome(w.gates[r.id])
    ensures gated == Gated(w, due)
    ensures Clean(v, {}, log, Rows(gated))
  {
    log, gated := [], [];
    assert due[0..] == due;
    for k := 0 to |due|
      invariant gated == Gated(w, due[..k]) && Rows(gated) !! Rows(due[k..])
      invariant Clean(v, {}, log, Rows(gated) + Rows(due[k..]))
    {
      var r := due[k];
      KeepOrSettle(due, k, gated);
      GatedSnoc(w, due, k);
      var gate := w.gates[r.id];
      if gate.Pass? {
        gated := gated + [r];
      } else {
        AppendRecord(v, {}, log, Rows(gated) + Rows(due[k..]), r);
        log := log + [Recorded(r, GateOutcome(gate))];
      }
    }
    assert due[..|due|] == due;
    assert Rows(gated) + Rows(due[|due|..]) == Rows(gated);
  }

  /** Split the gated rows by the one batched owner read. */
  method ApplyOwners(w: World, owners: map<string, Account>, ghost v: map<Claim, Outcome>, log0: seq<Entry>, gated: seq<Claim>)
    returns (log: seq<Entry>, rows: seq<Claim>)
    requires Distinct(gated) && Clean(v, {}, log0, Rows(gated))
    requires forall r :: r in gated ==> r in v && r.id in w.gates && w.gates[r.id].Pass?
    requires forall r :: r in gated && r.name in owners ==> v[r] == OwnedOutcome(w, owners, r)
    ensures rows == Unowned(owners, gated)
    ensures Clean(v, {}, log, Rows(rows))
  {
    log, rows := log0, [];
    assert gated[0..] == gated;
    for k := 0 to |gated|
      invariant rows == Unowned(owners, gated[..k]) && Rows(rows) !! Rows(gated[k..])
      invariant Clean(v, {}, log, Rows(rows) + Rows(gated[k..]))
    {
      var r := gated[k];
      KeepOrSettle(gated, k, rows);
      UnownedSnoc(owners, gated, k);
      if r.name !in owners {
        rows := rows + [r];
      } else {
        AppendRecord(v, {}, log, Rows(rows) + Rows(gated[k..]), r);
        log := log + [Recorded(r, OwnedOutcome(w, owners, r))];
      }
    }
    assert gated[..|gated|] == gated;
    assert Rows(rows) + Rows(gated[|gated|..]) == Rows(rows);
  }

  /** Mark the first `n` rows of the batch before it is broadcast. */
  method MarkBatch(ghost v: map<Claim, Outcome>, log0: seq<Entry>, rows: seq<Claim>, n: nat) returns (log: seq<Entry>)
    requires n <= |rows| && Clean(v, {}, log0, Rows(rows)) && Rows(rows) <= v.Keys
    ensures Clean(v, Rows(rows[..n]), log, Rows(rows))
  {
    log := log0;
    for k := 0 to n
      invariant Clean(v, Rows(rows[..k]), log, Rows(rows))
    {
      assert rows[k] in Rows(rows);
      AppendMark(v, Rows(rows[..k]), log, Rows(rows), rows[k]);
      log := log + [Broadcasting(rows[k])];
      assert rows[..k + 1] == rows[..k] + [rows[k]];
      assert Rows(rows[..k]) + {rows[k]} == Rows(rows[..k + 1]);
    }
  }

  /** One outcome per row of a settled batch, each from the row's own item. */
  method ApplyItems(w: World, ghost v: map<Claim, Outcome>, ghost marks: set<Claim>, log0: seq<Entry>,
      rows: seq<Claim>, items: seq<Result<(), string>>)
    returns (log: seq<Entry>)
    requires Distinct(rows) && Clean(v, marks, log0, Rows(rows)) && |items| == |rows|
    requires forall r :: r in rows ==> r in v && r.id in w.gates && w.gates[r.id].Pass?
    requires forall k :: 0 <= k < |rows| ==> v[rows[k]] == ItemOutcome(w, rows[k], items[k])
    ensures Clean(v, marks, log, {})
  {
    log := log0;
    assert rows[0..] == rows;
    for k := 0 to |rows|
      invariant Clean(v, marks, log, Rows(rows[k..]))
    {
      var r := rows[k];
      RestOpen(rows, k);
      AppendRecord(v, marks, log, Rows(rows[k..]), r);
      log := log + [Recorded(r, ItemOutcome(w, r, items[k]))];
      assert Rows(rows[k..]) - {r} == Rows(rows[k + 1..]);
    }
  }

  /** The item count did not match: believe chain state alone. */
  method ReconcileBatch(w: World, ghost v: map<Claim, Outcome>, ghost marks: set<Claim>, log0: seq<Entry>, rows: seq<Claim>)
    returns (log: seq<Entry>)
    requires Distinct(rows) && Clean(v, marks, log0, Rows(rows))
    requires forall r :: r in rows ==> r in v && r.id in w.gates && w.gates[r.id].Pass? && v[r] == RereadOutcome(w, r)
    ensures Clean(v, marks, log, {})
  {
    if w.reconcileOwners.Err? {
      log := DeferAll(v, marks, log0, rows, MISMATCH + "; owner read failed: " + w.reconcileOwners.error);
      return;
    }
    var unlanded;
    log, unlanded := RecordLanded(w, v, marks, log0, rows);
    log := DeferAll(v, marks, log, unlanded, MISMATCH);
  }

  /** Record the rows the chain shows as their candidate's, and return the others. */
  method RecordLanded(w: World, ghost v: map<Claim, Outcome>, ghost marks: set<Claim>, log0: seq<Entry>, rows: seq<Claim>)
    returns (log: seq<Entry>, unlanded: seq<Claim>)
    requires Distinct(rows) && Clean(v, marks, log0, Rows(rows)) && w.reconcileOwners.Ok?
    requires forall r :: r in rows ==> r in v && r.id in w.gates && w.gates[r.id].Pass? && v[r] == RereadOutcome(w, r)
    ensures Distinct(unlanded) && Clean(v, marks, log, Rows(unlanded))
    ensures forall r :: r in unlanded ==> r in rows && v[r] == Defer(MISMATCH)
  {
    log, unlanded := log0, [];
    assert rows[0..] == rows;
    for k := 0 to |rows|
      invariant Distinct(unlanded) && Rows(unlanded) !! Rows(rows[k..])
      invariant forall r :: r in unlanded ==> r in rows && v[r] == Defer(MISMATCH)
      invariant Clean(v, marks, log, Rows(unlanded) + Rows(rows[k..]))
    {
      var r := rows[k];
      KeepOrSettle(rows, k, unlanded);
      if OwnedBy(w.reconcileOwners, r.name, w.gates[r.id].candidate) {
        AppendRecord(v, marks, log, Rows(unlanded) + Rows(rows[k..]), r);
        log := log + [Recorded(r, Landed)];
      } else {
        assert r in Rows(rows[k..]);
        unlanded := unlanded + [r];
      }
    }
    assert Rows(unlanded) + Rows(rows[|rows|..]) == Rows(unlanded);
  }

  /** Submit the one row left on its own. */
  method SubmitOne(w: World, ghost v: map<Claim, Outcome>, log0: seq<Entry>, r: Claim) returns (log: seq<Entry>)
    requires Clean(v, {}, log0, {r}) && r in v && r.id in w.gates && w.gates[r.id].Pass? && v[r] == OneOutcome(w, r)
    ensures Clean(v, Rows(Broadcast(w, [r])), log, {})
  {
    log := log0;
    ghost var marks: set<Claim> := {};
    var outcome;
    if w.nonce.Err? {
      outcome := Retry(w.lane.nonceFetch + ": " + w.nonce.error);
    } else {
      if w.single.Ok? || w.marked > 0 {
        AppendMark(v, {}, log, {r}, r);
        log, marks := log + [Broadcasting(r)], {r};
      }
      if w.single.Ok? {
        outcome := Landed;
      } else {
        outcome := Settled(r, w.gates[r.id].candidate, w.singleOwner, w.single.error, w.maxAttempts);
      }
    }
    AppendRecord(v, marks, log, {r}, r);
    log := log + [Recorded(r, outcome)];
    assert {r} - {r} == {} && {} + {r} == {r};
    assert Rows([r]) == {r} && [r][..0] == [] && [r][..1] == [r];
  }

  lemma {:induction false} ItemAt(rows: seq<Claim>, items: seq<Result<(), string>>, k: nat)
    requires |rows| == |items| && k < |rows| && Distinct(rows)
    ensures ItemOf(rows, items, rows[k]) == items[k]
  {
    if k > 0 {
      ItemAt(rows[1..], items[1..], k - 1);
    }
  }

  /** Submit several rows as one extrinsic. */
  method SubmitBatch(w: World, ghost v: map<Claim, Outcome>, log0: seq<Entry>, rows: seq<Claim>) returns (log: seq<Entry>)
    requires Distinct(rows) && Clean(v, {}, log0, Rows(rows)) && |rows| > 1
    requires forall r :: r in rows ==> r in v && r.id in w.gates && w.gates[r.id].Pass? && v[r] == BatchOutcome(w, rows, r)
    ensures Clean(v, Rows(Broadcast(w, rows)), log, {})
  {
    if w.nonce.Err? {
      log := DeferAll(v, {}, log0, rows, w.lane.nonceFetch + ": " + w.nonce.error);
      return;
    }
    var n := if w.batch.Ok? || w.marked > |rows| then |rows| else w.marked;
    log := MarkBatch(v, log0, rows, n);
    assert rows[..|rows|] == rows;
    ghost var marks := Rows(Broadcast(w, rows));
    if w.batch.Err? {
      log := DeferAll(v, marks, log, rows, w.batch.error);
    } else if |w.batch.value| != |rows| {
      log := ReconcileBatch(w, v, marks, log, rows);
    } else {
      forall k | 0 <= k < |rows| ensures v[rows[k]] == ItemOutcome(w, rows[k], w.batch.value[k]) {
        ItemAt(rows, w.batch.value, k);
      }
      log := ApplyItems(w, v, marks, log, rows, w.batch.value);
    }
  }

  /**
    A whole pass. Every claimed row is recorded exactly once, with its verdict, and
    nothing is written about it afterwards; the rows marked as broadcasting are those of
    the extrinsic, and are marked before they are recorded.
   */
  method DrainPass(w: World, due: seq<Claim>) returns (log: seq<Entry>)
    requires WellFormed(w, due)
    ensures Settles(due, log)
    ensures forall r :: r in due ==> exists i :: 0 <= i < |log| && log[i] == Recorded(r, Verdict(w, due, r))
    ensures Marks(log) == Rows(Broadcast(w, Submittable(w, due)))
  {
    ghost var v := map r | r in due :: Verdict(w, due, r);
    assert v.Keys == Rows(due);
    GatedProperties(w, due);
    SubmittableProperties(w, due);
    if w.ctx.Err? {
      log := DeferAll(v, {}, [], due, "lane context read failed: " + w.ctx.error);
    } else {
      var gated;
      log, gated := RunGates(w, due, v);
      if w.triageOwners.Err? {
        log := DeferAll(v, {}, log, gated, "owner read failed: " + w.triageOwners.error);
      } else {
        var rows;
        log, rows := ApplyOwners(w, w.triageOwners.value, v, log, gated);
        log := Submit(w, v, log, rows);
      }
    }
    CleanMeansSettledOnce(w, due, v, log);
  }

  /** Nothing, a bare call, or a batch. */
  method Submit(w: World, ghost v: map<Claim, Outcome>, log0: seq<Entry>, rows: seq<Claim>) returns (log: seq<Entry>)
    requires Distinct(rows) && Clean(v, {}, log0, Rows(rows))
    requires forall r :: r in rows ==> r in v && r.id in w.gates && w.gates[r.id].Pass?
    requires forall r :: r in rows ==> v[r] == if |rows| == 1 then OneOutcome(w, r) else BatchOutcome(w, rows, r)
    ensures Clean(v, Rows(Broadcast(w, rows)), log, {})
  {
    match |rows| {
      case 0 =>
        log := log0;
        assert Rows(rows) == {} && Rows(Broadcast(w, rows)) == {};
      case 1 =>
        assert rows == [rows[0]] && Rows(rows) == {rows[0]};
        log := SubmitOne(w, v, log0, rows[0]);
      case _ =>
        log := SubmitBatch(w, v, log0, rows);
    }
  }

  lemma CleanMeansSettledOnce(w: World, due: seq<Claim>, v: map<Claim, Outcome>, log: seq<Entry>)
    requires WellFormed(w, due) && v.Keys == Rows(due) && Clean(v, Marks(log), log, {})
    ensures Settles(due, log)
    ensures forall r :: r in due ==> exists i :: 0 <= i < |log| && log[i] == Recorded(r, v[r])
  {
    forall i, j | 0 <= i < j < |log| && log[i].Recorded? ensures log[i].row.id != log[j].row.id {
      assert log[i].row in v && log[j].row in v;
    }
    forall r | r in due ensures exists i :: 0 <= i < |log| && log[i] == Recorded(r, v[r]) {
      assert r in Records(log);
    }
  }

  // ---- Startup reconcile: rows a previous writer left SUBMITTING ----

  const RECONCILE_READ_CHUNK: nat := 50

  const UNPARSED := Failed("invalid candidate SS58")

  /** The stuck rows whose candidate does, or does not, parse. */
  function Parsed(candidates: map<int, Account>, stuck: seq<Claim>, parses: bool): seq<Claim> {
    if stuck == [] then []
    else
      var init, r := Parsed(candidates, stuck[..|stuck| - 1], parses), stuck[|stuck| - 1];
      if (r.id in candidates) == parses then init + [r] else init
  }

  function Rejections(rows: seq<Claim>): seq<Entry> {
    seq(|rows|, i requires 0 <= i < |rows| => Recorded(rows[i], UNPARSED))
  }

  function Reread(lane: Wording, candidates: map<int, Account>, owners: Owners, r: Claim): Outcome
    requires r.id in candidates
  {
    if OwnedBy(owners, r.name, candidates[r.id]) then Observed else Retry(lane.reconciled)
  }

  /** The records for the first `k` parsed rows, where `answers(c)` is the read of chunk `c`. */
  function Decided(lane: Wording, candidates: map<int, Account>, answers: nat -> Owners, rows: seq<Claim>, k: nat): seq<Entry>
    requires k <= |rows| && forall r :: r in rows ==> r.id in candidates
  {
    if k == 0 then []
    else
      var owners, init := answers((k - 1) / RECONCILE_READ_CHUNK), Decided(lane, candidates, answers, rows, k - 1);
      if owners.Ok? then init + [Recorded(rows[k - 1], Reread(lane, candidates, owners, rows[k - 1]))] else init
  }

  lemma {:induction false} ParsedMembers(candidates: map<int, Account>, stuck: seq<Claim>, parses: bool)
    requires UniqueIds(stuck)
    ensures UniqueIds(Parsed(candidates, stuck, parses))
    ensures forall r :: r in Parsed(candidates, stuck, parses) <==> r in stuck && (r.id in candidates) == parses
  {
    if stuck != [] {
      var init := stuck[..|stuck| - 1];
      ParsedMembers(candidates, init, parses);
      assert stuck == init + [stuck[|stuck| - 1]];
      assert stuck[|stuck| - 1] !in init;
    }
  }

  lemma {:induction false} UnreadableChunk(lane: Wording, candidates: map<int, Account>, answers: nat -> Owners,
      rows: seq<Claim>, c: nat, k: nat)
    requires RECONCILE_READ_CHUNK * c <= k <= |rows| && k <= RECONCILE_READ_CHUNK * (c + 1) && answers(c).Err?
    requires forall r :: r in rows ==> r.id in candidates
    ensures Decided(lane, candidates, answers, rows, k) == Decided(lane, candidates, answers, rows, RECONCILE_READ_CHUNK * c)
    decreases k
  {
    if k > RECONCILE_READ_CHUNK * c {
      assert (k - 1) / RECONCILE_READ_CHUNK == c;
      UnreadableChunk(lane, candidates, answers, rows, c, k - 1);
    }
  }

  /** One chunk: decided from its own read, or left alone when the read failed. */
  method ReconcileChunk(lane: Wording, candidates: map<int, Account>, answers: nat -> Owners, rows: seq<Claim>,
      c: nat, log0: seq<Entry>)
    returns (log: seq<Entry>, next: nat)
    requires RECONCILE_READ_CHUNK * c < |rows| && forall r :: r in rows ==> r.id in candidates
    requires log0 == Decided(lane, candidates, answers, rows, RECONCILE_READ_CHUNK * c)
    ensures next == (if |rows| < RECONCILE_READ_CHUNK * (c + 1) then |rows| else RECONCILE_READ_CHUNK * (c + 1))
    ensures log == Decided(lane, candidates, answers, rows, next)
  {
    log := log0;
    var start := RECONCILE_READ_CHUNK * c;
    next := if |rows| < start + RECONCILE_READ_CHUNK then |rows| else start + RECONCILE_READ_CHUNK;
    var owners := answers(c);
    if owners.Err? {
      UnreadableChunk(lane, candidates, answers, rows, c, next);
      return;
    }
    for k := start to next
      invariant log == Decided(lane, candidates, answers, rows, k)
    {
      var r := rows[k];
      assert k / RECONCILE_READ_CHUNK == c;
      if OwnedBy(owners, r.name, candidates[r.id]) {
        log := log + [Recorded(r, Observed)];
      } else {
        log := log + [Recorded(r, Retry(lane.reconciled))];
      }
    }
  }

  /** Unparseable rows are failed first; the others are read chunk by chunk. `ok` says
      whether every chunk could be read. */
  method ReconcileSubmitting(lane: Wording, candidates: map<int, Account>, answers: nat -> Owners, stuck: seq<Claim>)
    returns (log: seq<Entry>, ok: bool)
    requires UniqueIds(stuck)
    ensures log == ReconcileLog(lane, candidates, answers, stuck) && Settles(stuck, log)
    ensures ok <==> forall p :: 0 <= p < |Parsed(candidates, stuck, true)| ==> answers(p / RECONCILE_READ_CHUNK).Ok?
  {
    ParsedMembers(candidates, stuck, true);
    ReconcileRecordsOnce(lane, candidates, answers, stuck);
    var parsed;
    log, parsed := RejectUnparsed(candidates, stuck);
    var decided: seq<Entry>, done, c := [], 0, 0;
    ok := true;
    while done < |parsed|
      invariant 0 <= done <= |parsed| && (done < |parsed| ==> done == RECONCILE_READ_CHUNK * c)
      invariant decided == Decided(lane, candidates, answers, parsed, done)
      invariant ok <==> forall p :: 0 <= p < done ==> answers(p / RECONCILE_READ_CHUNK).Ok?
    {
      var before := done;
      decided, done := ReconcileChunk(lane, candidates, answers, parsed, c, decided);
      assert forall p :: before <= p < done ==> p / RECONCILE_READ_CHUNK == c;
      assert before / RECONCILE_READ_CHUNK == c;
      ok := ok && answers(c).Ok?;
      c := c + 1;
    }
    log := log + decided;
  }

  method RejectUnparsed(candidates: map<int, Account>, stuck: seq<Claim>) returns (log: seq<Entry>, parsed: seq<Claim>)
    ensures log == Rejections(Parsed(candidates, stuck, false)) && parsed == Parsed(candidates, stuck, true)
  {
    log, parsed := [], [];
    for k := 0 to |stuck|
      invariant log == Rejections(Parsed(candidates, stuck[..k], false)) && parsed == Parsed(candidates, stuck[..k], true)
    {
      assert stuck[..k + 1][..k] == stuck[..k];
      if stuck[k].id in candidates {
        parsed := parsed + [stuck[k]];
      } else {
        log := log + [Recorded(stuck[k], UNPARSED)];
      }
    }
    assert stuck[..|stuck|] == stuck;
  }

  /** Every record of the first `k` rows is for one of them, and is what the read of that
      row's own chunk says. */
  lemma {:induction false} DecidedFrom(lane: Wording, candidates: map<int, Account>, answers: nat -> Owners,
      rows: seq<Claim>, k: nat, i: nat)
    returns (p: nat)
    requires k <= |rows| && forall r :: r in rows ==> r.id in candidates
    requires i < |Decided(lane, candidates, answers, rows, k)|
    ensures p < k && answers(p / RECONCILE_READ_CHUNK).Ok?
    ensures Decided(lane, candidates, answers, rows, k)[i]
      == Recorded(rows[p], Reread(lane, candidates, answers(p / RECONCILE_READ_CHUNK), rows[p]))
  {
    var init := Decided(lane, candidates, answers, rows, k - 1);
    if i < |init| {
      p := DecidedFrom(lane, candidates, answers, rows, k - 1, i);
    } else {
      p := k - 1;
    }
  }

  lemma {:induction false} ReadableIsDecided(lane: Wording, candidates: map<int, Account>, answers: nat -> Owners,
      rows: seq<Claim>, k: nat, p: nat)
    requires p < k <= |rows| && answers(p / RECONCILE_READ_CHUNK).Ok? && forall r :: r in rows ==> r.id in candidates
    ensures Recorded(rows[p], Reread(lane, candidates, answers(p / RECONCILE_READ_CHUNK), rows[p]))
      in Decided(lane, candidates, answers, rows, k)
  {
    if p < k - 1 {
      ReadableIsDecided(lane, candidates, answers, rows, k - 1, p);
    }
  }

  predicate OnceEach(log: seq<Entry>) {
    forall i, j :: 0 <= i < j < |log| ==> log[i].row.id != log[j].row.id
  }

  lemma Joined(a: seq<Entry>, b: seq<Entry>)
    requires OnceEach(a) && OnceEach(b)
    requires forall i, j :: 0 <= i < |a| && 0 <= j < |b| ==> a[i].row.id != b[j].row.id
    ensures OnceEach(a + b)
  {
    var whole := a + b;
    forall i, j | 0 <= i < j < |whole| ensures whole[i].row.id != whole[j].row.id {
      assert j >= |a| ==> whole[j] == b[j - |a|];
      assert i >= |a| ==> whole[i] == b[i - |a|];
    }
  }

  lemma {:induction false} DecidedOnce(lane: Wording, candidates: map<int, Account>, answers: nat -> Owners,
      rows: seq<Claim>, k: nat)
    requires k <= |rows| && UniqueIds(rows) && forall r :: r in rows ==> r.id in candidates
    ensures OnceEach(Decided(lane, candidates, answers, rows, k))
  {
    if k > 0 {
      DecidedOnce(lane, candidates, answers, rows, k - 1);
      var init := Decided(lane, candidates, answers, rows, k - 1);
      forall i | 0 <= i < |init| ensures init[i].row.id != rows[k - 1].id {
        var p := DecidedFrom(lane, candidates, answers, rows, k - 1, i);
      }
      var owners := answers((k - 1) / RECONCILE_READ_CHUNK);
      if owners.Ok? {
        Joined(init, [Recorded(rows[k - 1], Reread(lane, candidates, owners, rows[k - 1]))]);
      }
    }
  }

  ghost function ReconcileLog(lane: Wording, candidates: map<int, Account>, answers: nat -> Owners,
      stuck: seq<Claim>): seq<Entry>
    requires UniqueIds(stuck)
  {
    ParsedMembers(candidates, stuck, true);
    var rows := Parsed(candidates, stuck, true);
    Rejections(Parsed(candidates, stuck, false)) + Decided(lane, candidates, answers, rows, |rows|)
  }

  /** No stuck row is recorded twice, and no other row at all. */
  lemma ReconcileRecordsOnce(lane: Wording, candidates: map<int, Account>, answers: nat -> Owners, stuck: seq<Claim>)
    requires UniqueIds(stuck)
    ensures OnceEach(ReconcileLog(lane, candidates, answers, stuck))
    ensures Settles(stuck, ReconcileLog(lane, candidates, answers, stuck))
  {
    ParsedMembers(candidates, stuck, true);
    ParsedMembers(candidates, stuck, false);
    var rows, bad := Parsed(candidates, stuck, true), Parsed(candidates, stuck, false);
    DecidedOnce(lane, candidates, answers, rows, |rows|);
    var log := Decided(lane, candidates, answers, rows, |rows|);
    forall i, j | 0 <= i < |bad| && 0 <= j < |log| ensures bad[i].id != log[j].row.id {
      var p := DecidedFrom(lane, candidates, answers, rows, |rows|, j);
      assert bad[i] in bad && rows[p] in rows;
    }
    Joined(Rejections(bad), log);
    var whole := ReconcileLog(lane, candidates, answers, stuck);
    forall i | 0 <= i < |whole| ensures whole[i].row in stuck {
      if i < |bad| {
        assert bad[i] in bad;
      } else {
        var p := DecidedFrom(lane, candidates, answers, rows, |rows|, i - |bad|);
        assert rows[p] in rows;
      }
    }
  }

  /** A stuck row is recorded only when the read of its own chunk succeeded: as landed when
      that read names its candidate, re-queued when it does not. A failed read decides
      nothing about any row of its chunk. */
  lemma ReconcileDecidesOnlyFromReads(lane: Wording, candidates: map<int, Account>, answers: nat -> Owners,
      stuck: seq<Claim>, p: nat, outcome: Outcome)
    requires UniqueIds(stuck) && p < |Parsed(candidates, stuck, true)|
    ensures var r := Parsed(candidates, stuck, true)[p];
      && r.id in candidates
      && (Recorded(r, outcome) in ReconcileLog(lane, candidates, answers, stuck) <==>
          && answers(p / 50).Ok?
          && outcome == if OwnedBy(answers(p / 50), r.name, candidates[r.id]) then Observed else Retry(lane.reconciled))
  {
    ParsedMembers(candidates, stuck, true);
    ParsedMembers(candidates, stuck, false);
    var rows, bad := Parsed(candidates, stuck, true), Parsed(candidates, stuck, false);
    assert rows[p] in rows;
    var log := Decided(lane, candidates, answers, rows, |rows|);
    if answers(p / RECONCILE_READ_CHUNK).Ok? {
      ReadableIsDecided(lane, candidates, answers, rows, |rows|, p);
    }
    forall e | e in Rejections(bad) ensures e.row in bad {}
    assert ReconcileLog(lane, candidates, answers, stuck) == Rejections(bad) + log;
    if Recorded(rows[p], outcome) in log {
      var i :| 0 <= i < |log| && log[i] == Recorded(rows[p], outcome);
      var q := DecidedFrom(lane, candidates, answers, rows, |rows|, i);
    }
  }

  /** A reconciliation broadcasts nothing. */
  lemma ReconcileOnlyRecords(lane: Wording, candidates: map<int, Account>, answers: nat -> Owners, stuck: seq<Claim>, k: nat)
    requires UniqueIds(stuck) && k < |ReconcileLog(lane, candidates, answers, stuck)|
    ensures ReconcileLog(lane, candidates, answers, stuck)[k].Recorded?
  {
    ParsedMembers(candidates, stuck, true);
    var rows, bad := Parsed(candidates, stuck, true), Parsed(candidates, stuck, false);
    if k >= |bad| {
      var p := DecidedFrom(lane, candidates, answers, rows, |rows|, k - |bad|);
    }
  }

  /** A row whose candidate does not parse is failed. */
  lemma UnparsedIsFailed(lane: Wording, candidates: map<int, Account>, answers: nat -> Owners, stuck: seq<Claim>, r: Claim)
    requires UniqueIds(stuck) && r in stuck && r.id !in candidates
    ensures Recorded(r, UNPARSED) in ReconcileLog(lane, candidates, answers, stuck)
  {
    ParsedMembers(candidates, stuck, false);
    var bad := Parsed(candidates, stuck, false);
    var i :| 0 <= i < |bad| && bad[i] == r;
    assert ReconcileLog(lane, candidates, answers, stuck)[i] == Recorded(r, UNPARSED);
  }
}
