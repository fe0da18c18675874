/**
  TURN credential issuance: a fresh upstream credential per call, the last good one as
  a fallback, and a breaker that spaces out attempts while the upstream keeps failing.
 */
module Turn {
  import opened Prelude

  const MIN_USEFUL_REMAINING: nat := 60
  const FAILURE_THRESHOLD: nat := 3
  const FAILURE_COOLDOWN: nat := 30
  const U32_MAX: nat := 0xFFFF_FFFF

  datatype Credential = Credential(secret: string, expiresAt: nat)

  /** What the upstream answers: a credential, with a life of its own choosing or the
      requested one; a refusal that means "never"; or a failure that means "later". */
  datatype Upstream = Fresh(secret: string, life: Option<nat>) | Rejected | Transient

  datatype State = State(lastGood: Option<Credential>, failures: nat, skipUntil: nat)

  const INITIAL: State := State(None, 0, 0)

  function Remaining(c: Credential, now: nat): nat {
    if c.expiresAt <= now then 0 else c.expiresAt - now
  }

  function Floor(ttl: nat): (r: nat)
    ensures ttl >= 240 ==> r == 60
    ensures 4 <= ttl < 240 ==> 4 * r <= ttl < 4 * r + 4
    ensures ttl < 4 ==> r == 1
  {
    var quarter := if ttl / 4 < 1 then 1 else ttl / 4;
    if MIN_USEFUL_REMAINING < quarter then MIN_USEFUL_REMAINING else quarter
  }

  function Minted(ttl: nat, now: nat, u: Upstream): Credential
    requires u.Fresh?
  {
    Credential(u.secret, now + (if u.life.Some? then u.life.value else ttl))
  }

  function Usable(st: State, ttl: nat, now: nat): Option<Credential> {
    if st.lastGood.Some? && Remaining(st.lastGood.value, now) >= Floor(ttl) then st.lastGood else None
  }

  /** What a call is answered without asking the upstream, if anything. */
  function Shortcut(st: State, ttl: nat, now: nat): Option<Credential> {
    if now < st.skipUntil then Usable(st, ttl, now) else None
  }

  function Tripping(st: State, now: nat): State {
    var failures := if st.failures == U32_MAX then U32_MAX else st.failures + 1;
    st.(failures := failures, skipUntil := if failures >= FAILURE_THRESHOLD then now + FAILURE_COOLDOWN else st.skipUntil)
  }

  /** The state once the upstream has answered a call made at `now`. */
  function Answered(st: State, ttl: nat, now: nat, u: Upstream): State {
    match u
    case Fresh(_, _) => State(Some(Minted(ttl, now, u)), 0, 0)
    case Rejected => st
    case Transient => Tripping(st, now)
  }

  /** The reply such a call gets: `None` is the error the caller sees. */
  function Reply(st: State, ttl: nat, now: nat, u: Upstream): Option<Credential> {
    match u
    case Fresh(_, _) => Some(Minted(ttl, now, u))
    case Rejected => None
    case Transient => Usable(st, ttl, now)
  }

  class Client {
    const ttl: nat
    var lastGood: Option<Credential>
    var failures: nat
    var skipUntil: nat

    constructor (ttl: nat)
      ensures this.ttl == ttl && Model() == INITIAL
    {
      this.ttl := ttl;
      lastGood, failures, skipUntil := None, 0, 0;
    }

    function Model(): State
      reads this
    {
      State(lastGood, failures, skipUntil)
    }

    method Cached(now: nat) returns (c: Option<Credential>)
      ensures c == Usable(Model(), ttl, now)
    {
      c := None;
      if lastGood.Some? && Remaining(lastGood.value, now) >= Floor(ttl) {
        c := lastGood;
      }
    }

    method RecordFailure(now: nat) returns (tripped: bool)
      modifies this
      ensures Model() == Tripping(old(Model()), now)
      ensures tripped <==> failures >= FAILURE_THRESHOLD
    {
      failures := if failures == U32_MAX then U32_MAX else failures + 1;
      tripped := failures >= FAILURE_THRESHOLD;
      if tripped {
        skipUntil := now + FAILURE_COOLDOWN;
      }
    }

    /** One issuance, with the time to live reported to the caller. */
    method Issue(now: nat, upstream: Upstream) returns (reply: Option<Credential>, reported: nat)
      modifies this
      ensures reply == IssueReply(old(Model()), ttl, Call(now, upstream))
      ensures Model() == Issued(old(Model()), ttl, Call(now, upstream))
      ensures reply.Some? ==> reported == Remaining(reply.value, now)
    {
      reported := 0;
      if now < skipUntil {
        reply := Cached(now);
        if reply.Some? {
          reported := Remaining(reply.value, now);
          return;
        }
      }
      match upstream {
        case Fresh(_, _) =>
          reply := Some(Minted(ttl, now, upstream));
          lastGood := reply;
          failures, skipUntil := 0, 0;
        case Rejected =>
          reply := None;
        case Transient =>
          var _ := RecordFailure(now);
          reply := Cached(now);
      }
      if reply.Some? {
        reported := Remaining(reply.value, now);
      }
    }
  }

  // ---- Sequences of calls ----

  datatype Call = Call(now: nat, upstream: Upstream)

  predicate Attempts(st: State, ttl: nat, c: Call) {
    Shortcut(st, ttl, c.now).None?
  }

  function Issued(st: State, ttl: nat, c: Call): State {
    if Attempts(st, ttl, c) then Answered(st, ttl, c.now, c.upstream) else st
  }

  function IssueReply(st: State, ttl: nat, c: Call): Option<Credential> {
    if Attempts(st, ttl, c) then Reply(st, ttl, c.now, c.upstream) else Shortcut(st, ttl, c.now)
  }

  /** The state before call `n` of a sequence started on a new client. */
  function Before(calls: seq<Call>, ttl: nat, n: nat): State
    requires n <= |calls|
  {
    if n == 0 then INITIAL else Issued(Before(calls, ttl, n - 1), ttl, calls[n - 1])
  }

  predicate Fetched(calls: seq<Call>, ttl: nat, i: nat)
    requires i < |calls|
  {
    Attempts(Before(calls, ttl, i), ttl, calls[i]) && calls[i].upstream.Fresh?
  }

  /** Call `i` is the latest successful fetch before call `n`. */
  ghost predicate LatestFetch(calls: seq<Call>, ttl: nat, i: nat, n: nat)
    requires n <= |calls|
  {
    i < n && Fetched(calls, ttl, i) && forall k :: i < k < n ==> !Fetched(calls, ttl, k)
  }

  lemma {:induction false} KeepsLatestFetch(calls: seq<Call>, ttl: nat, n: nat) returns (i: nat)
    requires n <= |calls| && Before(calls, ttl, n).lastGood.Some?
    ensures LatestFetch(calls, ttl, i, n)
    ensures Before(calls, ttl, n).lastGood == Some(Minted(ttl, calls[i].now, calls[i].upstream))
  {
    if Fetched(calls, ttl, n - 1) {
      i := n - 1;
    } else {
      i := KeepsLatestFetch(calls, ttl, n - 1);
    }
  }

  /** Every reply is the credential fetched in that very call, or the latest successful
      fetch with at least the floor of its life left; and the life reported is exactly
      the time to its expiry. */
  /** A fetched credential is the upstream's, and expires when the life the upstream gave it,
      or the life that was asked for, has gone by. */
  predicate FetchedAt(c: Credential, ttl: nat, call: Call) {
    && call.upstream.Fresh? && c.secret == call.upstream.secret
    && (call.upstream.life.Some? ==> c.expiresAt == call.now + call.upstream.life.value)
    && (call.upstream.life.None? ==> c.expiresAt == call.now + ttl)
  }

  lemma RepliesAreFreshOrLatest(calls: seq<Call>, ttl: nat, n: nat)
    requires n < |calls|
    requires IssueReply(Before(calls, ttl, n), ttl, calls[n]).Some?
    ensures var c := IssueReply(Before(calls, ttl, n), ttl, calls[n]).value;
      && calls[n].now + Remaining(c, calls[n].now) == c.expiresAt
      && (Fetched(calls, ttl, n) ==> FetchedAt(c, ttl, calls[n]))
      && (!Fetched(calls, ttl, n) ==>
            && Remaining(c, calls[n].now) >= Floor(ttl) >= 1
            && exists i: nat :: LatestFetch(calls, ttl, i, n) && FetchedAt(c, ttl, calls[i]))
  {
    if !Fetched(calls, ttl, n) {
      var i := KeepsLatestFetch(calls, ttl, n);
    }
  }

  /** And a call fails only after asking the upstream, with nothing usable to fall back
      on unless the upstream refused for good. */
  lemma FailuresAreDeserved(calls: seq<Call>, ttl: nat, n: nat)
    requires n < |calls|
    ensures IssueReply(Before(calls, ttl, n), ttl, calls[n]).None? <==>
      && Attempts(Before(calls, ttl, n), ttl, calls[n])
      && (calls[n].upstream.Rejected? ||
          (calls[n].upstream.Transient? && (forall i: nat :: LatestFetch(calls, ttl, i, n) ==>
             Remaining(Minted(ttl, calls[i].now, calls[i].upstream), calls[n].now) < Floor(ttl))))
  {
    var st := Before(calls, ttl, n);
    if st.lastGood.Some? {
      var i := KeepsLatestFetch(calls, ttl, n);
      forall k: nat | LatestFetch(calls, ttl, k, n) ensures k == i {}
    } else {
      forall k: nat | LatestFetch(calls, ttl, k, n) ensures false {
        GoodStays(calls, ttl, k, n);
      }
    }
  }

  lemma {:induction false} GoodStays(calls: seq<Call>, ttl: nat, i: nat, n: nat)
    requires i < n <= |calls| && Fetched(calls, ttl, i)
    ensures Before(calls, ttl, n).lastGood.Some?
    decreases n
  {
    if i + 1 < n {
      GoodStays(calls, ttl, i, n - 1);
    }
  }

  /** The breaker is open after call `i`: it was an attempt, it failed in passing, and it
      was at least the third in a row. */
  predicate Trips(calls: seq<Call>, ttl: nat, i: nat)
    requires i < |calls|
  {
    && Attempts(Before(calls, ttl, i), ttl, calls[i]) && calls[i].upstream.Transient?
    && Before(calls, ttl, i + 1).failures >= 3
  }

  predicate ClockRuns(calls: seq<Call>) {
    forall i, j :: 0 <= i < j < |calls| ==> calls[i].now <= calls[j].now
  }

  lemma {:induction false} BreakerHolds(calls: seq<Call>, ttl: nat, i: nat, j: nat)
    requires i < j <= |calls| && ClockRuns(calls) && Trips(calls, ttl, i)
    requires forall k :: i < k < j ==> !Fetched(calls, ttl, k)
    ensures Before(calls, ttl, j).failures >= FAILURE_THRESHOLD
    ensures Before(calls, ttl, j).skipUntil >= calls[i].now + FAILURE_COOLDOWN
    decreases j
  {
    if i + 1 < j {
      BreakerHolds(calls, ttl, i, j - 1);
      assert !Fetched(calls, ttl, j - 1) && calls[i].now <= calls[j - 1].now;
    }
  }

  /** Once the breaker has tripped, an attempt made while the cache is usable comes no
      sooner than the cooldown after every tripping attempt since the last success. */
  lemma AttemptsStayApart(calls: seq<Call>, ttl: nat, i: nat, j: nat)
    requires i < j < |calls| && ClockRuns(calls) && Trips(calls, ttl, i)
    requires forall k :: i < k < j ==> !Fetched(calls, ttl, k)
    requires Usable(Before(calls, ttl, j), ttl, calls[j].now).Some?
    ensures Attempts(Before(calls, ttl, j), ttl, calls[j]) ==> calls[j].now >= calls[i].now + FAILURE_COOLDOWN
  {
    BreakerHolds(calls, ttl, i, j);
  }

  predicate FailsInPassing(calls: seq<Call>, ttl: nat, k: nat)
    requires k < |calls|
  {
    Attempts(Before(calls, ttl, k), ttl, calls[k]) && calls[k].upstream.Transient?
  }

  lemma {:induction false} BreakerWaits(calls: seq<Call>, ttl: nat, i: nat, j: nat)
    requires i < j <= |calls| && Trips(calls, ttl, i)
    requires forall k :: i < k < j ==> !Fetched(calls, ttl, k) && !FailsInPassing(calls, ttl, k)
    ensures Before(calls, ttl, j).skipUntil == calls[i].now + FAILURE_COOLDOWN
    decreases j
  {
    if i + 1 < j {
      BreakerWaits(calls, ttl, i, j - 1);
      assert !Fetched(calls, ttl, j - 1) && !FailsInPassing(calls, ttl, j - 1);
    }
  }

  /** Exactly when the upstream is asked again: after a trip, and until an attempt succeeds
      or fails in passing, a call with a usable cache is an attempt if and only if the
      cooldown since the trip is over. */
  lemma AttemptsResumeExactly(calls: seq<Call>, ttl: nat, i: nat, j: nat)
    requires i < j < |calls| && Trips(calls, ttl, i)
    requires forall k :: i < k < j ==> !Fetched(calls, ttl, k) && !FailsInPassing(calls, ttl, k)
    requires Usable(Before(calls, ttl, j), ttl, calls[j].now).Some?
    ensures Attempts(Before(calls, ttl, j), ttl, calls[j]) <==> calls[j].now >= calls[i].now + 30
  {
    BreakerWaits(calls, ttl, i, j);
  }

  /** Two attempts with none between them are the cooldown apart, when the earlier one
      tripped the breaker (or found it tripped and failed in passing again). */
  lemma ConsecutiveAttemptsApart(calls: seq<Call>, ttl: nat, i: nat, j: nat)
    requires i < j < |calls| && Trips(calls, ttl, i)
    requires forall k :: i < k < j ==> !Attempts(Before(calls, ttl, k), ttl, calls[k])
    requires Attempts(Before(calls, ttl, j), ttl, calls[j]) && Usable(Before(calls, ttl, j), ttl, calls[j].now).Some?
    ensures calls[j].now >= calls[i].now + FAILURE_COOLDOWN
  {
    forall k | i < k < j ensures !Fetched(calls, ttl, k) && !FailsInPassing(calls, ttl, k) {
      assert !Attempts(Before(calls, ttl, k), ttl, calls[k]);
    }
    AttemptsResumeExactly(calls, ttl, i, j);
  }

  /** After the breaker tripped at `t`, attempts `i` and `j` are a second apart, with the
      cache usable for both and no success since. */
  ghost predicate Crowded(calls: seq<Call>, ttl: nat, t: nat, i: nat, j: nat) {
    && t < i < j < |calls| && ClockRuns(calls) && Trips(calls, ttl, t)
    && (forall k :: t < k < j ==> !Fetched(calls, ttl, k))
    && Attempts(Before(calls, ttl, i), ttl, calls[i]) && Attempts(Before(calls, ttl, j), ttl, calls[j])
    && Usable(Before(calls, ttl, i), ttl, calls[i].now).Some? && Usable(Before(calls, ttl, j), ttl, calls[j].now).Some?
    && calls[j].now == calls[i].now + 1
  }

  /** A refusal ends the spacing: it leaves the breaker as it was, so once the cooldown is
      over an attempt may follow a refused one at once. */
  lemma RefusalEndsSpacing()
    ensures exists calls, ttl: nat, t: nat, i: nat, j: nat :: Crowded(calls, ttl, t, i, j)
  {
    var ttl := 400;
    var calls := [Call(0, Fresh("s", Some(1000))), Call(0, Transient), Call(0, Transient), Call(0, Transient),
                  Call(30, Rejected), Call(31, Transient)];
    var good := Some(Credential("s", 1000));
    assert Before(calls, ttl, 1) == State(good, 0, 0);
    assert Before(calls, ttl, 2) == State(good, 1, 0);
    assert Before(calls, ttl, 3) == State(good, 2, 0);
    assert Before(calls, ttl, 4) == State(good, 3, 30);
    assert Before(calls, ttl, 5) == State(good, 3, 30);
    assert Trips(calls, ttl, 3) && !Fetched(calls, ttl, 4);
    assert Crowded(calls, ttl, 3, 4, 5);
  }

  /** Attempts in `[first, n)` that failed in passing. */
  function PassingFailures(calls: seq<Call>, ttl: nat, first: nat, n: nat): nat
    requires first <= n <= |calls|
    decreases n
  {
    if first == n then 0
    else PassingFailures(calls, ttl, first, n - 1) + (if FailsInPassing(calls, ttl, n - 1) then 1 else 0)
  }

  /** The breaker's count is the number of attempts that failed in passing since the latest
      successful fetch, or since the start, up to what 32 bits hold. */
  lemma {:induction false} CountsFailuresInARow(calls: seq<Call>, ttl: nat, first: nat, n: nat)
    requires first <= n <= |calls|
    requires first == 0 || Fetched(calls, ttl, first - 1)
    requires forall k :: first <= k < n ==> !Fetched(calls, ttl, k)
    ensures var row := PassingFailures(calls, ttl, first, n);
      Before(calls, ttl, n).failures == if row < U32_MAX then row else U32_MAX
    decreases n
  {
    if first < n {
      CountsFailuresInARow(calls, ttl, first, n - 1);
      assert !Fetched(calls, ttl, n - 1);
    }
  }

  // ---- Overlapping calls ----

  /** Where a call is between two of its lock acquisitions; it holds none while it waits. */
  datatype Phase =
    | Cooling(now: nat)
    | Asking(now: nat)
    | Stored(now: nat, fetched: Credential)
    | Recorded(now: nat)

  /** One acquisition of the breaker's or the cache's lock each. `Begin` checks the cooldown
      and `Peek` then reads the cache; a successful answer is `Store`d and the breaker then
      `Reset`; a passing failure is `Fail`ed and the cache then read by `FallBack`; a refusal
      takes no lock. */
  datatype Event =
    | Begin(id: nat, now: nat)
    | Peek(id: nat)
    | Store(id: nat, upstream: Upstream)
    | Reset(id: nat)
    | Refuse(id: nat)
    | Fail(id: nat)
    | FallBack(id: nat)

  datatype World = World(st: State, calls: map<nat, Phase>, minted: set<Credential>, lastFailed: nat)

  const QUIET: World := World(INITIAL, map[], {}, 0)

  predicate Enabled(w: World, e: Event) {
    match e
    case Begin(id, _) => id !in w.calls
    case Peek(id) => id in w.calls && w.calls[id].Cooling?
    case Store(id, u) => id in w.calls && w.calls[id].Asking? && u.Fresh?
    case Reset(id) => id in w.calls && w.calls[id].Stored?
    case Refuse(id) => id in w.calls && w.calls[id].Asking?
    case Fail(id) => id in w.calls && w.calls[id].Asking?
    case FallBack(id) => id in w.calls && w.calls[id].Recorded?
  }

  function Happens(w: World, ttl: nat, e: Event): World
    requires Enabled(w, e)
  {
    match e
    case Begin(id, now) => w.(calls := w.calls[id := if now < w.st.skipUntil then Cooling(now) else Asking(now)])
    case Peek(id) =>
      var now := w.calls[id].now;
      w.(calls := if Usable(w.st, ttl, now).Some? then w.calls - {id} else w.calls[id := Asking(now)])
    case Store(id, u) =>
      var now := w.calls[id].now;
      var c := Minted(ttl, now, u);
      w.(st := w.st.(lastGood := Some(c)), calls := w.calls[id := Stored(now, c)], minted := w.minted + {c})
    case Reset(id) => w.(st := w.st.(failures := 0, skipUntil := 0), calls := w.calls - {id})
    case Refuse(id) => w.(calls := w.calls - {id})
    case Fail(id) =>
      var now := w.calls[id].now;
      w.(st := Tripping(w.st, now), calls := w.calls[id := Recorded(now)], lastFailed := now)
    case FallBack(id) => w.(calls := w.calls - {id})
  }

  /** What the event answers its caller, if it answers one. */
  function Served(w: World, ttl: nat, e: Event): Option<Credential>
    requires Enabled(w, e)
  {
    match e
    case Peek(id) => Usable(w.st, ttl, w.calls[id].now)
    case Reset(id) => Some(w.calls[id].fetched)
    case FallBack(id) => Usable(w.st, ttl, w.calls[id].now)
    case _ => None
  }

  /** Where a sequence of events leads, if each can happen in its turn. */
  function Reached(ttl: nat, events: seq<Event>): Option<World> {
    if events == [] then Some(QUIET)
    else
      var before := Reached(ttl, events[..|events| - 1]);
      var e := events[|events| - 1];
      if before.Some? && Enabled(before.value, e) then Some(Happens(before.value, ttl, e)) else None
  }

  /** However the calls' steps interleave: the cache and every call about to be served hold
      a credential some call fetched, and an open breaker is timed from the attempt whose
      failure was recorded last. */
  predicate OverlapInv(w: World) {
    && (w.st.lastGood.Some? ==> w.st.lastGood.value in w.minted)
    && (forall id :: id in w.calls && w.calls[id].Stored? ==> w.calls[id].fetched in w.minted)
    && w.st.skipUntil == (if w.st.failures >= FAILURE_THRESHOLD then w.lastFailed + FAILURE_COOLDOWN else 0)
  }

  lemma {:induction false} OverlapInvariant(w: World, ttl: nat, events: seq<Event>)
    requires Reached(ttl, events) == Some(w)
    ensures OverlapInv(w)
    decreases |events|
  {
    if events != [] {
      var v := Reached(ttl, events[..|events| - 1]).value;
      OverlapInvariant(v, ttl, events[..|events| - 1]);
    }
  }

  /** So whatever overlaps: every credential served was fetched, by this call or another, and
      one served from the cache has the floor of its life left at the call's own time. A
      call that begins with an open breaker goes straight to the upstream exactly when the
      cooldown since the attempt last recorded as failed is over; otherwise it reads the
      cache first, and is served from it exactly when it is then usable. */
  lemma OverlapIsSafe(w: World, ttl: nat, events: seq<Event>, e: Event)
    requires Reached(ttl, events) == Some(w) && Enabled(w, e)
    ensures Served(w, ttl, e).Some? ==> Served(w, ttl, e).value in w.minted
    ensures Served(w, ttl, e).Some? && !e.Reset? ==> Remaining(Served(w, ttl, e).value, w.calls[e.id].now) >= Floor(ttl)
    ensures e.Begin? && w.st.failures >= FAILURE_THRESHOLD ==>
      (Happens(w, ttl, e).calls[e.id] == Asking(e.now) <==> e.now >= w.lastFailed + FAILURE_COOLDOWN)
    ensures e.Peek? ==> (Served(w, ttl, e).None? <==> e.id in Happens(w, ttl, e).calls && Happens(w, ttl, e).calls[e.id].Asking?)
  {
    OverlapInvariant(w, ttl, events);
  }

  /** A call whose own steps nothing separates does what `Issue` does in one piece. */
  lemma UninterruptedCallIsIssue(w: World, ttl: nat, id: nat, c: Call)
    requires id !in w.calls
    ensures var begun := Happens(w, ttl, Begin(id, c.now));
      var peeked := if begun.calls[id].Cooling? then Happens(begun, ttl, Peek(id)) else begun;
      && (Attempts(w.st, ttl, c) <==> id in peeked.calls)
      && (!Attempts(w.st, ttl, c) ==> peeked == w && Served(begun, ttl, Peek(id)) == IssueReply(w.st, ttl, c))
      && (Attempts(w.st, ttl, c) && c.upstream.Fresh? ==>
            var stored := Happens(peeked, ttl, Store(id, c.upstream));
            Happens(stored, ttl, Reset(id)).st == Issued(w.st, ttl, c) && Served(stored, ttl, Reset(id)) == IssueReply(w.st, ttl, c))
      && (Attempts(w.st, ttl, c) && c.upstream.Transient? ==>
            var failed := Happens(peeked, ttl, Fail(id));
            Happens(failed, ttl, FallBack(id)).st == Issued(w.st, ttl, c) && Served(failed, ttl, FallBack(id)) == IssueReply(w.st, ttl, c))
      && (Attempts(w.st, ttl, c) && c.upstream.Rejected? ==> Happens(peeked, ttl, Refuse(id)).st == Issued(w.st, ttl, c))
  {
    assert w.calls[id := Cooling(c.now)] - {id} == w.calls;
  }
}
