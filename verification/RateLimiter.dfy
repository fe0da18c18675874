/**
  The rate limiter's credit bank: a request that paid with quota and was not served
  gets a credit back, which a later request of the same key may spend.
 */
module RateLimiter {
  import opened Prelude

  datatype Payment = Quota | Credit

  /** `checked_sub(1)` under `fetch_update`. */
  function Withdraw(held: nat): Option<nat> {
    if held == 0 then None else Some(held - 1)
  }

  /** The capped increment under `fetch_update`. */
  function Deposit(held: nat, maxBurst: nat): nat {
    if held < maxBurst then held + 1 else held
  }

  class Limiter {
    const maxBurst: nat
    var credits: map<string, nat>

    constructor (maxBurst: nat)
      ensures this.maxBurst == maxBurst && credits == map[]
    {
      this.maxBurst := maxBurst;
      credits := map[];
    }

    function Banked(key: string): nat
      reads this
    {
      if key in credits then credits[key] else 0
    }

    method SpendCredit(key: string) returns (spent: bool)
      modifies this
      ensures spent <==> old(Banked(key)) > 0
      ensures Banked(key) == old(Banked(key)) - (if spent then 1 else 0)
      ensures forall k :: k != key ==> Banked(k) == old(Banked(k))
    {
      if key !in credits {
        return false;
      }
      var left := Withdraw(credits[key]);
      spent := left.Some?;
      if spent {
        credits := credits[key := left.value];
      }
    }

    /** Credits are spent before quota; `quota` is what the quota check would answer. */
    method Allow(key: string, quota: bool) returns (paid: Option<Payment>)
      modifies this
      ensures paid == Some(Credit) <==> old(Banked(key)) > 0
      ensures paid == Some(Quota) <==> old(Banked(key)) == 0 && quota
      ensures Banked(key) == old(Banked(key)) - (if paid == Some(Credit) then 1 else 0)
      ensures forall k :: k != key ==> Banked(k) == old(Banked(k))
    {
      var spent := SpendCredit(key);
      if spent {
        return Some(Credit);
      }
      paid := if quota then Some(Quota) else None;
    }

    method Refund(key: string, paid: Payment)
      requires Banked(key) <= maxBurst
      modifies this
      ensures old(Banked(key)) <= Banked(key) <= maxBurst
      ensures Banked(key) == old(Banked(key)) + 1 <==> paid == Quota && old(Banked(key)) < maxBurst
      ensures forall k :: k != key ==> Banked(k) == old(Banked(k))
    {
      if paid != Quota {
        return;
      }
      if key !in credits {
        credits := credits[key := 0];
      }
      credits := credits[key := Deposit(credits[key], maxBurst)];
    }
  }

  // ---- Requests of many keys, interleaved ----

  /** A counter, shared by whoever holds a reference to it. Eviction drops the cache's
      reference only: a request may still spend from, or bank into, an evicted one. */
  datatype Cell = Cell(key: string, held: nat)

  datatype Phase =
    | Spending(cell: nat)
    | Asking
    | TurnedAway
    | Paid(payment: Payment)
    | Issued
    | Failed
    | Refunding
    | Banking(cell: nat)
    | Refunded

  datatype Request = Request(key: string, phase: Phase, onQuota: bool)

  datatype State = State(cells: seq<Cell>, cache: map<string, nat>, requests: seq<Request>)

  datatype Event =
    | Arrive(key: string)
    | Spend(r: nat)
    | CheckQuota(r: nat, admitted: bool)
    | Finish(r: nat, issued: bool)
    | FindCell(r: nat)
    | Bank(r: nat)
    | Evict(key: string)

  const INITIAL: State := State([], map[], [])

  predicate Consistent(s: State) {
    && (forall k :: k in s.cache ==> s.cache[k] < |s.cells| && s.cells[s.cache[k]].key == k)
    && (forall i :: 0 <= i < |s.requests| && (s.requests[i].phase.Spending? || s.requests[i].phase.Banking?) ==>
          s.requests[i].phase.cell < |s.cells| && s.cells[s.requests[i].phase.cell].key == s.requests[i].key)
    && (forall i :: 0 <= i < |s.requests| && s.requests[i].onQuota ==>
          !s.requests[i].phase.Spending? && !s.requests[i].phase.Asking?)
  }

  predicate Enabled(s: State, e: Event) {
    match e
    case Arrive(_) => true
    case Evict(_) => true
    case Spend(r) => r < |s.requests| && s.requests[r].phase.Spending?
    case CheckQuota(r, _) => r < |s.requests| && s.requests[r].phase.Asking?
    case Finish(r, _) => r < |s.requests| && s.requests[r].phase.Paid?
    case FindCell(r) => r < |s.requests| && s.requests[r].phase.Refunding?
    case Bank(r) => r < |s.requests| && s.requests[r].phase.Banking?
  }

  function Moved(s: State, r: nat, phase: Phase): seq<Request>
    requires r < |s.requests|
  {
    s.requests[r := s.requests[r].(phase := phase)]
  }

  function Next(s: State, maxBurst: nat, e: Event): State
    requires Consistent(s) && Enabled(s, e)
  {
    match e
    case Arrive(key) =>
      s.(requests := s.requests + [Request(key, if key in s.cache then Spending(s.cache[key]) else Asking, false)])
    case Evict(key) =>
      s.(cache := s.cache - {key})
    case Spend(r) =>
      var c := s.requests[r].phase.cell;
      var left := Withdraw(s.cells[c].held);
      if left.None? then s.(requests := Moved(s, r, Asking))
      else s.(cells := s.cells[c := s.cells[c].(held := left.value)], requests := Moved(s, r, Paid(Credit)))
    case CheckQuota(r, admitted) =>
      if admitted then s.(requests := s.requests[r := s.requests[r].(phase := Paid(Quota), onQuota := true)])
      else s.(requests := Moved(s, r, TurnedAway))
    case Finish(r, issued) =>
      s.(requests := Moved(s, r, if issued then Issued else if s.requests[r].phase.payment.Quota? then Refunding else Failed))
    case FindCell(r) =>
      var key := s.requests[r].key;
      if key in s.cache then s.(requests := Moved(s, r, Banking(s.cache[key])))
      else s.(cells := s.cells + [Cell(key, 0)], cache := s.cache[key := |s.cells|], requests := Moved(s, r, Banking(|s.cells|)))
    case Bank(r) =>
      var c := s.requests[r].phase.cell;
      s.(cells := s.cells[c := s.cells[c].(held := Deposit(s.cells[c].held, maxBurst))], requests := Moved(s, r, Refunded))
  }

  // ---- Accounting ----

  /** An admission this request has used up or may still give back. */
  predicate Charged(r: Request) {
    r.phase.Paid? || r.phase.Issued? || r.phase.Refunding? || r.phase.Banking?
  }

  function ChargedTo(key: string): Request -> bool {
    (r: Request) => r.key == key && Charged(r)
  }

  function OnQuota(key: string): Request -> bool {
    (r: Request) => r.key == key && r.onQuota
  }

  function IssuedTo(key: string): Request -> bool {
    (r: Request) => r.key == key && r.phase.Issued?
  }

  function Count(rs: seq<Request>, p: Request -> bool): nat {
    if rs == [] then 0 else Count(rs[..|rs| - 1], p) + (if p(rs[|rs| - 1]) then 1 else 0)
  }

  function Total(cells: seq<Cell>, key: string): nat {
    if cells == [] then 0
    else Total(cells[..|cells| - 1], key) + (if cells[|cells| - 1].key == key then cells[|cells| - 1].held else 0)
  }

  lemma {:induction false} CountUpdate(rs: seq<Request>, p: Request -> bool, i: nat, r: Request)
    requires i < |rs|
    ensures Count(rs[i := r], p) == Count(rs, p) - (if p(rs[i]) then 1 else 0) + (if p(r) then 1 else 0)
    decreases |rs|
  {
    var init := rs[..|rs| - 1];
    if i == |rs| - 1 {
      assert rs[i := r][..|rs| - 1] == init;
    } else {
      CountUpdate(init, p, i, r);
      assert rs[i := r][..|rs| - 1] == init[i := r];
    }
  }

  lemma {:induction false} TotalUpdate(cells: seq<Cell>, key: string, i: nat, held: nat)
    requires i < |cells|
    ensures Total(cells[i := cells[i].(held := held)], key)
      == Total(cells, key) + (if cells[i].key == key then held - cells[i].held else 0)
    decreases |cells|
  {
    var c, init := cells[i].(held := held), cells[..|cells| - 1];
    if i == |cells| - 1 {
      assert cells[i := c][..|cells| - 1] == init;
    } else {
      TotalUpdate(init, key, i, held);
      assert cells[i := c][..|cells| - 1] == init[i := c];
    }
  }

  lemma {:induction false} CountMonotone(rs: seq<Request>, p: Request -> bool, q: Request -> bool)
    requires forall r :: p(r) ==> q(r)
    ensures Count(rs, p) <= Count(rs, q)
  {
    if rs != [] {
      CountMonotone(rs[..|rs| - 1], p, q);
    }
  }

  /** Every quota admission is charged at most once: to a request, or to a banked credit. */
  predicate Balanced(s: State, key: string) {
    Count(s.requests, ChargedTo(key)) + Total(s.cells, key) <= Count(s.requests, OnQuota(key))
  }

  predicate Bounded(s: State, maxBurst: nat) {
    forall c :: c in s.cells ==> c.held <= maxBurst
  }

  /** Moving a request, with its counters in place, keeps the references in order. */
  lemma MoveStaysConsistent(s: State, r: nat, now: Request)
    requires Consistent(s) && r < |s.requests| && now.key == s.requests[r].key
    requires now.phase.Spending? || now.phase.Banking? ==> now.phase.cell < |s.cells| && s.cells[now.phase.cell].key == now.key
    requires now.onQuota ==> !now.phase.Spending? && !now.phase.Asking?
    ensures Consistent(s.(requests := s.requests[r := now]))
  {
  }

  lemma CountersStayConsistent(s: State, cells: seq<Cell>)
    requires Consistent(s) && |s.cells| <= |cells| && forall c :: 0 <= c < |s.cells| ==> cells[c].key == s.cells[c].key
    ensures Consistent(s.(cells := cells))
  {
  }

  lemma StaysConsistent(s: State, maxBurst: nat, e: Event)
    requires Consistent(s) && Enabled(s, e)
    ensures Consistent(Next(s, maxBurst, e))
  {
    var next := Next(s, maxBurst, e);
    if e.Spend? || e.CheckQuota? || e.Finish? || e.Bank? {
      CountersStayConsistent(s, next.cells);
      MoveStaysConsistent(s.(cells := next.cells), e.r, next.requests[e.r]);
    } else if e.FindCell? {
      CountersStayConsistent(s, next.cells);
      MoveStaysConsistent(s.(cells := next.cells, cache := next.cache), e.r, next.requests[e.r]);
    }
  }

  lemma StaysBounded(s: State, maxBurst: nat, e: Event)
    requires Consistent(s) && Enabled(s, e) && Bounded(s, maxBurst)
    ensures Bounded(Next(s, maxBurst, e), maxBurst)
  {
    if e.Spend? || e.Bank? {
      assert s.cells[s.requests[e.r].phase.cell] in s.cells;
    }
  }

  lemma MoveKeepsBalance(s: State, key: string, r: nat, now: Request)
    requires r < |s.requests| && now.key == s.requests[r].key && Balanced(s, key)
    requires Charged(now) && !Charged(s.requests[r]) ==> now.onQuota && !s.requests[r].onQuota
    requires s.requests[r].onQuota ==> now.onQuota
    ensures Balanced(s.(requests := s.requests[r := now]), key)
  {
    CountUpdate(s.requests, ChargedTo(key), r, now);
    CountUpdate(s.requests, OnQuota(key), r, now);
  }

  lemma SpendKeepsBalance(s: State, maxBurst: nat, key: string, r: nat)
    requires Consistent(s) && Enabled(s, Spend(r)) && Balanced(s, key)
    ensures Balanced(Next(s, maxBurst, Spend(r)), key)
  {
    var c := s.requests[r].phase.cell;
    var left := Withdraw(s.cells[c].held);
    var now := s.requests[r].(phase := if left.None? then Asking else Paid(Credit));
    CountUpdate(s.requests, ChargedTo(key), r, now);
    CountUpdate(s.requests, OnQuota(key), r, now);
    if left.Some? {
      TotalUpdate(s.cells, key, c, left.value);
    }
  }

  lemma BankKeepsBalance(s: State, maxBurst: nat, key: string, r: nat)
    requires Consistent(s) && Enabled(s, Bank(r)) && Balanced(s, key)
    ensures Balanced(Next(s, maxBurst, Bank(r)), key)
  {
    var c := s.requests[r].phase.cell;
    var now := s.requests[r].(phase := Refunded);
    CountUpdate(s.requests, ChargedTo(key), r, now);
    CountUpdate(s.requests, OnQuota(key), r, now);
    TotalUpdate(s.cells, key, c, Deposit(s.cells[c].held, maxBurst));
  }

  lemma FindKeepsBalance(s: State, maxBurst: nat, key: string, r: nat)
    requires Consistent(s) && Enabled(s, FindCell(r)) && Balanced(s, key)
    ensures Balanced(Next(s, maxBurst, FindCell(r)), key)
  {
    var k := s.requests[r].key;
    MoveKeepsBalance(s, key, r, s.requests[r].(phase := Banking(if k in s.cache then s.cache[k] else |s.cells|)));
    assert (s.cells + [Cell(k, 0)])[..|s.cells|] == s.cells;
  }

  lemma StepKeepsBalance(s: State, maxBurst: nat, e: Event, key: string)
    requires Consistent(s) && Enabled(s, e) && Balanced(s, key)
    ensures Balanced(Next(s, maxBurst, e), key)
  {
    match e
    case Arrive(_) =>
      var rs := Next(s, maxBurst, e).requests;
      assert rs[..|rs| - 1] == s.requests;
    case Evict(_) =>
    case Spend(r) => SpendKeepsBalance(s, maxBurst, key, r);
    case CheckQuota(r, admitted) =>
      var was := s.requests[r];
      if admitted {
        CountUpdate(s.requests, ChargedTo(key), r, was.(phase := Paid(Quota), onQuota := true));
        CountUpdate(s.requests, OnQuota(key), r, was.(phase := Paid(Quota), onQuota := true));
      } else {
        MoveKeepsBalance(s, key, r, was.(phase := TurnedAway));
      }
    case Finish(r, issued) =>
      MoveKeepsBalance(s, key, r, Next(s, maxBurst, e).requests[r]);
    case FindCell(r) => FindKeepsBalance(s, maxBurst, key, r);
    case Bank(r) => BankKeepsBalance(s, maxBurst, key, r);
  }

  /** A run: each event can happen where it does, and leads to the next state. A step is
      defined on consistent states, which every state of a run turns out to be. */
  ghost predicate Reaches(maxBurst: nat, states: seq<State>, events: seq<Event>) {
    && |states| == |events| + 1 && states[0] == INITIAL
    && forall i :: 0 <= i < |events| ==>
         Enabled(states[i], events[i]) && (Consistent(states[i]) ==> states[i + 1] == Next(states[i], maxBurst, events[i]))
  }

  lemma {:induction false} RunKeepsBooks(maxBurst: nat, states: seq<State>, events: seq<Event>, n: nat, key: string)
    requires Reaches(maxBurst, states, events) && n < |states|
    ensures Consistent(states[n]) && Bounded(states[n], maxBurst) && Balanced(states[n], key)
  {
    if n > 0 {
      RunKeepsBooks(maxBurst, states, events, n - 1, key);
      assert states[n - 1 + 1] == Next(states[n - 1], maxBurst, events[n - 1]);
      StaysConsistent(states[n - 1], maxBurst, events[n - 1]);
      StaysBounded(states[n - 1], maxBurst, events[n - 1]);
      StepKeepsBalance(states[n - 1], maxBurst, events[n - 1], key);
    }
  }

  /** For every key and interleaving: a counter never exceeds the burst limit, and no
      more requests end with an issued credential than were admitted on quota, counting
      what is still banked as already spent. */
  lemma IssuedWithinQuota(maxBurst: nat, states: seq<State>, events: seq<Event>, n: nat, key: string)
    requires Reaches(maxBurst, states, events) && n < |states|
    ensures forall c :: c in states[n].cells ==> c.held <= maxBurst
    ensures Count(states[n].requests, IssuedTo(key)) + Total(states[n].cells, key)
      <= Count(states[n].requests, OnQuota(key))
  {
    RunKeepsBooks(maxBurst, states, events, n, key);
    CountMonotone(states[n].requests, IssuedTo(key), ChargedTo(key));
  }

  // ---- Uninterrupted requests ----

  /** What the key has banked, as the next request finds it. */
  function BankedFor(s: State, key: string): nat
    requires Consistent(s)
  {
    if key in s.cache then s.cells[s.cache[key]].held else 0
  }

  /** A request nothing interferes with pays with a credit exactly when one is banked, and
      then with one less left; otherwise with quota exactly when quota admits. */
  lemma UninterruptedAllow(s: State, maxBurst: nat, key: string, admitted: bool)
    requires Consistent(s)
    ensures var r := |s.requests|;
      var arrived := Next(s, maxBurst, Arrive(key));
      && Consistent(arrived)
      && (BankedFor(s, key) > 0 ==>
            && Enabled(arrived, Spend(r))
            && var spent := Next(arrived, maxBurst, Spend(r));
            spent.requests[r].phase == Paid(Credit) && Consistent(spent) && BankedFor(spent, key) == BankedFor(s, key) - 1)
      && (BankedFor(s, key) == 0 ==>
            && var asking := if arrived.requests[r].phase.Spending? then Next(arrived, maxBurst, Spend(r)) else arrived;
            && asking.requests[r].phase == Asking && Consistent(asking) && BankedFor(asking, key) == 0
            && var asked := Next(asking, maxBurst, CheckQuota(r, admitted));
            asked.requests[r].phase == (if admitted then Paid(Quota) else TurnedAway) && asked.requests[r].onQuota == admitted)
  {
    var r := |s.requests|;
    var arrived := Next(s, maxBurst, Arrive(key));
    StaysConsistent(s, maxBurst, Arrive(key));
    if arrived.requests[r].phase.Spending? {
      StaysConsistent(arrived, maxBurst, Spend(r));
    }
  }

  /** A request that fails after paying with quota gives its admission back: one more credit
      is banked for its key, unless the bank is full. One that paid with a credit, and one
      that is served, gives nothing back. */
  lemma UninterruptedFinish(s: State, maxBurst: nat, r: nat, issued: bool)
    requires Consistent(s) && r < |s.requests| && s.requests[r].phase.Paid?
    ensures var key := s.requests[r].key;
      var finished := Next(s, maxBurst, Finish(r, issued));
      && Consistent(finished) && BankedFor(finished, key) == BankedFor(s, key)
      && (issued ==> finished.requests[r].phase == Issued)
      && (!issued && s.requests[r].phase.payment.Credit? ==> finished.requests[r].phase == Failed)
      && (!issued && s.requests[r].phase.payment.Quota? ==>
            && Enabled(finished, FindCell(r))
            && var found := Next(finished, maxBurst, FindCell(r));
            && Consistent(found) && Enabled(found, Bank(r))
            && var banked := Next(found, maxBurst, Bank(r));
            && Consistent(banked) && banked.requests[r].phase == Refunded
            && BankedFor(banked, key) == if BankedFor(s, key) < maxBurst then BankedFor(s, key) + 1 else BankedFor(s, key))
  {
    var finished := Next(s, maxBurst, Finish(r, issued));
    StaysConsistent(s, maxBurst, Finish(r, issued));
    if finished.requests[r].phase.Refunding? {
      StaysConsistent(finished, maxBurst, FindCell(r));
      var found := Next(finished, maxBurst, FindCell(r));
      StaysConsistent(found, maxBurst, Bank(r));
    }
  }
}
