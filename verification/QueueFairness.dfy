/**
  What the slot rules promise: nobody starves, a claim only waits for earlier
  claims of its own group or above, a top-up never costs its owner a place, and
  the status endpoint always finds a queued claim.
 */
module QueueFairness {
  import opened Prelude
  import opened Queue
  import DrainEstimate

  predicate In(rows: seq<Entry>, id: int) {
    rows != [] && (rows[0].id == id || In(rows[1..], id))
  }

  /** How many rows stand before a claim (the length when it is not queued). */
  function Ahead(rows: seq<Entry>, id: int): nat {
    if rows == [] || rows[0].id == id then 0 else 1 + Ahead(rows[1..], id)
  }

  /** How many of those are of group `g` or above. */
  function Rivals(rows: seq<Entry>, id: int, g: int): nat {
    if rows == [] || rows[0].id == id then 0
    else (if rows[0].group >= g then 1 else 0) + Rivals(rows[1..], id, g)
  }

  function GroupOf(rows: seq<Entry>, id: int): Group
    requires In(rows, id)
  {
    if rows[0].id == id then rows[0].group else GroupOf(rows[1..], id)
  }

  predicate Unique(rows: seq<Entry>) {
    rows == [] || (!In(rows[1..], rows[0].id) && Unique(rows[1..]))
  }

  // ---- One slot, one iteration ----

  lemma {:induction false} ConcatIn(a: seq<Entry>, b: seq<Entry>, id: int)
    ensures In(a + b, id) <==> In(a, id) || In(b, id)
    ensures Ahead(a + b, id) == if In(a, id) then Ahead(a, id) else |a| + Ahead(b, id)
  {
    if a == [] {
      assert a + b == b;
    } else {
      assert (a + b)[1..] == a[1..] + b;
      ConcatIn(a[1..], b, id);
    }
  }

  /** A slot splits the queue: each claim is promoted or kept, and never both. */
  lemma {:induction false} SlotSplits(rows: seq<Entry>, m: int, id: int)
    requires Unique(rows)
    ensures Unique(AfterSlot(rows, m))
    ensures In(rows, id) <==> In(Chosen(rows, m), id) || In(AfterSlot(rows, m), id)
    ensures !(In(Chosen(rows, m), id) && In(AfterSlot(rows, m), id))
  {
    if rows != [] && rows[0].group < m {
      SlotSplits(rows[1..], m, id);
      SlotSplits(rows[1..], m, rows[0].id);
    }
  }

  /** A kept claim never falls back; its own group and its rivals only improve. The
      slot open to everyone moves it forward, and the slot of its own group takes a
      rival from before it. */
  lemma {:induction false} SlotServes(rows: seq<Entry>, m: int, id: int)
    requires Unique(rows) && In(rows, id) && In(AfterSlot(rows, m), id)
    ensures Ahead(AfterSlot(rows, m), id) <= Ahead(rows, id)
    ensures m <= 1 ==> Ahead(AfterSlot(rows, m), id) < Ahead(rows, id)
    ensures GroupOf(AfterSlot(rows, m), id) == GroupOf(rows, id)
    ensures forall g :: Rivals(AfterSlot(rows, m), id, g) <= Rivals(rows, id, g)
    ensures m == GroupOf(rows, id) ==> Rivals(AfterSlot(rows, m), id, m) < Rivals(rows, id, m)
  {
    if rows[0].group < m && rows[0].id != id {
      SlotServes(rows[1..], m, id);
    }
  }

  lemma {:induction false} SlotsSplit(rows: seq<Entry>, m: nat, id: int)
    requires Unique(rows)
    ensures Unique(AfterSlots(rows, m))
    ensures In(rows, id) <==> In(Promotions(rows, m), id) || In(AfterSlots(rows, m), id)
    ensures !(In(Promotions(rows, m), id) && In(AfterSlots(rows, m), id))
    decreases m
  {
    if m > 0 {
      SlotSplits(rows, m, id);
      ConcatIn(Chosen(rows, m), Promotions(AfterSlot(rows, m), m - 1), id);
      SlotsSplit(AfterSlot(rows, m), m - 1, id);
    }
  }

  /** The same over the rest of an iteration. */
  lemma {:induction false} SlotsServe(rows: seq<Entry>, m: nat, id: int)
    requires Unique(rows) && In(rows, id) && In(AfterSlots(rows, m), id)
    ensures Ahead(AfterSlots(rows, m), id) <= Ahead(rows, id)
    ensures m >= 1 ==> Ahead(AfterSlots(rows, m), id) < Ahead(rows, id)
    ensures GroupOf(AfterSlots(rows, m), id) == GroupOf(rows, id)
    ensures Rivals(AfterSlots(rows, m), id, GroupOf(rows, id)) <= Rivals(rows, id, GroupOf(rows, id))
    ensures m >= GroupOf(rows, id) ==> Rivals(AfterSlots(rows, m), id, GroupOf(rows, id)) < Rivals(rows, id, GroupOf(rows, id))
    decreases m
  {
    if m > 0 {
      SlotSplits(rows, m, id);
      SlotsSplit(AfterSlot(rows, m), m - 1, id);
      SlotServes(rows, m, id);
      SlotsServe(AfterSlot(rows, m), m - 1, id);
    }
  }

  // ---- Runs with arrivals and group refreshes between iterations ----

  /** What may happen between iterations: the rows left keep their order, groups are
      refreshed (unless `fixed`), and later claims arrive behind them. */
  predicate Between(after: seq<Entry>, next: seq<Entry>, fixed: bool) {
    after == [] ||
    (&& next != [] && next[0].id == after[0].id && (fixed ==> next[0] == after[0])
     && Between(after[1..], next[1..], fixed))
  }

  lemma {:induction false} BetweenKeeps(after: seq<Entry>, next: seq<Entry>, fixed: bool, id: int)
    requires Between(after, next, fixed) && In(after, id)
    ensures In(next, id) && Ahead(next, id) == Ahead(after, id)
    ensures fixed ==> GroupOf(next, id) == GroupOf(after, id)
    ensures fixed ==> forall g :: Rivals(next, id, g) == Rivals(after, id, g)
  {
    if after[0].id != id {
      BetweenKeeps(after[1..], next[1..], fixed, id);
    }
  }

  lemma {:induction false} GroupChangeIsBetween(table: seq<Row>, account: string, g: Group)
    ensures Between(Queued(table), Queued(WithGroup(table, account, g)), false)
  {
    if table != [] {
      GroupChangeIsBetween(table[1..], account, g);
      var next := WithGroup(table, account, g);
      assert next[1..] == WithGroup(table[1..], account, g);
      if table[0].queued {
        assert Queued(table)[1..] == Queued(table[1..]) && Queued(next)[1..] == Queued(next[1..]);
      } else {
        assert Queued(table) == Queued(table[1..]) && Queued(next) == Queued(next[1..]);
      }
    }
  }

  lemma {:induction false} BetweenTransitive(a: seq<Entry>, b: seq<Entry>, c: seq<Entry>)
    requires Between(a, b, false) && Between(b, c, false)
    ensures Between(a, c, false)
  {
    if a != [] {
      BetweenTransitive(a[1..], b[1..], c[1..]);
    }
  }

  lemma {:induction false} BetweenArrivals(a: seq<Entry>, b: seq<Entry>, arrivals: seq<Entry>)
    requires Between(a, b, false)
    ensures Between(a, b + arrivals, false)
  {
    if a != [] {
      assert (b + arrivals)[1..] == b[1..] + arrivals;
      BetweenArrivals(a[1..], b[1..], arrivals);
    }
  }

  lemma {:induction false} BetweenReflexive(a: seq<Entry>)
    ensures Between(a, a, false)
  {
    if a != [] {
      BetweenReflexive(a[1..]);
    }
  }

  /** A group refresh followed by any arrivals is one of the changes the fairness
      results allow: it loses, reorders and overtakes nobody. */
  lemma {:induction false} RefreshIsBetween(table: seq<Row>, verdicts: Verdicts, arrivals: seq<Entry>)
    ensures Between(Queued(table), Queued(Refreshed(table, verdicts)) + arrivals, false)
    decreases |verdicts|
  {
    if verdicts == [] {
      BetweenReflexive(Queued(table));
      BetweenArrivals(Queued(table), Queued(table), arrivals);
    } else {
      var (account, group) := verdicts[|verdicts| - 1];
      var init := verdicts[..|verdicts| - 1];
      if group.None? {
        RefreshIsBetween(table, init, arrivals);
      } else {
        RefreshIsBetween(table, init, []);
        var before := Refreshed(table, init);
        assert Queued(before) + [] == Queued(before);
        GroupChangeIsBetween(before, account, group.value);
        BetweenTransitive(Queued(table), Queued(before), Queued(WithGroup(before, account, group.value)));
        BetweenArrivals(Queued(table), Queued(Refreshed(table, verdicts)), arrivals);
      }
    }
  }

  ghost predicate IsRun(queues: seq<seq<Entry>>, fixed: bool) {
    && (forall k :: 0 <= k < |queues| ==> Unique(queues[k]))
    && (forall k :: 0 <= k < |queues| - 1 ==> Between(AfterSlots(queues[k], 4), queues[k + 1], fixed))
  }

  /** No starvation: whatever arrives later and however groups change, a claim with
      `r` claims ahead of it is promoted by iteration `r + 1`. */
  lemma {:induction false} NoStarvation(queues: seq<seq<Entry>>, id: int) returns (k: nat)
    requires IsRun(queues, false) && |queues| > 0
    requires In(queues[0], id) && Ahead(queues[0], id) < |queues|
    ensures k <= Ahead(queues[0], id) && In(Promotions(queues[k], 4), id)
    decreases |queues|
  {
    SlotsSplit(queues[0], 4, id);
    if In(Promotions(queues[0], 4), id) {
      return 0;
    }
    SlotsServe(queues[0], 4, id);
    BetweenKeeps(AfterSlots(queues[0], 4), queues[1], false, id);
    k := NoStarvation(queues[1..], id);
    k := k + 1;
  }

  /** While the groups of queued claims do not change, a claim of group `g` is promoted
      within one more iteration than the number of earlier claims of groups `g` and
      above: lower groups never delay it, however many arrive. */
  lemma {:induction false} ServedWithinGroup(queues: seq<seq<Entry>>, id: int) returns (k: nat)
    requires IsRun(queues, true) && |queues| > 0 && In(queues[0], id)
    requires Rivals(queues[0], id, GroupOf(queues[0], id)) < |queues|
    ensures k <= Rivals(queues[0], id, GroupOf(queues[0], id))
    ensures k < |queues| && In(Promotions(queues[k], 4), id)
    decreases |queues|
  {
    SlotsSplit(queues[0], 4, id);
    if In(Promotions(queues[0], 4), id) {
      return 0;
    }
    SlotsServe(queues[0], 4, id);
    BetweenKeeps(AfterSlots(queues[0], 4), queues[1], true, id);
    k := ServedWithinGroup(queues[1..], id);
    k := k + 1;
  }

  // ---- The estimate, iteration by iteration ----

  /** The prediction read off the promoter: the target's place in this iteration's
      promotions, or the same question after the iteration. */
  lemma {:induction false} PromotedUnfolds(rows: seq<Entry>, m: nat, n: nat, last: nat, count: nat, id: int)
    requires n <= last
    ensures Promoted(rows, m, n, last, count, id) ==
            if In(Promotions(rows, m), id) then Some(Estimate(count + Ahead(Promotions(rows, m), id) + 1, n))
            else Promoted(AfterSlots(rows, m), 4, n + 1, last, count + |Promotions(rows, m)|, id)
    decreases m
  {
    if m > 0 {
      ConcatIn(Chosen(rows, m), Promotions(AfterSlot(rows, m), m - 1), id);
      PromotedUnfolds(AfterSlot(rows, m), m - 1, n, last, count + |Chosen(rows, m)|, id);
      SlotCounts(rows, m);
      if Chosen(rows, m) == [] {
        IdleSlot(rows, m);
      }
    }
  }

  /** The search finds a queued claim no later than the starvation bound, and finds
      nothing that is not queued. */
  lemma {:induction false} PromotedInTime(rows: seq<Entry>, n: nat, last: nat, count: nat, id: int)
    requires Unique(rows)
    ensures In(rows, id) && n + Ahead(rows, id) <= last ==>
              var r := Promoted(rows, 4, n, last, count, id);
              r.Some? && n <= r.value.iterations <= n + Ahead(rows, id)
    ensures !In(rows, id) ==> Promoted(rows, 4, n, last, count, id).None?
    decreases last + 1 - n
  {
    if n <= last {
      PromotedUnfolds(rows, 4, n, last, count, id);
      SlotsSplit(rows, 4, id);
      if In(AfterSlots(rows, 4), id) {
        SlotsServe(rows, 4, id);
      }
      PromotedInTime(AfterSlots(rows, 4), n + 1, last, count + |Promotions(rows, 4)|, id);
    }
  }

  lemma {:induction false} AheadBound(rows: seq<Entry>, id: int)
    ensures In(rows, id) ==> Ahead(rows, id) < |rows|
  {
    if rows != [] {
      AheadBound(rows[1..], id);
    }
  }

  /** The loop bound of `drain_estimate` is enough: on any snapshot that fits 32 bits it
      answers exactly when the target is queued, with a place and an iteration within the
      queue. */
  lemma EstimateIsTotal(entries: seq<Entry>, target: int)
    requires Unique(entries) && |entries| < 0x1_0000_0000
    ensures var r := DrainEstimate.Predicted(entries, target);
      && (r.Some? <==> In(entries, target))
      && (r.Some? ==> 1 <= r.value.position <= |entries| && 1 <= r.value.iterations <= Ahead(entries, target) + 1)
  {
    AheadBound(entries, target);
    PromotedInTime(entries, 1, |entries|, 0, target);
    PositionWithinQueue(entries, 4, 1, |entries|, 0, target);
  }

  /** Cutting the search off earlier loses exactly the later answers. */
  lemma {:induction false} ShorterSearch(rows: seq<Entry>, m: nat, n: nat, last: nat, longer: nat, count: nat, id: int)
    requires last <= longer
    ensures var full := Promoted(rows, m, n, longer, count, id);
      Promoted(rows, m, n, last, count, id) == if full.Some? && full.value.iterations <= last then full else None
    decreases last + 1 - n, m
  {
    if n > last {
      NeverBefore(rows, m, n, longer, count, id);
    } else if m == 0 {
      ShorterSearch(rows, 4, n + 1, last, longer, count, id);
    } else if Chosen(rows, m) == [] {
      ShorterSearch(rows, m - 1, n, last, longer, count, id);
    } else if Chosen(rows, m)[0].id != id {
      ShorterSearch(AfterSlot(rows, m), m - 1, n, last, longer, count + 1, id);
    }
  }

  /** On any snapshot whatever, the estimate finds a target if and only if it is queued
      and its iteration does not exceed the snapshot length as cast to 32 bits. */
  lemma EstimateIsExact(entries: seq<Entry>, target: int)
    requires Unique(entries)
    ensures var full := Promoted(entries, 4, 1, |entries|, 0, target);
      && (full.Some? <==> In(entries, target))
      && DrainEstimate.Predicted(entries, target) ==
         if full.Some? && full.value.iterations <= DrainEstimate.Wrap32(|entries|) then full else None
  {
    AheadBound(entries, target);
    PromotedInTime(entries, 1, |entries|, 0, target);
    ShorterSearch(entries, 4, 1, DrainEstimate.Wrap32(|entries|), |entries|, 0, target);
  }

  /** So a snapshot of exactly 2^32 claims, its length cast to 0, finds nobody. */
  lemma CastLengthFindsNobody(entries: seq<Entry>, target: int)
    requires |entries| == 0x1_0000_0000
    ensures DrainEstimate.Predicted(entries, target).None?
  {
    assert DrainEstimate.Wrap32(|entries|) == 0;
  }

  lemma {:induction false} IndexedIn(rows: seq<Entry>, i: nat)
    requires i < |rows|
    ensures In(rows, rows[i].id)
  {
    if i > 0 {
      IndexedIn(rows[1..], i - 1);
    }
  }

  /** `r` reports the subject's earliest claim, at `i`, and where the drain promotes it. */
  ghost predicate IsStanding(snapshot: seq<Entry>, subject: string, i: nat, r: (nat, Group, nat))
    requires i < |snapshot|
  {
    var predicted := DrainEstimate.Predicted(snapshot, snapshot[i].id);
    && snapshot[i].account == subject && (forall j :: 0 <= j < i ==> snapshot[j].account != subject)
    && predicted.Some? && r.1 == snapshot[i].group && r.2 == predicted.value.iterations
    && r.0 == (if |snapshot| < 0x1_0000_0000 then predicted.value.position else DrainEstimate.Wrapped(predicted.value).position)
  }

  /** The caller's earliest claim, then its place in the drain. */
  method StatusInSnapshot(snapshot: seq<Entry>, subject: string) returns (r: Option<(nat, Group, nat)>)
    requires Unique(snapshot)
    ensures |snapshot| < 0x1_0000_0000 ==> (r.Some? <==> exists i :: 0 <= i < |snapshot| && snapshot[i].account == subject)
    ensures r.Some? ==> exists i :: 0 <= i < |snapshot| && IsStanding(snapshot, subject, i, r.value)
  {
    var at := 0;
    while at < |snapshot| && snapshot[at].account != subject
      invariant at <= |snapshot| && forall j :: 0 <= j < at ==> snapshot[j].account != subject
    {
      at := at + 1;
    }
    if at == |snapshot| {
      return None;
    }
    var estimate := DrainEstimate.Simulate(snapshot, snapshot[at].id);
    if |snapshot| < 0x1_0000_0000 {
      IndexedIn(snapshot, at);
      EstimateIsTotal(snapshot, snapshot[at].id);
    }
    if estimate.None? {
      return None;
    }
    r := Some((estimate.value.position, snapshot[at].group, estimate.value.iterations));
    assert IsStanding(snapshot, subject, at, r.value);
  }

  // ---- Topping up never hurts ----

  lemma {:induction false} NeverBefore(rows: seq<Entry>, m: nat, n: nat, last: nat, count: nat, id: int)
    ensures var r := Promoted(rows, m, n, last, count, id);
      r.Some? ==> r.value.position > count && r.value.iterations >= n
    decreases last + 1 - n, m
  {
    if n <= last {
      if m == 0 {
        NeverBefore(rows, 4, n + 1, last, count, id);
      } else if Chosen(rows, m) == [] {
        NeverBefore(rows, m - 1, n, last, count, id);
      } else if Chosen(rows, m)[0].id != id {
        NeverBefore(AfterSlot(rows, m), m - 1, n, last, count + 1, id);
      }
    }
  }

  /** The same queue with one claim's group changed. */
  function Raised(rows: seq<Entry>, id: int, g: Group): seq<Entry> {
    if rows == [] then []
    else if rows[0].id == id then [rows[0].(group := g)] + rows[1..]
    else [rows[0]] + Raised(rows[1..], id, g)
  }

  /** A slot promotes the raised claim, or treats both queues alike. */
  lemma {:induction false} SameSlot(rows: seq<Entry>, m: int, id: int, g: Group)
    requires Unique(rows) && In(rows, id) && g >= GroupOf(rows, id)
    ensures var chosen := Chosen(Raised(rows, id, g), m);
      || (chosen != [] && chosen[0].id == id)
      || (&& chosen == Chosen(rows, m) && !In(chosen, id)
          && In(AfterSlot(rows, m), id) && GroupOf(AfterSlot(rows, m), id) == GroupOf(rows, id)
          && AfterSlot(Raised(rows, id, g), m) == Raised(AfterSlot(rows, m), id, g))
  {
    var raised := Raised(rows, id, g);
    if rows[0].id == id {
      assert raised[1..] == rows[1..];
      if g < m {
        NotChosen(rows[1..], m, id);
      }
    } else {
      assert raised[1..] == Raised(rows[1..], id, g);
      if rows[0].group < m {
        SameSlot(rows[1..], m, id, g);
        assert AfterSlot(rows, m)[1..] == AfterSlot(rows[1..], m);
      }
    }
  }

  lemma {:induction false} NotChosen(rows: seq<Entry>, m: int, id: int)
    requires !In(rows, id)
    ensures !In(Chosen(rows, m), id)
  {
    if rows != [] {
      NotChosen(rows[1..], m, id);
    }
  }

  /** If the claim was found before, it is found after, no later in either measure. */
  predicate NoLater(after: Option<Estimate>, before: Option<Estimate>) {
    before.Some? ==>
      && after.Some?
      && after.value.position <= before.value.position && after.value.iterations <= before.value.iterations
  }

  lemma SlotFindsRaised(rows: seq<Entry>, m: nat, n: nat, last: nat, count: nat, id: int, g: Group)
    requires 0 < m && n <= last
    requires var chosen := Chosen(Raised(rows, id, g), m); chosen != [] && chosen[0].id == id
    ensures NoLater(Promoted(Raised(rows, id, g), m, n, last, count, id), Promoted(rows, m, n, last, count, id))
  {
    NeverBefore(rows, m, n, last, count, id);
  }

  /** Raising one claim's group, all else equal, never makes its own drain position or
      iteration larger. */
  lemma {:induction false} RaisingNeverHurts(rows: seq<Entry>, m: nat, n: nat, last: nat, count: nat, id: int, g: Group)
    requires Unique(rows) && In(rows, id) && g >= GroupOf(rows, id)
    ensures NoLater(Promoted(Raised(rows, id, g), m, n, last, count, id), Promoted(rows, m, n, last, count, id))
    decreases last + 1 - n, m
  {
    if n <= last {
      if m == 0 {
        RaisingNeverHurts(rows, 4, n + 1, last, count, id, g);
      } else {
        SameSlot(rows, m, id, g);
        var chosen := Chosen(Raised(rows, id, g), m);
        if chosen != [] && chosen[0].id == id {
          SlotFindsRaised(rows, m, n, last, count, id, g);
        } else if chosen == [] {
          RaisingNeverHurts(rows, m - 1, n, last, count, id, g);
        } else {
          SlotSplits(rows, m, id);
          RaisingNeverHurts(AfterSlot(rows, m), m - 1, n, last, count + 1, id, g);
        }
      }
    }
  }
}
