/**
  The registration queue: four promotion slots per iteration, slot `k` open to
  groups `5 - k` and above, earliest-enqueued first. The promoter works on table
  rows one slot at a time; the status endpoint predicts it with four deques.
 */
module Queue {
  import opened Prelude

  type Group = g: int | 1 <= g <= 4 witness 1

  datatype Entry = Entry(id: int, account: string, group: Group)

  const PLANCK_PER_DOT: nat := 10_000_000_000

  /** Thresholds of 10, 100 and 1000 DOT. */
  function GroupForBalance(planck: nat): (g: Group)
    ensures g >= 2 <==> planck >= 10 * PLANCK_PER_DOT
    ensures g >= 3 <==> planck >= 100 * PLANCK_PER_DOT
    ensures g >= 4 <==> planck >= 1000 * PLANCK_PER_DOT
  {
    if planck >= 1000 * PLANCK_PER_DOT then 4
    else if planck >= 100 * PLANCK_PER_DOT then 3
    else if planck >= 10 * PLANCK_PER_DOT then 2
    else 1
  }

  // ---- The simple form: what a slot does to the queued rows ----

  /** The row a slot promotes, as a sequence of at most one: the earliest of group
      `m` or above. */
  function Chosen(rows: seq<Entry>, m: int): seq<Entry> {
    if rows == [] then []
    else if rows[0].group >= m then [rows[0]]
    else Chosen(rows[1..], m)
  }

  /** The queue without the row that slot promotes. */
  function AfterSlot(rows: seq<Entry>, m: int): seq<Entry> {
    if rows == [] then []
    else if rows[0].group >= m then rows[1..]
    else [rows[0]] + AfterSlot(rows[1..], m)
  }

  /** The rest of an iteration, from the slot of minimum group `m` down to group 1. */
  function AfterSlots(rows: seq<Entry>, m: nat): seq<Entry>
    decreases m
  {
    if m == 0 then rows else AfterSlots(AfterSlot(rows, m), m - 1)
  }

  /** What those slots promote, in order. */
  function Promotions(rows: seq<Entry>, m: nat): seq<Entry>
    decreases m
  {
    if m == 0 then [] else Chosen(rows, m) + Promotions(AfterSlot(rows, m), m - 1)
  }

  datatype Estimate = Estimate(position: nat, iterations: nat)

  /** Run the promoter on `rows` until it promotes `target`: from the slot of minimum
      group `m` of iteration `n` (0 when that iteration is over) through iteration
      `last`, with `count` promotions already made. */
  function Promoted(rows: seq<Entry>, m: nat, n: nat, last: nat, count: nat, target: int): Option<Estimate>
    decreases last + 1 - n, m
  {
    if n > last then None
    else if m == 0 then Promoted(rows, 4, n + 1, last, count, target)
    else if Chosen(rows, m) == [] then Promoted(rows, m - 1, n, last, count, target)
    else if Chosen(rows, m)[0].id == target then Some(Estimate(count + 1, n))
    else Promoted(AfterSlot(rows, m), m - 1, n, last, count + 1, target)
  }

  // ---- The promoter on the table ----

  datatype Row = Row(entry: Entry, queued: bool)

  /** The QUEUED rows in FIFO order. */
  function Queued(table: seq<Row>): seq<Entry> {
    if table == [] then []
    else (if table[0].queued then [table[0].entry] else []) + Queued(table[1..])
  }

  /** Queued, in a group a slot may draw from. */
  predicate Eligible(r: Row, min: int) {
    r.queued && r.entry.group >= min
  }

  /** Row `at` is the earliest eligible one, it is what was promoted, and it alone changed. */
  ghost predicate IsPick(table: seq<Row>, min: int, at: int, promoted: seq<Entry>, after: seq<Row>) {
    && 0 <= at < |table| && Eligible(table[at], min) && (forall j :: 0 <= j < at ==> !Eligible(table[j], min))
    && promoted == [table[at].entry] && after == table[at := Row(table[at].entry, false)]
  }

  /** The reservations table in `(created_at, id)` order. */
  class Reservations {
    var table: seq<Row>

    constructor (rows: seq<Row>)
      ensures table == rows
    {
      table := rows;
    }

    /** One slot's UPDATE: the earliest QUEUED row of an eligible group is reserved. */
    method PromoteSlot(min: int) returns (promoted: seq<Entry>)
      modifies this
      ensures |table| == |old(table)|
      ensures promoted == Chosen(old(Queued(table)), min)
      ensures Queued(table) == AfterSlot(old(Queued(table)), min)
      ensures promoted == [] ==>
        table == old(table) && forall j :: 0 <= j < |table| ==> !Eligible(table[j], min)
      ensures promoted != [] ==> exists at :: IsPick(old(table), min, at, promoted, table)
    {
      var at := 0;
      while at < |table| && !Eligible(table[at], min)
        invariant at <= |table|
        invariant forall j :: 0 <= j < at ==> !Eligible(table[j], min)
        decreases |table| - at
      {
        at := at + 1;
      }
      QueuedSplit(table, at);
      NoneEligible(table[..at], min);
      SlotSkips(Queued(table[..at]), Queued(table[at..]), min);
      if at == |table| {
        return [];
      }
      ghost var before := table;
      promoted := [table[at].entry];
      table := table[at := Row(table[at].entry, false)];
      QueuedSplit(table, at);
      assert table[..at] == before[..at] && table[at..][1..] == before[at..][1..];
      assert Queued(table[at..]) == Queued(before[at..])[1..];
      assert IsPick(before, min, at, promoted, table);
    }

    /** Every queued row is reserved, in one statement. */
    method PromoteAll() returns (promoted: nat)
      modifies this
      ensures promoted == |old(Queued(table))| && Queued(table) == []
      ensures |table| == |old(table)|
      ensures forall j :: 0 <= j < |table| ==> table[j] == Row(old(table)[j].entry, false)
    {
      promoted := |Queued(table)|;
      table := seq(|table|, j requires 0 <= j < |table| reads this => Row(table[j].entry, false));
      NoneQueued(table);
    }

    /** `refresh_groups`, given the balance reads' verdicts. No row is lost, moved or
        (de)queued; a row that is not queued keeps its group, a queued one takes the group
        of the last successful read of its account, and keeps its own when there is none. */
    method RefreshGroups(verdicts: Verdicts)
      modifies this
      ensures table == Refreshed(old(table), verdicts)
      ensures |table| == |old(table)|
      ensures forall j :: 0 <= j < |table| ==> SameClaim(old(table)[j], table[j])
      ensures forall j :: 0 <= j < |table| && !table[j].queued ==> table[j] == old(table)[j]
      ensures forall j :: 0 <= j < |table| && Unread(verdicts, table[j].entry.account) ==> table[j] == old(table)[j]
      ensures forall j, k :: 0 <= j < |table| && table[j].queued && LastRead(verdicts, table[j].entry.account, k) ==>
                table[j].entry.group == verdicts[k].1.value
    {
      ghost var before := table;
      for k := 0 to |verdicts|
        invariant table == Refreshed(before, verdicts[..k])
      {
        assert verdicts[..k + 1][..k] == verdicts[..k];
        var (account, group) := verdicts[k];
        if group.None? {
          continue;
        }
        table := WithGroup(table, account, group.value);
      }
      assert verdicts[..|verdicts|] == verdicts;
      forall j | 0 <= j < |before| ensures RefreshedRow(before[j], table, j, verdicts) {
        RefreshedAt(before, verdicts, j);
      }
    }

    /** `advance_iteration`: slots one to four, each seeing the promotions before it. */
    method AdvanceIteration() returns (promoted: seq<Entry>)
      modifies this
      ensures Queued(table) == AfterSlots(old(Queued(table)), 4)
      ensures promoted == Promotions(old(Queued(table)), 4)
    {
      promoted := RunSlots(4);
    }

    method RunSlots(top: nat) returns (promoted: seq<Entry>)
      modifies this
      ensures Queued(table) == AfterSlots(old(Queued(table)), top)
      ensures promoted == Promotions(old(Queued(table)), top)
    {
      promoted := [];
      ghost var start := Queued(table);
      var min := top;
      while min > 0
        invariant AfterSlots(Queued(table), min) == AfterSlots(start, top)
        invariant promoted + Promotions(Queued(table), min) == Promotions(start, top)
      {
        var more := PromoteSlot(min);
        promoted := promoted + more;
        min := min - 1;
      }
    }
  }

  // ---- The group refresh ----

  /** What a balance read said about each account; `None` when the read failed. */
  type Verdicts = seq<(string, Option<Group>)>

  /** The refresh UPDATE for one account: only its QUEUED rows change group. */
  function WithGroup(table: seq<Row>, account: string, g: Group): (next: seq<Row>)
    ensures |next| == |table|
  {
    if table == [] then []
    else
      var r := table[0];
      [if r.queued && r.entry.account == account then r.(entry := r.entry.(group := g)) else r] + WithGroup(table[1..], account, g)
  }

  /** A failed read keeps the current group. */
  function Refreshed(table: seq<Row>, verdicts: Verdicts): (next: seq<Row>)
    ensures |next| == |table|
    decreases |verdicts|
  {
    if verdicts == [] then table
    else
      var (account, group) := verdicts[|verdicts| - 1];
      var before := Refreshed(table, verdicts[..|verdicts| - 1]);
      if group.None? then before else WithGroup(before, account, group.value)
  }

  /** The same claim, in the same state; only its group may differ. */
  predicate SameClaim(r: Row, r': Row) {
    r'.queued == r.queued && r'.entry.id == r.entry.id && r'.entry.account == r.entry.account
  }

  /** No balance read of the account succeeded. */
  predicate Unread(verdicts: Verdicts, account: string) {
    forall k :: 0 <= k < |verdicts| && verdicts[k].0 == account ==> verdicts[k].1.None?
  }

  /** Verdict `k` is the last successful read of the account. */
  predicate LastRead(verdicts: Verdicts, account: string, k: int) {
    && 0 <= k < |verdicts| && verdicts[k].0 == account && verdicts[k].1.Some?
    && forall i :: k < i < |verdicts| && verdicts[i].0 == account ==> verdicts[i].1.None?
  }

  /** What a refresh makes of row `j`. */
  ghost predicate RefreshedRow(r: Row, table: seq<Row>, j: nat, verdicts: Verdicts) {
    && j < |table| && SameClaim(r, table[j])
    && (!r.queued || Unread(verdicts, r.entry.account) ==> table[j] == r)
    && (forall k :: r.queued && LastRead(verdicts, r.entry.account, k) ==> table[j].entry.group == verdicts[k].1.value)
  }

  lemma {:induction false} WithGroupAt(table: seq<Row>, account: string, g: Group, j: nat)
    requires j < |table|
    ensures WithGroup(table, account, g)[j] ==
      var r := table[j];
      if r.queued && r.entry.account == account then r.(entry := r.entry.(group := g)) else r
  {
    if |table| > 1 {
      WithGroupAt(table[1..], account, g, if j > 0 then j - 1 else 0);
    }
  }

  lemma {:induction false} RefreshedAt(table: seq<Row>, verdicts: Verdicts, j: nat)
    requires j < |table|
    ensures RefreshedRow(table[j], Refreshed(table, verdicts), j, verdicts)
    decreases |verdicts|
  {
    if verdicts != [] {
      var init := verdicts[..|verdicts| - 1];
      var (account, group) := verdicts[|verdicts| - 1];
      RefreshedAt(table, init, j);
      if group.Some? {
        WithGroupAt(Refreshed(table, init), account, group.value, j);
      }
      forall k | LastRead(verdicts, table[j].entry.account, k) && k < |init| ensures LastRead(init, table[j].entry.account, k) {}
    }
  }

  lemma {:induction false} QueuedSplit(table: seq<Row>, at: nat)
    requires at <= |table|
    ensures Queued(table) == Queued(table[..at]) + Queued(table[at..])
  {
    if at == 0 {
      assert table[..0] == [] && table[0..] == table;
    } else {
      QueuedSplit(table[1..], at - 1);
      assert table[1..][..at - 1] == table[..at][1..] && table[1..][at - 1..] == table[at..];
    }
  }

  lemma {:induction false} NoneQueued(table: seq<Row>)
    requires forall j :: 0 <= j < |table| ==> !table[j].queued
    ensures Queued(table) == []
  {
    if table != [] {
      NoneQueued(table[1..]);
    }
  }

  /** The queue in the table's own terms: its queued rows, in order, and no others. */
  lemma {:induction false} QueuedCounts(table: seq<Row>, at: nat)
    requires at < |table| && table[at].queued
    ensures |Queued(table[..at])| < |Queued(table)| && Queued(table)[|Queued(table[..at])|] == table[at].entry
  {
    QueuedSplit(table, at);
    assert table[at..][0] == table[at];
  }

  /** An iteration is four slots: the first open to group 4 alone, the next to 3 and above,
      then 2 and above, then everyone, each on what the one before it left. */
  lemma FourSlots(rows: seq<Entry>)
    ensures var second := AfterSlot(rows, 4);
      var third := AfterSlot(second, 3);
      var fourth := AfterSlot(third, 2);
      && Promotions(rows, 4) == Chosen(rows, 4) + Chosen(second, 3) + Chosen(third, 2) + Chosen(fourth, 1)
      && AfterSlots(rows, 4) == AfterSlot(fourth, 1)
  {
    var second := AfterSlot(rows, 4);
    var third := AfterSlot(second, 3);
    var fourth := AfterSlot(third, 2);
    assert Promotions(fourth, 1) == Chosen(fourth, 1) + [] == Chosen(fourth, 1);
    assert Promotions(third, 2) == Chosen(third, 2) + Promotions(fourth, 1);
    assert Promotions(second, 3) == Chosen(second, 3) + Promotions(third, 2);
  }

  lemma {:induction false} NoneEligible(table: seq<Row>, min: int)
    requires forall j :: 0 <= j < |table| ==> !Eligible(table[j], min)
    ensures forall j :: 0 <= j < |Queued(table)| ==> Queued(table)[j].group < min
  {
    if table != [] {
      NoneEligible(table[1..], min);
    }
  }

  lemma {:induction false} SlotSkips(low: seq<Entry>, rest: seq<Entry>, m: int)
    requires forall j :: 0 <= j < |low| ==> low[j].group < m
    ensures Chosen(low + rest, m) == Chosen(rest, m)
    ensures AfterSlot(low + rest, m) == low + AfterSlot(rest, m)
  {
    if low == [] {
      assert low + rest == rest;
    } else {
      SlotSkips(low[1..], rest, m);
      assert (low + rest)[1..] == low[1..] + rest;
    }
  }

  lemma {:induction false} IdleSlot(rows: seq<Entry>, m: int)
    requires Chosen(rows, m) == []
    ensures AfterSlot(rows, m) == rows
  {
    if rows != [] {
      IdleSlot(rows[1..], m);
    }
  }

  /** The slot in terms of a position: the first `p` rows are below the minimum. */
  lemma SlotAt(rows: seq<Entry>, m: int, p: nat)
    requires p <= |rows| && forall j :: 0 <= j < p ==> rows[j].group < m
    requires p < |rows| ==> rows[p].group >= m
    ensures Chosen(rows, m) == if p < |rows| then [rows[p]] else []
    ensures AfterSlot(rows, m) == if p < |rows| then rows[..p] + rows[p + 1..] else rows
  {
    assert rows == rows[..p] + rows[p..];
    SlotSkips(rows[..p], rows[p..], m);
    if p < |rows| {
      assert rows[p..][1..] == rows[p + 1..];
    }
  }

  lemma {:induction false} SlotCounts(rows: seq<Entry>, m: int)
    ensures |Chosen(rows, m)| <= 1 && |AfterSlot(rows, m)| == |rows| - |Chosen(rows, m)|
  {
    if rows != [] {
      SlotCounts(rows[1..], m);
    }
  }

  /** The promoter never makes more promotions than there are rows. */
  lemma {:induction false} PositionWithinQueue(rows: seq<Entry>, m: nat, n: nat, last: nat, count: nat, target: int)
    ensures var r := Promoted(rows, m, n, last, count, target);
      r.Some? ==> count < r.value.position <= count + |rows|
    decreases last + 1 - n, m
  {
    if n <= last {
      if m == 0 {
        PositionWithinQueue(rows, 4, n + 1, last, count, target);
      } else {
        SlotCounts(rows, m);
        if Chosen(rows, m) == [] {
          PositionWithinQueue(rows, m - 1, n, last, count, target);
        } else if Chosen(rows, m)[0].id != target {
          PositionWithinQueue(AfterSlot(rows, m), m - 1, n, last, count + 1, target);
        }
      }
    }
  }
}
