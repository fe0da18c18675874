/**
  The status endpoint's fast simulation: four deques of snapshot indices, one per
  priority group, popped slot by slot. It is proved to predict the promoter.
 */
module DrainEstimate {
  import opened Prelude
  import opened Queue

  /** The snapshot length and the running position are cast to 32 bits. */
  function Wrap32(x: nat): (w: nat)
    ensures x < 0x1_0000_0000 ==> w == x
    ensures w < 0x1_0000_0000
  {
    x % 0x1_0000_0000
  }

  lemma WrapStep(x: nat)
    ensures Wrap32(Wrap32(x) + 1) == Wrap32(x + 1)
  {
  }

  // ---- The deques and the queue they stand for ----

  ghost predicate Increasing(s: seq<nat>) {
    forall i, j :: 0 <= i < j < |s| ==> s[i] < s[j]
  }

  /** `rem` lists the snapshot indices still queued, in FIFO order. */
  ghost predicate Indices(entries: seq<Entry>, rem: seq<nat>) {
    Increasing(rem) && forall i :: 0 <= i < |rem| ==> rem[i] < |entries|
  }

  ghost function Rows(entries: seq<Entry>, rem: seq<nat>): (rows: seq<Entry>)
    requires Indices(entries, rem)
    ensures |rows| == |rem|
    ensures forall i :: 0 <= i < |rem| ==> rows[i] == entries[rem[i]]
  {
    seq(|rem|, i requires 0 <= i < |rem| => entries[rem[i]])
  }

  /** Deque `d` holds exactly the queued indices of group `d + 1`, oldest first. */
  ghost predicate IsDeque(entries: seq<Entry>, rem: seq<nat>, d: nat, deque: seq<nat>)
    requires Indices(entries, rem)
  {
    Increasing(deque) && forall x :: x in deque <==> x in rem && entries[x].group == d + 1
  }

  ghost predicate Stand(entries: seq<Entry>, rem: seq<nat>, deques: seq<seq<nat>>) {
    && Indices(entries, rem) && |deques| == 4
    && (forall d :: 0 <= d < 4 ==> IsDeque(entries, rem, d, deques[d]))
  }

  /** The smallest head among the eligible deques. */
  method EarliestHead(deques: seq<seq<nat>>, min: nat) returns (pick: Option<(nat, nat)>)
    requires |deques| == 4 && 1 <= min <= 4
    ensures pick.None? <==> forall d :: min - 1 <= d < 4 ==> deques[d] == []
    ensures pick.Some? ==>
              && min - 1 <= pick.value.1 < 4 && deques[pick.value.1] != []
              && pick.value.0 == deques[pick.value.1][0]
    ensures pick.Some? ==> forall d :: min - 1 <= d < 4 && deques[d] != [] ==> pick.value.0 <= deques[d][0]
  {
    pick := None;
    for d := min - 1 to 4
      invariant pick.None? <==> forall c :: min - 1 <= c < d ==> deques[c] == []
      invariant pick.Some? ==>
                  && min - 1 <= pick.value.1 < d && deques[pick.value.1] != []
                  && pick.value.0 == deques[pick.value.1][0]
      invariant pick.Some? ==> forall c :: min - 1 <= c < d && deques[c] != [] ==> pick.value.0 <= deques[c][0]
    {
      if deques[d] != [] && (pick.None? || deques[d][0] < pick.value.0) {
        pick := Some((deques[d][0], d));
      }
    }
  }

  /** Position of the row a slot would choose; the length when there is none. */
  ghost function Earliest(rows: seq<Entry>, min: int): (i: nat)
    ensures i <= |rows|
    ensures i < |rows| ==> rows[i].group >= min
    ensures forall j :: 0 <= j < i ==> rows[j].group < min
  {
    if rows == [] then 0
    else if rows[0].group >= min then 0
    else 1 + Earliest(rows[1..], min)
  }

  /** A head of an eligible deque never precedes the row the promoter would choose. */
  lemma HeadNotBefore(entries: seq<Entry>, rem: seq<nat>, deques: seq<seq<nat>>, min: nat, d: nat)
    requires Stand(entries, rem, deques) && 1 <= min <= d + 1 <= 4 && deques[d] != []
    ensures var p := Earliest(Rows(entries, rem), min);
      p < |rem| && rem[p] <= deques[d][0]
  {
    assert IsDeque(entries, rem, d, deques[d]) && deques[d][0] in deques[d];
    var q :| 0 <= q < |rem| && rem[q] == deques[d][0];
    assert Rows(entries, rem)[q].group == d + 1;
  }

  /** The chosen row heads its own deque. */
  lemma ChoiceIsHead(entries: seq<Entry>, rem: seq<nat>, deques: seq<seq<nat>>, min: nat)
    requires Stand(entries, rem, deques) && 1 <= min <= 4
    requires Earliest(Rows(entries, rem), min) < |rem|
    ensures var x := rem[Earliest(Rows(entries, rem), min)];
      var d := entries[x].group - 1;
      min <= d + 1 && deques[d] != [] && deques[d][0] == x
  {
    var x := rem[Earliest(Rows(entries, rem), min)];
    var d := entries[x].group - 1;
    assert IsDeque(entries, rem, d, deques[d]) && x in rem;
    HeadNotBefore(entries, rem, deques, min, d);
  }

  lemma TailOf(s: seq<nat>)
    requires Increasing(s) && s != []
    ensures Increasing(s[1..]) && forall x :: x in s[1..] <==> x in s && x != s[0]
  {
    forall x | x in s && x != s[0] ensures x in s[1..] {
      var i :| 0 <= i < |s| && s[i] == x;
      assert s[1..][i - 1] == x;
    }
  }

  lemma Removed(rem: seq<nat>, p: nat)
    requires Increasing(rem) && p < |rem|
    ensures Increasing(rem[..p] + rem[p + 1..])
    ensures forall x :: x in rem[..p] + rem[p + 1..] <==> x in rem && x != rem[p]
  {
    var rest := rem[..p] + rem[p + 1..];
    forall x | x in rem && x != rem[p] ensures x in rest {
      var i :| 0 <= i < |rem| && rem[i] == x;
      assert rest[if i < p then i else i - 1] == x;
    }
  }

  /** One deque of the queue that lost index `x`. */
  lemma PopDeque(entries: seq<Entry>, rem: seq<nat>, rest: seq<nat>, c: nat, deque: seq<nat>, x: nat)
    requires Indices(entries, rem) && Indices(entries, rest) && IsDeque(entries, rem, c, deque)
    requires x in rem && forall y :: y in rest <==> y in rem && y != x
    requires entries[x].group == c + 1 ==> deque != [] && deque[0] == x
    ensures IsDeque(entries, rest, c, if entries[x].group == c + 1 then deque[1..] else deque)
  {
    if entries[x].group == c + 1 {
      TailOf(deque);
    }
  }

  /** Popping the head that is row `p` leaves the deques of the queue without it. */
  lemma PopStands(entries: seq<Entry>, rem: seq<nat>, deques: seq<seq<nat>>, p: nat, d: nat)
    requires Stand(entries, rem, deques) && p < |rem| && d < 4
    requires entries[rem[p]].group == d + 1 && deques[d] != [] && deques[d][0] == rem[p]
    ensures Stand(entries, rem[..p] + rem[p + 1..], deques[d := deques[d][1..]])
  {
    Removed(rem, p);
    var rest, deques' := rem[..p] + rem[p + 1..], deques[d := deques[d][1..]];
    assert Indices(entries, rest);
    forall c | 0 <= c < 4 ensures IsDeque(entries, rest, c, deques'[c]) {
      PopDeque(entries, rem, rest, c, deques[c], rem[p]);
    }
  }

  /** Pushing the next snapshot index onto its group's deque. */
  lemma PushStands(entries: seq<Entry>, rem: seq<nat>, deques: seq<seq<nat>>, index: nat)
    requires Stand(entries, rem, deques) && index < |entries|
    requires forall i :: 0 <= i < |rem| ==> rem[i] < index
    ensures var d := entries[index].group - 1;
      Stand(entries, rem + [index], deques[d := deques[d] + [index]])
  {
    var d := entries[index].group - 1;
    var rem', deques' := rem + [index], deques[d := deques[d] + [index]];
    forall c | 0 <= c < 4 ensures IsDeque(entries, rem', c, deques'[c]) {
      assert IsDeque(entries, rem, c, deques[c]);
      assert forall i :: 0 <= i < |deques[c]| ==> deques[c][i] in deques[c];
    }
  }

  /** The exact prediction, before 32-bit truncation. */
  ghost function Predicted(entries: seq<Entry>, target: int): Option<Estimate> {
    Promoted(entries, 4, 1, Wrap32(|entries|), 0, target)
  }

  method FillDeques(entries: seq<Entry>) returns (deques: seq<seq<nat>>, ghost rem: seq<nat>)
    ensures Stand(entries, rem, deques) && Rows(entries, rem) == entries
  {
    deques, rem := [[], [], [], []], [];
    for index := 0 to |entries|
      invariant |rem| == index && forall i :: 0 <= i < index ==> rem[i] == i
      invariant Stand(entries, rem, deques)
    {
      var d := entries[index].group - 1;
      PushStands(entries, rem, deques, index);
      rem := rem + [index];
      deques := deques[d := deques[d] + [index]];
    }
  }

  /** With every eligible deque empty, the promoter's slot stays idle. */
  lemma SlotIdles(entries: seq<Entry>, rem: seq<nat>, deques: seq<seq<nat>>, min: nat)
    requires Stand(entries, rem, deques) && 1 <= min <= 4
    requires forall d :: min - 1 <= d < 4 ==> deques[d] == []
    ensures Chosen(Rows(entries, rem), min) == [] && AfterSlot(Rows(entries, rem), min) == Rows(entries, rem)
  {
    var rows := Rows(entries, rem);
    if Earliest(rows, min) < |rem| {
      ChoiceIsHead(entries, rem, deques, min);
    }
    SlotAt(rows, min, |rem|);
  }

  /** The smallest eligible head is the row the promoter's slot takes. */
  lemma SlotPops(entries: seq<Entry>, rem: seq<nat>, deques: seq<seq<nat>>, min: nat, d: nat) returns (p: nat)
    requires Stand(entries, rem, deques) && 1 <= min <= d + 1 <= 4 && deques[d] != []
    requires forall c :: min - 1 <= c < 4 && deques[c] != [] ==> deques[d][0] <= deques[c][0]
    ensures p < |rem| && rem[p] == deques[d][0] && entries[rem[p]].group == d + 1
    ensures Chosen(Rows(entries, rem), min) == [entries[rem[p]]]
    ensures AfterSlot(Rows(entries, rem), min) == Rows(entries, rem)[..p] + Rows(entries, rem)[p + 1..]
  {
    p := Earliest(Rows(entries, rem), min);
    HeadNotBefore(entries, rem, deques, min, d);
    ChoiceIsHead(entries, rem, deques, min);
    SlotAt(Rows(entries, rem), min, p);
    assert IsDeque(entries, rem, d, deques[d]) && deques[d][0] in deques[d];
  }

  lemma RowsWithout(entries: seq<Entry>, rem: seq<nat>, p: nat)
    requires Indices(entries, rem) && p < |rem|
    ensures Indices(entries, rem[..p] + rem[p + 1..])
    ensures Rows(entries, rem[..p] + rem[p + 1..]) == Rows(entries, rem)[..p] + Rows(entries, rem)[p + 1..]
  {
  }

  /** One slot of the simulation: the deques pop exactly the row the promoter promotes. */
  method PopSlot(entries: seq<Entry>, deques: seq<seq<nat>>, ghost rem: seq<nat>, min: nat)
    returns (picked: seq<Entry>, deques': seq<seq<nat>>, ghost rem': seq<nat>)
    requires Stand(entries, rem, deques) && 1 <= min <= 4
    ensures Stand(entries, rem', deques')
    ensures picked == Chosen(Rows(entries, rem), min)
    ensures Rows(entries, rem') == AfterSlot(Rows(entries, rem), min)
  {
    var pick := EarliestHead(deques, min);
    if pick.None? {
      SlotIdles(entries, rem, deques, min);
      return [], deques, rem;
    }
    var (index, d) := pick.value;
    ghost var p := SlotPops(entries, rem, deques, min, d);
    PopStands(entries, rem, deques, p, d);
    RowsWithout(entries, rem, p);
    return [entries[index]], deques[d := deques[d][1..]], rem[..p] + rem[p + 1..];
  }

  /** One iteration: either it promotes the target, or the drain goes on after it. */
  method SimulateIteration(entries: seq<Entry>, target: int, deques: seq<seq<nat>>, ghost rem: seq<nat>,
                           ghost iteration: nat, ghost bound: nat, position: nat, ghost count: nat)
    returns (found: bool, deques': seq<seq<nat>>, ghost rem': seq<nat>, position': nat, ghost count': nat)
    requires Stand(entries, rem, deques) && position == Wrap32(count) && iteration <= bound
    ensures Stand(entries, rem', deques') && position' == Wrap32(count')
    ensures Promoted(Rows(entries, rem), 4, iteration, bound, count, target) ==
            if found then Some(Estimate(count', iteration))
            else Promoted(Rows(entries, rem'), 4, iteration + 1, bound, count', target)
  {
    found, deques', rem', position', count' := false, deques, rem, position, count;
    var min := 4;
    while min > 0
      invariant 0 <= min <= 4 && !found
      invariant Stand(entries, rem', deques') && position' == Wrap32(count')
      invariant Promoted(Rows(entries, rem), 4, iteration, bound, count, target) ==
                Promoted(Rows(entries, rem'), min, iteration, bound, count', target)
    {
      var picked;
      ghost var rows := Rows(entries, rem');
      picked, deques', rem' := PopSlot(entries, deques', rem', min);
      if picked == [] {
        IdleSlot(rows, min);
      } else {
        WrapStep(count');
        position', count' := Wrap32(position' + 1), count' + 1;
        if picked[0].id == target {
          found := true;
          return;
        }
      }
      min := min - 1;
    }
  }

  /** The search itself, its position counted in 32 bits. */
  method Search(entries: seq<Entry>, target: int) returns (r: Option<Estimate>)
    ensures r.Some? <==> Predicted(entries, target).Some?
    ensures r.Some? ==> r.value == Wrapped(Predicted(entries, target).value)
  {
    var deques, rem := FillDeques(entries);
    var bound := Wrap32(|entries|);
    var position := 0;
    ghost var count := 0;
    for iteration := 1 to bound + 1
      invariant Stand(entries, rem, deques) && position == Wrap32(count)
      invariant Predicted(entries, target) == Promoted(Rows(entries, rem), 4, iteration, bound, count, target)
    {
      var found;
      found, deques, rem, position, count :=
        SimulateIteration(entries, target, deques, rem, iteration, bound, position, count);
      if found {
        return Some(Estimate(position, iteration));
      }
    }
    return None;
  }

  function Wrapped(e: Estimate): Estimate {
    e.(position := Wrap32(e.position))
  }

  /** Below 2^32 rows the prediction needs no more than 32 bits. */
  lemma PredictedFits(entries: seq<Entry>, target: int)
    requires |entries| < 0x1_0000_0000 && Predicted(entries, target).Some?
    ensures Wrapped(Predicted(entries, target).value) == Predicted(entries, target).value
  {
    PositionWithinQueue(entries, 4, 1, Wrap32(|entries|), 0, target);
  }

  /**
    `drain_estimate`: for every snapshot and target, exactly the pick order and the
    iteration at which the promoter, run over and over on those rows, promotes the
    target. (Past 2^32 rows the position wraps, as the source's counter does.)
   */
  method Simulate(entries: seq<Entry>, target: int) returns (r: Option<Estimate>)
    ensures |entries| < 0x1_0000_0000 ==> r == Predicted(entries, target)
    ensures r.Some? <==> Predicted(entries, target).Some?
    ensures r.Some? ==> r.value == Wrapped(Predicted(entries, target).value)
  {
    r := Search(entries, target);
    if |entries| < 0x1_0000_0000 && r.Some? {
      PredictedFits(entries, target);
    }
  }
}
