/**
  Batched storage reads: one answer for many keys, in whatever order the node chose to
  list them, matched back to the keys that were asked for.
 */
module BatchRead {
  import opened Prelude

  type Byte = b: nat | b < 256
  type Bytes = seq<Byte>

  datatype Change = Change(key: Bytes, value: Option<Bytes>)

  datatype ChangeSet = ChangeSet(block: Hash, changes: seq<Change>)

  type Hash = nat

  datatype Fault =
    | ChangeSetCount(count: nat)
    | BlockMismatch(want: Hash, got: Hash)
    | UnknownKey
    | DuplicateKey
    | MissingKeys(count: nat)
    | UndecodableValue
    | ValueCount(names: nat, values: nat)

  // ---- What a well-formed answer is ----

  predicate Distinct<T(==)>(s: seq<T>) {
    forall i, j :: 0 <= i < j < |s| ==> s[i] != s[j]
  }

  function KeysOf(cs: seq<Change>): seq<Bytes> {
    seq(|cs|, i requires 0 <= i < |cs| => cs[i].key)
  }

  /** The requested keys are duplicate-free and the answer lists each of them once. */
  predicate Exact(keys: seq<Bytes>, cs: seq<Change>) {
    Distinct(keys) && multiset(KeysOf(cs)) == multiset(keys)
  }

  /** Every value sits at the position of the key it was listed for. */
  predicate Positioned(keys: seq<Bytes>, cs: seq<Change>, values: seq<Option<Bytes>>) {
    && |values| == |keys|
    && forall i, j :: 0 <= i < |keys| && 0 <= j < |cs| && keys[i] == cs[j].key ==> values[i] == cs[j].value
  }

  predicate Repeats(cs: seq<Change>, j: nat)
    requires j < |cs|
  {
    exists i :: 0 <= i < j && cs[i].key == cs[j].key
  }

  /** The changes before `n` name requested keys, each for the first time. */
  predicate FitsUpTo(keys: seq<Bytes>, cs: seq<Change>, n: nat)
    requires n <= |cs|
  {
    forall j :: 0 <= j < n ==> cs[j].key in keys && !Repeats(cs, j)
  }

  lemma {:induction false} DistinctCounts<T>(s: seq<T>, x: T)
    requires Distinct(s)
    ensures multiset(s)[x] == if x in s then 1 else 0
  {
    if s != [] {
      var init := s[..|s| - 1];
      DistinctCounts(init, x);
      assert s == init + [s[|s| - 1]];
    }
  }

  lemma CountsAreDistinct<T>(s: seq<T>)
    requires forall x :: x in s ==> multiset(s)[x] <= 1
    ensures Distinct(s)
  {
    forall i, j | 0 <= i < j < |s| ensures s[i] != s[j] {
      assert s == s[..j] + s[j..];
      assert s[..j][i] in multiset(s[..j]) && s[j..][0] in multiset(s[j..]);
      assert s[i] in s;
    }
  }

  lemma SubsetOfSameSize<T>(a: multiset<T>, b: multiset<T>)
    requires a <= b && |a| == |b|
    ensures a == b
  {
    assert b == a + (b - a);
  }

  /** An answer is exact when nothing in it is foreign or repeated and it is as long as
      the request: no separate look for duplicates in the request is needed. */
  lemma ExactByCounting(keys: seq<Bytes>, cs: seq<Change>)
    ensures Exact(keys, cs) <==> FitsUpTo(keys, cs, |cs|) && |cs| == |keys|
  {
    var named := KeysOf(cs);
    if FitsUpTo(keys, cs, |cs|) && |cs| == |keys| {
      assert Distinct(named) by {
        forall i, j | 0 <= i < j < |named| ensures named[i] != named[j] {
          assert !Repeats(cs, j) && cs[i].key == named[i];
        }
      }
      forall x | x in named ensures multiset(named)[x] <= multiset(keys)[x] {
        DistinctCounts(named, x);
        var j :| 0 <= j < |named| && named[j] == x;
        assert cs[j].key == x && x in multiset(keys);
      }
      SubsetOfSameSize(multiset(named), multiset(keys));
      forall x | x in keys ensures multiset(keys)[x] <= 1 {
        DistinctCounts(named, x);
      }
      CountsAreDistinct(keys);
    }
    if Exact(keys, cs) {
      assert |multiset(named)| == |multiset(keys)|;
      forall x | x in named ensures multiset(named)[x] <= 1 && x in keys {
        assert x in multiset(named) && x in multiset(keys);
        DistinctCounts(keys, x);
      }
      CountsAreDistinct(named);
      forall j | 0 <= j < |cs| ensures cs[j].key in keys && !Repeats(cs, j) {
        assert named[j] in named;
        forall i | 0 <= i < j ensures cs[i].key != cs[j].key {
          assert named[i] != named[j];
        }
      }
    }
  }

  /** Whatever order the node lists the changes in, the values come out the same. */
  lemma OrderDoesNotMatter(keys: seq<Bytes>, cs: seq<Change>, ds: seq<Change>, v: seq<Option<Bytes>>, w: seq<Option<Bytes>>)
    requires multiset(cs) == multiset(ds) && Exact(keys, cs)
    requires Positioned(keys, cs, v) && Positioned(keys, ds, w)
    ensures v == w
  {
    forall i | 0 <= i < |keys| ensures v[i] == w[i] {
      assert keys[i] in multiset(KeysOf(cs)) by {
        assert keys[i] in multiset(keys);
      }
      var j :| 0 <= j < |cs| && KeysOf(cs)[j] == keys[i];
      assert cs[j] in multiset(ds);
      var k :| 0 <= k < |ds| && ds[k] == cs[j];
    }
  }

  // ---- Reading the answer ----

  function Unanswered(answered: seq<bool>): nat {
    if answered == [] then 0 else Unanswered(answered[..|answered| - 1]) + (if answered[|answered| - 1] then 0 else 1)
  }

  lemma {:induction false} AnswerOne(answered: seq<bool>, i: nat)
    requires i < |answered| && !answered[i]
    ensures Unanswered(answered[i := true]) == Unanswered(answered) - 1
    decreases |answered|
  {
    var init := answered[..|answered| - 1];
    if i == |answered| - 1 {
      assert answered[i := true][..|answered| - 1] == init;
    } else {
      AnswerOne(init, i);
      assert answered[i := true][..|answered| - 1] == init[i := true];
    }
  }

  lemma {:induction false} NoneAnswered(answered: seq<bool>)
    requires forall i :: 0 <= i < |answered| ==> !answered[i]
    ensures Unanswered(answered) == |answered|
  {
    if answered != [] {
      NoneAnswered(answered[..|answered| - 1]);
    }
  }

  /** Where each key was requested; a repeated key keeps its last position. */
  ghost predicate IsIndex(keys: seq<Bytes>, index: map<Bytes, nat>) {
    && (forall k :: k in index <==> k in keys)
    && (forall k :: k in index ==> index[k] < |keys| && keys[index[k]] == k)
  }

  method IndexKeys(keys: seq<Bytes>) returns (index: map<Bytes, nat>)
    ensures IsIndex(keys, index)
  {
    index := map[];
    for i := 0 to |keys|
      invariant IsIndex(keys[..i], index)
    {
      index := index[keys[i] := i];
      assert keys[..i + 1] == keys[..i] + [keys[i]];
    }
  }

  /** The changes before `n` have been filed and nothing else has. */
  ghost predicate Filed(index: map<Bytes, nat>, cs: seq<Change>, n: nat, answered: seq<bool>, values: seq<Option<Bytes>>)
    requires n <= |cs|
  {
    && |values| == |answered|
    && (forall j :: 0 <= j < n ==>
          cs[j].key in index && index[cs[j].key] < |answered| && answered[index[cs[j].key]] && values[index[cs[j].key]] == cs[j].value)
    && (forall i :: 0 <= i < |answered| && answered[i] ==> exists j :: 0 <= j < n && cs[j].key in index && index[cs[j].key] == i)
  }

  /** Why a single change set for the right block is refused: what goes wrong first. */
  ghost predicate Refused(keys: seq<Bytes>, cs: seq<Change>, e: Fault) {
    if FitsUpTo(keys, cs, |cs|) then |cs| < |keys| && e == MissingKeys(|keys| - |cs|)
    else exists j :: 0 <= j < |cs| && FitsUpTo(keys, cs, j)
                     && (if cs[j].key !in keys then e == UnknownKey else Repeats(cs, j) && e == DuplicateKey)
  }

  /** The state of the read after the first `n` changes. */
  ghost predicate Reading(keys: seq<Bytes>, index: map<Bytes, nat>, cs: seq<Change>, n: nat, answered: seq<bool>,
      values: seq<Option<Bytes>>) {
    && n <= |cs| && FitsUpTo(keys, cs, n) && |answered| == |keys|
    && Filed(index, cs, n, answered, values) && Unanswered(answered) == |keys| - n
  }

  lemma ReadOne(keys: seq<Bytes>, index: map<Bytes, nat>, cs: seq<Change>, n: nat, answered: seq<bool>,
      values: seq<Option<Bytes>>)
    requires IsIndex(keys, index) && Reading(keys, index, cs, n, answered, values)
    requires n < |cs| && cs[n].key in index && !answered[index[cs[n].key]]
    ensures Reading(keys, index, cs, n + 1, answered[index[cs[n].key] := true], values[index[cs[n].key] := cs[n].value])
  {
    FileOne(index, cs, n, answered, values);
    AnswerOne(answered, index[cs[n].key]);
  }

  lemma StopAt(keys: seq<Bytes>, index: map<Bytes, nat>, cs: seq<Change>, n: nat, answered: seq<bool>,
      values: seq<Option<Bytes>>)
    requires IsIndex(keys, index) && Reading(keys, index, cs, n, answered, values) && n < |cs|
    ensures cs[n].key !in index ==> Refused(keys, cs, UnknownKey)
    ensures cs[n].key in index && answered[index[cs[n].key]] ==> Refused(keys, cs, DuplicateKey)
  {
    if cs[n].key in index && answered[index[cs[n].key]] {
      assert Repeats(cs, n);
    }
  }

  /** Every change fits and has been filed, and every key was answered. */
  ghost predicate AllFiled(keys: seq<Bytes>, index: map<Bytes, nat>, cs: seq<Change>, values: seq<Option<Bytes>>) {
    && FitsUpTo(keys, cs, |cs|) && |cs| == |keys| && |values| == |keys|
    && forall j :: 0 <= j < |cs| ==> cs[j].key in index && index[cs[j].key] < |values| && values[index[cs[j].key]] == cs[j].value
  }

  lemma Finish(keys: seq<Bytes>, index: map<Bytes, nat>, cs: seq<Change>, answered: seq<bool>, values: seq<Option<Bytes>>)
    requires IsIndex(keys, index) && Reading(keys, index, cs, |cs|, answered, values)
    ensures Unanswered(answered) == 0 ==> AllFiled(keys, index, cs, values)
    ensures Unanswered(answered) > 0 ==> Refused(keys, cs, MissingKeys(Unanswered(answered)))
  {
  }

  /** Files the next change, or says why it cannot be. */
  method FileNext(keys: seq<Bytes>, index: map<Bytes, nat>, cs: seq<Change>, n: nat, answered: array<bool>, values: array<Option<Bytes>>)
    returns (fault: Option<Fault>)
    requires IsIndex(keys, index) && n < |cs| && Reading(keys, index, cs, n, answered[..], values[..])
    modifies answered, values
    ensures fault.None? ==> Reading(keys, index, cs, n + 1, answered[..], values[..])
    ensures fault.Some? ==> Refused(keys, cs, fault.value)
  {
    StopAt(keys, index, cs, n, answered[..], values[..]);
    if cs[n].key !in index {
      return Some(UnknownKey);
    }
    var i := index[cs[n].key];
    if answered[i] {
      return Some(DuplicateKey);
    }
    ReadOne(keys, index, cs, n, answered[..], values[..]);
    FileAt(answered, values, i, cs[n].value);
    return None;
  }

  /** Reads one change set into positions, refusing at the first foreign or repeated key. */
  method File(keys: seq<Bytes>, index: map<Bytes, nat>, cs: seq<Change>) returns (r: Result<seq<Option<Bytes>>, Fault>)
    requires IsIndex(keys, index)
    ensures r.Ok? ==> AllFiled(keys, index, cs, r.value)
    ensures r.Err? ==> Refused(keys, cs, r.error)
  {
    var answered := new bool[|keys|](_ => false);
    var values := new Option<Bytes>[|keys|](_ => None);
    NoneAnswered(answered[..]);
    var n := 0;
    while n < |cs|
      invariant 0 <= n <= |cs| && Reading(keys, index, cs, n, answered[..], values[..])
    {
      var fault := FileNext(keys, index, cs, n, answered, values);
      if fault.Some? {
        return Err(fault.value);
      }
      n := n + 1;
    }
    Finish(keys, index, cs, answered[..], values[..]);
    var unanswered := CountUnanswered(answered[..]);
    if unanswered > 0 {
      return Err(MissingKeys(unanswered));
    }
    return Ok(values[..]);
  }

  /** `answered[i]` turns true, and `values[i]` takes the value. */
  method FileAt(answered: array<bool>, values: array<Option<Bytes>>, i: nat, value: Option<Bytes>)
    requires i < answered.Length == values.Length
    modifies answered, values
    ensures answered[..] == old(answered[..])[i := true] && values[..] == old(values[..])[i := value]
  {
    answered[i] := true;
    values[i] := value;
  }

  lemma FileOne(index: map<Bytes, nat>, cs: seq<Change>, n: nat, answered: seq<bool>, values: seq<Option<Bytes>>)
    requires n < |cs| && Filed(index, cs, n, answered, values)
    requires cs[n].key in index && index[cs[n].key] < |answered| && !answered[index[cs[n].key]]
    ensures !Repeats(cs, n)
    ensures Filed(index, cs, n + 1, answered[index[cs[n].key] := true], values[index[cs[n].key] := cs[n].value])
  {
    var at := index[cs[n].key];
    var now := answered[at := true];
    forall i | 0 <= i < |now| && now[i] ensures exists j :: 0 <= j < n + 1 && cs[j].key in index && index[cs[j].key] == i {
      if i != at {
        var j :| 0 <= j < n && cs[j].key in index && index[cs[j].key] == i;
      } else {
        assert cs[n].key in index && index[cs[n].key] == i;
      }
    }
  }

  method CountUnanswered(answered: seq<bool>) returns (n: nat)
    ensures n == Unanswered(answered)
  {
    n := 0;
    for i := 0 to |answered|
      invariant n == Unanswered(answered[..i])
    {
      assert answered[..i + 1][..i] == answered[..i];
      if !answered[i] {
        n := n + 1;
      }
    }
    assert answered[..|answered|] == answered;
  }

  /** A batched read succeeds exactly when there is one change set, for the requested
      block, that answers duplicate-free keys exactly; each value is then at its key's
      position. Every other answer is refused with the reason that comes first. */
  method ValuesFromChanges(keys: seq<Bytes>, want: Hash, sets: seq<ChangeSet>)
    returns (r: Result<seq<Option<Bytes>>, Fault>)
    ensures r.Ok? <==> |sets| == 1 && sets[0].block == want && Exact(keys, sets[0].changes)
    ensures r.Ok? ==> Positioned(keys, sets[0].changes, r.value)
    ensures r == Err(ChangeSetCount(|sets|)) <==> |sets| != 1
    ensures |sets| == 1 ==> (r == Err(BlockMismatch(want, sets[0].block)) <==> sets[0].block != want)
    ensures r.Err? && |sets| == 1 && sets[0].block == want ==> Refused(keys, sets[0].changes, r.error)
  {
    if |sets| != 1 {
      return Err(ChangeSetCount(|sets|));
    }
    if sets[0].block != want {
      return Err(BlockMismatch(want, sets[0].block));
    }
    var index := IndexKeys(keys);
    r := File(keys, index, sets[0].changes);
    ExactByCounting(keys, sets[0].changes);
  }

  // ---- What callers make of the values ----

  method PresentOf(values: seq<Option<Bytes>>) returns (present: set<nat>)
    ensures forall i: nat :: i in present <==> i < |values| && values[i].Some?
  {
    present := {};
    for i := 0 to |values|
      invariant forall k: nat :: k in present <==> k < i && values[k].Some?
    {
      if values[i].Some? {
        present := present + {i};
      }
    }
  }

  /** An account is exactly 32 bytes, with nothing after it. */
  predicate IsOwner(bytes: Bytes) {
    |bytes| == 32
  }

  /** The owner map holds exactly the names whose value is present, each with its own
      value, and is refused as soon as one present value is not an account. `names` lists
      an ordered set. */
  method OwnersByName(names: seq<string>, values: seq<Option<Bytes>>) returns (r: Result<map<string, Bytes>, Fault>)
    requires Distinct(names)
    ensures r.Ok? <==> |names| == |values| && forall i :: 0 <= i < |values| && values[i].Some? ==> IsOwner(values[i].value)
    ensures |names| != |values| ==> r == Err(ValueCount(|names|, |values|))
    ensures |names| == |values| && r.Err? ==> r.error == UndecodableValue
    ensures r.Ok? ==> forall i :: 0 <= i < |names| ==>
      (if values[i].Some? then names[i] in r.value && r.value[names[i]] == values[i].value else names[i] !in r.value)
    ensures r.Ok? ==> forall name :: name in r.value ==> name in names
  {
    if |names| != |values| {
      return Err(ValueCount(|names|, |values|));
    }
    var owners: map<string, Bytes> := map[];
    for n := 0 to |names|
      invariant forall i :: 0 <= i < n && values[i].Some? ==> IsOwner(values[i].value)
      invariant forall i :: 0 <= i < n ==>
        (if values[i].Some? then names[i] in owners && owners[names[i]] == values[i].value else names[i] !in owners)
      invariant forall name :: name in owners ==> name in names[..n]
    {
      if values[n].Some? {
        if !IsOwner(values[n].value) {
          return Err(UndecodableValue);
        }
        owners := owners[names[n] := values[n].value];
      }
    }
    return Ok(owners);
  }
}
